/**
 * JavaScript values and the ECMAScript conversions the two wizards rely on:
 * truthiness, `String(v)`, `Number(v)`, `parseFloat`, `parseInt` and `trim`.
 *
 * A JS number is modelled as an exact count of hundredths (`Num(1234)` is
 * 12.34): every amount of money in the model is a whole number of cents and
 * every count is a whole number, so this representation is exact for them.
 */
module Js {

  datatype Option<T> = None | Some(value: T)

  datatype JsValue =
    | Undefined
    | Null
    | Bool(b: bool)
    | Num(hundredths: int)
    | NaN
    | Str(s: string)
    | Obj(fields: map<string, JsValue>)

  /** ToBoolean: the values an `if` or `||` treats as false. */
  predicate Truthy(v: JsValue) {
    match v
    case Undefined => false
    case Null => false
    case Bool(b) => b
    case Num(h) => h != 0
    case NaN => false
    case Str(s) => s != ""
    case Obj(_) => true
  }

  /** `v || fallback` */
  function Or(v: JsValue, fallback: JsValue): JsValue {
    if Truthy(v) then v else fallback
  }

  /** `m[key]` on a plain object: an absent key reads as undefined. */
  function Lookup(m: map<string, JsValue>, key: string): JsValue {
    if key in m then m[key] else Undefined
  }

  /** `v?.name` for a data field: only objects carry fields. */
  function Prop(v: JsValue, name: string): JsValue {
    match v
    case Obj(f) => Lookup(f, name)
    case _ => Undefined
  }

  /** The own fields copied by an object spread `{...v}`. */
  function SpreadFields(v: JsValue): map<string, JsValue> {
    match v
    case Obj(f) => f
    case _ => map[]
  }

  /** `{ ...a, ...b }` on plain objects: `b`'s keys win. */
  function Spread<V>(a: map<string, V>, b: map<string, V>): (r: map<string, V>)
    ensures forall k :: k in r <==> k in a || k in b
    ensures forall k :: k in b ==> r[k] == b[k]
    ensures forall k :: k in a && k !in b ==> r[k] == a[k]
  {
    a + b
  }

  /** A whole number as a JS number. */
  function Whole(n: int): JsValue {
    Num(n * 100)
  }

  // ---------------------------------------------------------------- digits

  /** `\d` in a JS regular expression: the ASCII digits only. */
  predicate IsDigit(c: char) {
    '0' <= c <= '9'
  }

  predicate AllDigits(s: string) {
    forall i :: 0 <= i < |s| ==> IsDigit(s[i])
  }

  function DigitChar(d: nat): char
    requires d < 10
  {
    ('0' as int + d) as char
  }

  function DigitValue(c: char): nat
    requires IsDigit(c)
  {
    c as int - '0' as int
  }

  /** The value of a string of decimal digits. */
  function DigitsValue(s: string): nat
    requires AllDigits(s)
  {
    if s == [] then 0 else DigitsValue(s[..|s| - 1]) * 10 + DigitValue(s[|s| - 1])
  }

  /** The decimal digits of `n`, without leading zeros. */
  function NatToString(n: nat): (r: string)
    ensures |r| > 0 && AllDigits(r)
    ensures n < 10 <==> |r| == 1
  {
    if n < 10 then [DigitChar(n)] else NatToString(n / 10) + [DigitChar(n % 10)]
  }

  lemma {:induction false} NatToStringValue(n: nat)
    ensures DigitsValue(NatToString(n)) == n
  {
    if n >= 10 {
      NatToStringValue(n / 10);
      var r := NatToString(n);
      assert r[..|r| - 1] == NatToString(n / 10);
    }
  }

  /** The number of leading digits of `s`. */
  function DigitPrefixLength(s: string): (n: nat)
    ensures n <= |s|
    ensures AllDigits(s[..n])
    ensures n < |s| ==> !IsDigit(s[n])
  {
    if s == [] || !IsDigit(s[0]) then 0
    else
      var k := DigitPrefixLength(s[1..]);
      assert s[..k + 1] == [s[0]] + s[1..][..k];
      k + 1
  }

  lemma {:induction false} DigitPrefixOfDigits(d: string, rest: string)
    requires AllDigits(d)
    requires rest == [] || !IsDigit(rest[0])
    ensures DigitPrefixLength(d + rest) == |d|
  {
    if d != [] {
      assert (d + rest)[1..] == d[1..] + rest;
      DigitPrefixOfDigits(d[1..], rest);
    } else {
      assert d + rest == rest;
    }
  }

  // ------------------------------------------------------------ whitespace

  /** `\s` in a JS regular expression, and what `trim` removes. */
  predicate IsSpace(c: char) {
    || c == '\t' || c == '\n' || c == '\U{000B}' || c == '\U{000C}' || c == '\r'
    || c == ' ' || c == '\U{00A0}' || c == '\U{1680}'
    || ('\U{2000}' <= c <= '\U{200A}')
    || c == '\U{2028}' || c == '\U{2029}' || c == '\U{202F}' || c == '\U{205F}'
    || c == '\U{3000}' || c == '\U{FEFF}'
  }

  function TrimStart(s: string): (r: string)
    ensures |r| <= |s|
    ensures r == s[|s| - |r|..]
    ensures r != [] ==> !IsSpace(r[0])
  {
    if s != [] && IsSpace(s[0]) then TrimStart(s[1..]) else s
  }

  function TrimEnd(s: string): (r: string)
    ensures |r| <= |s|
    ensures r == s[..|r|]
    ensures r != [] ==> !IsSpace(r[|r| - 1])
  {
    if s != [] && IsSpace(s[|s| - 1]) then TrimEnd(s[..|s| - 1]) else s
  }

  /** `s.trim()` */
  function Trim(s: string): string {
    TrimEnd(TrimStart(s))
  }

  // ------------------------------------------------------- number to string

  /** The text `String(x)` gives for the fractional hundredths `f` of `x`. */
  function FractionText(f: nat): string
    requires f < 100
  {
    if f == 0 then ""
    else if f % 10 == 0 then ['.', DigitChar(f / 10)]
    else ['.', DigitChar(f / 10), DigitChar(f % 10)]
  }

  /** `String(x)` for the number of `h` hundredths: no trailing zeros. */
  function NumberToString(h: int): string {
    var m: nat := if h < 0 then -h else h;
    (if h < 0 then "-" else "") + NatToString(m / 100) + FractionText(m % 100)
  }

  /** `String(v)` */
  function ToStr(v: JsValue): string {
    match v
    case Undefined => "undefined"
    case Null => "null"
    case Bool(b) => if b then "true" else "false"
    case Num(h) => NumberToString(h)
    case NaN => "NaN"
    case Str(s) => s
    case Obj(_) => "[object Object]"
  }

  // ------------------------------------------------------- string to number

  function Signed(negative: bool, magnitude: nat): int {
    if negative then -(magnitude as int) else magnitude
  }

  /** Hundredths of `0.f`, rounded half up on the third digit. */
  function FractionHundredths(f: string): nat
    requires AllDigits(f)
  {
    var d1 := if |f| > 0 then DigitValue(f[0]) else 0;
    var d2 := if |f| > 1 then DigitValue(f[1]) else 0;
    var up := if |f| > 2 && f[2] >= '5' then 1 else 0;
    d1 * 10 + d2 + up
  }

  /** Hundredths of the decimal `i.f`. */
  function DecimalHundredths(i: string, f: string): nat
    requires AllDigits(i) && AllDigits(f)
  {
    DigitsValue(i) * 100 + FractionHundredths(f)
  }

  predicate HasSign(t: string) {
    |t| > 0 && (t[0] == '-' || t[0] == '+')
  }

  function Unsigned(t: string): string {
    if HasSign(t) then t[1..] else t
  }

  /**
   * `parseFloat(s)`: the longest prefix of the form `digits[.digits]` after
   * leading white space and an optional sign; `None` is NaN.
   */
  function ParseFloat(s: string): Option<int> {
    var t := TrimStart(s);
    var u := Unsigned(t);
    var a := DigitPrefixLength(u);
    var frac := if a < |u| && u[a] == '.' then u[a + 1..][..DigitPrefixLength(u[a + 1..])] else "";
    if a == 0 && frac == "" then None
    else Some(Signed(|t| > 0 && t[0] == '-', DecimalHundredths(u[..a], frac)))
  }

  /** `parseInt(s, 10)`: the leading digits after white space and a sign. */
  function ParseInt(s: string): Option<int> {
    var t := TrimStart(s);
    var u := Unsigned(t);
    var a := DigitPrefixLength(u);
    if a == 0 then None else Some(Signed(|t| > 0 && t[0] == '-', DigitsValue(u[..a])))
  }

  /** The value of `u` when the whole of it is a decimal literal `digits[.digits]` or `.digits`. */
  function UnsignedDecimal(u: string): Option<nat> {
    var a := DigitPrefixLength(u);
    if a == |u| && a > 0 then Some(DigitsValue(u) * 100)
    else if a < |u| && u[a] == '.' && DigitPrefixLength(u[a + 1..]) == |u| - a - 1 && (a > 0 || a + 1 < |u|)
    then Some(DecimalHundredths(u[..a], u[a + 1..]))
    else None
  }

  /** `Number(s)`: the whole trimmed string must be a decimal literal; blank is 0. */
  function StringToNumber(s: string): JsValue {
    var t := Trim(s);
    if t == "" then Num(0)
    else
      match UnsignedDecimal(Unsigned(t))
      case Some(v) => Num(Signed(t[0] == '-', v))
      case None => NaN
  }

  /** `Number(v)` (also unary `+v`). */
  function ToNumber(v: JsValue): (r: JsValue)
    ensures r.Num? || r.NaN?
    ensures v.Num? || v.NaN? ==> r == v
  {
    match v
    case Undefined => NaN
    case Null => Num(0)
    case Bool(b) => Num(if b then 100 else 0)
    case Num(_) => v
    case NaN => NaN
    case Str(s) => StringToNumber(s)
    case Obj(_) => NaN
  }

  // ------------------------------------------------------------ round trips

  /** `Number(s)` of blank text is 0, and of a run of digits is their value. */
  lemma StringToNumberOfText(s: string)
    ensures AllSpace(s) ==> StringToNumber(s) == Num(0)
    ensures s != [] && AllDigits(s) ==> StringToNumber(s) == Num(DigitsValue(s) * 100)
  {
    TrimEmpty(s);
    if s != [] && AllDigits(s) {
      DigitsLiteral(s);
    }
  }

  lemma DigitsLiteral(s: string)
    requires s != [] && AllDigits(s)
    ensures Trim(s) == s && Unsigned(s) == s && UnsignedDecimal(s) == Some(DigitsValue(s) * 100)
  {
    assert DigitPrefixLength(s) == |s| by {
      DigitPrefixOfDigits(s, []);
      assert s + [] == s;
    }
    PlainText(s);
  }

  lemma TrimUnchanged(s: string)
    requires s != [] && !IsSpace(s[0]) && !IsSpace(s[|s| - 1])
    ensures Trim(s) == s
  {
    assert TrimStart(s) == s;
  }

  /** Nothing but white space (or nothing at all). */
  predicate AllSpace(s: string) {
    forall i :: 0 <= i < |s| ==> IsSpace(s[i])
  }

  /** `s.trim()` is empty exactly when `s` is all white space. */
  lemma TrimEmpty(s: string)
    ensures Trim(s) == "" <==> AllSpace(s)
  {
    var t := TrimStart(s);
    TrimStartEmpty(s);
    TrimEndEmpty(t);
    if t != [] {
      assert !IsSpace(t[0]);
    }
  }

  lemma {:induction false} TrimStartEmpty(s: string)
    ensures TrimStart(s) == [] <==> AllSpace(s)
  {
    if s != [] && IsSpace(s[0]) {
      TrimStartEmpty(s[1..]);
      assert forall i :: 1 <= i < |s| ==> s[i] == s[1..][i - 1];
    }
  }

  lemma {:induction false} TrimEndEmpty(s: string)
    ensures TrimEnd(s) == [] <==> AllSpace(s)
  {
    if s != [] && IsSpace(s[|s| - 1]) {
      TrimEndEmpty(s[..|s| - 1]);
      assert forall i :: 0 <= i < |s| - 1 ==> s[i] == s[..|s| - 1][i];
    }
  }

  /** `String(x)` of a number starts with `-` or a digit, so it never trims to nothing. */
  lemma NumberTextNotBlank(h: int)
    ensures NumberToString(h) != [] && !IsSpace(NumberToString(h)[0])
  {
    var m: nat := if h < 0 then -h else h;
    var u := NatToString(m / 100) + FractionText(m % 100);
    var s := NumberToString(h);
    assert u != [] && IsDigit(u[0]) by {
      MagnitudeText(m);
    }
    NumberTextShape(h, m, u, s);
    assert s[0] == '-' || s[0] == u[0];
  }

  /** `Number` of the unsigned decimal made of the digits `d` and, when `fd` is not empty, `.` and `fd`. */
  lemma UnsignedDecimalOf(d: string, fd: string)
    requires d != [] && AllDigits(d) && AllDigits(fd)
    ensures UnsignedDecimal(d + (if fd == [] then [] else ['.'] + fd)) == Some(DecimalHundredths(d, fd))
  {
    var u := d + (if fd == [] then [] else ['.'] + fd);
    DigitPrefixOfDigits(d, if fd == [] then [] else ['.'] + fd);
    assert u[..|d|] == d;
    if fd == [] {
      assert u == d;
    } else {
      assert u[|d|] == '.';
      assert u[|d| + 1..] == fd;
      DigitPrefixOfDigits(fd, []);
      assert fd + [] == fd;
    }
  }

  /** The digits after the point in `FractionText(f)` denote `f` hundredths again. */
  lemma FractionTextValue(f: nat)
    requires f < 100
    ensures FractionText(f) == [] <==> f == 0
    ensures f != 0 ==>
              FractionText(f)[0] == '.' && AllDigits(FractionText(f)[1..]) &&
              FractionHundredths(FractionText(f)[1..]) == f
  {
    if f != 0 {
      var fd := FractionText(f)[1..];
      assert DigitValue(DigitChar(f / 10)) == f / 10;
      assert DigitValue(DigitChar(f % 10)) == f % 10;
      if f % 10 == 0 {
        assert fd == [DigitChar(f / 10)];
      } else {
        assert fd == [DigitChar(f / 10), DigitChar(f % 10)];
      }
    }
  }

  /** `Number(u)` of an unsigned decimal literal `u` is its value. */
  lemma StringToNumberOfLiteral(u: string, v: nat)
    requires u != [] && IsDigit(u[0]) && IsDigit(u[|u| - 1])
    requires UnsignedDecimal(u) == Some(v)
    ensures StringToNumber(u) == Num(v)
  {
    PlainText(u);
    StringToNumberOfTrimmed(u, v);
  }

  /** `Number(s)` of a minus sign followed by an unsigned decimal literal is its value negated. */
  lemma StringToNumberOfNegative(s: string, v: nat)
    requires |s| >= 2 && s[0] == '-' && IsDigit(s[|s| - 1])
    requires UnsignedDecimal(s[1..]) == Some(v)
    ensures StringToNumber(s) == Num(-(v as int))
  {
    TrimUnchanged(s);
    assert HasSign(s);
    StringToNumberOfTrimmed(s, v);
  }

  /** A literal starting and ending with a digit has no blanks to trim and no sign. */
  lemma PlainText(u: string)
    requires u != [] && IsDigit(u[0]) && IsDigit(u[|u| - 1])
    ensures Trim(u) == u && Unsigned(u) == u
  {
    TrimUnchanged(u);
  }

  lemma StringToNumberOfTrimmed(s: string, v: nat)
    requires s != "" && Trim(s) == s && UnsignedDecimal(Unsigned(s)) == Some(v)
    ensures StringToNumber(s) == Num(Signed(s[0] == '-', v))
  {
  }

  /** `Number(String(x)) === x` for every number the model represents. */
  lemma NumberToStringRoundTrip(h: int)
    ensures StringToNumber(NumberToString(h)) == Num(h)
  {
    var m: nat := if h < 0 then -h else h;
    var u := NatToString(m / 100) + FractionText(m % 100);
    var s := NumberToString(h);
    MagnitudeText(m);
    NumberTextShape(h, m, u, s);
    StringToNumberOfSigned(h, m, u, s);
  }

  /** `String(x)` is the magnitude's text, after a minus sign when `x` is negative. */
  lemma NumberTextShape(h: int, m: nat, u: string, s: string)
    requires m == (if h < 0 then -h else h) && u == NatToString(m / 100) + FractionText(m % 100)
    requires s == NumberToString(h) && u != []
    ensures h < 0 ==> |s| >= 2 && s[0] == '-' && s[1..] == u && s[|s| - 1] == u[|u| - 1]
    ensures h >= 0 ==> s == u
  {
    if h < 0 {
      assert s == "-" + u;
    } else {
      assert "" + u == u;
    }
  }

  lemma StringToNumberOfSigned(h: int, m: nat, u: string, s: string)
    requires m == (if h < 0 then -h else h)
    requires u != [] && IsDigit(u[0]) && IsDigit(u[|u| - 1]) && UnsignedDecimal(u) == Some(m)
    requires h < 0 ==> |s| >= 2 && s[0] == '-' && s[1..] == u && s[|s| - 1] == u[|u| - 1]
    requires h >= 0 ==> s == u
    ensures StringToNumber(s) == Num(h)
  {
    if h < 0 {
      StringToNumberOfNegative(s, m);
    } else {
      StringToNumberOfLiteral(u, m);
    }
  }

  /** The text of a magnitude is an unsigned decimal literal denoting it. */
  lemma MagnitudeText(m: nat)
    ensures var u := NatToString(m / 100) + FractionText(m % 100);
      u != [] && IsDigit(u[0]) && IsDigit(u[|u| - 1]) && UnsignedDecimal(u) == Some(m)
  {
    var q, f := m / 100, m % 100;
    var d := NatToString(q);
    var fd := if f == 0 then [] else FractionText(f)[1..];
    var u := d + (if fd == [] then [] else ['.'] + fd);
    assert FractionText(f) == (if fd == [] then [] else ['.'] + fd)
        && AllDigits(fd) && FractionHundredths(fd) == f by {
      FractionTextValue(f);
    }
    assert DecimalHundredths(d, fd) == m by {
      NatToStringValue(q);
    }
    assert UnsignedDecimal(u) == Some(m) by {
      UnsignedDecimalOf(d, fd);
    }
    assert u[0] == d[0] && IsDigit(u[|u| - 1]) by {
      assert u[|u| - 1] == (if fd == [] then d[|d| - 1] else fd[|fd| - 1]);
    }
  }

  /** `parseInt(String(n), 10) === n` for a whole number `n`. */
  lemma ParseIntOfWhole(n: int)
    ensures ParseInt(ToStr(Whole(n))) == Some(n)
  {
    var m: nat := if n < 0 then -n else n;
    var s := ToStr(Whole(n));
    var d := NatToString(m);
    WholeTextShape(n, m, d, s);
    NatToStringValue(m);
    ParseIntOfSigned(n, m, d, s);
  }

  /** `String(n)` of a whole number is its digits, after a minus sign when `n` is negative. */
  lemma WholeTextShape(n: int, m: nat, d: string, s: string)
    requires m == (if n < 0 then -n else n) && d == NatToString(m) && s == ToStr(Whole(n))
    ensures n < 0 ==> |s| >= 2 && s[0] == '-' && s[1..] == d
    ensures n >= 0 ==> s == d
  {
    assert (if n * 100 < 0 then -(n * 100) else n * 100) / 100 == m;
    assert (if n * 100 < 0 then -(n * 100) else n * 100) % 100 == 0;
    if n < 0 {
      assert s == "-" + d;
    } else {
      assert s == "" + d;
    }
  }

  lemma ParseIntOfSigned(n: int, m: nat, d: string, s: string)
    requires m == (if n < 0 then -n else n) && d != [] && AllDigits(d) && DigitsValue(d) == m
    requires n < 0 ==> |s| >= 2 && s[0] == '-' && s[1..] == d
    requires n >= 0 ==> s == d
    ensures ParseInt(s) == Some(n)
  {
    assert TrimStart(s) == s by {
      assert !IsSpace(s[0]);
    }
    assert Unsigned(s) == d by {
      if n < 0 { assert HasSign(s); } else { assert !HasSign(s); }
    }
    assert DigitPrefixLength(d) == |d| && d[..|d|] == d by {
      DigitPrefixOfDigits(d, []);
      assert d + [] == d;
    }
  }

  /** `parseFloat` reads a whole unsigned decimal literal `d[.fd]`. */
  lemma ParseFloatOfDecimal(u: string, d: string, fd: string)
    requires d != [] && AllDigits(d) && AllDigits(fd)
    requires u == d + (if fd == [] then [] else ['.'] + fd)
    ensures ParseFloat(u) == Some(DecimalHundredths(d, fd))
  {
    var rest := if fd == [] then [] else ['.'] + fd;
    assert !IsSpace(u[0]) && !HasSign(u);
    assert TrimStart(u) == u;
    DigitPrefixOfDigits(d, rest);
    assert u[..|d|] == d;
    if fd == [] {
      assert u == d;
    } else {
      assert u[|d|] == '.';
      assert u[|d| + 1..] == fd;
      DigitPrefixOfDigits(fd, []);
      assert fd + [] == fd;
      assert fd[..|fd|] == fd;
    }
  }
}
