/**
 * Money helpers of the proposal wizard: the lenient currency parsers
 * (`parseMoney` in src/utils/proposalCalc.js and its copy in
 * src/components/StepApresentacao.jsx, `parseCurrency` in
 * src/components/StepServicos.jsx) and the `toFixed(2)` rounding of a
 * quotient. Amounts are integer cents.
 */
module Money {
  import opened Js

  function Abs(x: int): nat {
    if x < 0 then -x else x
  }

  /**
   * `+(num / den).toFixed(2)` with `num` in cents: the quotient rounded to
   * the nearest cent, halves away from zero as `toFixed` rounds them.
   */
  function RoundDiv(num: int, den: int): (r: int)
    requires den != 0
    ensures 2 * Abs(r * den - num) <= Abs(den)
    ensures 2 * Abs(r * den - num) == Abs(den) ==> Abs(r * den) > Abs(num)
  {
    var m := HalfUpQuotient(Abs(num), Abs(den));
    var r: int := if (num < 0) == (den < 0) then m else -(m as int);
    SignedQuotient(num, den, m, r);
    r
  }

  /** `n / d` rounded to the nearest integer, halves up. */
  function HalfUpQuotient(n: nat, d: nat): (m: nat)
    requires d > 0
    ensures 2 * Abs(m * d - n) <= d
    ensures 2 * Abs(m * d - n) == d ==> m * d > n
  {
    var m := (2 * n + d) / (2 * d);
    var rem := (2 * n + d) % (2 * d);
    assert 2 * n + d == m * (2 * d) + rem && 0 <= rem < 2 * d;
    assert 2 * (m * d - n) == d - rem;
    m
  }

  /** Restoring the signs of `num` and `den` leaves the rounding error unchanged. */
  lemma SignedQuotient(num: int, den: int, m: int, r: int)
    requires den != 0
    requires r == if (num < 0) == (den < 0) then m else -m
    requires m >= 0
    requires 2 * Abs(m * Abs(den) - Abs(num)) <= Abs(den)
    requires 2 * Abs(m * Abs(den) - Abs(num)) == Abs(den) ==> m * Abs(den) > Abs(num)
    ensures 2 * Abs(r * den - num) <= Abs(den)
    ensures 2 * Abs(r * den - num) == Abs(den) ==> Abs(r * den) > Abs(num)
  {
    var d: int := Abs(den);
    if den < 0 {
      assert den == -d;
      if num < 0 {
        assert r * den == m * (-d) == -(m * d);
      } else {
        assert r * den == (-m) * (-d) == m * d;
      }
    } else {
      assert den == d;
      if num < 0 {
        assert r * den == (-m) * d == -(m * d);
      } else {
        assert r * den == m * d;
      }
    }
  }

  // ------------------------------------------------------- lenient parsing

  /** `String(v || '')` */
  function MoneyText(v: JsValue): string {
    if Truthy(v) then ToStr(v) else ""
  }

  /** `.replace(/[^\d,]/g, '')`: keep digits and commas. */
  function KeepDigitsAndCommas(s: string): (r: string)
    ensures forall i :: 0 <= i < |r| ==> IsDigit(r[i]) || r[i] == ','
  {
    if s == [] then []
    else (if IsDigit(s[0]) || s[0] == ',' then [s[0]] else []) + KeepDigitsAndCommas(s[1..])
  }

  /** `.replace(',', '.')`: a string pattern replaces only the first comma. */
  function FirstCommaToDot(s: string): (r: string)
    ensures |r| == |s|
    ensures forall i :: 0 <= i < |r| && r[i] != s[i] ==> s[i] == ',' && r[i] == '.'
  {
    if s == [] then []
    else if s[0] == ',' then ['.'] + s[1..]
    else [s[0]] + FirstCommaToDot(s[1..])
  }

  /** `parseFloat(cleaned) || 0` on the cleaned text, in cents. */
  function ParseCleaned(s: string): int {
    match ParseFloat(FirstCommaToDot(KeepDigitsAndCommas(s)))
    case Some(h) => h
    case None => 0
  }

  /** `parseMoney(str)`: `parseFloat(String(str || '').replace(/[^\d,]/g, '').replace(',', '.')) || 0`. */
  function ParseMoney(v: JsValue): int {
    ParseCleaned(MoneyText(v))
  }

  /** `parseCurrency(value)` of the service step: the same cleaning, on a string. */
  function ParseCurrency(text: string): int {
    ParseCleaned(text)
  }

  // ---------------------------------------------------------------- lemmas

  predicate CleanChar(c: char) {
    IsDigit(c) || c == ',' || c == '.'
  }

  /** `parseFloat` of text with no sign and no white space is never negative. */
  lemma ParseFloatUnsigned(s: string)
    requires forall i :: 0 <= i < |s| ==> CleanChar(s[i])
    ensures ParseFloat(s).Some? ==> ParseFloat(s).value >= 0
  {
    assert s != [] ==> !IsSpace(s[0]);
    assert TrimStart(s) == s;
    assert !HasSign(s);
  }

  /** The cleaning strips `-`, so the parsed amount is never negative. */
  lemma ParseCleanedNonNegative(s: string)
    ensures ParseCleaned(s) >= 0
  {
    var c := FirstCommaToDot(KeepDigitsAndCommas(s));
    assert forall i :: 0 <= i < |c| ==> CleanChar(c[i]);
    ParseFloatUnsigned(c);
  }

  lemma ParseMoneyNonNegative(v: JsValue)
    ensures ParseMoney(v) >= 0
  {
    ParseCleanedNonNegative(MoneyText(v));
  }

  lemma ParseCurrencyNonNegative(text: string)
    ensures ParseCurrency(text) >= 0
  {
    ParseCleanedNonNegative(text);
  }

  /** On a string, `parseMoney` and the service step's `parseCurrency` agree. */
  lemma ParseMoneyOfString(s: string)
    ensures ParseMoney(Str(s)) == ParseCurrency(s)
  {
    assert MoneyText(Str(s)) == s;
  }

  lemma {:induction false} KeepDigitsAndCommasIdempotent(s: string)
    ensures KeepDigitsAndCommas(KeepDigitsAndCommas(s)) == KeepDigitsAndCommas(s)
  {
    if s != [] {
      KeepDigitsAndCommasIdempotent(s[1..]);
      var t := KeepDigitsAndCommas(s[1..]);
      if IsDigit(s[0]) || s[0] == ',' {
        assert ([s[0]] + t)[1..] == t;
      } else {
        assert KeepDigitsAndCommas(s) == t;
      }
    }
  }

  /** Only digits and commas of the text matter: every other character is ignored. */
  lemma ParseMoneyIgnoresOtherCharacters(s: string)
    ensures ParseMoney(Str(s)) == ParseMoney(Str(KeepDigitsAndCommas(s)))
  {
    KeepDigitsAndCommasIdempotent(s);
    assert MoneyText(Str(s)) == s;
    assert MoneyText(Str(KeepDigitsAndCommas(s))) == KeepDigitsAndCommas(s);
  }

  /** Falsy input, and text without a digit before or after the first comma, gives 0. */
  lemma ParseMoneyFalsy(v: JsValue)
    requires !Truthy(v)
    ensures ParseMoney(v) == 0
  {
    assert KeepDigitsAndCommas("") == "";
    assert FirstCommaToDot("") == "";
    assert DigitPrefixLength("") == 0;
  }

  predicate Kept(c: char) {
    IsDigit(c) || c == ','
  }

  /** The cleaning works character by character. */
  lemma {:induction false} KeepDigitsAndCommasAppend(a: string, b: string)
    ensures KeepDigitsAndCommas(a + b) == KeepDigitsAndCommas(a) + KeepDigitsAndCommas(b)
  {
    if a != [] {
      assert (a + b)[1..] == a[1..] + b;
      KeepDigitsAndCommasAppend(a[1..], b);
    } else {
      assert a + b == b;
    }
  }

  lemma {:induction false} KeepDigitsAndCommasAll(s: string)
    requires forall i :: 0 <= i < |s| ==> Kept(s[i])
    ensures KeepDigitsAndCommas(s) == s
  {
    if s != [] {
      KeepDigitsAndCommasAll(s[1..]);
      assert [s[0]] + s[1..] == s;
    }
  }

  lemma {:induction false} KeepDigitsAndCommasNone(s: string)
    requires forall i :: 0 <= i < |s| ==> !Kept(s[i])
    ensures KeepDigitsAndCommas(s) == []
  {
    if s != [] {
      KeepDigitsAndCommasNone(s[1..]);
    }
  }

  /** Only the first comma becomes a point. */
  lemma {:induction false} FirstCommaToDotAt(a: string, b: string)
    requires forall i :: 0 <= i < |a| ==> a[i] != ','
    ensures FirstCommaToDot(a + [','] + b) == a + ['.'] + b
  {
    if a != [] {
      assert (a + [','] + b)[1..] == a[1..] + [','] + b;
      FirstCommaToDotAt(a[1..], b);
    } else {
      assert a + [','] + b == [','] + b;
    }
  }

  lemma {:induction false} FirstCommaToDotNone(s: string)
    requires forall i :: 0 <= i < |s| ==> s[i] != ','
    ensures FirstCommaToDot(s) == s
  {
    if s != [] {
      FirstCommaToDotNone(s[1..]);
      assert [s[0]] + s[1..] == s;
    }
  }

  lemma CommaDecimalToDot(k: string, d: string, fd: string)
    requires AllDigits(d)
    requires k == d + (if fd == [] then [] else [','] + fd)
    ensures FirstCommaToDot(k) == d + (if fd == [] then [] else ['.'] + fd)
  {
    if fd == [] {
      assert k == d;
      FirstCommaToDotNone(d);
    } else {
      assert k == d + [','] + fd;
      assert forall i :: 0 <= i < |d| ==> d[i] != ',';
      FirstCommaToDotAt(d, fd);
      assert d + ['.'] + fd == d + (['.'] + fd);
    }
  }

  /** Text whose digits and commas spell `d[,fd]` parses to the decimal `d.fd`. */
  lemma ParseCleanedDecimal(s: string, d: string, fd: string)
    requires d != [] && AllDigits(d) && AllDigits(fd)
    requires KeepDigitsAndCommas(s) == d + (if fd == [] then [] else [','] + fd)
    ensures ParseCleaned(s) == DecimalHundredths(d, fd)
  {
    CommaDecimalToDot(KeepDigitsAndCommas(s), d, fd);
    ParseFloatOfDecimal(FirstCommaToDot(KeepDigitsAndCommas(s)), d, fd);
  }

  lemma KeepBrazilian(s: string)
    requires s == "R$ 1.234,56"
    ensures KeepDigitsAndCommas(s) == "1234" + [','] + "56"
  {
    assert s == "R$ " + "1" + "." + "234,56";
    KeepPieces("R$ ", "1", ".", "234,56");
    assert "1" + "234,56" == "1234" + [','] + "56";
  }

  /** Dropped, kept, dropped, kept: the kept pieces are joined. */
  lemma KeepPieces(a: string, b: string, c: string, e: string)
    requires forall i :: 0 <= i < |a| ==> !Kept(a[i])
    requires forall i :: 0 <= i < |b| ==> Kept(b[i])
    requires forall i :: 0 <= i < |c| ==> !Kept(c[i])
    requires forall i :: 0 <= i < |e| ==> Kept(e[i])
    ensures KeepDigitsAndCommas(a + b + c + e) == b + e
  {
    var ab := a + b;
    var abc := ab + c;
    assert KeepDigitsAndCommas(ab) == b by {
      KeepDigitsAndCommasNone(a);
      KeepDigitsAndCommasAll(b);
      KeepDigitsAndCommasAppend(a, b);
      assert [] + b == b;
    }
    assert KeepDigitsAndCommas(abc) == b by {
      KeepDigitsAndCommasNone(c);
      KeepDigitsAndCommasAppend(ab, c);
      assert b + [] == b;
    }
    KeepDigitsAndCommasAll(e);
    KeepDigitsAndCommasAppend(abc, e);
  }

  /** Brazilian formatting: `.` groups thousands and the first `,` is the decimal mark. */
  lemma ParseMoneyBrazilian(s: string)
    requires s == "R$ 1.234,56"
    ensures ParseMoney(Str(s)) == 123456
  {
    ParseCleanedBrazilian(s);
    DecimalBrazilian();
    ParseMoneyOfText(s);
  }

  /** `parseMoney` of a non-empty string cleans and parses that string. */
  lemma ParseMoneyOfText(s: string)
    requires s != ""
    ensures ParseMoney(Str(s)) == ParseCleaned(s)
  {
    assert MoneyText(Str(s)) == s;
  }

  lemma ParseCleanedBrazilian(s: string)
    requires s == "R$ 1.234,56"
    ensures ParseCleaned(s) == DecimalHundredths("1234", "56")
  {
    KeepBrazilian(s);
    ParseCleanedDecimal(s, "1234", "56");
  }

  lemma DecimalBrazilian()
    ensures DecimalHundredths("1234", "56") == 123456
  {
    assert "1234"[..3] == "123" && "123"[..2] == "12" && "12"[..1] == "1" && "1"[..0] == "";
  }

  /** Text after the first number is dropped: "50% na assinatura" is 50 reais. */
  lemma ParseMoneyDropsText(s: string)
    requires s == "50% na assinatura"
    ensures ParseMoney(Str(s)) == 5000
  {
    assert DecimalHundredths("50", "") == 5000 by {
      assert "50"[..1] == "5" && "5"[..0] == "";
    }
    ParseCleanedDropsText(s);
    ParseMoneyOfText(s);
  }

  lemma ParseCleanedDropsText(s: string)
    requires s == "50% na assinatura"
    ensures ParseCleaned(s) == DecimalHundredths("50", "")
  {
    assert KeepDigitsAndCommas(s) == "50" + [] by {
      KeepDropsText(s);
    }
    ParseCleanedDecimal(s, "50", "");
  }

  lemma KeepDropsText(s: string)
    requires s == "50% na assinatura"
    ensures KeepDigitsAndCommas(s) == "50"
  {
    var a, b := s[..2], s[2..];
    assert s == a + b && a == "50";
    assert KeepDigitsAndCommas(a) == "50" by {
      KeepDigitsAndCommasAll(a);
    }
    assert KeepDigitsAndCommas(b) == [] by {
      KeepDigitsAndCommasNone(b);
    }
    KeepDigitsAndCommasAppend(a, b);
  }

  /** Text without digits is 0. */
  lemma ParseMoneyNoDigits(s: string)
    requires s == "abc"
    ensures ParseMoney(Str(s)) == 0
  {
    assert MoneyText(Str(s)) == s;
    KeepDigitsAndCommasNone(s);
    assert FirstCommaToDot("") == "";
    assert DigitPrefixLength("") == 0;
  }
  /** A plain digit string is read as that many whole units. */
  lemma ParseMoneyOfDigits(d: string)
    requires d != [] && AllDigits(d)
    ensures ParseMoney(Str(d)) == DigitsValue(d) * 100
  {
    assert MoneyText(Str(d)) == d;
    KeepDigitsAndCommasAll(d);
    assert d + [] == d;
    ParseCleanedDecimal(d, d, []);
  }

  /** A positive whole number reaches the cleaning as its digits alone, so it keeps its value. */
  lemma ParseMoneyOfWhole(n: int)
    requires n > 0
    ensures ParseMoney(Whole(n)) == n * 100
  {
    var d := NatToString(n);
    WholeMoneyText(n);
    KeepDigitsAndCommasAll(d);
    assert d + [] == d;
    ParseCleanedDecimal(d, d, []);
    NatToStringValue(n);
  }

  lemma WholeMoneyText(n: int)
    requires n > 0
    ensures MoneyText(Whole(n)) == NatToString(n)
  {
    var h := n * 100;
    assert h / 100 == n && h % 100 == 0 by {
      DivMultiple(n, 100);
    }
    assert NumberToString(h) == NatToString(n) + FractionText(0);
    assert NatToString(n) + [] == NatToString(n);
  }

  lemma DivMultiple(n: int, k: int)
    requires k > 0
    ensures (n * k) / k == n && (n * k) % k == 0
  {
    DivUnique(n * k, k, n, 0);
  }

  /**
   * A number with a fractional part loses its decimal point, which the
   * cleaning strips: `parseMoney(1234.5)` reads 12345 reais.
   */
  lemma ParseMoneyOfFractionalNumber()
    ensures ParseMoney(Num(123450)) == 1234500
  {
    NumberTextOfExample();
    KeepNumberText("1234.5");
    ParseCleanedDecimal("1234.5", "12345", []);
    DigitsValueOfExample();
  }

  lemma NumberTextOfExample()
    ensures MoneyText(Num(123450)) == "1234.5"
  {
    assert NatToString(1234) == "1234" by {
      assert NatToString(1) == "1";
      assert NatToString(12) == "12";
      assert NatToString(123) == "123";
    }
    assert FractionText(50) == ".5";
  }

  lemma KeepNumberText(s: string)
    requires s == "1234.5"
    ensures KeepDigitsAndCommas(s) == "12345"
  {
    assert s == "1234" + ".5";
    KeepDigitsAndCommasAppend("1234", ".5");
    KeepDigitsAndCommasAll("1234");
    assert KeepDigitsAndCommas(".5") == "5";
  }

  lemma DigitsValueOfExample()
    ensures AllDigits("12345") && DigitsValue("12345") == 12345
  {
    assert "12345"[..4] == "1234" && "1234"[..3] == "123" && "123"[..2] == "12" && "12"[..1] == "1" && "1"[..0] == "";
  }

  /** A non-zero multiple of `y` is at least `y` away from zero. */
  lemma MultipleAwayFromZero(e: int, y: int)
    requires y > 0
    ensures e >= 1 ==> e * y >= y
    ensures e <= -1 ==> e * y <= -y
  {
    if e >= 1 {
      var f := e - 1;
      assert e * y == f * y + y;
      assert f * y >= 0;
    } else if e <= -1 {
      var f := -e - 1;
      assert e * y == -(f * y) - y;
      assert f * y >= 0;
    }
  }

  /** Euclidean division has one quotient and one remainder. */
  lemma DivUnique(x: int, y: int, q: int, r: int)
    requires y > 0 && x == q * y + r && 0 <= r < y
    ensures x / y == q
  {
    var q0, r0 := x / y, x % y;
    assert x == q0 * y + r0 && 0 <= r0 < y;
    var e := q - q0;
    assert e * y == q * y - q0 * y;
    assert e * y == r0 - r;
    MultipleAwayFromZero(e, y);
  }

  lemma HalfUpScale(n: nat, d: nat, k: int)
    requires d > 0 && k > 0
    ensures n * k >= 0 && d * k > 0
    ensures HalfUpQuotient(n * k, d * k) == HalfUpQuotient(n, d)
  {
    var m := (2 * n + d) / (2 * d);
    var rem := (2 * n + d) % (2 * d);
    assert 2 * n + d == m * (2 * d) + rem;
    assert (2 * n + d) * k == (m * (2 * d) + rem) * k;
    assert 2 * (n * k) + d * k == m * (2 * (d * k)) + rem * k;
    assert rem * k < 2 * (d * k) by {
      assert (2 * d - rem) * k > 0;
    }
    assert rem * k >= 0;
    DivUnique(2 * (n * k) + d * k, 2 * (d * k), m, rem * k);
  }

  lemma AbsScale(x: int, k: int)
    requires k > 0
    ensures Abs(x * k) == Abs(x) * k
    ensures (x * k < 0) == (x < 0)
  {
    if x < 0 {
      assert x * k == -((-x) * k);
      assert (-x) * k > 0;
    } else {
      assert x * k >= 0;
    }
  }

  /** Rounding `num / den` does not change when both are scaled by the same positive factor. */
  lemma RoundDivScale(num: int, den: int, k: int)
    requires den != 0 && k > 0
    ensures den * k != 0
    ensures RoundDiv(num * k, den * k) == RoundDiv(num, den)
  {
    AbsScale(num, k);
    AbsScale(den, k);
    HalfUpScale(Abs(num), Abs(den), k);
  }
}
