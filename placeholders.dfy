/**
 * Contract template interpolation (src/utils/mergePlaceholders.ts): every
 * `{{ KEY }}` with an upper-case key is replaced, in one left-to-right pass,
 * by the value the placeholder map holds for it. `DATA_` keys are shown as
 * `dd/mm/yyyy`, `VALOR_` keys through the locale currency formatter, which
 * this model takes as a parameter `formatMoney`.
 */
module Placeholders {
  import opened Js

  // ---------------------------------------------------------------- dates

  /** `s.split(sep)` */
  function Split(s: string, sep: char): (r: seq<string>)
    ensures |r| >= 1
    ensures forall i :: 0 <= i < |r| ==> sep !in r[i]
  {
    if s == [] then [[]]
    else
      var rest := Split(s[1..], sep);
      if s[0] == sep then [[]] + rest else [[s[0]] + rest[0]] + rest[1..]
  }

  /**
   * `formatDate(iso)`: a string `y-m-d` becomes `d/m/y`; a falsy or
   * non-string value gives `""`; a string without three non-empty parts is
   * returned as it is.
   */
  function FormatDate(v: JsValue): string {
    if !Truthy(v) || !v.Str? then ""
    else
      var parts := Split(v.s, '-');
      if |parts| < 3 || parts[0] == "" || parts[1] == "" || parts[2] == "" then v.s
      else parts[2] + "/" + parts[1] + "/" + parts[0]
  }

  // ------------------------------------------------------------- matching

  /** `[A-Z0-9_]` */
  predicate IsKeyChar(c: char) {
    ('A' <= c <= 'Z') || ('0' <= c <= '9') || c == '_'
  }

  /** The number of white-space characters `\s*` reads at the start of `s`. */
  function SpaceRun(s: string): (n: nat)
    ensures n <= |s|
    ensures forall i :: 0 <= i < n ==> IsSpace(s[i])
    ensures n < |s| ==> !IsSpace(s[n])
  {
    if s != [] && IsSpace(s[0]) then 1 + SpaceRun(s[1..]) else 0
  }

  /** The number of key characters `[A-Z0-9_]+` reads at the start of `s`. */
  function KeyRun(s: string): (n: nat)
    ensures n <= |s|
    ensures forall i :: 0 <= i < n ==> IsKeyChar(s[i])
    ensures n < |s| ==> !IsKeyChar(s[n])
  {
    if s != [] && IsKeyChar(s[0]) then 1 + KeyRun(s[1..]) else 0
  }

  /** A placeholder found at the start of the text: its key and how many characters it spans. */
  datatype Match = Match(key: string, length: nat)

  /**
   * `/\{\{\s*([A-Z0-9_]+)\s*\}\}/` anchored at the start of `s`. Spaces and
   * key characters are disjoint, so the greedy reading is the only one.
   */
  function MatchAt(s: string): (r: Option<Match>)
    ensures r.Some? ==> 4 < r.value.length <= |s| && r.value.key != []
    ensures r.Some? ==> forall i :: 0 <= i < |r.value.key| ==> IsKeyChar(r.value.key[i])
  {
    if |s| < 2 || s[0] != '{' || s[1] != '{' then None
    else MatchKey(s, 2 + SpaceRun(s[2..]))
  }

  /** The rest of the pattern, from `a`, just past `{{` and the spaces after it. */
  function MatchKey(s: string, a: int): (r: Option<Match>)
    requires 2 <= a <= |s|
    ensures r.Some? ==> 4 < r.value.length <= |s| && r.value.key != []
    ensures r.Some? ==> forall i :: 0 <= i < |r.value.key| ==> IsKeyChar(r.value.key[i])
  {
    var k := KeyRun(s[a..]);
    if k == 0 then None
    else
      var b := a + k + SpaceRun(s[a + k..]);
      if b + 2 <= |s| && s[b] == '}' && s[b + 1] == '}' then Some(Match(s[a..a + k], b + 2))
      else None
  }

  // -------------------------------------------------------- interpolation

  predicate StartsWith(s: string, prefix: string) {
    |prefix| <= |s| && s[..|prefix|] == prefix
  }

  /** The text the replacer returns for `rawKey`. */
  function Replacement(key: string, m: map<string, JsValue>, formatMoney: JsValue -> string): string {
    var value := Lookup(m, key);
    if value.Undefined? || value.Null? then ""
    else if StartsWith(key, "DATA_") then FormatDate(value)
    else if StartsWith(key, "VALOR_") then formatMoney(value)
    else ToStr(value)
  }

  /** `template.replace(regex, replacer)` with the `g` flag: one pass, left to right. */
  function ReplaceAll(s: string, m: map<string, JsValue>, formatMoney: JsValue -> string): string
    decreases |s|
  {
    if s == [] then []
    else
      match MatchAt(s)
      case Some(mt) => Replacement(mt.key, m, formatMoney) + ReplaceAll(s[mt.length..], m, formatMoney)
      case None => [s[0]] + ReplaceAll(s[1..], m, formatMoney)
  }

  /** `interpolate(template, map)`; an empty template gives `""`. */
  function Interpolate(template: string, m: map<string, JsValue>, formatMoney: JsValue -> string): string {
    if template == "" then "" else ReplaceAll(template, m, formatMoney)
  }

  /** `.filter(Boolean)` on strings: the non-empty ones, in order. */
  function NonEmpty(lines: seq<string>): (r: seq<string>)
    ensures |r| <= |lines|
    ensures forall i :: 0 <= i < |r| ==> r[i] != ""
  {
    if lines == [] then []
    else (if lines[0] == "" then [] else [lines[0]]) + NonEmpty(lines[1..])
  }

  /** `items.map(f)` */
  function MapLines(items: seq<string>, f: string -> string): (r: seq<string>)
    ensures |r| == |items|
    ensures forall i :: 0 <= i < |items| ==> r[i] == f(items[i])
  {
    seq(|items|, i requires 0 <= i < |items| => f(items[i]))
  }

  /** `items.map(line => interpolate(line, map))` */
  function InterpolateLines(items: seq<string>, m: map<string, JsValue>, formatMoney: JsValue -> string): (r: seq<string>)
    ensures |r| == |items|
    ensures forall i :: 0 <= i < |items| ==> r[i] == Interpolate(items[i], m, formatMoney)
  {
    MapLines(items, line => Interpolate(line, m, formatMoney))
  }

  /** `items.map(line => interpolate(line, map)).filter(Boolean)` */
  function InterpolateArray(items: seq<string>, m: map<string, JsValue>, formatMoney: JsValue -> string): seq<string> {
    NonEmpty(InterpolateLines(items, m, formatMoney))
  }

  /** The entries of `out` filled so far. */
  function InterpolatedFields(obj: map<string, string>, keys: seq<string>, m: map<string, JsValue>,
                              formatMoney: JsValue -> string): map<string, string>
  {
    map k | k in keys && k in obj :: Interpolate(obj[k], m, formatMoney)
  }

  /**
   * `interpolateObject(obj, map)`: a `for` loop over `Object.entries(obj)`,
   * whose enumeration order is `entries`. The result has the same keys, each
   * with its text interpolated.
   */
  method InterpolateObject(obj: map<string, string>, entries: seq<string>, m: map<string, JsValue>,
                           formatMoney: JsValue -> string)
    returns (out: map<string, string>)
    requires forall k :: k in obj <==> k in entries
    ensures out.Keys == obj.Keys
    ensures forall k :: k in obj ==> out[k] == Interpolate(obj[k], m, formatMoney)
  {
    out := map[];
    var i := 0;
    while i < |entries|
      invariant 0 <= i <= |entries|
      invariant out == InterpolatedFields(obj, entries[..i], m, formatMoney)
    {
      var k := entries[i];
      assert entries[..i + 1] == entries[..i] + [k];
      out := out[k := Interpolate(obj[k], m, formatMoney)];
      i := i + 1;
    }
    assert entries[..|entries|] == entries;
  }

  // ---------------------------------------------------------------- lemmas

  /** `{{` + optional spaces + key + optional spaces + `}}` is recognised with exactly that key. */
  lemma PlaceholderMatches(key: string, sp1: string, sp2: string, rest: string)
    requires key != [] && forall i :: 0 <= i < |key| ==> IsKeyChar(key[i])
    requires forall i :: 0 <= i < |sp1| ==> IsSpace(sp1[i])
    requires forall i :: 0 <= i < |sp2| ==> IsSpace(sp2[i])
    ensures MatchAt("{{" + sp1 + key + sp2 + "}}" + rest) == Some(Match(key, 4 + |sp1| + |key| + |sp2|))
  {
    var t3 := "}}" + rest;
    var t2 := sp2 + t3;
    var t1 := key + t2;
    var s := "{{" + (sp1 + t1);
    assert "{{" + sp1 + key + sp2 + "}}" + rest == s;
    assert s[2..] == sp1 + t1;
    PlaceholderAt(s, key, sp1, sp2, rest, t1, t2, t3);
  }

  /** The pieces of a placeholder, read one after the other by `MatchAt`. */
  lemma PlaceholderAt(s: string, key: string, sp1: string, sp2: string, rest: string,
                      t1: string, t2: string, t3: string)
    requires key != [] && forall i :: 0 <= i < |key| ==> IsKeyChar(key[i])
    requires forall i :: 0 <= i < |sp1| ==> IsSpace(sp1[i])
    requires forall i :: 0 <= i < |sp2| ==> IsSpace(sp2[i])
    requires |s| >= 2 && s[0] == '{' && s[1] == '{' && s[2..] == sp1 + t1
    requires t1 == key + t2 && t2 == sp2 + t3 && t3 == "}}" + rest
    ensures MatchAt(s) == Some(Match(key, 4 + |sp1| + |key| + |sp2|))
  {
    var a := 2 + |sp1|;
    var b := a + |key| + |sp2|;
    assert SpaceRun(s[2..]) == a - 2 && a <= |s| && s[a..] == key + t2 by {
      OpeningRun(s, sp1, t1, key[0]);
    }
    assert KeyRun(s[a..]) == |key| && a + |key| <= |s| && s[a + |key|..] == sp2 + t3
        && s[a..a + |key|] == key by {
      KeyPart(s, a, key, t2, sp2, t3);
    }
    assert SpaceRun(s[a + |key|..]) == b - a - |key| && b + 2 <= |s| && s[b] == '}' && s[b + 1] == '}' by {
      ClosingRun(s, a + |key|, sp2, t3, rest);
    }
    MatchAtKey(s, a, |key|, b, key);
  }

  lemma OpeningRun(s: string, sp1: string, t1: string, c: char)
    requires |s| >= 2 && s[2..] == sp1 + t1
    requires forall i :: 0 <= i < |sp1| ==> IsSpace(sp1[i])
    requires t1 != [] && t1[0] == c && IsKeyChar(c)
    ensures SpaceRun(s[2..]) == |sp1| && 2 + |sp1| <= |s| && s[2 + |sp1|..] == t1
  {
    assert !IsSpace(t1[0]);
    SpaceStep(s, 2, sp1, t1);
  }

  lemma KeyPart(s: string, a: int, key: string, t2: string, sp2: string, t3: string)
    requires 0 <= a <= |s| && s[a..] == key + t2
    requires forall i :: 0 <= i < |key| ==> IsKeyChar(key[i])
    requires t2 == sp2 + t3 && t3 != [] && t3[0] == '}'
    requires sp2 == [] || IsSpace(sp2[0])
    ensures KeyRun(s[a..]) == |key| && a + |key| <= |s| && s[a + |key|..] == t2
    ensures s[a..a + |key|] == key
  {
    assert !IsKeyChar(t2[0]) by {
      if sp2 != [] { assert t2[0] == sp2[0]; } else { assert t2[0] == t3[0]; }
    }
    KeyStep(s, a, key, t2);
    assert s[a..a + |key|] == s[a..][..|key|];
  }

  lemma ClosingRun(s: string, i: int, sp2: string, t3: string, rest: string)
    requires 0 <= i <= |s| && s[i..] == sp2 + t3
    requires forall j :: 0 <= j < |sp2| ==> IsSpace(sp2[j])
    requires t3 == "}}" + rest
    ensures SpaceRun(s[i..]) == |sp2| && i + |sp2| + 2 <= |s|
    ensures s[i + |sp2|] == '}' && s[i + |sp2| + 1] == '}'
  {
    assert !IsSpace(t3[0]);
    SpaceStep(s, i, sp2, t3);
    assert s[i + |sp2|..][0] == '}' && s[i + |sp2|..][1] == '}';
  }

  lemma SpaceStep(s: string, i: int, sp: string, t: string)
    requires 0 <= i <= |s| && s[i..] == sp + t
    requires forall j :: 0 <= j < |sp| ==> IsSpace(sp[j])
    requires t == [] || !IsSpace(t[0])
    ensures SpaceRun(s[i..]) == |sp| && i + |sp| <= |s| && s[i + |sp|..] == t
  {
    SpaceRunOf(sp, t);
    assert s[i + |sp|..] == s[i..][|sp|..];
  }

  lemma KeyStep(s: string, i: int, key: string, t: string)
    requires 0 <= i <= |s| && s[i..] == key + t
    requires forall j :: 0 <= j < |key| ==> IsKeyChar(key[j])
    requires t == [] || !IsKeyChar(t[0])
    ensures KeyRun(s[i..]) == |key| && i + |key| <= |s| && s[i + |key|..] == t
  {
    KeyRunOf(key, t);
    assert s[i + |key|..] == s[i..][|key|..];
  }

  lemma MatchAtKey(s: string, a: int, k: int, b: int, key: string)
    requires |s| >= 2 && s[0] == '{' && s[1] == '{'
    requires 2 <= a <= |s| && SpaceRun(s[2..]) == a - 2
    requires 0 < k && a + k <= |s| && KeyRun(s[a..]) == k
    requires a + k <= b && SpaceRun(s[a + k..]) == b - a - k
    requires b + 2 <= |s| && s[b] == '}' && s[b + 1] == '}'
    requires s[a..a + k] == key
    ensures MatchAt(s) == Some(Match(key, b + 2))
  {
    MatchAtOf(s, a, k, b);
  }

  lemma MatchAtOf(s: string, a: int, k: int, b: int)
    requires |s| >= 2 && s[0] == '{' && s[1] == '{'
    requires 2 <= a <= |s| && SpaceRun(s[2..]) == a - 2
    requires 0 < k && a + k <= |s| && KeyRun(s[a..]) == k
    requires a + k <= b && SpaceRun(s[a + k..]) == b - a - k
    requires b + 2 <= |s| && s[b] == '}' && s[b + 1] == '}'
    ensures MatchAt(s) == Some(Match(s[a..a + k], b + 2))
  {
    MatchKeyOf(s, a, k, b);
  }

  lemma MatchKeyOf(s: string, a: int, k: int, b: int)
    requires 2 <= a <= |s|
    requires 0 < k && a + k <= |s| && KeyRun(s[a..]) == k
    requires a + k <= b && SpaceRun(s[a + k..]) == b - a - k
    requires b + 2 <= |s| && s[b] == '}' && s[b + 1] == '}'
    ensures MatchKey(s, a) == Some(Match(s[a..a + k], b + 2))
  {
  }

  lemma {:induction false} SpaceRunOf(sp: string, rest: string)
    requires forall i :: 0 <= i < |sp| ==> IsSpace(sp[i])
    requires rest == [] || !IsSpace(rest[0])
    ensures SpaceRun(sp + rest) == |sp|
  {
    if sp != [] {
      assert (sp + rest)[1..] == sp[1..] + rest;
      SpaceRunOf(sp[1..], rest);
    } else {
      assert sp + rest == rest;
    }
  }

  lemma {:induction false} KeyRunOf(key: string, rest: string)
    requires forall i :: 0 <= i < |key| ==> IsKeyChar(key[i])
    requires rest == [] || !IsKeyChar(rest[0])
    ensures KeyRun(key + rest) == |key|
  {
    if key != [] {
      assert (key + rest)[1..] == key[1..] + rest;
      KeyRunOf(key[1..], rest);
    } else {
      assert key + rest == rest;
    }
  }

  /**
   * A placeholder at the front is replaced by its value's text, and the
   * scan resumes after it: the inserted text is never scanned again.
   */
  lemma ReplacePlaceholder(key: string, sp1: string, sp2: string, rest: string,
                           m: map<string, JsValue>, formatMoney: JsValue -> string)
    requires key != [] && forall i :: 0 <= i < |key| ==> IsKeyChar(key[i])
    requires forall i :: 0 <= i < |sp1| ==> IsSpace(sp1[i])
    requires forall i :: 0 <= i < |sp2| ==> IsSpace(sp2[i])
    ensures ReplaceAll("{{" + sp1 + key + sp2 + "}}" + rest, m, formatMoney)
         == Replacement(key, m, formatMoney) + ReplaceAll(rest, m, formatMoney)
  {
    var s := "{{" + sp1 + key + sp2 + "}}" + rest;
    PlaceholderMatches(key, sp1, sp2, rest);
    assert s[4 + |sp1| + |key| + |sp2|..] == rest;
  }

  /** Text in which no placeholder starts anywhere comes out unchanged. */
  lemma {:induction false} NoPlaceholderUnchanged(s: string, m: map<string, JsValue>, formatMoney: JsValue -> string)
    requires forall i :: 0 <= i < |s| ==> MatchAt(s[i..]).None?
    ensures ReplaceAll(s, m, formatMoney) == s
  {
    if s != [] {
      assert MatchAt(s[0..]).None? && s[0..] == s;
      forall i | 0 <= i < |s[1..]|
        ensures MatchAt(s[1..][i..]).None?
      {
        assert s[1..][i..] == s[i + 1..];
      }
      NoPlaceholderUnchanged(s[1..], m, formatMoney);
      assert [s[0]] + s[1..] == s;
    }
  }

  /** In particular, text without `{` is unchanged. */
  lemma NoBraceUnchanged(s: string, m: map<string, JsValue>, formatMoney: JsValue -> string)
    requires '{' !in s
    ensures Interpolate(s, m, formatMoney) == s
  {
    forall i | 0 <= i < |s|
      ensures MatchAt(s[i..]).None?
    {
      assert s[i..][0] == s[i];
    }
    NoPlaceholderUnchanged(s, m, formatMoney);
  }

  /** A lower-case placeholder such as `{{nome}}` is not a placeholder. */
  lemma LowerCaseKeyUnchanged(s: string, m: map<string, JsValue>, formatMoney: JsValue -> string)
    requires s == "{{nome}}"
    ensures Interpolate(s, m, formatMoney) == s
  {
    forall i | 0 <= i < |s|
      ensures MatchAt(s[i..]).None?
    {
      if i == 0 {
        assert SpaceRun(s[2..]) == 0;
        assert KeyRun(s[2..]) == 0;
      } else {
        assert s[i..][0] != '{' || s[i..][1] != '{';
      }
    }
    NoPlaceholderUnchanged(s, m, formatMoney);
  }

  /** A missing or null value is replaced by nothing. */
  lemma MissingValueIsEmpty(key: string, m: map<string, JsValue>, formatMoney: JsValue -> string)
    requires key !in m || m[key].Null?
    ensures Replacement(key, m, formatMoney) == ""
  {
  }

  /** A plain key shows `String(value)`. */
  lemma PlainKeyIsString(key: string, m: map<string, JsValue>, formatMoney: JsValue -> string)
    requires key in m && !m[key].Undefined? && !m[key].Null?
    requires !StartsWith(key, "DATA_") && !StartsWith(key, "VALOR_")
    ensures Replacement(key, m, formatMoney) == ToStr(m[key])
  {
  }

  /** `formatDate("y-m-d")` is `"d/m/y"` for non-empty parts without `-`. */
  lemma FormatDateOfIso(y: string, mo: string, d: string)
    requires y != [] && mo != [] && d != []
    requires '-' !in y && '-' !in mo && '-' !in d
    ensures FormatDate(Str(y + "-" + mo + "-" + d)) == d + "/" + mo + "/" + y
  {
    var s := y + "-" + mo + "-" + d;
    SplitAppend(y, mo + "-" + d);
    assert s == y + ['-'] + (mo + "-" + d);
    SplitAppend(mo, d);
    assert mo + "-" + d == mo + ['-'] + d;
    SplitNone(d);
  }

  /** A string with fewer than three `-`-separated parts is returned as it is. */
  lemma FormatDateNoDash(s: string)
    requires s != [] && '-' !in s
    ensures FormatDate(Str(s)) == s
  {
    SplitNone(s);
  }

  lemma {:induction false} SplitNone(s: string)
    requires '-' !in s
    ensures Split(s, '-') == [s]
  {
    if s != [] {
      SplitNone(s[1..]);
      assert [s[0]] + s[1..] == s;
    }
  }

  lemma {:induction false} SplitAppend(a: string, b: string)
    requires '-' !in a
    ensures Split(a + ['-'] + b, '-') == [a] + Split(b, '-')
  {
    if a == [] {
      assert a + ['-'] + b == ['-'] + b;
      assert (['-'] + b)[1..] == b;
    } else {
      assert (a + ['-'] + b)[1..] == a[1..] + ['-'] + b;
      SplitAppend(a[1..], b);
      assert [a[0]] + a[1..] == a;
    }
  }

  lemma {:induction false} NonEmptyAppend(a: seq<string>, b: seq<string>)
    ensures NonEmpty(a + b) == NonEmpty(a) + NonEmpty(b)
  {
    if a == [] {
      assert a + b == b;
    } else {
      assert (a + b)[0] == a[0];
      assert (a + b)[1..] == a[1..] + b;
      NonEmptyAppend(a[1..], b);
    }
  }

  lemma {:induction false} NonEmptyAllKept(lines: seq<string>)
    requires forall i :: 0 <= i < |lines| ==> lines[i] != ""
    ensures NonEmpty(lines) == lines
  {
    if lines != [] {
      NonEmptyAllKept(lines[1..]);
      assert [lines[0]] + lines[1..] == lines;
    }
  }

  /** The array version keeps, in order, exactly the lines that do not interpolate to `""`. */
  lemma InterpolateArrayAppend(a: seq<string>, b: seq<string>, m: map<string, JsValue>, formatMoney: JsValue -> string)
    ensures InterpolateArray(a + b, m, formatMoney) == InterpolateArray(a, m, formatMoney) + InterpolateArray(b, m, formatMoney)
  {
    InterpolateLinesAppend(a, b, m, formatMoney);
    NonEmptyAppend(InterpolateLines(a, m, formatMoney), InterpolateLines(b, m, formatMoney));
  }

  lemma InterpolateLinesAppend(a: seq<string>, b: seq<string>, m: map<string, JsValue>, formatMoney: JsValue -> string)
    ensures InterpolateLines(a + b, m, formatMoney) == InterpolateLines(a, m, formatMoney) + InterpolateLines(b, m, formatMoney)
  {
    MapLinesAppend(a, b, line => Interpolate(line, m, formatMoney));
  }

  lemma MapLinesAppend(a: seq<string>, b: seq<string>, f: string -> string)
    ensures MapLines(a + b, f) == MapLines(a, f) + MapLines(b, f)
  {
    var l := MapLines(a + b, f);
    var r := MapLines(a, f) + MapLines(b, f);
    forall i | 0 <= i < |l|
      ensures l[i] == r[i]
    {
      if i < |a| {
        assert (a + b)[i] == a[i];
      } else {
        assert (a + b)[i] == b[i - |a|];
      }
    }
  }

  /** A line is dropped exactly when it interpolates to `""`. */
  lemma InterpolateArraySingle(line: string, m: map<string, JsValue>, formatMoney: JsValue -> string)
    ensures Interpolate(line, m, formatMoney) == "" ==> InterpolateArray([line], m, formatMoney) == []
    ensures Interpolate(line, m, formatMoney) != "" ==> InterpolateArray([line], m, formatMoney) == [Interpolate(line, m, formatMoney)]
  {
    var ls := InterpolateLines([line], m, formatMoney);
    assert ls == [Interpolate(line, m, formatMoney)];
    assert ls[1..] == [];
  }

  /** When no line interpolates to `""`, nothing is dropped. */
  lemma InterpolateArrayAllKept(items: seq<string>, m: map<string, JsValue>, formatMoney: JsValue -> string)
    requires forall i :: 0 <= i < |items| ==> Interpolate(items[i], m, formatMoney) != ""
    ensures InterpolateArray(items, m, formatMoney) == InterpolateLines(items, m, formatMoney)
  {
    NonEmptyAllKept(InterpolateLines(items, m, formatMoney));
  }
}
