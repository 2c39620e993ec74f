/**
 * The client step (src/components/StepCliente.jsx): the phone mask applied
 * while typing, its removal, and `handleNext`, which writes every field of
 * the client record into the proposal store with the phone reduced to its
 * digits.
 */
module Cliente {
  import opened Js
  import opened ProposalStore

  function Min(a: int, b: int): int {
    if a < b then a else b
  }

  /** `value.replace(/\D/g, '')`: the digits of `s`, in order. */
  function Digits(s: string): (r: string)
    ensures AllDigits(r) && |r| <= |s|
  {
    if s == [] then [] else (if IsDigit(s[0]) then [s[0]] else []) + Digits(s[1..])
  }

  /** The mask over the digits `n`: `(dd`, `(dd) ddddd` or `(dd) ddddd-dddd`, at most 11 digits. */
  function Mask(n: string): string {
    if |n| <= 2 then (if |n| == 0 then "" else "(" + n)
    else if |n| <= 7 then "(" + n[..2] + ") " + n[2..]
    else if |n| <= 11 then "(" + n[..2] + ") " + n[2..7] + "-" + n[7..]
    else "(" + n[..2] + ") " + n[2..7] + "-" + n[7..11]
  }

  /** `applyPhoneMask(value)` */
  function ApplyPhoneMask(v: string): string {
    Mask(Digits(v))
  }

  /** `removePhoneMask(value)` */
  function RemovePhoneMask(v: string): (r: string)
    ensures AllDigits(r)
  {
    Digits(v)
  }

  /** `handleChange`: only the phone is masked before it is passed on. */
  function ProcessedValue(key: string, value: string): string {
    if key == "phone" then ApplyPhoneMask(value) else value
  }

  /** `{ name: '', company: '', email: '', phone: '', ...data }` */
  function ClientData(data: map<string, string>): map<string, string> {
    Spread(InitialClient(), data)
  }

  /** What `handleNext` saves for a field: the phone without its mask, anything else as it is. */
  function SavedValue(field: string, value: string): string {
    if field == "phone" then RemovePhoneMask(value) else value
  }

  /** The fields `handleNext` writes, whatever the order in which it writes them. */
  function Saved(cd: map<string, string>): map<string, string> {
    map k | k in cd :: SavedValue(k, cd[k])
  }

  /** The fields among `keys` written so far. */
  function Written(cd: map<string, string>, keys: seq<string>): map<string, string> {
    map k | k in keys && k in cd :: SavedValue(k, cd[k])
  }

  /**
   * `handleNext`: `Object.entries(clientData).forEach(...)` dispatching
   * `setClientField` once per field; `entries` is the enumeration order of
   * the fields. The store's client gains every field of the client data,
   * the phone as digits only, and nothing else in the store changes.
   */
  method HandleNext(store: Proposal, data: map<string, string>, entries: seq<string>)
    requires forall k :: k in ClientData(data) <==> k in entries
    modifies store
    ensures store.client == old(store.client) + Saved(ClientData(data))
    ensures store.services == old(store.services) && store.term == old(store.term)
    ensures store.paymentConditions == old(store.paymentConditions) && store.details == old(store.details)
  {
    var cd := ClientData(data);
    var i := 0;
    while i < |entries|
      invariant 0 <= i <= |entries|
      invariant store.client == old(store.client) + Written(cd, entries[..i])
      invariant store.services == old(store.services) && store.term == old(store.term)
      invariant store.paymentConditions == old(store.paymentConditions) && store.details == old(store.details)
    {
      var field := entries[i];
      WrittenStep(old(store.client), cd, entries[..i], field);
      store.SetClientField(field, SavedValue(field, cd[field]));
      assert entries[..i + 1] == entries[..i] + [field];
      i := i + 1;
    }
    assert entries[..|entries|] == entries;
    WrittenAll(cd, entries);
  }

  // ---------------------------------------------------------------- lemmas

  /** Writing one more field. */
  lemma WrittenStep(client: map<string, string>, cd: map<string, string>, keys: seq<string>, f: string)
    requires f in cd
    ensures (client + Written(cd, keys))[f := SavedValue(f, cd[f])] == client + Written(cd, keys + [f])
  {
    var w, w' := Written(cd, keys), Written(cd, keys + [f]);
    assert w' == w[f := SavedValue(f, cd[f])];
  }

  /** Once every field is written, what was written is `Saved(cd)`. */
  lemma WrittenAll(cd: map<string, string>, keys: seq<string>)
    requires forall k :: k in cd <==> k in keys
    ensures Written(cd, keys) == Saved(cd)
  {
  }

  lemma {:induction false} DigitsAppend(a: string, b: string)
    ensures Digits(a + b) == Digits(a) + Digits(b)
  {
    if a == [] {
      assert a + b == b;
    } else {
      assert (a + b)[0] == a[0];
      assert (a + b)[1..] == a[1..] + b;
      DigitsAppend(a[1..], b);
    }
  }

  lemma {:induction false} DigitsOfDigits(s: string)
    requires AllDigits(s)
    ensures Digits(s) == s
  {
    if s != [] {
      DigitsOfDigits(s[1..]);
      assert [s[0]] + s[1..] == s;
    }
  }

  /** Removing the mask gives back the typed digits, cut to the first 11. */
  lemma MaskRoundTrip(n: string)
    requires AllDigits(n)
    ensures Digits(Mask(n)) == n[..Min(|n|, 11)]
  {
    if |n| == 0 {
    } else if |n| <= 2 {
      DigitsAppend("(", n);
      DigitsOfDigits(n);
      assert n[..|n|] == n;
    } else if |n| <= 7 {
      ShortMaskDigits(n);
    } else {
      FullMaskDigits(n, if |n| <= 11 then n[7..] else n[7..11]);
    }
  }

  lemma ShortMaskDigits(n: string)
    requires AllDigits(n) && 2 <= |n|
    ensures Digits("(" + n[..2] + ") " + n[2..]) == n
  {
    DigitsAppend("(" + n[..2] + ") ", n[2..]);
    DigitsAppend("(" + n[..2], ") ");
    DigitsAppend("(", n[..2]);
    DigitsOfDigits(n[..2]);
    DigitsOfDigits(n[2..]);
    assert Digits(") ") == [];
    assert n[..2] + n[2..] == n;
  }

  lemma FullMaskDigits(n: string, last: string)
    requires AllDigits(n) && 7 <= |n| && AllDigits(last)
    ensures Digits("(" + n[..2] + ") " + n[2..7] + "-" + last) == n[..7] + last
  {
    var head := "(" + n[..2] + ") " + n[2..7];
    assert Digits(head) == n[..7] by {
      ShortMaskDigits(n[..7]);
      assert n[..7][..2] == n[..2] && n[..7][2..] == n[2..7];
    }
    assert Digits(head + "-") == n[..7] by {
      DigitsAppend(head, "-");
      assert Digits("-") == [];
    }
    DigitsAppend(head + "-", last);
    DigitsOfDigits(last);
  }

  /** `removePhoneMask(applyPhoneMask(v))` is the first 11 digits of `v`. */
  lemma PhoneMaskRoundTrip(v: string)
    ensures RemovePhoneMask(ApplyPhoneMask(v)) == Digits(v)[..Min(|Digits(v)|, 11)]
  {
    MaskRoundTrip(Digits(v));
  }

  /** Digits beyond the eleventh never show. */
  lemma MaskIgnoresExtraDigits(n: string)
    requires |n| > 11
    ensures Mask(n[..11]) == Mask(n)
  {
    var m := n[..11];
    assert m[..2] == n[..2] && m[2..7] == n[2..7] && m[7..] == n[7..11];
  }

  /** Masking an already masked value changes nothing, so re-rendering the field is stable. */
  lemma ApplyPhoneMaskIdempotent(v: string)
    ensures ApplyPhoneMask(ApplyPhoneMask(v)) == ApplyPhoneMask(v)
  {
    var n := Digits(v);
    MaskRoundTrip(n);
    if |n| > 11 {
      MaskIgnoresExtraDigits(n);
    } else {
      assert n[..|n|] == n;
    }
  }

  /** The masked text has up to four characters more than the digits it shows, and at most 15. */
  lemma ApplyPhoneMaskLength(v: string)
    ensures var k := Min(|Digits(v)|, 11);
      |ApplyPhoneMask(v)| == if k == 0 then 0 else if k <= 2 then k + 1 else if k <= 7 then k + 3 else k + 4
    ensures |ApplyPhoneMask(v)| <= 15
  {
  }

  /** A typed phone number reaches the store as its first 11 digits. */
  lemma TypedPhoneSaved(v: string)
    ensures SavedValue("phone", ProcessedValue("phone", v)) == Digits(v)[..Min(|Digits(v)|, 11)]
  {
    PhoneMaskRoundTrip(v);
  }

  /**
   * What `handleNext` saves: the four default fields and every field of
   * `data`, missing defaults as `''`, the phone as digits only, and every
   * other field as given.
   */
  lemma SavedClient(data: map<string, string>)
    ensures var s := Saved(ClientData(data));
      && s.Keys == {"name", "company", "email", "phone"} + data.Keys
      && AllDigits(s["phone"])
      && (forall k :: k in data && k != "phone" ==> s[k] == data[k])
      && (forall k :: k in {"name", "company", "email"} && k !in data ==> s[k] == "")
      && ("phone" !in data ==> s["phone"] == "")
      && ("phone" in data ==> s["phone"] == Digits(data["phone"]))
  {
    assert InitialClient().Keys == {"name", "company", "email", "phone"};
  }

  /** A phone of exactly 11 digits gets the full mask. */
  lemma PhoneMaskExample(s: string)
    requires s == "11987654321"
    ensures ApplyPhoneMask(s) == "(11) 98765-4321"
  {
    DigitsOfDigits(s);
  }
}
