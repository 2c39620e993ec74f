/**
 * Grouping by package type and per-type totals (`groupByType` and
 * `calcTypeTotals` in src/utils/proposalCalc.js, and their inline copies in
 * the preview and payment-conditions steps). A JS object's string keys
 * keep insertion order, so a grouping is the list of keys in order of first
 * appearance plus a map from key to group.
 */
module Grouping {

  datatype Grouped<T> = Grouped(keys: seq<string>, groups: map<string, seq<T>>)

  // ------------------------------------------------------ reference grouping

  /** The elements of type `t`, in input order. */
  function OfType<T>(xs: seq<T>, typeOf: T -> string, t: string): seq<T> {
    if xs == [] then []
    else OfType(xs[..|xs| - 1], typeOf, t) + (if typeOf(xs[|xs| - 1]) == t then [xs[|xs| - 1]] else [])
  }

  /** The distinct types of `xs` in order of first appearance. */
  function FirstSeenTypes<T>(xs: seq<T>, typeOf: T -> string): seq<string> {
    if xs == [] then []
    else
      var keys := FirstSeenTypes(xs[..|xs| - 1], typeOf);
      if typeOf(xs[|xs| - 1]) in keys then keys else keys + [typeOf(xs[|xs| - 1])]
  }

  /** What `groupByType` computes: one group per type, in order of first appearance. */
  function GroupedBy<T>(xs: seq<T>, typeOf: T -> string): Grouped<T> {
    var keys := FirstSeenTypes(xs, typeOf);
    Grouped(keys, map t | t in keys :: OfType(xs, typeOf, t))
  }

  predicate Distinct(keys: seq<string>) {
    forall i, j :: 0 <= i < j < |keys| ==> keys[i] != keys[j]
  }

  /** The keys are listed once each and are exactly the map's keys. */
  predicate WellFormed<T>(g: Grouped<T>) {
    && Distinct(g.keys)
    && (forall t :: t in g.groups ==> t in g.keys)
    && (forall i :: 0 <= i < |g.keys| ==> g.keys[i] in g.groups)
  }

  // --------------------------------------------------------------- grouping

  /** `items.reduce((acc, item) => { (acc[item.type] ||= []).push(item); return acc; }, {})` */
  method GroupByType<T>(xs: seq<T>, typeOf: T -> string) returns (g: Grouped<T>)
    ensures g == GroupedBy(xs, typeOf)
  {
    var keys: seq<string> := [];
    var acc: map<string, seq<T>> := map[];
    for i := 0 to |xs|
      invariant keys == FirstSeenTypes(xs[..i], typeOf)
      invariant forall t :: t in acc <==> t in keys
      invariant forall t :: t in acc ==> acc[t] == OfType(xs[..i], typeOf, t)
    {
      var t := typeOf(xs[i]);
      assert xs[..i + 1][..i] == xs[..i];
      if t !in acc {
        keys := keys + [t];
        acc := acc[t := [xs[i]]];
      } else {
        acc := acc[t := acc[t] + [xs[i]]];
      }
      assert forall u :: u in acc ==> acc[u] == OfType(xs[..i + 1], typeOf, u) by {
        forall u | u in acc ensures acc[u] == OfType(xs[..i + 1], typeOf, u) {
          if u != t {
            assert u in keys;
          } else if t !in FirstSeenTypes(xs[..i], typeOf) {
            OfTypeAbsent(xs[..i], typeOf, t);
          }
        }
      }
    }
    assert xs[..|xs|] == xs;
    g := Grouped(keys, acc);
  }

  // ------------------------------------------------------------------ sums

  function SumBy<T>(xs: seq<T>, w: T -> int): int {
    if xs == [] then 0 else SumBy(xs[..|xs| - 1], w) + w(xs[|xs| - 1])
  }

  /** The sum of the group totals, taken in key order. */
  function SumOfGroups<T>(keys: seq<string>, groups: map<string, seq<T>>, w: T -> int): int
    requires forall t :: t in keys ==> t in groups
  {
    if keys == [] then 0
    else SumOfGroups(keys[..|keys| - 1], groups, w) + SumBy(groups[keys[|keys| - 1]], w)
  }

  /**
   * `calcTypeTotals` with the weight `w` in place of `i.subtotal`: one total
   * per group, then `totals.overall` is the sum of all values so far, which
   * overwrites a group that is itself called "overall".
   */
  function TypeTotalsOf<T>(g: Grouped<T>, w: T -> int): map<string, int>
    requires WellFormed(g)
  {
    GroupSums(g, w)["overall" := SumOfGroups(g.keys, g.groups, w)]
  }

  /** One sum per group. */
  function GroupSums<T>(g: Grouped<T>, w: T -> int): map<string, int> {
    map t | t in g.groups :: SumBy(g.groups[t], w)
  }

  // ---------------------------------------------------------------- lemmas

  lemma {:induction false} OfTypeTypes<T>(xs: seq<T>, typeOf: T -> string, t: string)
    ensures forall k :: 0 <= k < |OfType(xs, typeOf, t)| ==> typeOf(OfType(xs, typeOf, t)[k]) == t
    ensures |OfType(xs, typeOf, t)| <= |xs|
  {
    if xs != [] {
      OfTypeTypes(xs[..|xs| - 1], typeOf, t);
    }
  }

  /** A type occurs among the keys exactly when its group is not empty. */
  lemma {:induction false} OfTypeAbsent<T>(xs: seq<T>, typeOf: T -> string, t: string)
    ensures t in FirstSeenTypes(xs, typeOf) <==> OfType(xs, typeOf, t) != []
  {
    if xs != [] {
      OfTypeAbsent(xs[..|xs| - 1], typeOf, t);
    }
  }

  lemma {:induction false} FirstSeenTypesDistinct<T>(xs: seq<T>, typeOf: T -> string)
    ensures Distinct(FirstSeenTypes(xs, typeOf))
  {
    if xs != [] {
      FirstSeenTypesDistinct(xs[..|xs| - 1], typeOf);
    }
  }

  /** Every element's type is a key, and every key is some element's type. */
  lemma {:induction false} FirstSeenTypesMembers<T>(xs: seq<T>, typeOf: T -> string, t: string)
    ensures t in FirstSeenTypes(xs, typeOf) <==> exists k :: 0 <= k < |xs| && typeOf(xs[k]) == t
  {
    if xs != [] {
      var ys := xs[..|xs| - 1];
      FirstSeenTypesMembers(ys, typeOf, t);
      if exists k :: 0 <= k < |ys| && typeOf(ys[k]) == t {
        var k :| 0 <= k < |ys| && typeOf(ys[k]) == t;
        assert xs[k] == ys[k];
      }
      if exists k :: 0 <= k < |xs| && typeOf(xs[k]) == t {
        var k :| 0 <= k < |xs| && typeOf(xs[k]) == t;
        if k < |ys| {
          assert ys[k] == xs[k];
        }
      }
    }
  }

  lemma GroupingWellFormed<T>(xs: seq<T>, typeOf: T -> string)
    ensures WellFormed(GroupedBy(xs, typeOf))
  {
    FirstSeenTypesDistinct(xs, typeOf);
  }

  /**
   * `groupByType` partitions its input: each group holds exactly the
   * elements of its type, in input order, no group is empty, and every
   * element's type has a group.
   */
  lemma GroupingPartitions<T>(xs: seq<T>, typeOf: T -> string)
    ensures var g := GroupedBy(xs, typeOf);
      && WellFormed(g)
      && (forall t :: t in g.groups ==> g.groups[t] == OfType(xs, typeOf, t) && g.groups[t] != [])
      && (forall k :: 0 <= k < |xs| ==> typeOf(xs[k]) in g.groups)
  {
    GroupingWellFormed(xs, typeOf);
    var g := GroupedBy(xs, typeOf);
    forall t | t in g.groups
      ensures g.groups[t] != []
    {
      OfTypeAbsent(xs, typeOf, t);
    }
    forall k | 0 <= k < |xs|
      ensures typeOf(xs[k]) in g.groups
    {
      FirstSeenTypesMembers(xs, typeOf, typeOf(xs[k]));
    }
  }

  /** An element lands in the group of its own type and in no other. */
  lemma GroupOfElement<T>(xs: seq<T>, typeOf: T -> string, k: int, t: string)
    requires 0 <= k < |xs|
    requires t in GroupedBy(xs, typeOf).groups
    ensures xs[k] in GroupedBy(xs, typeOf).groups[t] ==> typeOf(xs[k]) == t
  {
    var grp := GroupedBy(xs, typeOf).groups[t];
    OfTypeTypes(xs, typeOf, t);
    if xs[k] in grp {
      var m :| 0 <= m < |grp| && grp[m] == xs[k];
    }
  }

  /** Summing a group is summing the input with the other types weighted 0. */
  lemma {:induction false} SumOfType<T>(xs: seq<T>, typeOf: T -> string, t: string, w: T -> int)
    ensures SumBy(OfType(xs, typeOf, t), w) == SumBy(xs, x => if typeOf(x) == t then w(x) else 0)
  {
    if xs != [] {
      var ys := xs[..|xs| - 1];
      SumOfType(ys, typeOf, t, w);
      var x := xs[|xs| - 1];
      SumByAppend(OfType(ys, typeOf, t), if typeOf(x) == t then [x] else [], w);
    }
  }

  lemma {:induction false} SumByAppend<T>(xs: seq<T>, ys: seq<T>, w: T -> int)
    ensures SumBy(xs + ys, w) == SumBy(xs, w) + SumBy(ys, w)
  {
    if ys == [] {
      assert xs + ys == xs;
    } else {
      var zs := xs + ys;
      assert zs[..|zs| - 1] == xs + ys[..|ys| - 1];
      SumByAppend(xs, ys[..|ys| - 1], w);
    }
  }

  /** The total over a grouping is the total over its input. */
  lemma {:induction false} SumOfGroupsTotal<T>(xs: seq<T>, typeOf: T -> string, w: T -> int)
    ensures var g := GroupedBy(xs, typeOf);
      SumOfGroups(g.keys, g.groups, w) == SumBy(xs, w)
  {
    SumOfGroupsIsSumOfTypes(FirstSeenTypes(xs, typeOf), xs, typeOf, w);
    SumOfKeys(xs, typeOf, w);
  }

  /** The number of elements held by the groups of `keys`. */
  function SizeOfGroups<T>(keys: seq<string>, groups: map<string, seq<T>>): int
    requires forall t :: t in keys ==> t in groups
  {
    if keys == [] then 0
    else SizeOfGroups(keys[..|keys| - 1], groups) + |groups[keys[|keys| - 1]]|
  }

  function One<T>(x: T): int { 1 }

  lemma {:induction false} SumByOne<T>(xs: seq<T>)
    ensures SumBy(xs, One) == |xs|
  {
    if xs != [] {
      SumByOne(xs[..|xs| - 1]);
    }
  }

  lemma {:induction false} SizeIsSumOfOnes<T>(keys: seq<string>, groups: map<string, seq<T>>)
    requires forall t :: t in keys ==> t in groups
    ensures SizeOfGroups(keys, groups) == SumOfGroups(keys, groups, One)
  {
    if keys != [] {
      SizeIsSumOfOnes(keys[..|keys| - 1], groups);
      SumByOne(groups[keys[|keys| - 1]]);
    }
  }

  /** Every element lands in exactly one group: the group sizes add up to the input length. */
  lemma GroupSizesSum<T>(xs: seq<T>, typeOf: T -> string)
    ensures var g := GroupedBy(xs, typeOf);
      && (forall t :: t in g.keys ==> t in g.groups)
      && SizeOfGroups(g.keys, g.groups) == |xs|
  {
    var g := GroupedBy(xs, typeOf);
    GroupingWellFormed(xs, typeOf);
    SizeIsSumOfOnes(g.keys, g.groups);
    SumOfGroupsTotal(xs, typeOf, One);
    SumByOne(xs);
  }

  /** Key by key, the groups of the first-seen types add up to the whole input. */
  lemma {:induction false} SumOfKeys<T>(xs: seq<T>, typeOf: T -> string, w: T -> int)
    ensures SumOfTypes(FirstSeenTypes(xs, typeOf), xs, typeOf, w) == SumBy(xs, w)
  {
    if xs != [] {
      var ys := xs[..|xs| - 1];
      var x := xs[|xs| - 1];
      assert xs == ys + [x];
      var keys := FirstSeenTypes(ys, typeOf);
      SumOfKeys(ys, typeOf, w);
      FirstSeenTypesDistinct(ys, typeOf);
      SumOfTypesStep(keys, ys, x, typeOf, w);
      if typeOf(x) !in keys {
        var tx := typeOf(x);
        OfTypeAbsent(ys, typeOf, tx);
        assert OfType(xs, typeOf, tx) == [x];
        assert [x][..0] == [];
        assert SumBy(OfType(xs, typeOf, tx), w) == w(x);
        assert (keys + [tx])[..|keys|] == keys;
        assert SumOfTypes(keys + [tx], xs, typeOf, w) == SumOfTypes(keys, xs, typeOf, w) + w(x);
      }
    }
  }

  /** The sum of the groups of `keys` computed straight from the input. */
  function SumOfTypes<T>(keys: seq<string>, xs: seq<T>, typeOf: T -> string, w: T -> int): int {
    if keys == [] then 0
    else SumOfTypes(keys[..|keys| - 1], xs, typeOf, w) + SumBy(OfType(xs, typeOf, keys[|keys| - 1]), w)
  }

  /** Appending `x` to the input adds `w(x)` once if its type is a key (listed once). */
  lemma {:induction false} SumOfTypesStep<T>(keys: seq<string>, ys: seq<T>, x: T, typeOf: T -> string, w: T -> int)
    requires Distinct(keys)
    ensures SumOfTypes(keys, ys + [x], typeOf, w)
         == SumOfTypes(keys, ys, typeOf, w) + (if typeOf(x) in keys then w(x) else 0)
  {
    var xs := ys + [x];
    assert xs[..|xs| - 1] == ys;
    if keys != [] {
      var init := keys[..|keys| - 1];
      var last := keys[|keys| - 1];
      assert Distinct(init);
      SumOfTypesStep(init, ys, x, typeOf, w);
      var tail := if typeOf(x) == last then [x] else [];
      SumByAppend(OfType(ys, typeOf, last), tail, w);
      assert keys == init + [last];
      if typeOf(x) == last {
        assert typeOf(x) !in init;
      }
    }
  }

  lemma {:induction false} SumOfGroupsIsSumOfTypes<T>(keys: seq<string>, xs: seq<T>, typeOf: T -> string, w: T -> int)
    requires forall t :: t in keys ==> t in GroupedBy(xs, typeOf).groups
    ensures SumOfGroups(keys, GroupedBy(xs, typeOf).groups, w) == SumOfTypes(keys, xs, typeOf, w)
  {
    if keys != [] {
      SumOfGroupsIsSumOfTypes(keys[..|keys| - 1], xs, typeOf, w);
    }
  }

  /** The totals have one key per type of the input, and `overall`. */
  lemma TypeTotalsKeys<T>(xs: seq<T>, typeOf: T -> string, w: T -> int)
    ensures WellFormed(GroupedBy(xs, typeOf))
    ensures TypeTotalsOf(GroupedBy(xs, typeOf), w).Keys == TypesOf(xs, typeOf) + {"overall"}
  {
    GroupingWellFormed(xs, typeOf);
    var g := GroupedBy(xs, typeOf);
    forall t
      ensures t in g.groups <==> t in TypesOf(xs, typeOf)
    {
      FirstSeenTypesMembers(xs, typeOf, t);
    }
  }

  /** `totals.overall` is the sum over the whole input, in whatever order it came. */
  lemma TypeTotalsOverall<T>(xs: seq<T>, typeOf: T -> string, w: T -> int)
    ensures WellFormed(GroupedBy(xs, typeOf))
    ensures TypeTotalsOf(GroupedBy(xs, typeOf), w)["overall"] == SumBy(xs, w)
  {
    GroupingWellFormed(xs, typeOf);
    SumOfGroupsTotal(xs, typeOf, w);
  }

  /**
   * Each type's total is the sum over the elements of that type (unless a
   * type is itself named "overall", whose total `overall` replaces).
   */
  lemma TypeTotalsPerType<T>(xs: seq<T>, typeOf: T -> string, w: T -> int, t: string)
    requires t != "overall"
    ensures WellFormed(GroupedBy(xs, typeOf))
    ensures var totals := TypeTotalsOf(GroupedBy(xs, typeOf), w);
      t in totals ==> totals[t] == SumBy(xs, x => if typeOf(x) == t then w(x) else 0)
  {
    GroupingWellFormed(xs, typeOf);
    SumOfType(xs, typeOf, t, w);
  }

  /** An empty input gives `{ overall: 0 }`. */
  lemma TypeTotalsEmpty<T>(typeOf: T -> string, w: T -> int)
    ensures TypeTotalsOf(GroupedBy([], typeOf), w) == map["overall" := 0]
  {
    GroupingWellFormed([], typeOf);
  }

  /** A sum does not depend on the order of its terms. */
  lemma {:induction false} SumByPermutation<T>(xs: seq<T>, ys: seq<T>, w: T -> int)
    requires multiset(xs) == multiset(ys)
    ensures SumBy(xs, w) == SumBy(ys, w)
    decreases |xs|
  {
    if xs != [] {
      var x := xs[|xs| - 1];
      assert x in multiset(ys);
      var k :| 0 <= k < |ys| && ys[k] == x;
      var rest := ys[..k] + ys[k + 1..];
      assert ys == ys[..k] + [x] + ys[k + 1..];
      assert xs == xs[..|xs| - 1] + [x];
      assert multiset(ys) == multiset(ys[..k]) + multiset{x} + multiset(ys[k + 1..]);
      assert multiset(xs) == multiset(xs[..|xs| - 1]) + multiset{x};
      assert multiset(rest) == multiset(ys[..k]) + multiset(ys[k + 1..]);
      assert multiset(rest) == multiset(ys) - multiset{x};
      assert multiset(xs[..|xs| - 1]) == multiset(xs) - multiset{x};
      SumByPermutation(xs[..|xs| - 1], rest, w);
      SumByAppend(ys[..k] + [x], ys[k + 1..], w);
      SumByAppend(ys[..k], [x], w);
      SumByAppend(ys[..k], ys[k + 1..], w);
      assert [x][..0] == [];
    } else {
      assert |multiset(ys)| == 0;
    }
  }

  function TypesOf<T>(xs: seq<T>, typeOf: T -> string): set<string> {
    set k | 0 <= k < |xs| :: typeOf(xs[k])
  }

  lemma TypesOfPermutation<T>(xs: seq<T>, ys: seq<T>, typeOf: T -> string)
    requires multiset(xs) == multiset(ys)
    ensures TypesOf(xs, typeOf) == TypesOf(ys, typeOf)
  {
    forall k | 0 <= k < |xs| ensures typeOf(xs[k]) in TypesOf(ys, typeOf) {
      assert xs[k] in multiset(ys);
      var m :| 0 <= m < |ys| && ys[m] == xs[k];
    }
    forall k | 0 <= k < |ys| ensures typeOf(ys[k]) in TypesOf(xs, typeOf) {
      assert ys[k] in multiset(xs);
      var m :| 0 <= m < |xs| && xs[m] == ys[k];
    }
  }

  lemma TypeTotalsPermutationAt<T>(xs: seq<T>, ys: seq<T>, typeOf: T -> string, w: T -> int, t: string)
    requires multiset(xs) == multiset(ys)
    requires WellFormed(GroupedBy(xs, typeOf)) && WellFormed(GroupedBy(ys, typeOf))
    requires t in TypeTotalsOf(GroupedBy(xs, typeOf), w) && t in TypeTotalsOf(GroupedBy(ys, typeOf), w)
    ensures TypeTotalsOf(GroupedBy(xs, typeOf), w)[t] == TypeTotalsOf(GroupedBy(ys, typeOf), w)[t]
  {
    if t == "overall" {
      TypeTotalsOverall(xs, typeOf, w);
      TypeTotalsOverall(ys, typeOf, w);
      SumByPermutation(xs, ys, w);
    } else {
      TypeTotalsPerType(xs, typeOf, w, t);
      TypeTotalsPerType(ys, typeOf, w, t);
      SumByPermutation(xs, ys, x => if typeOf(x) == t then w(x) else 0);
    }
  }

  /** Reordering the input changes the grouping's key order but not its totals. */
  lemma TypeTotalsPermutation<T>(xs: seq<T>, ys: seq<T>, typeOf: T -> string, w: T -> int)
    requires multiset(xs) == multiset(ys)
    ensures WellFormed(GroupedBy(xs, typeOf)) && WellFormed(GroupedBy(ys, typeOf))
    ensures TypeTotalsOf(GroupedBy(xs, typeOf), w) == TypeTotalsOf(GroupedBy(ys, typeOf), w)
  {
    GroupingWellFormed(xs, typeOf);
    GroupingWellFormed(ys, typeOf);
    var tx := TypeTotalsOf(GroupedBy(xs, typeOf), w);
    var ty := TypeTotalsOf(GroupedBy(ys, typeOf), w);
    TypeTotalsKeys(xs, typeOf, w);
    TypeTotalsKeys(ys, typeOf, w);
    TypesOfPermutation(xs, ys, typeOf);
    assert tx.Keys == ty.Keys;
    forall t | t in tx
      ensures tx[t] == ty[t]
    {
      TypeTotalsPermutationAt(xs, ys, typeOf, w, t);
    }
  }

  // ------------------------------------------- totals filled in by a loop

  /**
   * The inline totals of the preview and payment-conditions steps: a
   * `forEach` over the groups assigns each type's sum, then `overall` is the
   * `reduce` over `Object.values(totals)`, in key order.
   */
  method AccumulateTypeTotals<T>(g: Grouped<T>, w: T -> int) returns (totals: map<string, int>)
    requires WellFormed(g)
    ensures totals == TypeTotalsOf(g, w)
  {
    totals := SumEachGroup(g, w);
    var overall := 0;
    for k := 0 to |g.keys|
      invariant overall == SumOfGroups(g.keys[..k], g.groups, w)
    {
      SumOfGroupsNext(g.keys, g.groups, w, k);
      overall := overall + totals[g.keys[k]];
    }
    assert g.keys[..|g.keys|] == g.keys;
    totals := totals["overall" := overall];
  }

  /** The `forEach` that assigns each group's sum under its type. */
  method SumEachGroup<T>(g: Grouped<T>, w: T -> int) returns (totals: map<string, int>)
    requires WellFormed(g)
    ensures totals == GroupSums(g, w)
  {
    totals := map[];
    for k := 0 to |g.keys|
      invariant forall t :: t in totals <==> t in g.keys[..k]
      invariant forall t :: t in totals ==> totals[t] == SumBy(g.groups[t], w)
    {
      assert g.keys[..k + 1] == g.keys[..k] + [g.keys[k]];
      totals := totals[g.keys[k] := SumBy(g.groups[g.keys[k]], w)];
    }
    TotalsByType(g, w, totals);
  }

  lemma SumOfGroupsNext<T>(keys: seq<string>, groups: map<string, seq<T>>, w: T -> int, k: int)
    requires forall t :: t in keys ==> t in groups
    requires 0 <= k < |keys|
    ensures SumOfGroups(keys[..k + 1], groups, w) == SumOfGroups(keys[..k], groups, w) + SumBy(groups[keys[k]], w)
  {
    assert keys[..k + 1][..k] == keys[..k];
  }

  /** After the `forEach`, the totals hold one sum per group and nothing else. */
  lemma TotalsByType<T>(g: Grouped<T>, w: T -> int, totals: map<string, int>)
    requires WellFormed(g)
    requires forall t :: t in totals <==> t in g.keys[..|g.keys|]
    requires forall t :: t in totals ==> totals[t] == SumBy(g.groups[t], w)
    ensures totals == GroupSums(g, w)
  {
    assert g.keys[..|g.keys|] == g.keys;
  }

  // ------------------------------------------ totals under an element map

  lemma {:induction false} SumByMap<S, T>(xs: seq<S>, ys: seq<T>, wx: S -> int, wy: T -> int)
    requires |ys| == |xs| && forall k :: 0 <= k < |xs| ==> wy(ys[k]) == wx(xs[k])
    ensures SumBy(ys, wy) == SumBy(xs, wx)
  {
    if xs != [] {
      SumByMap(xs[..|xs| - 1], ys[..|ys| - 1], wx, wy);
    }
  }

  /**
   * Grouping and totalling elements that are mapped one to one onto others
   * with the same type and weight gives the same totals.
   */
  lemma TypeTotalsMap<S, T>(xs: seq<S>, ys: seq<T>, typeX: S -> string, typeY: T -> string, wx: S -> int, wy: T -> int)
    requires |ys| == |xs|
    requires forall k :: 0 <= k < |xs| ==> typeY(ys[k]) == typeX(xs[k]) && wy(ys[k]) == wx(xs[k])
    ensures WellFormed(GroupedBy(xs, typeX)) && WellFormed(GroupedBy(ys, typeY))
    ensures TypeTotalsOf(GroupedBy(ys, typeY), wy) == TypeTotalsOf(GroupedBy(xs, typeX), wx)
  {
    TypeTotalsKeys(xs, typeX, wx);
    TypeTotalsKeys(ys, typeY, wy);
    var tx := TypeTotalsOf(GroupedBy(xs, typeX), wx);
    var ty := TypeTotalsOf(GroupedBy(ys, typeY), wy);
    assert TypesOf(xs, typeX) == TypesOf(ys, typeY);
    forall t | t in tx
      ensures tx[t] == ty[t]
    {
      if t == "overall" {
        TypeTotalsOverall(xs, typeX, wx);
        TypeTotalsOverall(ys, typeY, wy);
        SumByMap(xs, ys, wx, wy);
      } else {
        TypeTotalsPerType(xs, typeX, wx, t);
        TypeTotalsPerType(ys, typeY, wy, t);
        SumByMap(xs, ys, x => if typeX(x) == t then wx(x) else 0, y => if typeY(y) == t then wy(y) else 0);
      }
    }
  }
}
