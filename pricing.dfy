/**
 * Line items of a proposal (`buildItems` in src/utils/proposalCalc.js):
 * every selected service gets its effective term and its subtotal, and the
 * items are ordered by decreasing subtotal with a stable sort.
 * Money is integer cents.
 */
module Pricing {

  /** A selected service as the proposal store keeps it; `term` is 0 when absent. */
  datatype Service = Service(
    id: string,
    typeId: string,
    title: string,
    description: string,
    isMonthly: bool,
    term: int,
    qty: int,
    unitValue: int)

  /** `{ ...svc, term, subtotal }` */
  datatype Item = Item(service: Service, subtotal: int)

  /** `svc.isMonthly ? svc.term || 1 : 1` */
  function EffectiveTerm(s: Service): int {
    if s.isMonthly then (if s.term == 0 then 1 else s.term) else 1
  }

  /** `unitValue * qty * term` for a monthly service, `unitValue * qty` otherwise. */
  function Subtotal(s: Service): int {
    if s.isMonthly then s.unitValue * s.qty * EffectiveTerm(s) else s.unitValue * s.qty
  }

  function Annotate(s: Service): Item {
    Item(s.(term := EffectiveTerm(s)), Subtotal(s))
  }

  function ItemSubtotal(it: Item): int {
    it.subtotal
  }

  function ItemTypeOf(it: Item): string {
    it.service.typeId
  }

  function ServiceTypeOf(s: Service): string {
    s.typeId
  }

  /** `services.map(...)`, before the sort. */
  function AnnotateAll(ss: seq<Service>): (r: seq<Item>)
    ensures |r| == |ss|
    ensures forall i :: 0 <= i < |ss| ==> r[i] == Annotate(ss[i])
  {
    if ss == [] then [] else [Annotate(ss[0])] + AnnotateAll(ss[1..])
  }

  // ------------------------------------------------------------ stable sort

  predicate NonIncreasing(xs: seq<Item>) {
    forall i, j :: 0 <= i < j < |xs| ==> xs[i].subtotal >= xs[j].subtotal
  }

  /** The items whose subtotal is `v`, in order. */
  function WithSubtotal(xs: seq<Item>, v: int): (r: seq<Item>)
    ensures |r| <= |xs|
  {
    if xs == [] then []
    else (if xs[0].subtotal == v then [xs[0]] else []) + WithSubtotal(xs[1..], v)
  }

  /**
   * Places `x` before the first item whose subtotal is not larger, so that
   * `x` precedes the items of equal subtotal that came after it in the input.
   */
  function Insert(x: Item, ys: seq<Item>): (r: seq<Item>)
    ensures multiset(r) == multiset(ys) + multiset{x}
  {
    if ys == [] || ys[0].subtotal <= x.subtotal then
      [x] + ys
    else
      assert ys == [ys[0]] + ys[1..];
      [ys[0]] + Insert(x, ys[1..])
  }

  lemma {:induction false} InsertNonIncreasing(x: Item, ys: seq<Item>)
    requires NonIncreasing(ys)
    ensures NonIncreasing(Insert(x, ys))
  {
    if ys != [] && ys[0].subtotal > x.subtotal {
      var y, tail := ys[0], ys[1..];
      assert NonIncreasing(tail);
      InsertNonIncreasing(x, tail);
      InsertBelow(x, tail, y.subtotal);
      ConsNonIncreasing(y, Insert(x, tail));
    }
  }

  /** Inserting an item no larger than a bound into items no larger than it keeps them all below it. */
  lemma {:induction false} InsertBelow(x: Item, ys: seq<Item>, b: int)
    requires x.subtotal <= b && forall k :: 0 <= k < |ys| ==> ys[k].subtotal <= b
    ensures forall k :: 0 <= k < |Insert(x, ys)| ==> Insert(x, ys)[k].subtotal <= b
  {
    if ys != [] && ys[0].subtotal > x.subtotal {
      InsertBelow(x, ys[1..], b);
      assert Insert(x, ys) == [ys[0]] + Insert(x, ys[1..]);
    }
  }

  lemma ConsNonIncreasing(y: Item, ys: seq<Item>)
    requires NonIncreasing(ys) && forall k :: 0 <= k < |ys| ==> ys[k].subtotal <= y.subtotal
    ensures NonIncreasing([y] + ys)
  {
    forall i, j | 0 <= i < j < |[y] + ys|
      ensures ([y] + ys)[i].subtotal >= ([y] + ys)[j].subtotal
    {
      assert ([y] + ys)[j] == ys[j - 1];
      if i > 0 {
        assert ([y] + ys)[i] == ys[i - 1];
      }
    }
  }

  /** Items of equal subtotal keep their relative order, with `x` first. */
  lemma {:induction false} InsertStable(x: Item, ys: seq<Item>, v: int)
    ensures WithSubtotal(Insert(x, ys), v) == WithSubtotal([x] + ys, v)
  {
    if ys == [] || ys[0].subtotal <= x.subtotal {
    } else {
      var y, tail := ys[0], ys[1..];
      var rest := Insert(x, tail);
      var hx := if x.subtotal == v then [x] else [];
      var hy := if y.subtotal == v then [y] else [];
      assert WithSubtotal(Insert(x, ys), v) == hy + (hx + WithSubtotal(tail, v)) by {
        assert Insert(x, ys) == [y] + rest;
        WithSubtotalCons(y, rest, v);
        InsertStable(x, tail, v);
        WithSubtotalCons(x, tail, v);
      }
      assert WithSubtotal([x] + ys, v) == hx + (hy + WithSubtotal(tail, v)) by {
        assert ys == [y] + tail;
        WithSubtotalCons(x, ys, v);
        WithSubtotalCons(y, tail, v);
      }
      assert hx == [] || hy == [];
    }
  }

  lemma WithSubtotalCons(y: Item, ys: seq<Item>, v: int)
    ensures WithSubtotal([y] + ys, v) == (if y.subtotal == v then [y] else []) + WithSubtotal(ys, v)
  {
    assert ([y] + ys)[1..] == ys;
  }

  /** `.sort((a, b) => b.subtotal - a.subtotal)`: a stable sort, largest subtotal first. */
  function SortBySubtotal(xs: seq<Item>): (r: seq<Item>)
    ensures multiset(r) == multiset(xs)
    ensures NonIncreasing(r)
    ensures forall v :: WithSubtotal(r, v) == WithSubtotal(xs, v)
  {
    if xs == [] then []
    else
      var sorted := SortBySubtotal(xs[1..]);
      assert xs == [xs[0]] + xs[1..];
      InsertNonIncreasing(xs[0], sorted);
      assert forall v :: WithSubtotal(Insert(xs[0], sorted), v) == WithSubtotal(xs, v) by {
        forall v ensures WithSubtotal(Insert(xs[0], sorted), v) == WithSubtotal(xs, v) {
          InsertStable(xs[0], sorted, v);
          assert ([xs[0]] + sorted)[1..] == sorted;
        }
      }
      Insert(xs[0], sorted)
  }

  /** `buildItems(services)` */
  function BuildItems(ss: seq<Service>): seq<Item> {
    SortBySubtotal(AnnotateAll(ss))
  }

  // ---------------------------------------------------------------- lemmas

  /**
   * The items are the annotated services, largest subtotal first, and
   * services of equal subtotal keep their input order.
   */
  lemma BuildItemsSpec(ss: seq<Service>)
    ensures multiset(BuildItems(ss)) == multiset(AnnotateAll(ss))
    ensures NonIncreasing(BuildItems(ss))
    ensures forall v :: WithSubtotal(BuildItems(ss), v) == WithSubtotal(AnnotateAll(ss), v)
  {
  }

  /** An item keeps every field of its service except `term`, which becomes the effective term. */
  lemma AnnotateFields(s: Service)
    ensures Annotate(s).service.(term := s.term) == s
    ensures Annotate(s).service.term >= 1 || (s.isMonthly && s.term < 0)
    ensures !s.isMonthly ==> Annotate(s).service.term == 1
    ensures s.isMonthly && s.term != 0 ==> Annotate(s).service.term == s.term
    ensures Annotate(s).subtotal == s.unitValue * s.qty * Annotate(s).service.term
  {
  }

  /** Annotating an item's own service again gives the same item. */
  lemma AnnotateIdempotent(s: Service)
    ensures Annotate(Annotate(s).service) == Annotate(s)
  {
  }

  /** Non-negative prices, quantities and terms give a non-negative subtotal. */
  lemma SubtotalNonNegative(s: Service)
    requires s.unitValue >= 0 && s.qty >= 0 && s.term >= 0
    ensures Subtotal(s) >= 0
  {
  }

  /** A sorted list's first item has the largest subtotal. */
  lemma BuildItemsHeadIsLargest(ss: seq<Service>)
    requires ss != []
    ensures forall i :: 0 <= i < |ss| ==> Subtotal(ss[i]) <= BuildItems(ss)[0].subtotal
  {
    var xs := AnnotateAll(ss);
    var r := BuildItems(ss);
    assert |r| == |ss| by {
      assert |multiset(r)| == |multiset(xs)|;
    }
    forall i | 0 <= i < |ss|
      ensures Subtotal(ss[i]) <= r[0].subtotal
    {
      assert xs[i] in multiset(r);
      var j :| 0 <= j < |r| && r[j] == xs[i];
    }
  }
}
