/**
 * The proposal preview (src/components/StepPreview.jsx): its own unsorted
 * item list, grouping and per-type totals, the rule for which package
 * sections it renders, and the `'-'` shown for a missing payment field.
 */
module Preview {
  import opened Js
  import opened Pricing
  import opened Grouping
  import opened Catalog

  /**
   * The `items`, `grouped` and `typeTotals` memos: the services annotated in
   * input order (no sort), grouped by type by pushing into an accumulator,
   * and totalled by a `forEach`.
   */
  method PreviewData(services: seq<Service>) returns (items: seq<Item>, grouped: Grouped<Item>, typeTotals: map<string, int>)
    ensures |items| == |services| && forall i :: 0 <= i < |services| ==> items[i] == Annotate(services[i])
    ensures grouped == GroupedBy(items, ItemTypeOf) && WellFormed(grouped)
    ensures typeTotals == TypeTotalsOf(grouped, ItemSubtotal)
  {
    items := AnnotateAll(services);
    grouped := GroupByType(items, ItemTypeOf);
    GroupingWellFormed(items, ItemTypeOf);
    typeTotals := AccumulateTypeTotals(grouped, ItemSubtotal);
  }

  /**
   * The preview's totals equal those of `calcTypeTotals(groupByType(buildItems(services)))`:
   * the sort only reorders the items, and totals do not depend on order.
   */
  lemma PreviewTotalsAgree(services: seq<Service>)
    ensures WellFormed(GroupedBy(AnnotateAll(services), ItemTypeOf))
    ensures WellFormed(GroupedBy(BuildItems(services), ItemTypeOf))
    ensures TypeTotalsOf(GroupedBy(AnnotateAll(services), ItemTypeOf), ItemSubtotal)
         == TypeTotalsOf(GroupedBy(BuildItems(services), ItemTypeOf), ItemSubtotal)
  {
    BuildItemsSpec(services);
    TypeTotalsPermutation(AnnotateAll(services), BuildItems(services), ItemTypeOf, ItemSubtotal);
  }

  /** A package section is rendered exactly for the catalog types some selected service has. */
  lemma SectionShownIffSelected(catalog: seq<ServiceType>, services: seq<Service>, ty: ServiceType)
    ensures ty in VisibleTypes(catalog, GroupedBy(AnnotateAll(services), ItemTypeOf))
        <==> ty in catalog && exists k :: 0 <= k < |services| && services[k].typeId == ty.id
  {
    var items := AnnotateAll(services);
    VisibleIffPresent(catalog, items, ItemTypeOf, ty);
    assert forall k :: 0 <= k < |services| ==> ItemTypeOf(items[k]) == services[k].typeId;
  }

  /** `payment[type.id]?.method || '-'` (and likewise `entry` and `installments`). */
  function PaymentField(payment: map<string, JsValue>, typeId: string, field: string): (r: JsValue)
    ensures Truthy(r)
    ensures Truthy(Prop(Lookup(payment, typeId), field)) ==> r == Prop(Lookup(payment, typeId), field)
    ensures !Truthy(Prop(Lookup(payment, typeId), field)) ==> r == Str("-")
  {
    Or(Prop(Lookup(payment, typeId), field), Str("-"))
  }

  /** A type without conditions shows `'-'` for every field. */
  lemma PaymentFieldMissing(payment: map<string, JsValue>, typeId: string, field: string)
    requires typeId !in payment
    ensures PaymentField(payment, typeId, field) == Str("-")
  {
  }
}
