/**
 * The payment-conditions step (src/components/StepCondicoes.jsx): it groups
 * the raw selected services by type, totals each group with its own copy of
 * the subtotal formula, and edits one field of one type's conditions at a
 * time through `setPaymentConditions`.
 */
module Condicoes {
  import opened Js
  import opened Pricing
  import opened Grouping
  import opened ProposalStore

  /** The step's own subtotal: `unitValue * qty * (isMonthly ? term || 1 : 1)`. */
  function CondicoesWeight(s: Service): int {
    s.unitValue * s.qty * EffectiveTerm(s)
  }

  /** The step's formula is the line-item subtotal of `buildItems`. */
  lemma CondicoesWeightIsSubtotal(s: Service)
    ensures CondicoesWeight(s) == Subtotal(s) == Annotate(s).subtotal
  {
  }

  /** The `grouped` and `totals` memos over the raw services. */
  method CondicoesData(services: seq<Service>) returns (grouped: Grouped<Service>, totals: map<string, int>)
    ensures grouped == GroupedBy(services, ServiceTypeOf) && WellFormed(grouped)
    ensures totals == TypeTotalsOf(grouped, CondicoesWeight)
  {
    grouped := GroupByType(services, ServiceTypeOf);
    GroupingWellFormed(services, ServiceTypeOf);
    totals := AccumulateTypeTotals(grouped, CondicoesWeight);
  }

  /**
   * The step's totals are those of `calcTypeTotals(groupByType(buildItems(services)))`.
   */
  lemma CondicoesTotalsAgree(services: seq<Service>)
    ensures WellFormed(GroupedBy(services, ServiceTypeOf))
    ensures WellFormed(GroupedBy(BuildItems(services), ItemTypeOf))
    ensures TypeTotalsOf(GroupedBy(services, ServiceTypeOf), CondicoesWeight)
         == TypeTotalsOf(GroupedBy(BuildItems(services), ItemTypeOf), ItemSubtotal)
  {
    var items := AnnotateAll(services);
    TypeTotalsMap(services, items, ServiceTypeOf, ItemTypeOf, CondicoesWeight, ItemSubtotal);
    BuildItemsSpec(services);
    TypeTotalsPermutation(items, BuildItems(services), ItemTypeOf, ItemSubtotal);
  }

  /** The payload of `handleChange(typeId, field, value)`: `{ [typeId]: { ...(cond[typeId] || {}), [field]: value } }`. */
  function ConditionPatch(cond: map<string, JsValue>, typeId: string, field: string, value: JsValue): map<string, JsValue> {
    map[typeId := Obj(SpreadFields(Or(Lookup(cond, typeId), Obj(map[])))[field := value])]
  }

  /**
   * Merged into the conditions, the patch sets `field` of type `typeId` and
   * keeps that type's other fields and every other type's conditions.
   */
  lemma ConditionPatchEffect(cond: map<string, JsValue>, typeId: string, field: string, value: JsValue)
    ensures var c := Spread(cond, ConditionPatch(cond, typeId, field, value));
      && c.Keys == cond.Keys + {typeId}
      && (forall t :: t in cond && t != typeId ==> c[t] == cond[t])
      && Prop(c[typeId], field) == value
      && (forall f :: f != field ==> Prop(c[typeId], f) == Prop(Lookup(cond, typeId), f))
  {
  }

  /** `handleChange` dispatching its patch to the store. */
  method HandleChange(store: Proposal, typeId: string, field: string, value: JsValue)
    modifies store
    ensures store.paymentConditions
         == Spread(old(store.paymentConditions), ConditionPatch(old(store.paymentConditions), typeId, field, value))
    ensures store.services == old(store.services) && store.client == old(store.client)
    ensures store.term == old(store.term) && store.details == old(store.details)
  {
    var patch := ConditionPatch(store.paymentConditions, typeId, field, value);
    store.SetPaymentConditions(patch);
  }

  /**
   * The installments field stores `Number(e.target.value)`: a number or NaN,
   * 0 for a cleared field, and the typed count for a run of digits.
   */
  function InstallmentsInput(text: string): (r: JsValue)
    ensures r.Num? || r.NaN?
    ensures AllSpace(text) ==> r == Num(0)
    ensures text != [] && AllDigits(text) ==> r == Whole(DigitsValue(text))
  {
    StringToNumberOfText(text);
    ToNumber(Str(text))
  }

  /** A cleared installments field is stored as 0, and a typed whole number as itself. */
  lemma InstallmentsInputExamples(n: int)
    ensures InstallmentsInput("") == Num(0)
    ensures InstallmentsInput(ToStr(Whole(n))) == Whole(n)
  {
    NumberToStringRoundTrip(n * 100);
  }
}
