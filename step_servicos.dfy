/**
 * The service-selection step (src/components/StepServicos.jsx): it walks
 * the catalog one package type at a time, lists the type's services merged
 * with what the proposal already holds, and turns a checkbox, a quantity or
 * a price typed by the user into `addService`, `removeService` and
 * `updateService` calls on the proposal store.
 */
module Servicos {
  import opened Js
  import opened Money
  import opened Pricing
  import opened Catalog
  import opened ProposalStore

  /** A catalog service as the step lists it: `{ ...svc, selected, qty, unitValue }`. */
  datatype ServiceView = ServiceView(svc: CatalogService, selected: bool, qty: int, unitValue: int)

  /**
   * One entry of the effect's `map`: `selectedServices.find(item => item.id === svc.id)`
   * decides whether the service is selected and, if so, which stored
   * quantity and price are shown; otherwise the quantity is 0 and the price
   * the catalog default.
   */
  function ViewEntry(svc: CatalogService, selected: seq<Service>): (v: ServiceView)
    ensures v.svc == svc
    ensures v.selected <==> exists j :: 0 <= j < |selected| && selected[j].id == svc.id
    ensures v.selected ==> exists j :: (0 <= j < |selected| && selected[j].id == svc.id
              && (forall k :: 0 <= k < j ==> selected[k].id != svc.id)
              && v.qty == selected[j].qty && v.unitValue == selected[j].unitValue)
    ensures !v.selected ==> v.qty == 0 && v.unitValue == svc.defaultUnitValue
  {
    var i := FirstIndex(selected, svc.id);
    if i >= 0 then ServiceView(svc, true, selected[i].qty, selected[i].unitValue)
    else ServiceView(svc, false, 0, svc.defaultUnitValue)
  }

  /** The list the effect stores: one entry per service of the current type, in catalog order. */
  function ViewOf(cs: seq<CatalogService>, selected: seq<Service>): (r: seq<ServiceView>)
    ensures |r| == |cs|
    ensures forall i :: 0 <= i < |cs| ==> r[i].svc == cs[i]
  {
    seq(|cs|, i requires 0 <= i < |cs| => ViewEntry(cs[i], selected))
  }

  /** The payload `toggleSelect` adds: quantity 1, the default price, no term. */
  function NewService(ty: ServiceType, svc: CatalogService): Service {
    Service(svc.id, ty.id, svc.title, svc.description, svc.isMonthly, 0, 1, svc.defaultUnitValue)
  }

  function QtyChange(qty: int): ServiceChanges {
    ServiceChanges(None, None, None, None, None, None, Some(qty), None)
  }

  function UnitValueChange(value: int): ServiceChanges {
    ServiceChanges(None, None, None, None, None, None, None, Some(value))
  }

  /** What a navigation button does besides moving: stay on the step, or call `onBack` / `onNext`. */
  datatype Nav = Stay | Back | Forward

  /**
   * `handlePrev` on type `i`: the previous type, or `onBack()` on the first.
   * The index stays a valid type index.
   */
  function PrevType(i: int, total: int): (r: (int, Nav))
    requires 0 <= i < total
    ensures 0 <= r.0 < total
    ensures r.1 == Stay <==> i > 0
    ensures r.1 == Back <==> i == 0
    ensures r.1 == Stay ==> r.0 == i - 1
    ensures r.1 != Stay ==> r.0 == i
  {
    if i > 0 then (i - 1, Stay) else (i, Back)
  }

  /**
   * `handleNext` on type `i`: the next type, or `onNext()` on the last.
   * The index stays a valid type index.
   */
  function NextType(i: int, total: int): (r: (int, Nav))
    requires 0 <= i < total
    ensures 0 <= r.0 < total
    ensures r.1 == Stay <==> i < total - 1
    ensures r.1 == Forward <==> i == total - 1
    ensures r.1 == Stay ==> r.0 == i + 1
    ensures r.1 != Stay ==> r.0 == i
  {
    if i < total - 1 then (i + 1, Stay) else (i, Forward)
  }

  class ServicosStep {
    const catalog: seq<ServiceType>
    var typeIndex: int
    var services: seq<ServiceView>

    predicate Valid()
      reads this
    {
      0 <= typeIndex < |catalog|
    }

    function CurrentType(): ServiceType
      reads this
      requires Valid()
    {
      catalog[typeIndex]
    }

    /** The step opens on the first type with an empty list, filled by the first effect. */
    constructor(catalog: seq<ServiceType>)
      requires |catalog| > 0
      ensures Valid() && this.catalog == catalog
      ensures typeIndex == 0 && services == []
    {
      this.catalog := catalog;
      typeIndex := 0;
      services := [];
    }

    /** The effect run when the type or the selected services change. */
    method Refresh(store: Proposal)
      requires Valid()
      modifies this
      ensures Valid() && typeIndex == old(typeIndex)
      ensures services == ViewOf(CurrentType().services, store.services)
    {
      services := ViewOf(catalog[typeIndex].services, store.services);
    }

    /** `toggleSelect(svc)`: remove a selected service, add an unselected one. */
    method ToggleSelect(store: Proposal, v: ServiceView)
      requires Valid()
      modifies store
      ensures v.selected ==> store.services == RemoveId(old(store.services), v.svc.id)
      ensures !v.selected ==> store.services == old(store.services) + [NewService(CurrentType(), v.svc)]
      ensures store.client == old(store.client) && store.term == old(store.term)
      ensures store.paymentConditions == old(store.paymentConditions) && store.details == old(store.details)
    {
      if v.selected {
        store.RemoveService(v.svc.id);
      } else {
        store.AddService(NewService(catalog[typeIndex], v.svc));
      }
    }

    /** `changeQty(id, qty)` */
    method ChangeQty(store: Proposal, id: string, qty: int)
      modifies store
      ensures store.services == UpdateFirst(old(store.services), id, QtyChange(qty))
      ensures store.client == old(store.client) && store.term == old(store.term)
      ensures store.paymentConditions == old(store.paymentConditions) && store.details == old(store.details)
    {
      store.UpdateService(id, QtyChange(qty));
    }

    /** `changeUnitValue(id, parseCurrency(text))` */
    method ChangeUnitValue(store: Proposal, id: string, text: string)
      modifies store
      ensures store.services == UpdateFirst(old(store.services), id, UnitValueChange(ParseCurrency(text)))
      ensures store.client == old(store.client) && store.term == old(store.term)
      ensures store.paymentConditions == old(store.paymentConditions) && store.details == old(store.details)
    {
      store.UpdateService(id, UnitValueChange(ParseCurrency(text)));
    }

    method HandlePrev() returns (nav: Nav)
      requires Valid()
      modifies this
      ensures Valid() && services == old(services)
      ensures (typeIndex, nav) == PrevType(old(typeIndex), |catalog|)
    {
      if typeIndex > 0 {
        typeIndex := typeIndex - 1;
        nav := Stay;
      } else {
        nav := Back;
      }
    }

    method HandleNext() returns (nav: Nav)
      requires Valid()
      modifies this
      ensures Valid() && services == old(services)
      ensures (typeIndex, nav) == NextType(old(typeIndex), |catalog|)
    {
      if typeIndex < |catalog| - 1 {
        typeIndex := typeIndex + 1;
        nav := Stay;
      } else {
        nav := Forward;
      }
    }
  }

  // ---------------------------------------------------------------- lemmas

  /** Going forward and then back returns to the same type, and the other way round. */
  lemma NavigationRoundTrip(i: int, total: int)
    requires 0 <= i < total
    ensures i < total - 1 ==> PrevType(NextType(i, total).0, total) == (i, Stay)
    ensures i > 0 ==> NextType(PrevType(i, total).0, total) == (i, Stay)
  {
  }

  /**
   * Checking an unselected service adds it, after which the list shows it
   * selected with quantity 1 and the catalog price.
   */
  lemma ToggleOnShowsSelected(ss: seq<Service>, ty: ServiceType, svc: CatalogService)
    requires forall j :: 0 <= j < |ss| ==> ss[j].id != svc.id
    ensures !ViewEntry(svc, ss).selected
    ensures ViewEntry(svc, ss + [NewService(ty, svc)]) == ServiceView(svc, true, 1, svc.defaultUnitValue)
  {
    var ss' := ss + [NewService(ty, svc)];
    assert ss'[|ss|].id == svc.id;
    assert forall k :: 0 <= k < |ss| ==> ss'[k] == ss[k];
  }

  /** Unchecking removes every stored copy of the service, after which it shows as unselected. */
  lemma ToggleOffShowsUnselected(ss: seq<Service>, svc: CatalogService)
    ensures ViewEntry(svc, RemoveId(ss, svc.id)) == ServiceView(svc, false, 0, svc.defaultUnitValue)
  {
    var r := RemoveId(ss, svc.id);
    RemoveIdMembers(ss, svc.id);
    assert forall j :: 0 <= j < |r| ==> r[j] in r;
  }

  /** Checking a service and unchecking it again restores the stored services. */
  lemma ToggleTwice(ss: seq<Service>, ty: ServiceType, svc: CatalogService)
    requires forall j :: 0 <= j < |ss| ==> ss[j].id != svc.id
    ensures RemoveId(ss + [NewService(ty, svc)], svc.id) == ss
  {
    AddThenRemove(ss, NewService(ty, svc));
    RemoveIdAbsent(ss, svc.id);
  }

  /** A quantity typed for a selected service is the quantity the list shows next, beside the same price. */
  lemma ChangeQtyShown(ss: seq<Service>, svc: CatalogService, qty: int)
    requires ViewEntry(svc, ss).selected
    ensures ViewEntry(svc, UpdateFirst(ss, svc.id, QtyChange(qty))).selected
    ensures ViewEntry(svc, UpdateFirst(ss, svc.id, QtyChange(qty))).qty == qty
    ensures ViewEntry(svc, UpdateFirst(ss, svc.id, QtyChange(qty))).unitValue == ViewEntry(svc, ss).unitValue
  {
    UpdateKeepsFirstIndex(ss, svc.id, QtyChange(qty));
  }

  /** A price set for a selected service is the price the list shows next, beside the same quantity. */
  lemma ChangeUnitValueShown(ss: seq<Service>, svc: CatalogService, value: int)
    requires ViewEntry(svc, ss).selected
    ensures ViewEntry(svc, UpdateFirst(ss, svc.id, UnitValueChange(value))).selected
    ensures ViewEntry(svc, UpdateFirst(ss, svc.id, UnitValueChange(value))).unitValue == value
    ensures ViewEntry(svc, UpdateFirst(ss, svc.id, UnitValueChange(value))).qty == ViewEntry(svc, ss).qty
  {
    UpdateKeepsFirstIndex(ss, svc.id, UnitValueChange(value));
  }

  /** Every entry of the list is the merge of its catalog service with the store. */
  lemma ViewOfEntries(cs: seq<CatalogService>, selected: seq<Service>, i: int)
    requires 0 <= i < |cs|
    ensures ViewOf(cs, selected)[i] == ViewEntry(cs[i], selected)
  {
  }
}
