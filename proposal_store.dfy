/**
 * The proposal slice of the store (src/store/slices/proposalSlice.js): the
 * client record, the selected services, the term, the payment conditions
 * and the free-text details, changed in place by the reducers.
 */
module ProposalStore {
  import opened Js
  import opened Pricing

  /** The fields an `updateService` payload may carry; `None` is an absent key. */
  datatype ServiceChanges = ServiceChanges(
    id: Option<string>,
    typeId: Option<string>,
    title: Option<string>,
    description: Option<string>,
    isMonthly: Option<bool>,
    term: Option<int>,
    qty: Option<int>,
    unitValue: Option<int>)

  function Pick<T>(change: Option<T>, current: T): T {
    match change
    case Some(v) => v
    case None => current
  }

  /** `{ ...s, ...changes }` */
  function Merge(s: Service, ch: ServiceChanges): Service {
    Service(
      Pick(ch.id, s.id), Pick(ch.typeId, s.typeId), Pick(ch.title, s.title),
      Pick(ch.description, s.description), Pick(ch.isMonthly, s.isMonthly),
      Pick(ch.term, s.term), Pick(ch.qty, s.qty), Pick(ch.unitValue, s.unitValue))
  }

  /** `services.findIndex(s => s.id === id)` */
  function FirstIndex(ss: seq<Service>, id: string): (r: int)
    ensures -1 <= r < |ss|
    ensures r == -1 <==> forall j :: 0 <= j < |ss| ==> ss[j].id != id
    ensures r >= 0 ==> ss[r].id == id && forall j :: 0 <= j < r ==> ss[j].id != id
  {
    if ss == [] then -1
    else if ss[0].id == id then 0
    else
      var r := FirstIndex(ss[1..], id);
      if r == -1 then -1 else r + 1
  }

  /**
   * The services after `updateService({ id, changes })`: the first service
   * with that id is merged with the changes.
   */
  function UpdateFirst(ss: seq<Service>, id: string, ch: ServiceChanges): (r: seq<Service>)
    ensures |r| == |ss|
    ensures forall j :: 0 <= j < |ss| && j != FirstIndex(ss, id) ==> r[j] == ss[j]
    ensures FirstIndex(ss, id) >= 0 ==> r[FirstIndex(ss, id)] == Merge(ss[FirstIndex(ss, id)], ch)
  {
    if ss == [] then []
    else if ss[0].id == id then [Merge(ss[0], ch)] + ss[1..]
    else [ss[0]] + UpdateFirst(ss[1..], id, ch)
  }

  /** `services.filter(s => s.id !== id)` */
  function RemoveId(ss: seq<Service>, id: string): (r: seq<Service>)
    ensures |r| <= |ss|
  {
    if ss == [] then []
    else (if ss[0].id != id then [ss[0]] else []) + RemoveId(ss[1..], id)
  }

  function InitialClient(): map<string, string> {
    map["name" := "", "company" := "", "email" := "", "phone" := ""]
  }

  /** The flat conditions of the initial state; per-type entries are added beside them. */
  function InitialPaymentConditions(): map<string, JsValue> {
    map["method" := Str(""), "entry" := Str(""), "installments" := Whole(1), "notes" := Str("")]
  }

  class Proposal {
    var client: map<string, string>
    var services: seq<Service>
    var term: int
    var paymentConditions: map<string, JsValue>
    var details: string

    predicate IsInitial()
      reads this
    {
      && client == InitialClient()
      && services == []
      && term == 1
      && paymentConditions == InitialPaymentConditions()
      && details == ""
    }

    /** `initialState` */
    constructor()
      ensures IsInitial()
    {
      client := InitialClient();
      services := [];
      term := 1;
      paymentConditions := InitialPaymentConditions();
      details := "";
    }

    /** `state.client[field] = value` */
    method SetClientField(field: string, value: string)
      modifies this
      ensures client == old(client)[field := value]
      ensures services == old(services) && term == old(term)
      ensures paymentConditions == old(paymentConditions) && details == old(details)
    {
      client := client[field := value];
    }

    /** `state.client = payload` */
    method SetClient(c: map<string, string>)
      modifies this
      ensures client == c
      ensures services == old(services) && term == old(term)
      ensures paymentConditions == old(paymentConditions) && details == old(details)
    {
      client := c;
    }

    /** `state.services.push(payload)` */
    method AddService(s: Service)
      modifies this
      ensures services == old(services) + [s]
      ensures client == old(client) && term == old(term)
      ensures paymentConditions == old(paymentConditions) && details == old(details)
    {
      services := services + [s];
    }

    /** Finds the first service with `id` and, if there is one, merges `changes` into it. */
    method UpdateService(id: string, ch: ServiceChanges)
      modifies this
      ensures services == UpdateFirst(old(services), id, ch)
      ensures client == old(client) && term == old(term)
      ensures paymentConditions == old(paymentConditions) && details == old(details)
    {
      var i := FirstIndex(services, id);
      if i != -1 {
        services := services[i := Merge(services[i], ch)];
      }
      assert services == UpdateFirst(old(services), id, ch);
    }

    /** `state.services = state.services.filter(s => s.id !== id)` */
    method RemoveService(id: string)
      modifies this
      ensures services == RemoveId(old(services), id)
      ensures client == old(client) && term == old(term)
      ensures paymentConditions == old(paymentConditions) && details == old(details)
    {
      services := RemoveId(services, id);
    }

    method SetTerm(t: int)
      modifies this
      ensures term == t
      ensures client == old(client) && services == old(services)
      ensures paymentConditions == old(paymentConditions) && details == old(details)
    {
      term := t;
    }

    /** `state.paymentConditions = { ...state.paymentConditions, ...payload }` */
    method SetPaymentConditions(payload: map<string, JsValue>)
      modifies this
      ensures paymentConditions == Spread(old(paymentConditions), payload)
      ensures client == old(client) && services == old(services)
      ensures term == old(term) && details == old(details)
    {
      paymentConditions := Spread(paymentConditions, payload);
    }

    method SetDetails(d: string)
      modifies this
      ensures details == d
      ensures client == old(client) && services == old(services)
      ensures term == old(term) && paymentConditions == old(paymentConditions)
    {
      details := d;
    }

    /** `resetProposal` returns `initialState`. */
    method ResetProposal()
      modifies this
      ensures IsInitial()
    {
      client := InitialClient();
      services := [];
      term := 1;
      paymentConditions := InitialPaymentConditions();
      details := "";
    }
  }

  // ---------------------------------------------------------------- lemmas

  /** Merging the same changes twice is merging them once; no changes change nothing. */
  lemma MergeProperties(s: Service, ch: ServiceChanges)
    ensures Merge(Merge(s, ch), ch) == Merge(s, ch)
    ensures Merge(s, ServiceChanges(None, None, None, None, None, None, None, None)) == s
    ensures ch.qty.Some? ==> Merge(s, ch).qty == ch.qty.value
    ensures ch.qty.None? ==> Merge(s, ch).qty == s.qty
  {
  }

  /** Updating an id that no service has leaves the list as it is. */
  lemma UpdateAbsent(ss: seq<Service>, id: string, ch: ServiceChanges)
    requires forall j :: 0 <= j < |ss| ==> ss[j].id != id
    ensures UpdateFirst(ss, id, ch) == ss
  {
  }

  /** Only the first of several services with the same id is updated. */
  lemma UpdateOnlyFirst(ss: seq<Service>, id: string, ch: ServiceChanges, j: int)
    requires 0 <= j < |ss| && ss[j].id == id
    requires exists i :: 0 <= i < j && ss[i].id == id
    ensures UpdateFirst(ss, id, ch)[j] == ss[j]
  {
  }

  /** Removal is a filter: it splits over concatenation, so the survivors keep their order. */
  lemma {:induction false} RemoveIdAppend(a: seq<Service>, b: seq<Service>, id: string)
    ensures RemoveId(a + b, id) == RemoveId(a, id) + RemoveId(b, id)
  {
    if a == [] {
      assert a + b == b;
    } else {
      var head: seq<Service> := if a[0].id != id then [a[0]] else [];
      assert (a + b)[0] == a[0];
      assert (a + b)[1..] == a[1..] + b;
      assert RemoveId(a + b, id) == head + RemoveId(a[1..] + b, id);
      RemoveIdAppend(a[1..], b, id);
      assert RemoveId(a, id) == head + RemoveId(a[1..], id);
    }
  }

  /** What survives the removal: exactly the services with another id. */
  lemma {:induction false} RemoveIdMembers(ss: seq<Service>, id: string)
    ensures forall s :: s in RemoveId(ss, id) <==> s in ss && s.id != id
  {
    if ss != [] {
      RemoveIdMembers(ss[1..], id);
      assert ss == [ss[0]] + ss[1..];
    }
  }

  function CountId(ss: seq<Service>, id: string): nat {
    if ss == [] then 0 else (if ss[0].id == id then 1 else 0) + CountId(ss[1..], id)
  }

  /** Every service with that id goes, and nothing else. */
  lemma {:induction false} RemoveIdLength(ss: seq<Service>, id: string)
    ensures |RemoveId(ss, id)| == |ss| - CountId(ss, id)
  {
    if ss != [] {
      RemoveIdLength(ss[1..], id);
    }
  }

  lemma {:induction false} RemoveIdIdempotent(ss: seq<Service>, id: string)
    ensures RemoveId(RemoveId(ss, id), id) == RemoveId(ss, id)
  {
    if ss != [] {
      RemoveIdIdempotent(ss[1..], id);
      var rest := RemoveId(ss[1..], id);
      if ss[0].id != id {
        assert ([ss[0]] + rest)[1..] == rest;
      } else {
        assert [] + rest == rest;
      }
    }
  }

  /** Adding a service and removing its id again leaves the services that had other ids. */
  lemma AddThenRemove(ss: seq<Service>, s: Service)
    ensures RemoveId(ss + [s], s.id) == RemoveId(ss, s.id)
  {
    RemoveIdAppend(ss, [s], s.id);
    assert RemoveId([s], s.id) == [];
  }

  /** A per-type entry merged beside the flat initial conditions keeps them. */
  lemma SpreadKeepsFlatConditions(t: string, v: JsValue)
    requires t !in {"method", "entry", "installments", "notes"}
    ensures var c := Spread(InitialPaymentConditions(), map[t := v]);
      && c["installments"] == Whole(1) && c["method"] == Str("")
      && c[t] == v && |c.Keys| == 5
  {
    var c := Spread(InitialPaymentConditions(), map[t := v]);
    assert c.Keys == {"method", "entry", "installments", "notes", t};
  }
  /** Removing an id that no service has leaves the list as it is. */
  lemma {:induction false} RemoveIdAbsent(ss: seq<Service>, id: string)
    requires forall j :: 0 <= j < |ss| ==> ss[j].id != id
    ensures RemoveId(ss, id) == ss
  {
    if ss != [] {
      RemoveIdAbsent(ss[1..], id);
      assert [ss[0]] + ss[1..] == ss;
    }
  }

  /** `findIndex` by id only looks at the ids. */
  lemma {:induction false} FirstIndexSameIds(a: seq<Service>, b: seq<Service>, id: string)
    requires |a| == |b| && forall j :: 0 <= j < |a| ==> a[j].id == b[j].id
    ensures FirstIndex(a, id) == FirstIndex(b, id)
  {
    if a != [] {
      FirstIndexSameIds(a[1..], b[1..], id);
    }
  }

  /** Changes that leave the id alone keep the updated service where `findIndex` finds it. */
  lemma UpdateKeepsFirstIndex(ss: seq<Service>, id: string, ch: ServiceChanges)
    requires ch.id.None?
    ensures FirstIndex(UpdateFirst(ss, id, ch), id) == FirstIndex(ss, id)
  {
    FirstIndexSameIds(UpdateFirst(ss, id, ch), ss, id);
  }
}
