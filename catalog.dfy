/**
 * The service catalog (`servicesCatalog.serviceTypes`): package types in
 * display order, each with its services. The steps that list packages show
 * a type only when the current grouping has a non-empty group for it.
 */
module Catalog {
  import opened Grouping

  datatype CatalogService = CatalogService(
    id: string,
    title: string,
    description: string,
    isMonthly: bool,
    defaultUnitValue: int)

  datatype ServiceType = ServiceType(id: string, name: string, services: seq<CatalogService>)

  /** `grouped[type.id] || []` */
  function GroupOf<T>(g: Grouped<T>, t: string): seq<T> {
    if t in g.groups then g.groups[t] else []
  }

  /**
   * The catalog types whose group is non-empty, in catalog order: the types
   * `serviceTypes.map(type => list.length === 0 ? null : ...)` renders.
   */
  function VisibleTypes<T>(catalog: seq<ServiceType>, g: Grouped<T>): (r: seq<ServiceType>)
    ensures |r| <= |catalog|
    ensures forall ty :: ty in r <==> ty in catalog && GroupOf(g, ty.id) != []
  {
    if catalog == [] then []
    else
      var rest := VisibleTypes(catalog[1..], g);
      assert forall ty :: ty in catalog <==> ty == catalog[0] || ty in catalog[1..];
      if GroupOf(g, catalog[0].id) != [] then [catalog[0]] + rest else rest
  }

  /** Filtering splits over concatenation, so the visible types keep the catalog's order. */
  lemma {:induction false} VisibleTypesAppend<T>(a: seq<ServiceType>, b: seq<ServiceType>, g: Grouped<T>)
    ensures VisibleTypes(a + b, g) == VisibleTypes(a, g) + VisibleTypes(b, g)
  {
    if a == [] {
      assert a + b == b;
    } else {
      assert (a + b)[0] == a[0];
      assert (a + b)[1..] == a[1..] + b;
      VisibleTypesAppend(a[1..], b, g);
    }
  }

  /**
   * Over a grouping of `xs`, a catalog type is shown exactly when some
   * element of `xs` has that type.
   */
  lemma VisibleIffPresent<T>(catalog: seq<ServiceType>, xs: seq<T>, typeOf: T -> string, ty: ServiceType)
    ensures ty in VisibleTypes(catalog, GroupedBy(xs, typeOf))
        <==> ty in catalog && exists k :: 0 <= k < |xs| && typeOf(xs[k]) == ty.id
  {
    FirstSeenTypesMembers(xs, typeOf, ty.id);
    OfTypeAbsent(xs, typeOf, ty.id);
  }
}
