/**
 * The presentation step (src/components/StepApresentacao.jsx): the
 * `packages` array handed to the PDF, one entry per catalog type with
 * selected services, each with its total and its own reading of the
 * payment conditions. This reading differs from `calcParcelasAgrupadas`:
 * the installment count is `Number(...)` rather than `parseInt`, and the
 * balance is not required to be positive.
 */
module Apresentacao {
  import opened Js
  import opened Money
  import opened Pricing
  import opened Grouping
  import opened Catalog
  import Installments

  /**
   * The `cond` of a package. `parcelas` is a JS number in hundredths (it may
   * be fractional); `entry`, `saldo` and `parcela` are cents.
   */
  datatype Cond = Cond(payMethod: JsValue, entry: int, saldo: int, parcelas: int, parcela: int)

  datatype Package = Package(id: string, name: string, items: seq<Item>, total: int, cond: Cond)

  /** `+payCfg.installments || 0`: NaN and zero both become 0. */
  function ParcelasOf(v: JsValue): int {
    match ToNumber(v)
    case Num(h) => h
    case _ => 0
  }

  /** `parseMoney(payCfg.entry)`, which strips any sign. */
  function EntryValue(payCfg: JsValue): nat {
    ParseMoneyNonNegative(Prop(payCfg, "entry"));
    ParseMoney(Prop(payCfg, "entry"))
  }

  /**
   * The conditions shown for a package with total `total`, entry `entry`,
   * installment count `parcelas` and method `payMethod`: the balance is the
   * total less the entry, and the installment is the balance divided by the
   * count to the nearest cent, or 0 when there is no count.
   */
  function Conditions(total: int, entry: nat, parcelas: int, payMethod: JsValue): (c: Cond)
    ensures c.entry == entry && c.saldo == total - entry && c.parcelas == parcelas
    ensures parcelas == 0 ==> c.parcela == 0
    ensures parcelas != 0 ==> 2 * Abs(c.parcela * parcelas - c.saldo * 100) <= Abs(parcelas)
  {
    var saldo := total - entry;
    Cond(payMethod, entry, saldo, parcelas, if parcelas != 0 then RoundDiv(saldo * 100, parcelas) else 0)
  }

  /** The `cond` of a package with total `total` and conditions object `payCfg`. */
  function CondOf(total: int, payCfg: JsValue): (c: Cond)
    ensures c.entry >= 0
    ensures Truthy(c.payMethod)
    ensures Truthy(Prop(payCfg, "method")) ==> c.payMethod == Prop(payCfg, "method")
    ensures !Truthy(Prop(payCfg, "method")) ==> c.payMethod == Str("-")
  {
    Conditions(total, EntryValue(payCfg), ParcelasOf(Prop(payCfg, "installments")),
               Or(Prop(payCfg, "method"), Str("-")))
  }

  /** The package of catalog type `ty`, whether or not its group is empty. */
  function PackageOf(ty: ServiceType, grouped: Grouped<Item>, totals: map<string, int>,
                     payment: map<string, JsValue>): Package
  {
    var total := Installments.TotalFor(totals, ty.id);
    Package(ty.id, ty.name, GroupOf(grouped, ty.id), total,
            CondOf(total, Or(Lookup(payment, ty.id), Obj(map[]))))
  }

  /** `serviceTypes.map(type => list.length ? {...} : null).filter(Boolean)` */
  function Packages(catalog: seq<ServiceType>, grouped: Grouped<Item>, totals: map<string, int>,
                    payment: map<string, JsValue>): seq<Package>
  {
    if catalog == [] then []
    else
      var rest := Packages(catalog[1..], grouped, totals, payment);
      if GroupOf(grouped, catalog[0].id) != [] then [PackageOf(catalog[0], grouped, totals, payment)] + rest
      else rest
  }

  // ---------------------------------------------------------------- lemmas

  /** One package per visible catalog type. */
  lemma {:induction false} PackagesLength(catalog: seq<ServiceType>, grouped: Grouped<Item>,
                                          totals: map<string, int>, payment: map<string, JsValue>)
    ensures |Packages(catalog, grouped, totals, payment)| == |VisibleTypes(catalog, grouped)|
  {
    if catalog != [] {
      PackagesLength(catalog[1..], grouped, totals, payment);
    }
  }

  lemma {:induction false} PackageAt(catalog: seq<ServiceType>, grouped: Grouped<Item>,
                                     totals: map<string, int>, payment: map<string, JsValue>, i: int)
    requires 0 <= i < |VisibleTypes(catalog, grouped)|
    ensures |Packages(catalog, grouped, totals, payment)| == |VisibleTypes(catalog, grouped)|
    ensures Packages(catalog, grouped, totals, payment)[i] == PackageOf(VisibleTypes(catalog, grouped)[i], grouped, totals, payment)
  {
    PackagesLength(catalog, grouped, totals, payment);
    var rest := Packages(catalog[1..], grouped, totals, payment);
    var vrest := VisibleTypes(catalog[1..], grouped);
    PackagesLength(catalog[1..], grouped, totals, payment);
    if GroupOf(grouped, catalog[0].id) != [] {
      if i > 0 {
        PackageAt(catalog[1..], grouped, totals, payment, i - 1);
      }
    } else {
      PackageAt(catalog[1..], grouped, totals, payment, i);
    }
  }

  /**
   * The packages are those of the visible catalog types, in catalog order:
   * mapping then filtering out the empty types is filtering then mapping.
   */
  lemma PackagesAreVisible(catalog: seq<ServiceType>, grouped: Grouped<Item>,
                           totals: map<string, int>, payment: map<string, JsValue>)
    ensures var ps, vs := Packages(catalog, grouped, totals, payment), VisibleTypes(catalog, grouped);
      && |ps| == |vs|
      && forall i :: 0 <= i < |ps| ==> ps[i] == PackageOf(vs[i], grouped, totals, payment)
  {
    PackagesLength(catalog, grouped, totals, payment);
    forall i | 0 <= i < |VisibleTypes(catalog, grouped)|
      ensures Packages(catalog, grouped, totals, payment)[i] == PackageOf(VisibleTypes(catalog, grouped)[i], grouped, totals, payment)
    {
      PackageAt(catalog, grouped, totals, payment, i);
    }
  }

  lemma PackagesNonEmpty(catalog: seq<ServiceType>, grouped: Grouped<Item>,
                         totals: map<string, int>, payment: map<string, JsValue>)
    ensures var ps := Packages(catalog, grouped, totals, payment);
      forall i :: 0 <= i < |ps| ==> ps[i].items != [] && ps[i].items == GroupOf(grouped, ps[i].id)
  {
    PackagesAreVisible(catalog, grouped, totals, payment);
    var vs := VisibleTypes(catalog, grouped);
    assert forall i :: 0 <= i < |vs| ==> vs[i] in vs;
  }

  /**
   * Over a grouping of items `xs` (in the step, `buildItems(services)`), a
   * shown package's total is the sum of its items' subtotals; a type whose
   * id is `"overall"` shows the grand total instead, since that key of the
   * totals holds it.
   */
  lemma PackageTotal(ty: ServiceType, xs: seq<Item>, payment: map<string, JsValue>)
    requires GroupOf(GroupedBy(xs, ItemTypeOf), ty.id) != []
    ensures WellFormed(GroupedBy(xs, ItemTypeOf))
    ensures var g := GroupedBy(xs, ItemTypeOf);
      var p := PackageOf(ty, g, TypeTotalsOf(g, ItemSubtotal), payment);
      && (ty.id != "overall" ==> p.total == SumBy(p.items, ItemSubtotal))
      && (ty.id == "overall" ==> p.total == SumBy(xs, ItemSubtotal))
  {
    GroupingWellFormed(xs, ItemTypeOf);
    TypeTotalsOverall(xs, ItemTypeOf, ItemSubtotal);
    var g := GroupedBy(xs, ItemTypeOf);
    assert ty.id in g.groups;
  }

  /** `(payment[t] || {}).f` reads the same field as `payment[t]?.f`. */
  lemma PropOfConfig(payment: map<string, JsValue>, t: string, f: string)
    ensures Prop(Or(Lookup(payment, t), Obj(map[])), f) == Prop(Lookup(payment, t), f)
  {
  }

  /**
   * With a whole installment count `n` and a positive balance, the package
   * shows the entry, balance and installment amount that the merged
   * schedule of `calcParcelasAgrupadas` uses for that type.
   */
  lemma CondAgreesWithSchedule(totals: map<string, int>, payment: map<string, JsValue>, t: string, n: int)
    requires Prop(Lookup(payment, t), "installments") == Whole(n) && n >= 1
    requires Installments.Saldo(totals, payment, t) > 0
    ensures var c := CondOf(Installments.TotalFor(totals, t), Or(Lookup(payment, t), Obj(map[])));
      && c.entry == Installments.EntryOf(payment, t)
      && c.saldo == Installments.Saldo(totals, payment, t)
      && c.parcelas == n * 100
      && Installments.Contribution(totals, payment, t) == [Installments.Plan(n, c.parcela)]
  {
    CondOfWhole(totals, payment, t, n);
    ContributionOfWhole(totals, payment, t, n);
  }

  lemma CondOfWhole(totals: map<string, int>, payment: map<string, JsValue>, t: string, n: int)
    requires Prop(Lookup(payment, t), "installments") == Whole(n) && n >= 1
    ensures var c := CondOf(Installments.TotalFor(totals, t), Or(Lookup(payment, t), Obj(map[])));
      && c.entry == Installments.EntryOf(payment, t)
      && c.saldo == Installments.Saldo(totals, payment, t)
      && c.parcelas == n * 100
      && c.parcela == RoundDiv(Installments.Saldo(totals, payment, t), n)
  {
    CondEntry(totals, payment, t);
    CondParcela(totals, payment, t, n);
  }

  lemma CondEntry(totals: map<string, int>, payment: map<string, JsValue>, t: string)
    ensures var c := CondOf(Installments.TotalFor(totals, t), Or(Lookup(payment, t), Obj(map[])));
      && c.entry == Installments.EntryOf(payment, t)
      && c.saldo == Installments.Saldo(totals, payment, t)
  {
    var cfg, e := Or(Lookup(payment, t), Obj(map[])), Prop(Lookup(payment, t), "entry");
    PropOfConfig(payment, t, "entry");
    CondBalanceOf(Installments.TotalFor(totals, t), cfg, e);
    SaldoOf(totals, payment, t);
  }

  lemma CondParcela(totals: map<string, int>, payment: map<string, JsValue>, t: string, n: int)
    requires Prop(Lookup(payment, t), "installments") == Whole(n) && n >= 1
    ensures var c := CondOf(Installments.TotalFor(totals, t), Or(Lookup(payment, t), Obj(map[])));
      && c.parcelas == n * 100
      && c.parcela == RoundDiv(Installments.Saldo(totals, payment, t), n)
  {
    var cfg := Or(Lookup(payment, t), Obj(map[]));
    PropOfConfig(payment, t, "installments");
    CondOfConfig(Installments.TotalFor(totals, t), cfg, n);
    CondEntry(totals, payment, t);
  }

  lemma CondOfConfig(total: int, cfg: JsValue, n: int)
    requires Prop(cfg, "installments") == Whole(n) && n >= 1
    ensures var c := CondOf(total, cfg);
      && c.entry == ParseMoney(Prop(cfg, "entry"))
      && c.saldo == total - c.entry
      && c.parcelas == n * 100
      && c.parcela == RoundDiv(c.saldo, n)
  {
    CondOfCount(total, cfg, n);
    ConditionsWhole(total, EntryValue(cfg), n, Or(Prop(cfg, "method"), Str("-")));
    CondBalanceOf(total, cfg, Prop(cfg, "entry"));
  }

  /** With a whole count `n`, the conditions of `cfg` read `n` installments. */
  lemma CondOfCount(total: int, cfg: JsValue, n: int)
    requires Prop(cfg, "installments") == Whole(n) && n >= 1
    ensures CondOf(total, cfg) == Conditions(total, EntryValue(cfg), n * 100, Or(Prop(cfg, "method"), Str("-")))
  {
    assert ParcelasOf(Prop(cfg, "installments")) == n * 100;
  }

  lemma ConditionsWhole(total: int, entry: nat, n: int, payMethod: JsValue)
    requires n >= 1
    ensures var c := Conditions(total, entry, n * 100, payMethod);
      && c == Cond(payMethod, entry, total - entry, n * 100, c.parcela)
      && c.parcela == RoundDiv(c.saldo, n)
  {
    RoundDivScale(total - entry, n, 100);
  }

  lemma ContributionOfWhole(totals: map<string, int>, payment: map<string, JsValue>, t: string, n: int)
    requires Prop(Lookup(payment, t), "installments") == Whole(n) && n >= 1
    requires Installments.Saldo(totals, payment, t) > 0
    ensures Installments.Contribution(totals, payment, t)
         == [Installments.Plan(n, RoundDiv(Installments.Saldo(totals, payment, t), n))]
  {
    WholeInstallments(payment, t, n);
  }

  lemma WholeInstallments(payment: map<string, JsValue>, t: string, n: int)
    requires Prop(Lookup(payment, t), "installments") == Whole(n) && n >= 1
    ensures Installments.InstallmentsOf(payment, t) == n
  {
    assert Or(Whole(n), Whole(0)) == Whole(n);
    ParseIntOfWhole(n);
  }

  /**
   * An entry larger than the total gives a negative balance here, while the
   * merged schedule leaves that type out.
   */
  lemma NegativeBalance(totals: map<string, int>, payment: map<string, JsValue>, t: string, d: string)
    requires d != [] && AllDigits(d) && DigitsValue(d) > 0
    requires t !in totals
    requires Prop(Lookup(payment, t), "entry") == Str(d)
    ensures var c := CondOf(Installments.TotalFor(totals, t), Or(Lookup(payment, t), Obj(map[])));
      c.saldo == -(DigitsValue(d) * 100) < 0
    ensures Installments.Contribution(totals, payment, t) == []
  {
    PropOfConfig(payment, t, "entry");
    ParseMoneyOfDigits(d);
  }

  /**
   * Whatever the total, an entry above it is shown as a negative balance,
   * while the merged schedule gets no plan from that type.
   */
  lemma EntryAboveTotal(totals: map<string, int>, payment: map<string, JsValue>, t: string)
    requires Installments.EntryOf(payment, t) > Installments.TotalFor(totals, t)
    ensures var c := CondOf(Installments.TotalFor(totals, t), Or(Lookup(payment, t), Obj(map[])));
      && c.entry == Installments.EntryOf(payment, t)
      && c.saldo == Installments.Saldo(totals, payment, t) < 0
    ensures Installments.Contribution(totals, payment, t) == []
  {
    var cfg, e := Or(Lookup(payment, t), Obj(map[])), Prop(Lookup(payment, t), "entry");
    PropOfConfig(payment, t, "entry");
    CondBalanceOf(Installments.TotalFor(totals, t), cfg, e);
    SaldoOf(totals, payment, t);
    var s := Installments.Saldo(totals, payment, t);
    assert s < 0;
    assert Installments.Contribution(totals, payment, t) == Installments.PlanOf(Installments.InstallmentsOf(payment, t), s);
  }

  lemma CondBalanceOf(total: int, cfg: JsValue, e: JsValue)
    requires Prop(cfg, "entry") == e
    ensures CondOf(total, cfg).entry == ParseMoney(e)
    ensures CondOf(total, cfg).saldo == total - ParseMoney(e)
  {
  }

  lemma SaldoOf(totals: map<string, int>, payment: map<string, JsValue>, t: string)
    ensures Installments.EntryOf(payment, t) == ParseMoney(Prop(Lookup(payment, t), "entry"))
    ensures Installments.Saldo(totals, payment, t) == Installments.TotalFor(totals, t) - Installments.EntryOf(payment, t)
  {
  }

  /**
   * A package the step does show (its type has selected services) whose
   * entry exceeds its total carries a negative balance, and the merged
   * schedule leaves its type out.
   */
  lemma PackageNegativeBalance(catalog: seq<ServiceType>, grouped: Grouped<Item>,
                               totals: map<string, int>, payment: map<string, JsValue>, i: int)
    requires 0 <= i < |Packages(catalog, grouped, totals, payment)|
    requires Installments.EntryOf(payment, Packages(catalog, grouped, totals, payment)[i].id)
             > Packages(catalog, grouped, totals, payment)[i].total
    ensures var p := Packages(catalog, grouped, totals, payment)[i];
      && p.items != []
      && p.cond.saldo == p.total - Installments.EntryOf(payment, p.id) < 0
      && Installments.Contribution(totals, payment, p.id) == []
  {
    PackagesLength(catalog, grouped, totals, payment);
    PackageAt(catalog, grouped, totals, payment, i);
    PackagesNonEmpty(catalog, grouped, totals, payment);
    var ty := VisibleTypes(catalog, grouped)[i];
    EntryAboveTotal(totals, payment, ty.id);
  }

  /**
   * A fractional count such as `"3.5"` is kept as it is here, while the
   * merged schedule truncates it with `parseInt`.
   */
  lemma FractionalInstallments(payment: map<string, JsValue>, t: string, d: string, fd: string)
    requires d != [] && AllDigits(d) && fd != [] && AllDigits(fd)
    requires Prop(Lookup(payment, t), "installments") == Str(d + ['.'] + fd)
    ensures ParcelasOf(Prop(Or(Lookup(payment, t), Obj(map[])), "installments")) == DecimalHundredths(d, fd)
    ensures Installments.InstallmentsOf(payment, t) == DigitsValue(d)
  {
    PropOfConfig(payment, t, "installments");
    NumberOfDecimal(d, fd);
    ParseIntOfDecimal(d, fd);
    assert Or(Str(d + ['.'] + fd), Whole(0)) == Str(d + ['.'] + fd);
  }

  lemma NumberOfDecimal(d: string, fd: string)
    requires d != [] && AllDigits(d) && fd != [] && AllDigits(fd)
    ensures StringToNumber(d + ['.'] + fd) == Num(DecimalHundredths(d, fd))
  {
    var u := d + ['.'] + fd;
    assert u == d + (if fd == [] then [] else ['.'] + fd);
    UnsignedDecimalOf(d, fd);
    assert u[|u| - 1] == fd[|fd| - 1];
    StringToNumberOfLiteral(u, DecimalHundredths(d, fd));
  }

  lemma ParseIntOfDecimal(d: string, fd: string)
    requires d != [] && AllDigits(d) && AllDigits(fd)
    ensures ParseInt(d + ['.'] + fd) == Some(DigitsValue(d))
  {
    var rest := ['.'] + fd;
    var u := d + rest;
    assert d + ['.'] + fd == u;
    assert u[0] == d[0];
    assert !IsSpace(u[0]) && !HasSign(u);
    assert TrimStart(u) == u;
    assert Unsigned(u) == u;
    DigitPrefixOfDigits(d, rest);
    assert u[..|d|] == d;
  }

  /** A count that is not a number, such as `"abc"`, is read as no installments. */
  lemma NonNumericInstallments(s: string)
    requires s != [] && !IsSpace(s[0]) && !IsSpace(s[|s| - 1])
    requires !IsDigit(s[0]) && s[0] != '.' && s[0] != '+' && s[0] != '-'
    ensures ParcelasOf(Str(s)) == 0
    ensures CondOf(0, Obj(map["installments" := Str(s)])).parcela == 0
  {
    TrimUnchanged(s);
    assert Unsigned(s) == s;
    assert DigitPrefixLength(s) == 0;
  }

  lemma NonNumericExample(s: string)
    requires s == "abc"
    ensures ParcelasOf(Str(s)) == 0
  {
    NonNumericInstallments(s);
  }
}
