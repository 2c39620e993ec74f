/**
 * The merged installment schedule of a proposal (`calcParcelasAgrupadas` in
 * src/utils/proposalCalc.js). Every package with a positive balance and a
 * positive installment count spreads its balance over installments
 * 1..count; the amounts due at each installment number are added up across
 * packages, and runs of installments with the same amount are compressed
 * into ranges `{ de, ate, valor }`. Amounts are integer cents.
 */
module Installments {
  import opened Js
  import opened Money
  import opened Pricing
  import opened Grouping

  datatype Range = Range(de: int, ate: int, valor: int)

  /** What one package contributes: `amount` at each of installments 1..count. */
  datatype Plan = Plan(count: nat, amount: int)

  // ------------------------------------------------------ one package's plan

  /** `totals[type] || 0` */
  function TotalFor(totals: map<string, int>, t: string): int {
    if t in totals then totals[t] else 0
  }

  /** `parseMoney(payment[type]?.entry)` */
  function EntryOf(payment: map<string, JsValue>, t: string): int {
    ParseMoney(Prop(Lookup(payment, t), "entry"))
  }

  /** `parseInt(payment[type]?.installments || 0, 10)`, with NaN read as 0 (both are falsy). */
  function InstallmentsOf(payment: map<string, JsValue>, t: string): int {
    match ParseInt(ToStr(Or(Prop(Lookup(payment, t), "installments"), Whole(0))))
    case Some(n) => n
    case None => 0
  }

  function Saldo(totals: map<string, int>, payment: map<string, JsValue>, t: string): int {
    TotalFor(totals, t) - EntryOf(payment, t)
  }

  /**
   * What a package with `parcelas` installments and balance `saldo`
   * contributes: nothing unless both are positive; a negative count passes
   * the `if` but its loop never runs.
   */
  function PlanOf(parcelas: int, saldo: int): (r: seq<Plan>)
    ensures |r| <= 1
    ensures r != [] <==> parcelas > 0 && saldo > 0
    ensures r != [] ==> r[0].count == parcelas && r[0].amount >= 0
    ensures r != [] ==> 2 * Abs(r[0].amount * r[0].count - saldo) <= r[0].count
  {
    if parcelas > 0 && saldo > 0 then [Plan(parcelas, RoundDiv(saldo, parcelas))] else []
  }

  /** The plan of package type `t`. */
  function Contribution(totals: map<string, int>, payment: map<string, JsValue>, t: string): seq<Plan> {
    PlanOf(InstallmentsOf(payment, t), Saldo(totals, payment, t))
  }

  /** The contributing packages, in the order of the grouping's keys. */
  function Plans(keys: seq<string>, totals: map<string, int>, payment: map<string, JsValue>): seq<Plan> {
    if keys == [] then []
    else
      Plans(keys[..|keys| - 1], totals, payment) + Contribution(totals, payment, keys[|keys| - 1])
  }

  /** The amount due at installment number `i`: the sum over the plans that reach it. */
  function AmountAt(plans: seq<Plan>, i: int): int {
    if plans == [] then 0
    else AmountAt(plans[..|plans| - 1], i) + (if plans[|plans| - 1].count >= i then plans[|plans| - 1].amount else 0)
  }

  function MaxCount(plans: seq<Plan>): nat {
    if plans == [] then 0
    else
      var m := MaxCount(plans[..|plans| - 1]);
      if plans[|plans| - 1].count > m then plans[|plans| - 1].count else m
  }

  /** The amounts due at installments 1..MaxCount(plans). */
  function Amounts(plans: seq<Plan>): (r: seq<int>)
    ensures |r| == MaxCount(plans)
    ensures forall k :: 0 <= k < |r| ==> r[k] == AmountAt(plans, k + 1)
  {
    seq(MaxCount(plans), k => AmountAt(plans, k + 1))
  }

  // ------------------------------------------------- phase 1: the sum map

  /** `for (let i = 1; i <= parcelas; i++) map[i] = (map[i] || 0) + val;` */
  method AddInstallments(m0: map<int, int>, parcelas: int, val: int) returns (m: map<int, int>)
    ensures forall j :: j in m <==> j in m0 || 1 <= j <= parcelas
    ensures forall j :: j in m ==> m[j] == (if j in m0 then m0[j] else 0) + (if 1 <= j <= parcelas then val else 0)
  {
    m := m0;
    var i := 1;
    while i <= parcelas
      invariant 1 <= i <= (if parcelas > 0 then parcelas + 1 else 1)
      invariant forall j :: j in m <==> j in m0 || 1 <= j < i
      invariant forall j :: j in m ==> m[j] == (if j in m0 then m0[j] else 0) + (if 1 <= j < i then val else 0)
      decreases parcelas + 1 - i
    {
      m := m[i := (if i in m then m[i] else 0) + val];
      i := i + 1;
    }
  }

  /** `m` holds exactly the installment numbers 1..MaxCount(plans), each with its amount due. */
  ghost predicate Represents(m: map<int, int>, plans: seq<Plan>) {
    && (forall i :: i in m <==> 1 <= i <= MaxCount(plans))
    && (forall i :: i in m ==> m[i] == AmountAt(plans, i))
  }

  /** The body of the `forEach` once `parcelas` and `saldo` of a package are known. */
  method AddPackage(m0: map<int, int>, ghost plans: seq<Plan>, parcelas: int, saldo: int)
    returns (m: map<int, int>)
    requires Represents(m0, plans)
    ensures Represents(m, plans + PlanOf(parcelas, saldo))
  {
    m := m0;
    if parcelas != 0 && saldo > 0 {
      var val := RoundDiv(saldo, parcelas);
      m := AddInstallments(m, parcelas, val);
      if parcelas > 0 {
        RepresentsStep(m0, plans, Plan(parcelas, val), m);
      } else {
        assert plans + PlanOf(parcelas, saldo) == plans;
      }
    } else {
      assert plans + PlanOf(parcelas, saldo) == plans;
    }
  }

  /**
   * The `forEach` over the grouping's keys that fills `map[i]` for
   * `i = 1..parcelas` with the running sum of the packages' installments.
   */
  method AccumulatePlans(keys: seq<string>, totals: map<string, int>, payment: map<string, JsValue>)
    returns (m: map<int, int>)
    ensures Represents(m, Plans(keys, totals, payment))
  {
    m := map[];
    for k := 0 to |keys|
      invariant Represents(m, Plans(keys[..k], totals, payment))
    {
      var t := keys[k];
      PlansAppendKey(keys, k, totals, payment);
      var total := TotalFor(totals, t);
      var entrada := EntryOf(payment, t);
      var parcelas := InstallmentsOf(payment, t);
      var saldo := total - entrada;
      m := AddPackage(m, Plans(keys[..k], totals, payment), parcelas, saldo);
    }
    assert keys[..|keys|] == keys;
  }

  lemma RepresentsStep(m0: map<int, int>, plans: seq<Plan>, plan: Plan, m: map<int, int>)
    requires Represents(m0, plans)
    requires forall j :: j in m <==> j in m0 || 1 <= j <= plan.count
    requires forall j :: j in m ==> m[j] == (if j in m0 then m0[j] else 0) + (if 1 <= j <= plan.count then plan.amount else 0)
    ensures Represents(m, plans + [plan])
  {
    PlansStep(plans, plan);
    forall j | j in m ensures m[j] == AmountAt(plans + [plan], j) {
      if j !in m0 {
        AmountAtBeyond(plans, j);
      }
    }
  }

  /** No plan reaches past the largest count. */
  lemma {:induction false} AmountAtBeyond(plans: seq<Plan>, i: int)
    requires i > MaxCount(plans)
    ensures AmountAt(plans, i) == 0
  {
    if plans != [] {
      AmountAtBeyond(plans[..|plans| - 1], i);
    }
  }

  lemma PlansAppendKey(keys: seq<string>, k: int, totals: map<string, int>, payment: map<string, JsValue>)
    requires 0 <= k < |keys|
    ensures Plans(keys[..k + 1], totals, payment)
         == Plans(keys[..k], totals, payment) + Contribution(totals, payment, keys[k])
  {
    assert keys[..k + 1][..k] == keys[..k];
  }

  /** Adding a plan raises every installment it reaches by its amount. */
  lemma PlansStep(plans: seq<Plan>, plan: Plan)
    ensures (plans + [plan])[..|plans|] == plans
    ensures MaxCount(plans + [plan]) == if plan.count > MaxCount(plans) then plan.count else MaxCount(plans)
    ensures forall i :: AmountAt(plans + [plan], i) == AmountAt(plans, i) + (if plan.count >= i then plan.amount else 0)
  {
    assert (plans + [plan])[..|plans|] == plans;
  }

  // ------------------------------------------- phase 2: the sorted keys

  predicate StrictlyIncreasing(xs: seq<int>) {
    forall i, j :: 0 <= i < j < |xs| ==> xs[i] < xs[j]
  }

  /**
   * `Object.keys(map).map(Number).sort((a, b) => a - b)` for a sum map whose
   * keys are the installment numbers 1..n: JavaScript lists integer-like keys
   * in ascending order, so the keys are read off as 1, 2, ... while present.
   */
  method SortedKeys(m: map<int, int>, ghost n: nat) returns (nums: seq<int>)
    requires forall i :: i in m <==> 1 <= i <= n
    ensures StrictlyIncreasing(nums)
    ensures forall x :: x in nums <==> x in m
    ensures |nums| == n && forall k :: 0 <= k < |nums| ==> nums[k] == k + 1
  {
    nums := [];
    var i := 1;
    while i in m
      invariant 1 <= i <= n + 1
      invariant |nums| == i - 1 && forall k :: 0 <= k < |nums| ==> nums[k] == k + 1
      decreases n + 1 - i
    {
      nums := nums + [i];
      i := i + 1;
    }
    forall x ensures x in nums <==> x in m {
      if 1 <= x <= n {
        assert nums[x - 1] == x;
      }
    }
  }

  /** Strictly increasing positive numbers: the k-th is at least k + 1. */
  lemma {:induction false} IncreasingLowerBound(nums: seq<int>, i: int)
    requires StrictlyIncreasing(nums)
    requires forall k :: 0 <= k < |nums| ==> nums[k] >= 1
    requires 0 <= i < |nums|
    ensures nums[i] >= i + 1
  {
    if i > 0 {
      IncreasingLowerBound(nums, i - 1);
    }
  }

  /** Sorted keys that are exactly 1..count start as [1, 2, ...]. */
  lemma {:induction false} IncreasingCoverPrefix(nums: seq<int>, count: int, k: int)
    requires StrictlyIncreasing(nums)
    requires forall x :: x in nums <==> 1 <= x <= count
    requires 0 <= k <= |nums| && k <= count
    ensures forall j :: 0 <= j < k ==> nums[j] == j + 1
  {
    if k > 0 {
      IncreasingCoverPrefix(nums, count, k - 1);
      assert nums[k - 1] in nums;
      assert nums[k - 1] >= k by {
        if k >= 2 {
          assert nums[k - 2] == k - 1;
        }
      }
      assert k in nums;
      var j :| 0 <= j < |nums| && nums[j] == k;
      assert j >= k - 1;
      assert j == k - 1;
    }
  }

  /** Sorted keys that are exactly 1..count are the sequence [1, 2, ..., count]. */
  lemma IncreasingCover(nums: seq<int>, count: int)
    requires StrictlyIncreasing(nums)
    requires forall x :: x in nums <==> 1 <= x <= count
    ensures |nums| == (if count < 0 then 0 else count)
    ensures forall k :: 0 <= k < |nums| ==> nums[k] == k + 1
  {
    var n := |nums|;
    assert forall i :: 0 <= i < n ==> 1 <= nums[i] <= count by {
      forall i | 0 <= i < n ensures 1 <= nums[i] <= count {
        assert nums[i] in nums;
      }
    }
    if n > 0 {
      IncreasingLowerBound(nums, n - 1);
    }
    assert n <= count || n == 0;
    if count >= 0 {
      IncreasingCoverPrefix(nums, count, n);
      if count >= 1 {
        assert count in nums;
        var j :| 0 <= j < n && nums[j] == count;
        assert count == j + 1;
      }
    }
  }

  // ------------------------------------ phase 3: compressing into ranges

  function Repeat(v: int, n: nat): (r: seq<int>)
    ensures |r| == n && forall k :: 0 <= k < n ==> r[k] == v
  {
    seq(n, k => v)
  }

  /** The installments a range covers, `de..ate`. */
  function Width(r: Range): nat {
    if r.ate >= r.de then r.ate - r.de + 1 else 0
  }

  /** The amount due at every installment, read back from the ranges. */
  function Expand(g: seq<Range>): seq<int> {
    if g == [] then []
    else Expand(g[..|g| - 1]) + Repeat(g[|g| - 1].valor, Width(g[|g| - 1]))
  }

  /** Each range is non-empty and starts right after the previous one ends. */
  predicate Contiguous(g: seq<Range>) {
    && (forall i :: 0 <= i < |g| ==> g[i].de <= g[i].ate)
    && (forall i :: 0 < i < |g| ==> g[i].de == g[i - 1].ate + 1)
  }

  /** Neighbouring ranges have different amounts. */
  predicate Maximal(g: seq<Range>) {
    forall i :: 0 < i < |g| ==> g[i].valor != g[i - 1].valor
  }

  /**
   * `g` lists the amounts `amt[0..]` (due at installments 1, 2, ...) as
   * consecutive ranges, each as long as possible.
   */
  predicate IsCompressionOf(g: seq<Range>, amt: seq<int>) {
    && (g == [] <==> amt == [])
    && (g != [] ==> g[0].de == 1 && g[|g| - 1].ate == |amt|)
    && Contiguous(g)
    && Maximal(g)
    && Expand(g) == amt
  }

  /** The values of `m` at installments 1..count. */
  function ValuesUpTo(m: map<int, int>, count: nat): (r: seq<int>)
    requires forall i :: 1 <= i <= count ==> i in m
    ensures |r| == count && forall k :: 0 <= k < count ==> r[k] == m[k + 1]
  {
    seq(count, k requires 0 <= k < count => m[k + 1])
  }

  lemma ExpandAppend(g: seq<Range>, r: Range)
    ensures Expand(g + [r]) == Expand(g) + Repeat(r.valor, Width(r))
  {
    assert (g + [r])[..|g|] == g;
  }

  /** `g` compresses the amounts due at installments 1..ini - 1. */
  ghost predicate Covers(g: seq<Range>, amt: seq<int>, ini: int) {
    && 1 <= ini <= |amt| + 1
    && (g == [] <==> ini == 1)
    && (g != [] ==> g[0].de == 1 && g[|g| - 1].ate == ini - 1)
    && Contiguous(g)
    && Maximal(g)
    && Expand(g) == amt[..ini - 1]
  }

  /** Closing the run `ini..j` of amount `val` extends the compression to `j`. */
  lemma CloseRange(g: seq<Range>, amt: seq<int>, ini: int, j: int, val: int)
    requires Covers(g, amt, ini)
    requires ini <= j <= |amt|
    requires forall k :: ini - 1 <= k < j ==> amt[k] == val
    requires g != [] ==> g[|g| - 1].valor != val
    ensures Covers(g + [Range(ini, j, val)], amt, j + 1)
  {
    var r := Range(ini, j, val);
    ExpandAppend(g, r);
    assert Repeat(val, Width(r)) == amt[ini - 1..j];
    assert amt[..j] == amt[..ini - 1] + amt[ini - 1..j];
  }

  lemma CoversAll(g: seq<Range>, amt: seq<int>)
    requires Covers(g, amt, |amt| + 1)
    ensures IsCompressionOf(g, amt)
  {
    assert amt[..|amt|] == amt;
  }

  /**
   * The grouping loop of `calcParcelasAgrupadas`, over the sorted keys
   * 1..|nums| of the sum map: a new range starts where the amount changes
   * (or, never here, where the keys stop being consecutive).
   */
  method CompressRanges(m: map<int, int>, nums: seq<int>) returns (grupos: seq<Range>)
    requires |nums| > 0
    requires forall k :: 0 <= k < |nums| ==> nums[k] == k + 1
    requires forall i :: 1 <= i <= |nums| ==> i in m
    ensures IsCompressionOf(grupos, ValuesUpTo(m, |nums|))
  {
    ghost var amt := ValuesUpTo(m, |nums|);
    grupos := [];
    var ini := nums[0];
    var val := m[ini];
    for i := 1 to |nums|
      invariant Covers(grupos, amt, ini) && ini <= i
      invariant forall k :: ini - 1 <= k < i ==> amt[k] == val
      invariant grupos != [] ==> grupos[|grupos| - 1].valor != val
    {
      var n := nums[i];
      assert amt[i] == m[n];
      if m[n] != val || n != nums[i - 1] + 1 {
        CloseRange(grupos, amt, ini, i, val);
        grupos := grupos + [Range(ini, nums[i - 1], val)];
        ini := n;
        val := m[n];
      }
    }
    CloseRange(grupos, amt, ini, |nums|, val);
    grupos := grupos + [Range(ini, nums[|nums| - 1], val)];
    CoversAll(grupos, amt);
  }

  /**
   * `calcParcelasAgrupadas(grouped, totals, payment)`: the merged schedule
   * is the compression of the amounts due at installments 1..MaxCount, each
   * the sum over the contributing packages, taken in the grouping's order.
   */
  method CalcParcelasAgrupadas(grouped: Grouped<Item>, totals: map<string, int>, payment: map<string, JsValue>)
    returns (grupos: seq<Range>)
    ensures IsCompressionOf(grupos, Amounts(Plans(grouped.keys, totals, payment)))
  {
    ghost var plans := Plans(grouped.keys, totals, payment);
    var m := AccumulatePlans(grouped.keys, totals, payment);
    var nums := SortedKeys(m, MaxCount(plans));
    if |nums| == 0 {
      return [];
    }
    grupos := CompressRanges(m, nums);
    ValuesAreAmounts(m, plans);
  }

  lemma ValuesAreAmounts(m: map<int, int>, plans: seq<Plan>)
    requires Represents(m, plans)
    ensures ValuesUpTo(m, MaxCount(plans)) == Amounts(plans)
  {
  }

  // --------------------------------------------------------- schedule facts

  lemma {:induction false} ExpandLength(g: seq<Range>)
    requires Contiguous(g) && (g != [] ==> g[0].de == 1)
    ensures |Expand(g)| == (if g == [] then 0 else g[|g| - 1].ate)
  {
    if g != [] {
      var init := g[..|g| - 1];
      assert Contiguous(init);
      ExpandLength(init);
    }
  }

  /** Every installment `k` of range `g[i]` is due the range's amount. */
  lemma {:induction false} ExpandAt(g: seq<Range>, i: int, k: int)
    requires Contiguous(g) && g != [] && g[0].de == 1
    requires 0 <= i < |g| && g[i].de <= k <= g[i].ate
    ensures 1 <= k <= |Expand(g)| && Expand(g)[k - 1] == g[i].valor
  {
    var init := g[..|g| - 1];
    var last := g[|g| - 1];
    assert Contiguous(init);
    ExpandLength(g);
    if init != [] {
      ExpandLength(init);
    }
    assert |Expand(init)| == last.de - 1;
    if i < |g| - 1 {
      ExpandAt(init, i, k);
    } else {
      assert Expand(g)[k - 1] == Repeat(last.valor, Width(last))[k - last.de];
    }
  }

  /** A compression is read back range by range: `amt[k - 1] == valor` for `de <= k <= ate`. */
  lemma RangeAmount(g: seq<Range>, amt: seq<int>, i: int, k: int)
    requires IsCompressionOf(g, amt)
    requires 0 <= i < |g| && g[i].de <= k <= g[i].ate
    ensures 1 <= k <= |amt| && amt[k - 1] == g[i].valor
  {
    ExpandAt(g, i, k);
  }

  predicate AmountsNonIncreasing(amt: seq<int>) {
    forall a, b :: 0 <= a <= b < |amt| ==> amt[a] >= amt[b]
  }

  /** The compression of non-increasing amounts has strictly decreasing range amounts. */
  lemma RangesDecreasing(g: seq<Range>, amt: seq<int>)
    requires IsCompressionOf(g, amt)
    requires AmountsNonIncreasing(amt)
    ensures forall i :: 0 < i < |g| ==> g[i - 1].valor > g[i].valor
  {
    forall i | 0 < i < |g| ensures g[i - 1].valor > g[i].valor {
      RangeAmount(g, amt, i - 1, g[i - 1].ate);
      RangeAmount(g, amt, i, g[i].de);
    }
  }

  /** Every plan of a package reaches at least installment 1 and has a non-negative amount. */
  predicate PlansPositive(plans: seq<Plan>) {
    forall n :: 0 <= n < |plans| ==> plans[n].count > 0 && plans[n].amount >= 0
  }

  lemma {:induction false} PlansArePositive(keys: seq<string>, totals: map<string, int>, payment: map<string, JsValue>)
    ensures PlansPositive(Plans(keys, totals, payment))
  {
    if keys != [] {
      var init := keys[..|keys| - 1];
      var c := Contribution(totals, payment, keys[|keys| - 1]);
      PlansArePositive(init, totals, payment);
      PlansPositiveAppend(Plans(init, totals, payment), c);
    }
  }

  lemma PlansPositiveAppend(a: seq<Plan>, c: seq<Plan>)
    requires PlansPositive(a)
    requires |c| <= 1 && (c != [] ==> c[0].count > 0 && c[0].amount >= 0)
    ensures PlansPositive(a + c)
  {
  }

  /** A later installment is never due more than an earlier one. */
  lemma {:induction false} AmountAtNonIncreasing(plans: seq<Plan>, i: int, j: int)
    requires PlansPositive(plans)
    requires i <= j
    ensures AmountAt(plans, i) >= AmountAt(plans, j)
  {
    if plans != [] {
      AmountAtNonIncreasing(plans[..|plans| - 1], i, j);
    }
  }

  lemma AmountsAreNonIncreasing(plans: seq<Plan>)
    requires PlansPositive(plans)
    ensures AmountsNonIncreasing(Amounts(plans))
  {
    forall a, b | 0 <= a <= b < |Amounts(plans)| ensures Amounts(plans)[a] >= Amounts(plans)[b] {
      AmountAtNonIncreasing(plans, a + 1, b + 1);
    }
  }

  /**
   * The merged schedule's ranges carry strictly decreasing amounts: the
   * packages with fewer installments drop out as the installment number grows.
   */
  lemma ScheduleDecreasing(g: seq<Range>, keys: seq<string>, totals: map<string, int>, payment: map<string, JsValue>)
    requires IsCompressionOf(g, Amounts(Plans(keys, totals, payment)))
    ensures forall i :: 0 < i < |g| ==> g[i - 1].valor > g[i].valor
  {
    var plans := Plans(keys, totals, payment);
    PlansArePositive(keys, totals, payment);
    AmountsAreNonIncreasing(plans);
    RangesDecreasing(g, Amounts(plans));
  }

  lemma {:induction false} MaxCountZero(plans: seq<Plan>)
    requires PlansPositive(plans)
    ensures MaxCount(plans) == 0 <==> plans == []
  {
    if plans != [] {
      MaxCountZero(plans[..|plans| - 1]);
    }
  }

  /** The schedule is empty exactly when no package has both installments and a balance. */
  lemma ScheduleEmpty(g: seq<Range>, keys: seq<string>, totals: map<string, int>, payment: map<string, JsValue>)
    requires IsCompressionOf(g, Amounts(Plans(keys, totals, payment)))
    ensures g == [] <==> Plans(keys, totals, payment) == []
  {
    PlansArePositive(keys, totals, payment);
    MaxCountZero(Plans(keys, totals, payment));
  }

  // ------------------------------------------------------- the total owed

  function Sum(xs: seq<int>): int {
    if xs == [] then 0 else Sum(xs[..|xs| - 1]) + xs[|xs| - 1]
  }

  /** `sum (ate - de + 1) * valor` over the ranges. */
  function RangesTotal(g: seq<Range>): int {
    if g == [] then 0 else RangesTotal(g[..|g| - 1]) + Width(g[|g| - 1]) * g[|g| - 1].valor
  }

  /** `sum count * amount` over the packages' plans. */
  function PlannedTotal(plans: seq<Plan>): int {
    if plans == [] then 0 else PlannedTotal(plans[..|plans| - 1]) + plans[|plans| - 1].count * plans[|plans| - 1].amount
  }

  /** The amounts due at installments 1..n, added up. */
  function Column(plans: seq<Plan>, n: nat): int {
    if n == 0 then 0 else Column(plans, n - 1) + AmountAt(plans, n)
  }

  lemma {:induction false} SumAppend(a: seq<int>, b: seq<int>)
    ensures Sum(a + b) == Sum(a) + Sum(b)
  {
    if b != [] {
      SumAppend(a, b[..|b| - 1]);
      assert (a + b)[..|a + b| - 1] == a + b[..|b| - 1];
    } else {
      assert a + b == a;
    }
  }

  lemma {:induction false} SumRepeat(v: int, n: nat)
    ensures Sum(Repeat(v, n)) == v * n
  {
    if n > 0 {
      SumRepeat(v, n - 1);
      assert Repeat(v, n)[..n - 1] == Repeat(v, n - 1);
    }
  }

  lemma {:induction false} SumExpand(g: seq<Range>)
    ensures Sum(Expand(g)) == RangesTotal(g)
  {
    if g != [] {
      var last := g[|g| - 1];
      SumExpand(g[..|g| - 1]);
      SumAppend(Expand(g[..|g| - 1]), Repeat(last.valor, Width(last)));
      SumRepeat(last.valor, Width(last));
    }
  }

  lemma {:induction false} SumColumn(plans: seq<Plan>, n: nat)
    ensures Sum(seq(n, k => AmountAt(plans, k + 1))) == Column(plans, n)
  {
    if n > 0 {
      SumColumn(plans, n - 1);
      assert seq(n, k => AmountAt(plans, k + 1))[..n - 1] == seq(n - 1, k => AmountAt(plans, k + 1));
    }
  }

  /** One more plan adds its amount at each of the first `min(count, n)` installments. */
  lemma {:induction false} ColumnStep(plans: seq<Plan>, plan: Plan, n: nat)
    ensures Column(plans + [plan], n) == Column(plans, n) + (if plan.count <= n then plan.count else n) * plan.amount
  {
    PlansStep(plans, plan);
    if n > 0 {
      ColumnStep(plans, plan, n - 1);
    }
  }

  lemma {:induction false} ColumnBeyond(plans: seq<Plan>, n: nat)
    requires n >= MaxCount(plans)
    ensures Column(plans, n) == PlannedTotal(plans)
  {
    if plans != [] {
      var init := plans[..|plans| - 1];
      var plan := plans[|plans| - 1];
      assert plans == init + [plan];
      ColumnBeyond(init, n);
      ColumnStep(init, plan, n);
    } else {
      ColumnEmpty(n);
    }
  }

  lemma {:induction false} ColumnEmpty(n: nat)
    ensures Column([], n) == 0
  {
    if n > 0 {
      ColumnEmpty(n - 1);
    }
  }

  /**
   * Nothing is lost or invented by the merge: the ranges add up to the sum of
   * `count * amount` over the packages' plans.
   */
  lemma ScheduleTotal(g: seq<Range>, plans: seq<Plan>)
    requires IsCompressionOf(g, Amounts(plans))
    ensures RangesTotal(g) == PlannedTotal(plans)
  {
    SumExpand(g);
    SumColumn(plans, MaxCount(plans));
    assert Amounts(plans) == seq(MaxCount(plans), k => AmountAt(plans, k + 1));
    ColumnBeyond(plans, MaxCount(plans));
  }

  // ------------------------------------------- the compression is unique

  lemma RangeRun(g: seq<Range>, amt: seq<int>, i: int)
    requires IsCompressionOf(g, amt) && 0 <= i < |g|
    ensures 1 <= g[i].de <= g[i].ate <= |amt|
    ensures forall k :: g[i].de - 1 <= k < g[i].ate ==> amt[k] == g[i].valor
  {
    RangeAmount(g, amt, i, g[i].de);
    RangeAmount(g, amt, i, g[i].ate);
    forall k | g[i].de - 1 <= k < g[i].ate ensures amt[k] == g[i].valor {
      RangeAmount(g, amt, i, k + 1);
    }
  }

  /** A range stops at the last installment or where the amount changes. */
  lemma RangeEnd(g: seq<Range>, amt: seq<int>, i: int)
    requires IsCompressionOf(g, amt) && 0 <= i < |g|
    ensures 1 <= g[i].de <= g[i].ate <= |amt|
    ensures g[i].ate == |amt| || (g[i].ate < |amt| && amt[g[i].ate] != g[i].valor)
  {
    RangeRun(g, amt, i);
    if i < |g| - 1 {
      RangeAmount(g, amt, i + 1, g[i + 1].de);
    }
  }

  lemma {:induction false} SamePrefix(g1: seq<Range>, g2: seq<Range>, amt: seq<int>, n: int)
    requires IsCompressionOf(g1, amt) && IsCompressionOf(g2, amt)
    requires 0 <= n <= |g1| && n <= |g2|
    ensures g1[..n] == g2[..n]
  {
    if n > 0 {
      var i := n - 1;
      SamePrefix(g1, g2, amt, i);
      assert g1[i].de == g2[i].de by {
        if i > 0 {
          assert g1[i - 1] == g1[..i][i - 1] == g2[..i][i - 1] == g2[i - 1];
        }
      }
      RangeRun(g1, amt, i);
      RangeRun(g2, amt, i);
      RangeEnd(g1, amt, i);
      RangeEnd(g2, amt, i);
      assert g1[i].valor == amt[g1[i].de - 1] == g2[i].valor;
      assert g1[i].ate >= g2[i].ate;
      assert g1[i].ate <= g2[i].ate;
      assert g1[..n] == g1[..i] + [g1[i]];
      assert g2[..n] == g2[..i] + [g2[i]];
    }
  }

  /** The amounts determine their compression: the ranges are exactly the maximal runs. */
  lemma CompressionUnique(g1: seq<Range>, g2: seq<Range>, amt: seq<int>)
    requires IsCompressionOf(g1, amt) && IsCompressionOf(g2, amt)
    ensures g1 == g2
  {
    var n := if |g1| <= |g2| then |g1| else |g2|;
    SamePrefix(g1, g2, amt, n);
    if n > 0 {
      assert g1[n - 1] == g1[..n][n - 1] == g2[..n][n - 1] == g2[n - 1];
      RangeRun(g1, amt, n - 1);
      if n < |g2| {
        RangeRun(g2, amt, n);
      }
      if n < |g1| {
        RangeRun(g1, amt, n);
      }
      assert |g1| == |g2|;
    }
    assert g1 == g1[..n] && g2 == g2[..n];
  }
}
