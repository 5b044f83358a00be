/** The constraint model `solve` hands to CP-SAT, and what its solutions are. */
module Encoding {
  import opened Options
  import opened Scheduling

  /** Values for the model's variables: a start per order, one literal per pair, one per start slot. */
  datatype Solution = Solution(starts: Starts, literals: Literals, indicators: StartLiterals) {
    function Start(order: string): int { starts(order) }
    predicate Assigned(order: string, technician: string) { literals(order, technician) }
    predicate IsStart(order: string, slot: int) { indicators(order, slot) }
  }

  type Starts = string -> int
  type Literals = (string, string) -> bool
  type StartLiterals = (string, int) -> bool

  /** An interval variable; an optional one is present when its technician's literal is true. */
  datatype Interval = Interval(order: string, duration: nat, presence: Option<string>)

  datatype Constraint =
    | Within(order: string, last: int)
    | NotAt(order: string, slot: int, technician: string)
    | ExactlyOne(order: string, technicians: seq<string>)
    | NoOverlap(intervals: seq<Interval>)
    | Indicates(order: string, slot: int)

  predicate Present(sol: Solution, iv: Interval) {
    iv.presence.Some? ==> sol.Assigned(iv.order, iv.presence.value)
  }

  predicate Disjoint(sol: Solution, a: Interval, b: Interval) {
    sol.Start(a.order) + a.duration <= sol.Start(b.order) || sol.Start(b.order) + b.duration <= sol.Start(a.order)
  }

  predicate OnlyOne(sol: Solution, order: string, ts: seq<string>) {
    exists i :: 0 <= i < |ts| && sol.Assigned(order, ts[i]) &&
      forall j :: 0 <= j < |ts| && j != i ==> !sol.Assigned(order, ts[j])
  }

  predicate Holds(c: Constraint, sol: Solution) {
    match c
    case Within(o, last) => 0 <= sol.Start(o) <= last
    case NotAt(o, slot, t) => sol.Assigned(o, t) ==> sol.Start(o) != slot
    case ExactlyOne(o, ts) => OnlyOne(sol, o, ts)
    case NoOverlap(ivs) =>
      forall i, j :: 0 <= i < j < |ivs| && Present(sol, ivs[i]) && Present(sol, ivs[j]) ==>
        Disjoint(sol, ivs[i], ivs[j])
    case Indicates(o, slot) => sol.IsStart(o, slot) <==> sol.Start(o) == slot
  }

  predicate Satisfies(sol: Solution, cs: seq<Constraint>) {
    forall i :: 0 <= i < |cs| ==> Holds(cs[i], sol)
  }

  lemma SatisfiesAppend(sol: Solution, a: seq<Constraint>, b: seq<Constraint>)
    ensures Satisfies(sol, a + b) <==> Satisfies(sol, a) && Satisfies(sol, b)
  {
    if Satisfies(sol, a + b) {
      forall i | 0 <= i < |a| ensures Holds(a[i], sol) { assert (a + b)[i] == a[i]; }
      forall i | 0 <= i < |b| ensures Holds(b[i], sol) { assert (a + b)[|a| + i] == b[i]; }
    }
  }

  lemma SatisfiesOne(sol: Solution, c: Constraint, wanted: bool)
    requires !wanted ==> Holds(c, sol)
    ensures Satisfies(sol, if wanted then [c] else []) <==> Holds(c, sol)
  {
    if Satisfies(sol, [c]) { assert [c][0] == c; }
  }

  // ---- The constraints, family by family, each grown one loop turn at a time ----

  function ForbiddenStarts(o: Order, t: Technician, n: nat): seq<Constraint> {
    if n == 0 then []
    else ForbiddenStarts(o, t, n - 1) + (if FreeFor(t, n - 1, Duration(o)) then [] else [NotAt(o.id, n - 1, t.id)])
  }

  function Eligible(ts: seq<Technician>, o: Order): seq<Technician> {
    if ts == [] then []
    else Eligible(ts[..|ts| - 1], o) + (if CanDo(ts[|ts| - 1], o) then [ts[|ts| - 1]] else [])
  }

  lemma {:induction false} EligibleMembers(ts: seq<Technician>, o: Order)
    ensures forall t :: t in Eligible(ts, o) <==> t in ts && CanDo(t, o)
    decreases |ts|
  {
    if ts != [] {
      EligibleMembers(ts[..|ts| - 1], o);
      assert ts == ts[..|ts| - 1] + [ts[|ts| - 1]];
    }
  }

  function TechnicianIds(ts: seq<Technician>): (r: seq<string>)
    ensures |r| == |ts| && forall i :: 0 <= i < |ts| ==> r[i] == ts[i].id
  {
    seq(|ts|, i requires 0 <= i < |ts| => ts[i].id)
  }

  function EligibleStarts(o: Order, ts: seq<Technician>, n: nat): seq<Constraint> {
    if ts == [] then [] else EligibleStarts(o, ts[..|ts| - 1], n) + ForbiddenStarts(o, ts[|ts| - 1], n)
  }

  function StaffConstraints(o: Order, es: seq<Technician>, n: nat): seq<Constraint> {
    EligibleStarts(o, es, n) + [ExactlyOne(o.id, TechnicianIds(es))]
  }

  function OrderConstraints(p: Problem, o: Order): seq<Constraint> {
    if Duration(o) > p.slots then [] else FittingConstraints(o, p.slots - Duration(o), Eligible(p.technicians, o))
  }

  /** An order that fits, with its last start. */
  function FittingConstraints(o: Order, last: nat, es: seq<Technician>): seq<Constraint> {
    [Within(o.id, last)] + if es == [] then [] else StaffConstraints(o, es, last + 1)
  }

  function AllOrderConstraints(p: Problem, os: seq<Order>): seq<Constraint> {
    if os == [] then [] else AllOrderConstraints(p, os[..|os| - 1]) + OrderConstraints(p, os[|os| - 1])
  }

  function Sched(p: Problem, os: seq<Order>): seq<Order> {
    if os == [] then []
    else Sched(p, os[..|os| - 1]) + (if Schedulable(p, os[|os| - 1]) then [os[|os| - 1]] else [])
  }

  lemma {:induction false} SchedMembers(p: Problem, os: seq<Order>)
    ensures forall o :: o in Sched(p, os) <==> o in os && Schedulable(p, o)
    decreases |os|
  {
    if os != [] {
      SchedMembers(p, os[..|os| - 1]);
      assert os == os[..|os| - 1] + [os[|os| - 1]];
    }
  }

  /** What picks the orders of one no-overlap constraint: a technician's optional intervals, or a line's. */
  datatype Resource = Person(t: Technician) | Line(line: string) {
    predicate Uses(o: Order) {
      match this
      case Person(t) => CanDo(t, o)
      case Line(l) => o.line == l
    }

    function IntervalOf(o: Order): Interval {
      Interval(o.id, Duration(o), match this case Person(t) => Some(t.id) case Line(_) => None)
    }
  }

  function Intervals(os: seq<Order>, r: Resource): seq<Interval> {
    if os == [] then []
    else Intervals(os[..|os| - 1], r) + (if r.Uses(os[|os| - 1]) then [r.IntervalOf(os[|os| - 1])] else [])
  }

  function TechnicianConstraints(os: seq<Order>, ts: seq<Technician>): seq<Constraint> {
    if ts == [] then []
    else
      var ivs := Intervals(os, Person(ts[|ts| - 1]));
      TechnicianConstraints(os, ts[..|ts| - 1]) + (if ivs == [] then [] else [NoOverlap(ivs)])
  }

  function Lines(os: seq<Order>): (r: seq<string>)
    ensures forall o :: o in os ==> o.line in r
  {
    if os == [] then []
    else
      var rest := Lines(os[..|os| - 1]);
      rest + (if os[|os| - 1].line in rest then [] else [os[|os| - 1].line])
  }

  function LineConstraints(os: seq<Order>, lines: seq<string>): seq<Constraint> {
    if lines == [] then []
    else
      var ivs := Intervals(os, Line(lines[|lines| - 1]));
      LineConstraints(os, lines[..|lines| - 1]) + (if |ivs| > 1 then [NoOverlap(ivs)] else [])
  }

  function Indicators(o: Order, n: nat): seq<Constraint> {
    if n == 0 then [] else Indicators(o, n - 1) + [Indicates(o.id, n - 1)]
  }

  function StartCount(p: Problem, o: Order): nat {
    if Duration(o) > p.slots then 0 else p.slots - Duration(o) + 1
  }

  function AllIndicators(p: Problem, os: seq<Order>): seq<Constraint> {
    if os == [] then []
    else AllIndicators(p, os[..|os| - 1]) + Indicators(os[|os| - 1], StartCount(p, os[|os| - 1]))
  }

  function Encode(p: Problem): seq<Constraint> {
    var os := Sched(p, p.orders);
    AllOrderConstraints(p, p.orders) + TechnicianConstraints(os, p.technicians)
      + LineConstraints(os, Lines(os)) + AllIndicators(p, os)
  }

  // ---- What each family says ----

  lemma {:induction false} ForbiddenMeans(o: Order, t: Technician, n: nat, sol: Solution)
    ensures Satisfies(sol, ForbiddenStarts(o, t, n)) <==>
      (sol.Assigned(o.id, t.id) && 0 <= sol.Start(o.id) < n ==> FreeFor(t, sol.Start(o.id), Duration(o)))
  {
    if n > 0 {
      ForbiddenMeans(o, t, n - 1, sol);
      var last := if FreeFor(t, n - 1, Duration(o)) then [] else [NotAt(o.id, n - 1, t.id)];
      SatisfiesAppend(sol, ForbiddenStarts(o, t, n - 1), last);
      if !FreeFor(t, n - 1, Duration(o)) { SatisfiesOne(sol, NotAt(o.id, n - 1, t.id), true); }
    }
  }

  predicate FreeWhenAssigned(o: Order, t: Technician, n: nat, sol: Solution) {
    sol.Assigned(o.id, t.id) && 0 <= sol.Start(o.id) < n ==> FreeFor(t, sol.Start(o.id), Duration(o))
  }

  lemma {:induction false} EligibleStartsMean(o: Order, ts: seq<Technician>, n: nat, sol: Solution)
    ensures Satisfies(sol, EligibleStarts(o, ts, n)) <==> forall t :: t in ts ==> FreeWhenAssigned(o, t, n, sol)
    decreases |ts|
  {
    if ts != [] {
      var k := |ts| - 1;
      EligibleStartsMean(o, ts[..k], n, sol);
      ForbiddenMeans(o, ts[k], n, sol);
      SatisfiesAppend(sol, EligibleStarts(o, ts[..k], n), ForbiddenStarts(o, ts[k], n));
      assert forall t :: t in ts <==> t in ts[..k] || t == ts[k];
      assert FreeWhenAssigned(o, ts[k], n, sol) <==> Satisfies(sol, ForbiddenStarts(o, ts[k], n));
    }
  }

  predicate OrderOk(p: Problem, o: Order, sol: Solution) {
    Duration(o) <= p.slots ==>
      && 0 <= sol.Start(o.id) <= p.slots - Duration(o)
      && (Eligible(p.technicians, o) != [] ==> StaffOk(o, Eligible(p.technicians, o), sol))
  }

  /** One of these technicians is assigned, and free. */
  predicate StaffOk(o: Order, es: seq<Technician>, sol: Solution)
    requires sol.Start(o.id) >= 0
  {
    && OnlyOne(sol, o.id, TechnicianIds(es))
    && forall t :: t in es && sol.Assigned(o.id, t.id) ==> FreeFor(t, sol.Start(o.id), Duration(o))
  }

  lemma OrderConstraintsMean(p: Problem, o: Order, sol: Solution)
    ensures Satisfies(sol, OrderConstraints(p, o)) <==> OrderOk(p, o, sol)
  {
    if Duration(o) <= p.slots {
      FittingMeans(o, p.slots - Duration(o), Eligible(p.technicians, o), sol);
    }
  }

  lemma FittingMeans(o: Order, last: nat, es: seq<Technician>, sol: Solution)
    ensures Satisfies(sol, FittingConstraints(o, last, es)) <==>
      0 <= sol.Start(o.id) <= last && (es != [] ==> StaffOk(o, es, sol))
  {
    if es == [] {
      WithinMeans(o, last, [], sol);
    } else {
      WithinMeans(o, last, StaffConstraints(o, es, last + 1), sol);
      if 0 <= sol.Start(o.id) <= last { StaffConstraintsMean(o, es, last + 1, sol); }
    }
  }

  lemma WithinMeans(o: Order, last: int, staff: seq<Constraint>, sol: Solution)
    ensures Satisfies(sol, [Within(o.id, last)] + staff) <==> 0 <= sol.Start(o.id) <= last && Satisfies(sol, staff)
  {
    SatisfiesOne(sol, Within(o.id, last), true);
    SatisfiesAppend(sol, [Within(o.id, last)], staff);
  }

  lemma StaffConstraintsMean(o: Order, es: seq<Technician>, n: nat, sol: Solution)
    requires 0 <= sol.Start(o.id) < n
    ensures Satisfies(sol, StaffConstraints(o, es, n)) <==> StaffOk(o, es, sol)
  {
    var one := ExactlyOne(o.id, TechnicianIds(es));
    SatisfiesOne(sol, one, true);
    SatisfiesAppend(sol, EligibleStarts(o, es, n), [one]);
    EligibleStartsMean(o, es, n, sol);
    FreeStarts(o, es, n, sol);
  }

  lemma FreeStarts(o: Order, es: seq<Technician>, n: nat, sol: Solution)
    requires 0 <= sol.Start(o.id) < n
    ensures (forall t :: t in es ==> FreeWhenAssigned(o, t, n, sol)) <==>
      forall t :: t in es && sol.Assigned(o.id, t.id) ==> FreeFor(t, sol.Start(o.id), Duration(o))
  {}

  lemma {:induction false} AllOrderConstraintsMean(p: Problem, os: seq<Order>, sol: Solution)
    ensures Satisfies(sol, AllOrderConstraints(p, os)) <==> AllOk(p, os, sol)
    decreases |os|
  {
    if os != [] {
      var k := |os| - 1;
      AllOrderConstraintsMean(p, os[..k], sol);
      OrderConstraintsMean(p, os[k], sol);
      SatisfiesAppend(sol, AllOrderConstraints(p, os[..k]), OrderConstraints(p, os[k]));
      AllOkSnoc(p, os, k, sol);
    }
  }

  predicate AllOk(p: Problem, os: seq<Order>, sol: Solution) {
    forall o :: o in os ==> OrderOk(p, o, sol)
  }

  lemma AllOkSnoc(p: Problem, os: seq<Order>, k: nat, sol: Solution)
    requires k + 1 == |os|
    ensures AllOk(p, os, sol) <==> AllOk(p, os[..k], sol) && OrderOk(p, os[k], sol)
  {
    assert os == os[..k] + [os[k]];
  }

  predicate OnResource(r: Resource, o: Order, sol: Solution) {
    r.Uses(o) && Present(sol, r.IntervalOf(o))
  }

  predicate PairOk(sol: Solution, a: Order, b: Order) {
    sol.Start(a.id) + Duration(a) <= sol.Start(b.id) || sol.Start(b.id) + Duration(b) <= sol.Start(a.id)
  }

  /** No two of the orders on this resource share time. */
  predicate ResourceOk(os: seq<Order>, r: Resource, sol: Solution) {
    forall i, j :: 0 <= i < j < |os| && OnResource(r, os[i], sol) && OnResource(r, os[j], sol) ==>
      PairOk(sol, os[i], os[j])
  }

  lemma {:induction false} IntervalsAre(os: seq<Order>, r: Resource)
    ensures forall i :: 0 <= i < |os| && r.Uses(os[i]) ==> r.IntervalOf(os[i]) in Intervals(os, r)
    ensures forall iv :: iv in Intervals(os, r) ==>
      exists i :: 0 <= i < |os| && r.Uses(os[i]) && iv == r.IntervalOf(os[i])
    decreases |os|
  {
    if os != [] {
      var k := |os| - 1;
      IntervalsAre(os[..k], r);
      forall iv | iv in Intervals(os, r)
        ensures exists i :: 0 <= i < |os| && r.Uses(os[i]) && iv == r.IntervalOf(os[i]) {
        if iv in Intervals(os[..k], r) {
          var i :| 0 <= i < k && r.Uses(os[..k][i]) && iv == r.IntervalOf(os[..k][i]);
          assert r.Uses(os[i]) && iv == r.IntervalOf(os[i]);
        }
      }
    }
  }

  lemma NoOverlapSnoc(before: seq<Interval>, iv: Interval, sol: Solution)
    ensures Holds(NoOverlap(before + [iv]), sol) <==>
      Holds(NoOverlap(before), sol) &&
      forall i :: 0 <= i < |before| && Present(sol, before[i]) && Present(sol, iv) ==> Disjoint(sol, before[i], iv)
  {
    var ivs := before + [iv];
    assert forall i :: 0 <= i < |before| ==> ivs[i] == before[i];
    assert ivs[|before|] == iv;
  }

  lemma ResourceOkSnoc(os: seq<Order>, r: Resource, sol: Solution)
    requires os != []
    ensures var k := |os| - 1;
      ResourceOk(os, r, sol) <==>
      ResourceOk(os[..k], r, sol) &&
      forall i :: 0 <= i < k && OnResource(r, os[i], sol) && OnResource(r, os[k], sol) ==> PairOk(sol, os[i], os[k])
  {
    assert forall i :: 0 <= i < |os| - 1 ==> os[..|os| - 1][i] == os[i];
  }

  lemma {:induction false} ResourceMeans(os: seq<Order>, r: Resource, sol: Solution)
    ensures Holds(NoOverlap(Intervals(os, r)), sol) <==> ResourceOk(os, r, sol)
    decreases |os|
  {
    if os != [] {
      var k := |os| - 1;
      var init, o := os[..k], os[k];
      ResourceMeans(init, r, sol);
      ResourceOkSnoc(os, r, sol);
      var before := Intervals(init, r);
      if r.Uses(o) {
        NoOverlapSnoc(before, r.IntervalOf(o), sol);
        LastIntervalMeans(init, o, r, sol);
        assert forall i :: 0 <= i < k ==> init[i] == os[i];
      } else {
        assert Intervals(os, r) == before;
      }
    }
  }

  /** The interval shares no time with those before it. */
  predicate IntervalClear(sol: Solution, before: seq<Interval>, iv: Interval) {
    forall m :: 0 <= m < |before| && Present(sol, before[m]) && Present(sol, iv) ==> Disjoint(sol, before[m], iv)
  }

  /** The order shares no time with those before it on the resource. */
  predicate OrderClear(init: seq<Order>, o: Order, r: Resource, sol: Solution) {
    forall i :: 0 <= i < |init| && OnResource(r, init[i], sol) && OnResource(r, o, sol) ==> PairOk(sol, init[i], o)
  }

  lemma LastIntervalMeans(init: seq<Order>, o: Order, r: Resource, sol: Solution)
    requires r.Uses(o)
    ensures IntervalClear(sol, Intervals(init, r), r.IntervalOf(o)) <==> OrderClear(init, o, r, sol)
  {
    var before, iv := Intervals(init, r), r.IntervalOf(o);
    IntervalsAre(init, r);
    if IntervalClear(sol, before, iv) {
      forall i | 0 <= i < |init| && OnResource(r, init[i], sol) && OnResource(r, o, sol)
        ensures PairOk(sol, init[i], o) {
        var m :| 0 <= m < |before| && before[m] == r.IntervalOf(init[i]);
        assert Disjoint(sol, before[m], iv);
      }
    }
    if OrderClear(init, o, r, sol) {
      forall m | 0 <= m < |before| && Present(sol, before[m]) && Present(sol, iv)
        ensures Disjoint(sol, before[m], iv) {
        ClearInterval(init, o, r, sol, before[m]);
      }
    }
  }

  lemma ClearInterval(init: seq<Order>, o: Order, r: Resource, sol: Solution, iv: Interval)
    requires r.Uses(o) && OrderClear(init, o, r, sol) && iv in Intervals(init, r)
    requires Present(sol, iv) && Present(sol, r.IntervalOf(o))
    ensures Disjoint(sol, iv, r.IntervalOf(o))
  {
    IntervalsAre(init, r);
    var i :| 0 <= i < |init| && r.Uses(init[i]) && iv == r.IntervalOf(init[i]);
    assert OnResource(r, init[i], sol) && OnResource(r, o, sol);
    assert PairOk(sol, init[i], o);
  }

  /** No technician has two orders at once. */
  predicate EveryoneOk(os: seq<Order>, ts: seq<Technician>, sol: Solution) {
    forall t :: t in ts ==> ResourceOk(os, Person(t), sol)
  }

  lemma EveryoneOkSnoc(os: seq<Order>, ts: seq<Technician>, sol: Solution)
    requires ts != []
    ensures var k := |ts| - 1;
      EveryoneOk(os, ts, sol) <==> EveryoneOk(os, ts[..k], sol) && ResourceOk(os, Person(ts[k]), sol)
  {
    var k := |ts| - 1;
    assert ts == ts[..k] + [ts[k]];
  }

  lemma {:induction false} TechnicianConstraintsMean(os: seq<Order>, ts: seq<Technician>, sol: Solution)
    ensures Satisfies(sol, TechnicianConstraints(os, ts)) <==> EveryoneOk(os, ts, sol)
    decreases |ts|
  {
    if ts != [] {
      var k := |ts| - 1;
      TechnicianConstraintsMean(os, ts[..k], sol);
      TechnicianConstraintsSnoc(os, ts, sol);
      EveryoneOkSnoc(os, ts, sol);
    }
  }

  lemma TechnicianConstraintsSnoc(os: seq<Order>, ts: seq<Technician>, sol: Solution)
    requires ts != []
    ensures var k := |ts| - 1;
      Satisfies(sol, TechnicianConstraints(os, ts)) <==>
        Satisfies(sol, TechnicianConstraints(os, ts[..k])) && ResourceOk(os, Person(ts[k]), sol)
  {
    var k := |ts| - 1;
    var ivs := Intervals(os, Person(ts[k]));
    ResourceMeans(os, Person(ts[k]), sol);
    SatisfiesAppend(sol, TechnicianConstraints(os, ts[..k]), if ivs == [] then [] else [NoOverlap(ivs)]);
    SatisfiesOne(sol, NoOverlap(ivs), ivs != []);
  }

  lemma {:induction false} LineConstraintsMean(os: seq<Order>, lines: seq<string>, sol: Solution)
    ensures Satisfies(sol, LineConstraints(os, lines)) <==> forall l :: l in lines ==> ResourceOk(os, Line(l), sol)
    decreases |lines|
  {
    if lines != [] {
      var k := |lines| - 1;
      LineConstraintsMean(os, lines[..k], sol);
      LineConstraintsSnoc(os, lines, sol);
      assert lines == lines[..k] + [lines[k]];
    }
  }

  lemma LineConstraintsSnoc(os: seq<Order>, lines: seq<string>, sol: Solution)
    requires lines != []
    ensures var k := |lines| - 1;
      Satisfies(sol, LineConstraints(os, lines)) <==>
        Satisfies(sol, LineConstraints(os, lines[..k])) && ResourceOk(os, Line(lines[k]), sol)
  {
    var k := |lines| - 1;
    var ivs := Intervals(os, Line(lines[k]));
    ResourceMeans(os, Line(lines[k]), sol);
    SatisfiesAppend(sol, LineConstraints(os, lines[..k]), if |ivs| > 1 then [NoOverlap(ivs)] else []);
    SatisfiesOne(sol, NoOverlap(ivs), |ivs| > 1);
  }

  predicate IndicatorsOk(o: Order, n: nat, sol: Solution) {
    forall slot :: 0 <= slot < n ==> (sol.IsStart(o.id, slot) <==> sol.Start(o.id) == slot)
  }

  lemma {:induction false} IndicatorsMean(o: Order, n: nat, sol: Solution)
    ensures Satisfies(sol, Indicators(o, n)) <==> IndicatorsOk(o, n, sol)
  {
    if n > 0 {
      IndicatorsMean(o, n - 1, sol);
      SatisfiesAppend(sol, Indicators(o, n - 1), [Indicates(o.id, n - 1)]);
      SatisfiesOne(sol, Indicates(o.id, n - 1), true);
    }
  }

  lemma {:induction false} AllIndicatorsMean(p: Problem, os: seq<Order>, sol: Solution)
    ensures Satisfies(sol, AllIndicators(p, os)) <==> forall o :: o in os ==> IndicatorsOk(o, StartCount(p, o), sol)
    decreases |os|
  {
    if os != [] {
      var k := |os| - 1;
      AllIndicatorsMean(p, os[..k], sol);
      IndicatorsMean(os[k], StartCount(p, os[k]), sol);
      SatisfiesAppend(sol, AllIndicators(p, os[..k]), Indicators(os[k], StartCount(p, os[k])));
      assert os == os[..k] + [os[k]];
    }
  }

  /** The whole model read back as one statement about the variables. */
  predicate Solves(p: Problem, sol: Solution) {
    var os := Sched(p, p.orders);
    && AllOk(p, p.orders, sol)
    && (forall t :: t in p.technicians ==> ResourceOk(os, Person(t), sol))
    && (forall l :: l in Lines(os) ==> ResourceOk(os, Line(l), sol))
    && (forall o :: o in os ==> IndicatorsOk(o, StartCount(p, o), sol))
  }

  lemma EncodeMeaning(p: Problem, sol: Solution)
    ensures Satisfies(sol, Encode(p)) <==> Solves(p, sol)
  {
    var os := Sched(p, p.orders);
    var a, b, c, d := AllOrderConstraints(p, p.orders), TechnicianConstraints(os, p.technicians),
      LineConstraints(os, Lines(os)), AllIndicators(p, os);
    SatisfiesAppend(sol, a + b + c, d);
    SatisfiesAppend(sol, a + b, c);
    SatisfiesAppend(sol, a, b);
    AllOrderConstraintsMean(p, p.orders, sol);
    TechnicianConstraintsMean(os, p.technicians, sol);
    LineConstraintsMean(os, Lines(os), sol);
    AllIndicatorsMean(p, os, sol);
  }
}
