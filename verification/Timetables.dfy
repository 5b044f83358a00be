/** Solutions of the constraint model are feasible timetables, and cost the same. */
module Timetables {
  import opened Options
  import opened Scheduling
  import opened Encoding

  predicate Distinct(os: seq<Order>) {
    forall i, j :: 0 <= i < j < |os| ==> os[i].id != os[j].id
  }

  predicate DistinctTechnicians(ts: seq<Technician>) {
    forall i, j :: 0 <= i < j < |ts| ==> ts[i].id != ts[j].id
  }

  lemma {:induction false} SchedDistinct(p: Problem, os: seq<Order>)
    requires Distinct(os)
    ensures Distinct(Sched(p, os))
    decreases |os|
  {
    if os != [] {
      var init, last := os[..|os| - 1], os[|os| - 1];
      SchedDistinct(p, init);
      var r := Sched(p, init);
      SchedMembers(p, init);
      forall i | 0 <= i < |r| ensures r[i].id != last.id {
        assert r[i] in init;
        var m :| 0 <= m < |init| && init[m] == r[i];
        assert os[m] == r[i];
      }
    }
  }

  lemma {:induction false} EligibleDistinct(ts: seq<Technician>, o: Order)
    requires DistinctTechnicians(ts)
    ensures DistinctTechnicians(Eligible(ts, o))
    decreases |ts|
  {
    if ts != [] {
      var init, last := ts[..|ts| - 1], ts[|ts| - 1];
      EligibleDistinct(init, o);
      var r := Eligible(init, o);
      EligibleMembers(init, o);
      forall i | 0 <= i < |r| ensures r[i].id != last.id {
        assert r[i] in init;
        var m :| 0 <= m < |init| && init[m] == r[i];
        assert ts[m] == r[i];
      }
    }
  }

  // ---- From a solution to a timetable ----

  /** The generator expression that reads the technician back: the first one whose literal is true. */
  function FirstAssigned(ts: seq<Technician>, o: Order, sol: Solution): (r: Option<Technician>)
    ensures r.Some? ==> r.value in ts && CanDo(r.value, o) && sol.Assigned(o.id, r.value.id)
    ensures r.None? ==> forall t :: t in ts && CanDo(t, o) ==> !sol.Assigned(o.id, t.id)
  {
    if ts == [] then None
    else if CanDo(ts[0], o) && sol.Assigned(o.id, ts[0].id) then Some(ts[0])
    else FirstAssigned(ts[1..], o, sol)
  }

  lemma TheTechnician(p: Problem, o: Order, sol: Solution)
    requires OrderOk(p, o, sol) && Schedulable(p, o)
    ensures var r := FirstAssigned(p.technicians, o, sol);
      r.Some? && FreeFor(r.value, sol.Start(o.id), Duration(o)) &&
      forall t :: t in p.technicians && CanDo(t, o) && sol.Assigned(o.id, t.id) ==> t == r.value
  {
    var es := Eligible(p.technicians, o);
    EligibleMembers(p.technicians, o);
    var t :| t in p.technicians && CanDo(t, o);
    assert t in es;
    var ids := TechnicianIds(es);
    var i :| 0 <= i < |ids| && sol.Assigned(o.id, ids[i]) &&
      forall j :: 0 <= j < |ids| && j != i ==> !sol.Assigned(o.id, ids[j]);
    assert es[i] in es && ids[i] == es[i].id;
    forall t | t in p.technicians && CanDo(t, o) && sol.Assigned(o.id, t.id) ensures t == es[i] {
      assert t in es;
      var j :| 0 <= j < |es| && es[j] == t;
      assert ids[j] == t.id;
    }
  }

  predicate Readable(p: Problem, os: seq<Order>, sol: Solution) {
    forall i :: 0 <= i < |os| ==> sol.Start(os[i].id) >= 0 && FirstAssigned(p.technicians, os[i], sol).Some?
  }

  function Extract(p: Problem, os: seq<Order>, sol: Solution): (tt: Timetable)
    requires Readable(p, os, sol)
  {
    seq(|os|, i requires 0 <= i < |os| => Slot(sol.Start(os[i].id), FirstAssigned(p.technicians, os[i], sol).value))
  }

  lemma SolutionReadable(p: Problem, sol: Solution)
    requires Solves(p, sol)
    ensures Readable(p, Sched(p, p.orders), sol)
  {
    var os := Sched(p, p.orders);
    SchedMembers(p, p.orders);
    forall i | 0 <= i < |os| ensures sol.Start(os[i].id) >= 0 && FirstAssigned(p.technicians, os[i], sol).Some? {
      assert os[i] in os && OrderOk(p, os[i], sol);
      TheTechnician(p, os[i], sol);
    }
  }

  lemma SolutionPlaced(p: Problem, o: Order, sol: Solution)
    requires OrderOk(p, o, sol) && Schedulable(p, o)
    ensures sol.Start(o.id) >= 0 && FirstAssigned(p.technicians, o, sol).Some?
    ensures Placed(p, o, Slot(sol.Start(o.id), FirstAssigned(p.technicians, o, sol).value))
  {
    TheTechnician(p, o, sol);
  }

  lemma SolutionApart(os: seq<Order>, r: Resource, sol: Solution, i: nat, j: nat)
    requires i < j < |os| && ResourceOk(os, r, sol) && OnResource(r, os[i], sol) && OnResource(r, os[j], sol)
    requires sol.Start(os[i].id) >= 0 && sol.Start(os[j].id) >= 0
    ensures Apart(os[i], sol.Start(os[i].id), os[j], sol.Start(os[j].id))
  {
    assert PairOk(sol, os[i], os[j]);
  }

  /** Every satisfying assignment is a feasible timetable. */
  lemma EncodingSound(p: Problem, sol: Solution)
    requires Satisfies(sol, Encode(p))
    ensures var os := Sched(p, p.orders); Readable(p, os, sol) && Feasible(p, os, Extract(p, os, sol))
  {
    EncodeMeaning(p, sol);
    SolutionReadable(p, sol);
    SchedMembers(p, p.orders);
    SolutionFeasible(p, Sched(p, p.orders), sol);
  }

  lemma SolutionFeasible(p: Problem, os: seq<Order>, sol: Solution)
    requires Readable(p, os, sol)
    requires forall i :: 0 <= i < |os| ==> OrderOk(p, os[i], sol) && Schedulable(p, os[i])
    requires forall t :: t in p.technicians ==> ResourceOk(os, Person(t), sol)
    requires forall i :: 0 <= i < |os| ==> ResourceOk(os, Line(os[i].line), sol)
    ensures Feasible(p, os, Extract(p, os, sol))
  {
    var tt := Extract(p, os, sol);
    forall i | 0 <= i < |os| ensures Placed(p, os[i], tt[i]) { SolutionPlaced(p, os[i], sol); }
    forall i, j | 0 <= i < j < |os| && tt[i].technician == tt[j].technician
      ensures Apart(os[i], tt[i].start, os[j], tt[j].start)
    {
      SolutionApart(os, Person(tt[i].technician), sol, i, j);
    }
    forall i, j | 0 <= i < j < |os| && os[i].line == os[j].line
      ensures Apart(os[i], tt[i].start, os[j], tt[j].start)
    {
      SolutionApart(os, Line(os[i].line), sol, i, j);
    }
  }

  // ---- From a timetable to a solution ----

  function IndexOf(os: seq<Order>, id: string): (r: int)
    ensures -1 <= r < |os|
    ensures r >= 0 ==> os[r].id == id
    ensures r == -1 ==> forall i :: 0 <= i < |os| ==> os[i].id != id
  {
    if os == [] then -1
    else if os[0].id == id then 0
    else
      var r := IndexOf(os[1..], id);
      if r < 0 then -1 else r + 1
  }

  function StartIn(os: seq<Order>, tt: Timetable, id: string): int {
    var i := IndexOf(os, id);
    if 0 <= i < |tt| then tt[i].start else 0
  }

  function SolutionOf(os: seq<Order>, tt: Timetable): Solution {
    Solution(
      id => StartIn(os, tt, id),
      (id, t) => var i := IndexOf(os, id); 0 <= i < |tt| && tt[i].technician.id == t,
      (id, slot) => StartIn(os, tt, id) == slot)
  }

  lemma IndexOfAt(os: seq<Order>, i: nat)
    requires Distinct(os) && i < |os|
    ensures IndexOf(os, os[i].id) == i
  {
    var r := IndexOf(os, os[i].id);
    assert r >= 0 && os[r].id == os[i].id;
  }

  lemma SameTechnician(ts: seq<Technician>, a: Technician, b: Technician)
    requires DistinctTechnicians(ts) && a in ts && b in ts && a.id == b.id
    ensures a == b
  {
    var i :| 0 <= i < |ts| && ts[i] == a;
    var j :| 0 <= j < |ts| && ts[j] == b;
  }

  lemma PlacedOrderOk(p: Problem, os: seq<Order>, tt: Timetable, i: nat)
    requires DistinctTechnicians(p.technicians) && Distinct(os) && |tt| == |os| && i < |os| && Placed(p, os[i], tt[i])
    ensures OrderOk(p, os[i], SolutionOf(os, tt))
  {
    var o, sol := os[i], SolutionOf(os, tt);
    IndexOfAt(os, i);
    var es := Eligible(p.technicians, o);
    var ids := TechnicianIds(es);
    EligibleDistinct(p.technicians, o);
    EligibleMembers(p.technicians, o);
    assert tt[i].technician in es;
    var k :| 0 <= k < |es| && es[k] == tt[i].technician;
    assert sol.Assigned(o.id, ids[k]);
    assert forall j :: 0 <= j < |ids| && j != k ==> !sol.Assigned(o.id, ids[j]);
    forall t | t in es && sol.Assigned(o.id, t.id) ensures FreeFor(t, sol.Start(o.id), Duration(o)) {
      SameTechnician(p.technicians, t, tt[i].technician);
    }
  }

  lemma FeasibleResource(p: Problem, os: seq<Order>, tt: Timetable, r: Resource)
    requires DistinctTechnicians(p.technicians) && Distinct(os) && Feasible(p, os, tt)
    requires r.Person? ==> r.t in p.technicians
    ensures ResourceOk(os, r, SolutionOf(os, tt))
  {
    var sol := SolutionOf(os, tt);
    forall i, j | 0 <= i < j < |os| && OnResource(r, os[i], sol) && OnResource(r, os[j], sol)
      ensures PairOk(sol, os[i], os[j])
    {
      OnResourceIs(p, os, tt, r, i);
      OnResourceIs(p, os, tt, r, j);
      assert Apart(os[i], tt[i].start, os[j], tt[j].start);
    }
  }

  lemma OnResourceIs(p: Problem, os: seq<Order>, tt: Timetable, r: Resource, i: nat)
    requires DistinctTechnicians(p.technicians) && Distinct(os) && Feasible(p, os, tt) && i < |os|
    requires (r.Person? ==> r.t in p.technicians) && OnResource(r, os[i], SolutionOf(os, tt))
    ensures SolutionOf(os, tt).Start(os[i].id) == tt[i].start
    ensures if r.Person? then r.t == tt[i].technician else r.line == os[i].line
  {
    IndexOfAt(os, i);
    assert Placed(p, os[i], tt[i]);
    if r.Person? { SameTechnician(p.technicians, r.t, tt[i].technician); }
  }

  lemma CompleteOrder(p: Problem, tt: Timetable, o: Order)
    requires DistinctIds(p) && Feasible(p, Sched(p, p.orders), tt) && o in p.orders
    ensures OrderOk(p, o, SolutionOf(Sched(p, p.orders), tt))
  {
    var os, es := Sched(p, p.orders), Eligible(p.technicians, o);
    if es != [] { EligibleMembers(p.technicians, o); assert es[0] in es; }
    SchedDistinct(p, p.orders);
    SchedMembers(p, p.orders);
    if o in os {
      var i :| 0 <= i < |os| && os[i] == o;
      PlacedOrderOk(p, os, tt, i);
    } else if Duration(o) <= p.slots {
      var k := IndexOf(os, o.id);
      if k >= 0 {
        assert os[k] in os;
        SameOrder(p, o, os[k]);
        assert false;
      }
    }
  }

  lemma CompleteSolves(p: Problem, tt: Timetable)
    requires DistinctIds(p) && Feasible(p, Sched(p, p.orders), tt)
    ensures Solves(p, SolutionOf(Sched(p, p.orders), tt))
  {
    var os := Sched(p, p.orders);
    var sol := SolutionOf(os, tt);
    forall o | o in p.orders ensures OrderOk(p, o, sol) { CompleteOrder(p, tt, o); }
    CompleteResources(p, tt);
  }

  lemma CompleteResources(p: Problem, tt: Timetable)
    requires DistinctIds(p) && Feasible(p, Sched(p, p.orders), tt)
    ensures var os := Sched(p, p.orders);
      && (forall t :: t in p.technicians ==> ResourceOk(os, Person(t), SolutionOf(os, tt)))
      && (forall l :: l in Lines(os) ==> ResourceOk(os, Line(l), SolutionOf(os, tt)))
  {
    var os := Sched(p, p.orders);
    var sol := SolutionOf(os, tt);
    SchedDistinct(p, p.orders);
    forall t | t in p.technicians ensures ResourceOk(os, Person(t), sol) { FeasibleResource(p, os, tt, Person(t)); }
    forall l | l in Lines(os) ensures ResourceOk(os, Line(l), sol) { FeasibleResource(p, os, tt, Line(l)); }
  }

  lemma ReadsBack(p: Problem, os: seq<Order>, tt: Timetable)
    requires DistinctTechnicians(p.technicians) && Distinct(os) && Feasible(p, os, tt)
    ensures var sol := SolutionOf(os, tt); Readable(p, os, sol) && Extract(p, os, sol) == tt
  {
    var sol := SolutionOf(os, tt);
    forall i | 0 <= i < |os|
      ensures sol.Start(os[i].id) == tt[i].start && FirstAssigned(p.technicians, os[i], sol) == Some(tt[i].technician)
    {
      IndexOfAt(os, i);
      assert Placed(p, os[i], tt[i]);
      assert sol.Assigned(os[i].id, tt[i].technician.id);
      SameTechnician(p.technicians, FirstAssigned(p.technicians, os[i], sol).value, tt[i].technician);
    }
  }

  /** Every feasible timetable is what some satisfying assignment reads back as. */
  lemma EncodingComplete(p: Problem, tt: Timetable)
    requires DistinctIds(p) && Feasible(p, Sched(p, p.orders), tt)
    ensures var os := Sched(p, p.orders); var sol := SolutionOf(os, tt);
      Satisfies(sol, Encode(p)) && Readable(p, os, sol) && Extract(p, os, sol) == tt
  {
    CompleteSolves(p, tt);
    EncodeMeaning(p, SolutionOf(Sched(p, p.orders), tt));
    SchedDistinct(p, p.orders);
    ReadsBack(p, Sched(p, p.orders), tt);
  }

  lemma SameOrder(p: Problem, a: Order, b: Order)
    requires DistinctIds(p) && a in p.orders && b in p.orders && a.id == b.id
    ensures a == b
  {
    var i :| 0 <= i < |p.orders| && p.orders[i] == a;
    var j :| 0 <= j < |p.orders| && p.orders[j] == b;
  }

  /** A timetable fixes every variable the model has for a schedulable order. */
  lemma TimetableFixesSolution(p: Problem, a: Solution, b: Solution, o: Order)
    requires Satisfies(a, Encode(p)) && Satisfies(b, Encode(p)) && o in Sched(p, p.orders)
    requires var os := Sched(p, p.orders);
      Readable(p, os, a) && Readable(p, os, b) && Extract(p, os, a) == Extract(p, os, b)
    ensures a.Start(o.id) == b.Start(o.id)
    ensures forall t :: t in p.technicians && CanDo(t, o) ==> a.Assigned(o.id, t.id) == b.Assigned(o.id, t.id)
    ensures forall slot :: 0 <= slot < StartCount(p, o) ==> a.IsStart(o.id, slot) == b.IsStart(o.id, slot)
  {
    SolvedOrder(p, a, o);
    SolvedOrder(p, b, o);
    var os := Sched(p, p.orders);
    var i :| 0 <= i < |os| && os[i] == o;
    assert Extract(p, os, a)[i] == Extract(p, os, b)[i];
    TheTechnician(p, o, a);
    TheTechnician(p, o, b);
  }

  lemma SolvedOrder(p: Problem, sol: Solution, o: Order)
    requires Satisfies(sol, Encode(p)) && o in Sched(p, p.orders)
    ensures OrderOk(p, o, sol) && Schedulable(p, o) && IndicatorsOk(o, StartCount(p, o), sol)
  {
    EncodeMeaning(p, sol);
    SchedMembers(p, p.orders);
  }

  // ---- The objective ----

  datatype Term =
    | StartTerm(coef: int, order: string)
    | StartAtTerm(coef: int, order: string, slot: nat)
    | LabourTerm(coef: int, order: string, technician: string)

  function TermValue(t: Term, sol: Solution): int {
    match t
    case StartTerm(c, o) => c * sol.Start(o)
    case StartAtTerm(c, o, slot) => if sol.IsStart(o, slot) then c else 0
    case LabourTerm(c, o, tech) => if sol.Assigned(o, tech) then c else 0
  }

  function Value(ts: seq<Term>, sol: Solution): int {
    if ts == [] then 0 else Value(ts[..|ts| - 1], sol) + TermValue(ts[|ts| - 1], sol)
  }

  lemma {:induction false} ValueAppend(a: seq<Term>, b: seq<Term>, sol: Solution)
    ensures Value(a + b, sol) == Value(a, sol) + Value(b, sol)
    decreases |b|
  {
    if b == [] {
      assert a + b == a;
    } else {
      var n := |b| - 1;
      assert (a + b)[..|a + b| - 1] == a + b[..n];
      ValueAppend(a, b[..n], sol);
    }
  }

  lemma ValueSnoc(a: seq<Term>, t: Term, wanted: bool, sol: Solution)
    ensures Value(a + (if wanted then [t] else []), sol) == Value(a, sol) + (if wanted then TermValue(t, sol) else 0)
  {
    if wanted {
      assert (a + [t])[..|a|] == a;
    } else {
      assert a + [] == a;
    }
  }

  function WaitTerms(p: Problem, o: Order): seq<Term> {
    if WaitPenalty(p, o) == 0 then [] else [StartTerm(WaitPenalty(p, o), o.id)]
  }

  /** One term per start slot that costs something. */
  function PricedTerms(cost: nat -> int, id: string, n: nat): seq<Term> {
    if n == 0 then []
    else PricedTerms(cost, id, n - 1) + (if cost(n - 1) != 0 then [StartAtTerm(cost(n - 1), id, n - 1)] else [])
  }

  function SlotCosts(p: Problem, o: Order): nat -> int { (slot: nat) => SlotCost(p, o, slot) }

  function SlotTerms(p: Problem, o: Order, n: nat): seq<Term> { PricedTerms(SlotCosts(p, o), o.id, n) }

  function LabourTerms(o: Order, ts: seq<Technician>): seq<Term> {
    if ts == [] then []
    else
      var t := ts[|ts| - 1];
      LabourTerms(o, ts[..|ts| - 1]) +
        (if CanDo(t, o) && t.hourlyCost != 0.0 then [LabourTerm(LabourCost(o, t), o.id, t.id)] else [])
  }

  function OrderTerms(p: Problem, o: Order): seq<Term> {
    WaitTerms(p, o) + SlotTerms(p, o, StartCount(p, o)) + LabourTerms(o, p.technicians)
  }

  function Objective(p: Problem, os: seq<Order>): seq<Term> {
    if os == [] then [] else Objective(p, os[..|os| - 1]) + OrderTerms(p, os[|os| - 1])
  }

  lemma {:induction false} PricedTermsValue(cost: nat -> int, id: string, n: nat, sol: Solution)
    requires forall slot :: 0 <= slot < n ==> (sol.IsStart(id, slot) <==> sol.Start(id) == slot)
    ensures Value(PricedTerms(cost, id, n), sol) == if 0 <= sol.Start(id) < n then cost(sol.Start(id)) else 0
  {
    if n > 0 {
      var last: nat := n - 1;
      PricedTermsValue(cost, id, last, sol);
      assert sol.IsStart(id, last) <==> sol.Start(id) == last;
      SlotSnoc(PricedTerms(cost, id, last), cost(last), id, last, sol);
    }
  }

  lemma SlotTermsValue(p: Problem, o: Order, n: nat, sol: Solution)
    requires IndicatorsOk(o, n, sol)
    ensures Value(SlotTerms(p, o, n), sol) ==
      if 0 <= sol.Start(o.id) < n then SlotCost(p, o, sol.Start(o.id)) else 0
  {
    PricedTermsValue(SlotCosts(p, o), o.id, n, sol);
  }

  lemma SlotSnoc(before: seq<Term>, cost: int, id: string, slot: nat, sol: Solution)
    ensures Value(before + (if cost != 0 then [StartAtTerm(cost, id, slot)] else []), sol)
         == Value(before, sol) + (if sol.IsStart(id, slot) then cost else 0)
  {
    ValueSnoc(before, StartAtTerm(cost, id, slot), cost != 0, sol);
  }

  lemma {:induction false} LabourTermsValue(o: Order, ts: seq<Technician>, sol: Solution, t: Technician)
    requires DistinctTechnicians(ts)
    requires CanDo(t, o) && sol.Assigned(o.id, t.id)
    requires forall u :: u in ts && CanDo(u, o) && sol.Assigned(o.id, u.id) ==> u == t
    ensures Value(LabourTerms(o, ts), sol) == if t in ts then LabourCost(o, t) else 0
    decreases |ts|
  {
    if ts != [] {
      var k := |ts| - 1;
      var init, u := ts[..k], ts[k];
      LabourTermsValue(o, init, sol, t);
      ValueSnoc(LabourTerms(o, init), LabourTerm(LabourCost(o, u), o.id, u.id),
                CanDo(u, o) && u.hourlyCost != 0.0, sol);
      assert t in ts <==> t in init || t == u;
      if u == t && t in init {
        assert false;
      }
    }
  }

  lemma OrderTermsValue(p: Problem, o: Order, sol: Solution)
    requires DistinctTechnicians(p.technicians) && Schedulable(p, o)
    requires OrderOk(p, o, sol) && IndicatorsOk(o, StartCount(p, o), sol)
    ensures FirstAssigned(p.technicians, o, sol).Some?
    ensures Value(OrderTerms(p, o), sol) ==
      DirectCost(p, o, Slot(sol.Start(o.id), FirstAssigned(p.technicians, o, sol).value))
  {
    TheTechnician(p, o, sol);
    var t := FirstAssigned(p.technicians, o, sol).value;
    SlotTermsValue(p, o, StartCount(p, o), sol);
    LabourTermsValue(o, p.technicians, sol, t);
    ValueAppend(WaitTerms(p, o) + SlotTerms(p, o, StartCount(p, o)), LabourTerms(o, p.technicians), sol);
    ValueAppend(WaitTerms(p, o), SlotTerms(p, o, StartCount(p, o)), sol);
    assert Value([], sol) == 0;
    if WaitPenalty(p, o) != 0 {
      var w := [StartTerm(WaitPenalty(p, o), o.id)];
      assert w[..0] == [] && Value(w, sol) == TermValue(w[0], sol);
    }
  }

  lemma {:induction false} TotalCostSnoc(p: Problem, os: seq<Order>, tt: Timetable)
    requires |tt| == |os| && os != []
    ensures var k := |os| - 1; TotalCost(p, os, tt) == TotalCost(p, os[..k], tt[..k]) + DirectCost(p, os[k], tt[k])
    decreases |os|
  {
    if |os| > 1 {
      var k := |os| - 1;
      TotalCostSnoc(p, os[1..], tt[1..]);
      assert os[1..][..k - 1] == os[..k][1..] && tt[1..][..k - 1] == tt[..k][1..];
    }
  }

  lemma {:induction false} ObjectiveValue(p: Problem, os: seq<Order>, sol: Solution)
    requires DistinctTechnicians(p.technicians) && Readable(p, os, sol)
    requires forall o :: o in os ==> Schedulable(p, o) && OrderOk(p, o, sol) && IndicatorsOk(o, StartCount(p, o), sol)
    ensures Value(Objective(p, os), sol) == TotalCost(p, os, Extract(p, os, sol))
    decreases |os|
  {
    if os != [] {
      var k := |os| - 1;
      ObjectiveValue(p, os[..k], sol);
      assert os[k] in os;
      ObjectiveSnoc(p, os, sol);
    }
  }

  lemma ObjectiveSnoc(p: Problem, os: seq<Order>, sol: Solution)
    requires DistinctTechnicians(p.technicians) && os != [] && Readable(p, os, sol)
    requires var o := os[|os| - 1]; Schedulable(p, o) && OrderOk(p, o, sol) && IndicatorsOk(o, StartCount(p, o), sol)
    requires var init := os[..|os| - 1]; Value(Objective(p, init), sol) == TotalCost(p, init, Extract(p, init, sol))
    ensures Value(Objective(p, os), sol) == TotalCost(p, os, Extract(p, os, sol))
  {
    OrderTermsValue(p, os[|os| - 1], sol);
    ValueAppend(Objective(p, os[..|os| - 1]), OrderTerms(p, os[|os| - 1]), sol);
    ExtractedCost(p, os, sol);
  }

  lemma ExtractedCost(p: Problem, os: seq<Order>, sol: Solution)
    requires os != [] && Readable(p, os, sol)
    ensures var init, o := os[..|os| - 1], os[|os| - 1];
      TotalCost(p, os, Extract(p, os, sol)) == TotalCost(p, init, Extract(p, init, sol)) +
        DirectCost(p, o, Slot(sol.Start(o.id), FirstAssigned(p.technicians, o, sol).value))
  {
    var k, tt := |os| - 1, Extract(p, os, sol);
    TotalCostSnoc(p, os, tt);
    assert tt[..k] == Extract(p, os[..k], sol);
  }

  /** The indicator-based objective is the direct cost of the timetable it describes. */
  lemma ObjectiveIsCost(p: Problem, sol: Solution)
    requires DistinctIds(p) && Satisfies(sol, Encode(p))
    ensures var os := Sched(p, p.orders);
      Readable(p, os, sol) && Value(Objective(p, os), sol) == TotalCost(p, os, Extract(p, os, sol))
  {
    EncodingSound(p, sol);
    forall o | o in Sched(p, p.orders)
      ensures Schedulable(p, o) && OrderOk(p, o, sol) && IndicatorsOk(o, StartCount(p, o), sol)
    {
      SolvedOrder(p, sol, o);
    }
    ObjectiveValue(p, Sched(p, p.orders), sol);
  }

  /** What OPTIMAL means: no solution of the model has a smaller objective. */
  ghost predicate Minimal(p: Problem, sol: Solution) {
    forall other: Solution :: Satisfies(other, Encode(p)) ==>
      Value(Objective(p, Sched(p, p.orders)), sol) <= Value(Objective(p, Sched(p, p.orders)), other)
  }

  /** An optimal solution reads back as a timetable no feasible timetable beats. */
  lemma OptimalTimetable(p: Problem, sol: Solution, tt: Timetable)
    requires DistinctIds(p) && Satisfies(sol, Encode(p)) && Minimal(p, sol)
    requires Feasible(p, Sched(p, p.orders), tt)
    ensures var os := Sched(p, p.orders);
      Readable(p, os, sol) && TotalCost(p, os, Extract(p, os, sol)) <= TotalCost(p, os, tt)
  {
    EncodingComplete(p, tt);
    ObjectiveIsCost(p, sol);
    ObjectiveIsCost(p, SolutionOf(Sched(p, p.orders), tt));
  }
}
