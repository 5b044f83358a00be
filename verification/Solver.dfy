/** `solve` as its loops run it, with CP-SAT as an oracle. */
module Solver {
  import opened Options
  import opened Scheduling
  import opened Encoding
  import opened Timetables
  import opened Reals

  datatype Assignment = Assignment(
    orderId: string, technicianId: Option<string>, start: int, end: int, riskBefore: real, energyCost: real)

  datatype Result = Result(
    status: string, assignments: seq<Assignment>, objective: Option<real>, unscheduled: seq<string>)

  datatype Answer = Optimal(sol: Solution) | FeasibleOnly(sol: Solution) | NoAnswer(status: string)

  /** What the solver promises about the model it was given. */
  ghost predicate Honest(p: Problem, a: Answer) {
    match a
    case Optimal(sol) => Satisfies(sol, Encode(p)) && Minimal(p, sol)
    case FeasibleOnly(sol) => Satisfies(sol, Encode(p))
    case NoAnswer(_) => true
  }

  method ForbidStarts(o: Order, t: Technician, last: nat) returns (cs: seq<Constraint>)
    ensures cs == ForbiddenStarts(o, t, last + 1)
  {
    cs := [];
    for slot := 0 to last + 1
      invariant cs == ForbiddenStarts(o, t, slot)
    {
      if !FreeFor(t, slot, Duration(o)) { cs := cs + [NotAt(o.id, slot, t.id)]; }
    }
  }

  method EncodeStaff(o: Order, eligible: seq<Technician>, last: nat) returns (cs: seq<Constraint>)
    ensures cs == StaffConstraints(o, eligible, last + 1)
  {
    var literals: seq<string> := [];
    cs := [];
    for i := 0 to |eligible|
      invariant cs == EligibleStarts(o, eligible[..i], last + 1)
      invariant literals == TechnicianIds(eligible[..i])
    {
      var forbidden := ForbidStarts(o, eligible[i], last);
      assert eligible[..i + 1][..i] == eligible[..i];
      literals := literals + [eligible[i].id];
      cs := cs + forbidden;
    }
    assert eligible[..|eligible|] == eligible;
    cs := cs + [ExactlyOne(o.id, literals)];
  }

  method EncodeOrder(p: Problem, o: Order) returns (cs: seq<Constraint>)
    ensures cs == OrderConstraints(p, o)
  {
    cs := [];
    var duration := Duration(o);
    if duration > p.slots { return; }
    var last := p.slots - duration;
    var eligible := Eligible(p.technicians, o);
    cs := [Within(o.id, last)];
    if eligible == [] { return; }
    var staff := EncodeStaff(o, eligible, last);
    cs := cs + staff;
  }

  method EncodePeople(os: seq<Order>, technicians: seq<Technician>) returns (cs: seq<Constraint>)
    ensures cs == TechnicianConstraints(os, technicians)
  {
    cs := [];
    for i := 0 to |technicians|
      invariant cs == TechnicianConstraints(os, technicians[..i])
    {
      assert technicians[..i + 1][..i] == technicians[..i];
      var optional := Intervals(os, Person(technicians[i]));
      if optional != [] { cs := cs + [NoOverlap(optional)]; }
    }
    assert technicians[..|technicians|] == technicians;
  }

  method EncodeLines(os: seq<Order>, lines: seq<string>) returns (cs: seq<Constraint>)
    ensures cs == LineConstraints(os, lines)
  {
    cs := [];
    for i := 0 to |lines|
      invariant cs == LineConstraints(os, lines[..i])
    {
      assert lines[..i + 1][..i] == lines[..i];
      var onLine := Intervals(os, Line(lines[i]));
      if |onLine| > 1 { cs := cs + [NoOverlap(onLine)]; }
    }
    assert lines[..|lines|] == lines;
  }

  method EncodeResources(p: Problem, os: seq<Order>) returns (cs: seq<Constraint>)
    ensures cs == TechnicianConstraints(os, p.technicians) + LineConstraints(os, Lines(os))
  {
    cs := EncodePeople(os, p.technicians);
    var lines := EncodeLines(os, Lines(os));
    cs := cs + lines;
  }

  method PriceOrder(p: Problem, o: Order) returns (cs: seq<Constraint>, terms: seq<Term>)
    requires Duration(o) <= p.slots
    ensures cs == Indicators(o, StartCount(p, o)) && terms == OrderTerms(p, o)
  {
    cs, terms := [], [];
    var waitPenalty := WaitPenalty(p, o);
    if waitPenalty != 0 { terms := terms + [StartTerm(waitPenalty, o.id)]; }
    var slotTerms: seq<Term> := [];
    for slot := 0 to p.slots - Duration(o) + 1
      invariant cs == Indicators(o, slot) && slotTerms == SlotTerms(p, o, slot)
    {
      cs := cs + [Indicates(o.id, slot)];
      var cost := SlotCost(p, o, slot);
      if cost != 0 { slotTerms := slotTerms + [StartAtTerm(cost, o.id, slot)]; }
    }
    var labour: seq<Term> := [];
    for i := 0 to |p.technicians|
      invariant labour == LabourTerms(o, p.technicians[..i])
    {
      var t := p.technicians[i];
      assert p.technicians[..i + 1][..i] == p.technicians[..i];
      if CanDo(t, o) && t.hourlyCost != 0.0 { labour := labour + [LabourTerm(LabourCost(o, t), o.id, t.id)]; }
    }
    assert p.technicians[..|p.technicians|] == p.technicians;
    terms := terms + slotTerms + labour;
  }

  lemma OneMoreOrder(p: Problem, os: seq<Order>, i: nat)
    requires i < |os|
    ensures AllOrderConstraints(p, os[..i + 1]) == AllOrderConstraints(p, os[..i]) + OrderConstraints(p, os[i])
  {
    assert os[..i + 1][..i] == os[..i];
  }

  method EncodeOrders(p: Problem) returns (cs: seq<Constraint>)
    ensures cs == AllOrderConstraints(p, p.orders)
  {
    cs := [];
    for i := 0 to |p.orders|
      invariant cs == AllOrderConstraints(p, p.orders[..i])
    {
      OneMoreOrder(p, p.orders, i);
      var more := EncodeOrder(p, p.orders[i]);
      cs := cs + more;
    }
    assert p.orders[..|p.orders|] == p.orders;
  }

  method PriceOrders(p: Problem, os: seq<Order>) returns (cs: seq<Constraint>, terms: seq<Term>)
    requires forall o :: o in os ==> Duration(o) <= p.slots
    ensures cs == AllIndicators(p, os) && terms == Objective(p, os)
  {
    cs, terms := [], [];
    for i := 0 to |os|
      invariant cs == AllIndicators(p, os[..i]) && terms == Objective(p, os[..i])
    {
      assert os[..i + 1][..i] == os[..i] && os[i] in os;
      var more, price := PriceOrder(p, os[i]);
      cs, terms := cs + more, terms + price;
    }
    assert os[..|os|] == os;
  }

  /** The model and the objective, built as `solve` builds them. */
  method BuildModel(p: Problem) returns (cs: seq<Constraint>, terms: seq<Term>)
    ensures cs == Encode(p) && terms == Objective(p, Sched(p, p.orders))
  {
    var os := Sched(p, p.orders);
    var perOrder := EncodeOrders(p);
    var resources := EncodeResources(p, os);
    SchedMembers(p, p.orders);
    var indicators, price := PriceOrders(p, os);
    terms := price;
    cs := perOrder + resources + indicators;
    Regroup(perOrder, TechnicianConstraints(os, p.technicians), LineConstraints(os, Lines(os)), indicators);
  }

  lemma Regroup<T>(a: seq<T>, b: seq<T>, c: seq<T>, d: seq<T>)
    ensures a + (b + c) + d == a + b + c + d
  {
  }

  function Ids(os: seq<Order>): seq<string> {
    if os == [] then [] else Ids(os[..|os| - 1]) + [os[|os| - 1].id]
  }

  function Unscheduled(p: Problem, os: seq<Order>): seq<string> {
    if os == [] then []
    else Unscheduled(p, os[..|os| - 1]) + (if Schedulable(p, os[|os| - 1]) then [] else [os[|os| - 1].id])
  }

  /** Assigned and unscheduled orders together are the orders, each once. */
  lemma {:induction false} OrdersPartition(p: Problem, os: seq<Order>)
    ensures multiset(Ids(Sched(p, os))) + multiset(Unscheduled(p, os)) == multiset(Ids(os))
    decreases |os|
  {
    if os != [] {
      var init, o := os[..|os| - 1], os[|os| - 1];
      OrdersPartition(p, init);
      var before := Sched(p, init);
      if Schedulable(p, o) {
        assert Sched(p, os) == before + [o];
        IdsSnoc(before, o);
        assert Unscheduled(p, os) == Unscheduled(p, init);
      } else {
        assert Sched(p, os) == before;
      }
    }
  }

  lemma IdsSnoc(os: seq<Order>, o: Order)
    ensures Ids(os + [o]) == Ids(os) + [o.id]
  {
    assert (os + [o])[..|os|] == os;
  }

  function AssignmentOf(p: Problem, o: Order, s: Slot): Assignment {
    Assignment(o.id, Some(s.technician.id), s.start, s.start + Duration(o), Risk(o, s.start),
               Rounded(Energy(p, o, s.start, Duration(o)), 100.0))
  }

  /** The assignments spell out this timetable, order by order. */
  predicate Describes(p: Problem, os: seq<Order>, tt: Timetable, assignments: seq<Assignment>) {
    |tt| == |os| == |assignments| && forall i :: 0 <= i < |os| ==> assignments[i] == AssignmentOf(p, os[i], tt[i])
  }

  /** Each schedulable order with its start and the first technician whose literal is true. */
  method ReadTimetable(p: Problem, os: seq<Order>, sol: Solution) returns (assignments: seq<Assignment>)
    requires Readable(p, os, sol)
    ensures Describes(p, os, Extract(p, os, sol), assignments)
  {
    ghost var tt := Extract(p, os, sol);
    assignments := [];
    for i := 0 to |os|
      invariant |assignments| == i
      invariant forall k :: 0 <= k < i ==> assignments[k] == AssignmentOf(p, os[k], tt[k])
    {
      var o := os[i];
      var start, technician := sol.Start(o.id), FirstAssigned(p.technicians, o, sol);
      assignments := assignments + [Assignment(
        o.id, (match technician case Some(t) => Some(t.id) case None => None), start, start + Duration(o),
        Risk(o, start), Rounded(Energy(p, o, start, Duration(o)), 100.0))];
    }
  }

  // ---- What an assignment says, on its own ----

  /** The slots hold the minutes, and one slot fewer would not, unless one is all there is. */
  predicate Holds(slots: int, minutes: int) {
    slots * SLOT_MINUTES >= minutes && (slots == 1 || (slots - 1) * SLOT_MINUTES < minutes)
  }

  /** One skill in common is enough, and an order may ask for none. */
  predicate Able(t: Technician, o: Order) {
    o.skills == [] || exists i, j :: 0 <= i < |o.skills| && 0 <= j < |t.skills| && o.skills[i] == t.skills[j]
  }

  /** A technician with a calendar is free only in slots the calendar says so of, and never after its end. */
  predicate Free(t: Technician, first: int, end: int) {
    t.available == [] || (end <= |t.available| && forall k :: 0 <= first <= k < end ==> t.available[k])
  }

  /** The assignment names this technician of the problem: able, and free from its start to its end. */
  predicate Staffs(a: Assignment, o: Order, t: Technician) {
    a.technicianId == Some(t.id) && Able(t, o) && Free(t, a.start, a.end)
  }

  lemma AbleIs(t: Technician, o: Order)
    ensures CanDo(t, o) <==> Able(t, o)
  {
    if x :| x in o.skills && x in t.skills {
      var i :| 0 <= i < |o.skills| && o.skills[i] == x;
      var j :| 0 <= j < |t.skills| && t.skills[j] == x;
    }
    if i, j :| 0 <= i < |o.skills| && 0 <= j < |t.skills| && o.skills[i] == t.skills[j] {
      assert o.skills[i] in o.skills && t.skills[j] in t.skills;
    }
  }

  lemma FreeIs(t: Technician, start: nat, n: nat)
    requires n > 0
    ensures FreeFor(t, start, n) <==> Free(t, start, start + n)
  {
    if FreeFor(t, start, n) && t.available != [] {
      assert Available(t, start + n - 1);
      forall k | start <= k < start + n ensures t.available[k] { assert Available(t, k); }
    }
  }

  /** The order fits the horizon and someone is able to do it. */
  predicate Doable(p: Problem, o: Order) {
    && p.slots > 0 && o.durationMin <= p.slots * SLOT_MINUTES
    && exists k :: 0 <= k < |p.technicians| && Able(p.technicians[k], o)
  }

  lemma DoableIs(p: Problem, o: Order)
    ensures Schedulable(p, o) <==> Doable(p, o)
  {
    if t :| t in p.technicians && CanDo(t, o) {
      var k :| 0 <= k < |p.technicians| && p.technicians[k] == t;
      AbleIs(t, o);
    }
    if k :| 0 <= k < |p.technicians| && Able(p.technicians[k], o) {
      AbleIs(p.technicians[k], o);
      assert p.technicians[k] in p.technicians;
    }
  }

  /** A placement is a start, inside the horizon, of someone able who is free for the slots the minutes need. */
  lemma PlacedIff(p: Problem, o: Order, s: Slot)
    ensures Placed(p, o, s) <==>
      && s.technician in p.technicians && Able(s.technician, o)
      && exists n: nat :: n > 0 && Holds(n, o.durationMin) && s.start + n <= p.slots
           && Free(s.technician, s.start, s.start + n)
  {
    AbleIs(s.technician, o);
    FreeIs(s.technician, s.start, Duration(o));
    assert Holds(Duration(o), o.durationMin);
  }

  /** An order with this id does not fit the horizon, or nobody is able to do it. */
  predicate LeftOut(p: Problem, os: seq<Order>, id: string) {
    exists i :: 0 <= i < |os| && os[i].id == id && !Doable(p, os[i])
  }

  /** Those are exactly the orders that are not scheduled. */
  lemma {:induction false} LeftOutIff(p: Problem, os: seq<Order>, id: string)
    ensures id in Unscheduled(p, os) <==> LeftOut(p, os, id)
    decreases |os|
  {
    if os != [] {
      var n := |os| - 1;
      LeftOutIff(p, os[..n], id);
      DoableIs(p, os[n]);
      if i :| 0 <= i < n && os[..n][i].id == id && !Doable(p, os[..n][i]) { assert os[i] == os[..n][i]; }
      if i :| 0 <= i < |os| && os[i].id == id && !Doable(p, os[i]) {
        if i < n { assert os[..n][i] == os[i]; }
      }
    }
  }

  /** What an assignment says about its order. */
  predicate Tells(p: Problem, o: Order, a: Assignment) {
    && a.orderId == o.id && 0 <= a.start < a.end <= p.slots && Holds(a.end - a.start, o.durationMin)
    && (exists t :: t in p.technicians && Staffs(a, o, t))
    && a.riskBefore == (if a.start < |o.riskBySlot| then o.riskBySlot[a.start] else 0.0)
    && var cost := o.energyKw * 0.25 * TariffOver(p.tariff, a.start, a.end);
      cost - 0.005 <= a.energyCost <= cost + 0.005
  }

  /** Half-open in slots. */
  predicate Disjoint(a: Assignment, b: Assignment) { a.end <= b.start || b.end <= a.start }

  /** One assignment for each order, and none of one technician or line share a slot. */
  predicate Plan(p: Problem, os: seq<Order>, s: seq<Assignment>) {
    && |s| == |os| && (forall i :: 0 <= i < |os| ==> Tells(p, os[i], s[i]))
    && forall i, j :: 0 <= i < j < |os| && (s[i].technicianId == s[j].technicianId || os[i].line == os[j].line) ==>
         Disjoint(s[i], s[j])
  }

  lemma AssignmentTells(p: Problem, o: Order, s: Slot, a: Assignment)
    requires Placed(p, o, s) && a == AssignmentOf(p, o, s)
    ensures Tells(p, o, a)
  {
    EnergyIs(p, o, s.start, Duration(o));
    RoundedIsNear(Energy(p, o, s.start, Duration(o)), 100.0);
    AbleIs(s.technician, o);
    FreeIs(s.technician, s.start, Duration(o));
    assert Staffs(a, o, s.technician);
  }

  /** The assignments of a feasible timetable are a plan. */
  lemma FeasiblePlan(p: Problem, os: seq<Order>, tt: Timetable, s: seq<Assignment>)
    requires Feasible(p, os, tt) && Describes(p, os, tt, s) && DistinctTechnicians(p.technicians)
    ensures Plan(p, os, s)
  {
    forall i | 0 <= i < |os| ensures Tells(p, os[i], s[i]) { AssignmentTells(p, os[i], tt[i], s[i]); }
    forall i, j | 0 <= i < j < |os| && (s[i].technicianId == s[j].technicianId || os[i].line == os[j].line)
      ensures Disjoint(s[i], s[j])
    {
      assert Placed(p, os[i], tt[i]) && Placed(p, os[j], tt[j]);
      if s[i].technicianId == s[j].technicianId {
        SameTechnician(p.technicians, tt[i].technician, tt[j].technician);
      }
    }
  }

  /** Feasible, described by the assignments, priced at its direct cost and, if `best`, undercut by none. */
  ghost predicate GoodTimetable(p: Problem, tt: Timetable, r: Result, best: bool) {
    var os := Sched(p, p.orders);
    && Feasible(p, os, tt) && Describes(p, os, tt, r.assignments)
    && r.objective == Some(TotalCost(p, os, tt) as real / COST_SCALE)
    && (best ==> forall other :: Feasible(p, os, other) ==> TotalCost(p, os, tt) <= TotalCost(p, os, other))
  }

  lemma AnswerIsGood(p: Problem, answer: Answer, r: Result)
    requires DistinctIds(p) && !answer.NoAnswer? && Honest(p, answer)
    requires Readable(p, Sched(p, p.orders), answer.sol)
    requires Describes(p, Sched(p, p.orders), Extract(p, Sched(p, p.orders), answer.sol), r.assignments)
    requires r.objective == Some(Value(Objective(p, Sched(p, p.orders)), answer.sol) as real / COST_SCALE)
    ensures GoodTimetable(p, Extract(p, Sched(p, p.orders), answer.sol), r, answer.Optimal?)
  {
    EncodingSound(p, answer.sol);
    ObjectiveIsCost(p, answer.sol);
    if answer.Optimal? {
      var os := Sched(p, p.orders);
      forall other | Feasible(p, os, other)
        ensures TotalCost(p, os, Extract(p, os, answer.sol)) <= TotalCost(p, os, other)
      {
        OptimalTimetable(p, answer.sol, other);
      }
    }
  }

  method ReadAnswer(p: Problem, answer: Answer, terms: seq<Term>) returns (r: Result)
    requires DistinctIds(p) && !answer.NoAnswer? && Honest(p, answer) && terms == Objective(p, Sched(p, p.orders))
    ensures r.unscheduled == Unscheduled(p, p.orders) && r.status == (if answer.Optimal? then "OPTIMAL" else "FEASIBLE")
    ensures exists tt :: GoodTimetable(p, tt, r, answer.Optimal?)
    ensures Plan(p, Sched(p, p.orders), r.assignments)
    ensures forall id :: id in r.unscheduled <==> LeftOut(p, p.orders, id)
  {
    var sol, os := answer.sol, Sched(p, p.orders);
    EncodingSound(p, sol);
    var assignments := ReadTimetable(p, os, sol);
    var value := if terms == [] then 0 else Value(terms, sol);
    r := Result(if answer.Optimal? then "OPTIMAL" else "FEASIBLE", assignments, Some(value as real / COST_SCALE),
                Unscheduled(p, p.orders));
    AnswerIsGood(p, answer, r);
    FeasiblePlan(p, os, Extract(p, os, sol), assignments);
    forall id ensures id in r.unscheduled <==> LeftOut(p, p.orders, id) { LeftOutIff(p, p.orders, id); }
  }

  /**
   * A solved problem comes back as a feasible timetable priced at its direct cost, and, when the
   * solver says OPTIMAL, one that no feasible timetable undercuts.
   */
  method Solve(p: Problem, answer: Answer) returns (r: Result)
    requires DistinctIds(p)
    requires p.orders != [] && p.technicians != [] ==> Honest(p, answer)
    ensures p.orders == [] ==> r == Result("OPTIMAL", [], Some(0.0), [])
    ensures p.orders != [] && (p.technicians == [] || answer.NoAnswer?) ==>
      r.assignments == [] && r.objective == None && r.unscheduled == Ids(p.orders)
      && r.status == if p.technicians == [] then "INFEASIBLE" else answer.status
    ensures p.orders != [] && p.technicians != [] && !answer.NoAnswer? ==>
      && r.unscheduled == Unscheduled(p, p.orders)
      && r.status == (if answer.Optimal? then "OPTIMAL" else "FEASIBLE")
      && Plan(p, Sched(p, p.orders), r.assignments)
      && (forall id :: id in r.unscheduled <==> LeftOut(p, p.orders, id))
      && exists tt :: GoodTimetable(p, tt, r, answer.Optimal?)
  {
    if p.orders == [] { return Result("OPTIMAL", [], Some(0.0), []); }
    if p.technicians == [] { return Result("INFEASIBLE", [], None, Ids(p.orders)); }
    var cs, terms := BuildModel(p);
    if answer.NoAnswer? { return Result(answer.status, [], None, Ids(p.orders)); }
    r := ReadAnswer(p, answer, terms);
  }
}

/** The overlap sweep run after a planner drags a bar. */
module Conflicts {
  import opened Options
  import opened Scheduling
  import opened Timetables
  import opened Solver

  datatype Conflict = Conflict(first: string, second: string, kind: string)

  /** Line of each order the caller found; a missing key is an order that no longer exists. */
  type Lines = map<string, string>

  predicate SamePerson(a: Assignment, b: Assignment) {
    a.technicianId.Some? && a.technicianId.value != "" && a.technicianId == b.technicianId
  }

  predicate SameLine(a: Assignment, b: Assignment, lines: Lines) {
    a.orderId in lines && b.orderId in lines && lines[a.orderId] == lines[b.orderId]
  }

  predicate Clash(a: Assignment, b: Assignment, lines: Lines) {
    SamePerson(a, b) || SameLine(a, b, lines)
  }

  function ConflictOf(a: Assignment, b: Assignment): Conflict {
    Conflict(a.orderId, b.orderId, if SamePerson(a, b) then "technician" else "line")
  }

  predicate Overlap(a: Assignment, b: Assignment) {
    a.start < b.end && b.start < a.end
  }

  predicate Sorted(s: seq<Assignment>) {
    forall i, j :: 0 <= i < j < |s| ==> s[i].start <= s[j].start
  }

  /** Stable sort by start: `a` goes before the first strictly later one. */
  function Insert(a: Assignment, s: seq<Assignment>): (r: seq<Assignment>)
    ensures multiset(r) == multiset{a} + multiset(s)
    ensures forall x :: x in r <==> x == a || x in s
  {
    if s == [] then [a]
    else if a.start < s[0].start then [a] + s
    else
      assert s == [s[0]] + s[1..];
      [s[0]] + Insert(a, s[1..])
  }

  lemma {:induction false} InsertSorted(a: Assignment, s: seq<Assignment>)
    requires Sorted(s)
    ensures Sorted(Insert(a, s))
    decreases |s|
  {
    if s != [] && a.start >= s[0].start {
      InsertSorted(a, s[1..]);
      var rest := Insert(a, s[1..]);
      forall j | 0 <= j < |rest| ensures s[0].start <= rest[j].start {
        assert rest[j] in rest;
      }
    }
  }

  function SortByStart(s: seq<Assignment>): (r: seq<Assignment>)
    ensures Sorted(r) && multiset(r) == multiset(s)
  {
    if s == [] then []
    else
      var n := |s| - 1;
      assert s == s[..n] + [s[n]];
      InsertSorted(s[n], SortByStart(s[..n]));
      Insert(s[n], SortByStart(s[..n]))
  }

  predicate Reported(a: Assignment, b: Assignment, lines: Lines) {
    b.start < a.end && Clash(a, b, lines)
  }

  /** One assignment against every later one, with no early exit. */
  function Row(a: Assignment, rest: seq<Assignment>, lines: Lines): seq<Conflict> {
    if rest == [] then []
    else
      var n := |rest| - 1;
      Row(a, rest[..n], lines) + (if Reported(a, rest[n], lines) then [ConflictOf(a, rest[n])] else [])
  }

  function Rows(s: seq<Assignment>, n: nat, lines: Lines): seq<Conflict>
    requires n <= |s|
  {
    if n == 0 then [] else Rows(s, n - 1, lines) + Row(s[n - 1], s[n..], lines)
  }

  /** The all-pairs check over the sorted list. */
  function AllPairs(s: seq<Assignment>, lines: Lines): seq<Conflict> {
    Rows(s, |s|, lines)
  }

  lemma {:induction false} RowStops(a: Assignment, rest: seq<Assignment>, k: nat, lines: Lines)
    requires k <= |rest| && forall i :: k <= i < |rest| ==> rest[i].start >= a.end
    ensures Row(a, rest, lines) == Row(a, rest[..k], lines)
    decreases |rest|
  {
    if k < |rest| {
      var n := |rest| - 1;
      assert rest[..n][..k] == rest[..k];
      RowStops(a, rest[..n], k, lines);
    } else {
      assert rest[..k] == rest;
    }
  }

  method Sweep(ordered: seq<Assignment>, lines: Lines) returns (found: seq<Conflict>)
    requires Sorted(ordered)
    ensures found == AllPairs(ordered, lines)
  {
    found := [];
    for i := 0 to |ordered|
      invariant found == Rows(ordered, i, lines)
    {
      SortedSuffix(ordered, i + 1);
      var row := SweepRow(ordered[i], ordered[i + 1..], lines);
      found := found + row;
    }
  }

  lemma SortedSuffix(s: seq<Assignment>, k: nat)
    requires Sorted(s) && k <= |s|
    ensures Sorted(s[k..])
  {}

  method SweepRow(first: Assignment, later: seq<Assignment>, lines: Lines) returns (row: seq<Conflict>)
    requires Sorted(later)
    ensures row == Row(first, later, lines)
  {
    row := [];
    var j := 0;
    while j < |later|
      invariant 0 <= j <= |later| && row == Row(first, later[..j], lines)
    {
      var second := later[j];
      if second.start >= first.end { break; }
      assert later[..j + 1][..j] == later[..j];
      var sameTechnician := SamePerson(first, second);
      if sameTechnician || SameLine(first, second, lines) {
        row := row + [Conflict(first.orderId, second.orderId, if sameTechnician then "technician" else "line")];
      }
      j := j + 1;
    }
    RowStops(first, later, j, lines);
  }

  lemma {:induction false} RowMembers(a: Assignment, rest: seq<Assignment>, lines: Lines, c: Conflict)
    ensures c in Row(a, rest, lines) <==>
      exists j :: 0 <= j < |rest| && Reported(a, rest[j], lines) && c == ConflictOf(a, rest[j])
    decreases |rest|
  {
    if rest != [] {
      var n := |rest| - 1;
      RowMembers(a, rest[..n], lines, c);
      if j :| 0 <= j < |rest| && Reported(a, rest[j], lines) && c == ConflictOf(a, rest[j]) {
        if j < n { assert rest[..n][j] == rest[j]; }
      }
    }
  }

  ghost predicate ReportedPair(s: seq<Assignment>, i: int, j: int, lines: Lines, c: Conflict) {
    0 <= i < j < |s| && Reported(s[i], s[j], lines) && c == ConflictOf(s[i], s[j])
  }

  lemma {:induction false} RowsMembers(s: seq<Assignment>, n: nat, lines: Lines, c: Conflict)
    requires n <= |s|
    ensures c in Rows(s, n, lines) <==> exists i, j :: i < n && ReportedPair(s, i, j, lines, c)
    decreases n
  {
    if n > 0 {
      RowsMembers(s, n - 1, lines, c);
      LastRow(s, n - 1, lines, c);
      if i, j :| i < n && ReportedPair(s, i, j, lines, c) {
        if i < n - 1 { assert c in Rows(s, n - 1, lines); }
      }
    }
  }

  lemma LastRow(s: seq<Assignment>, i: nat, lines: Lines, c: Conflict)
    requires i < |s|
    ensures c in Row(s[i], s[i + 1..], lines) <==> exists j :: ReportedPair(s, i, j, lines, c)
  {
    var rest := s[i + 1..];
    RowMembers(s[i], rest, lines, c);
    if k :| 0 <= k < |rest| && Reported(s[i], rest[k], lines) && c == ConflictOf(s[i], rest[k]) {
      assert ReportedPair(s, i, i + 1 + k, lines, c);
    }
    if j :| ReportedPair(s, i, j, lines, c) { assert rest[j - i - 1] == s[j]; }
  }

  /** Every overlapping pair that shares a technician or a line is reported, whichever order it came in. */
  lemma OverlapsReported(assignments: seq<Assignment>, lines: Lines, x: nat, y: nat)
    requires x < |assignments| && y < |assignments| && x != y
    requires Overlap(assignments[x], assignments[y]) && Clash(assignments[x], assignments[y], lines)
    ensures var found := AllPairs(SortByStart(assignments), lines);
      ConflictOf(assignments[x], assignments[y]) in found || ConflictOf(assignments[y], assignments[x]) in found
  {
    var s := SortByStart(assignments);
    var i, j := SortedPositions(assignments, s, x, y);
    var a, b := assignments[x], assignments[y];
    if i < j {
      assert ReportedPair(s, i, j, lines, ConflictOf(a, b));
      RowsMembers(s, |s|, lines, ConflictOf(a, b));
    } else {
      assert ReportedPair(s, j, i, lines, ConflictOf(b, a));
      RowsMembers(s, |s|, lines, ConflictOf(b, a));
    }
  }

  /** What a conflict says of the two bars it is about, the earlier first. */
  predicate Names(c: Conflict, a: Assignment, b: Assignment, lines: Lines) {
    && c.first == a.orderId && c.second == b.orderId && a.start <= b.start
    && (c.kind == "technician" <==>
          a.technicianId.Some? && a.technicianId.value != "" && b.technicianId == a.technicianId)
    && (c.kind == "line" ==> a.orderId in lines && b.orderId in lines && lines[a.orderId] == lines[b.orderId])
    && (c.kind == "technician" || c.kind == "line")
  }

  /** The conflict names two different bars, of which one begins before the other ends. */
  ghost predicate Told(c: Conflict, s: seq<Assignment>, lines: Lines) {
    exists x, y :: 0 <= x < |s| && 0 <= y < |s| && x != y && Names(c, s[x], s[y], lines) && s[y].start < s[x].end
  }

  /** Some conflict names the pair, if it overlaps and shares a technician or line. */
  ghost predicate Telling(found: seq<Conflict>, a: Assignment, b: Assignment, lines: Lines) {
    Overlap(a, b) && Clash(a, b, lines) ==> exists c :: c in found && (Names(c, a, b, lines) || Names(c, b, a, lines))
  }

  lemma ConflictTold(s: seq<Assignment>, lines: Lines, c: Conflict)
    requires c in AllPairs(SortByStart(s), lines)
    ensures Told(c, s, lines)
  {
    var t := SortByStart(s);
    RowsMembers(t, |t|, lines, c);
    var i, j :| i < |t| && ReportedPair(t, i, j, lines, c);
    var x, y := SortedPositions(t, s, i, j);
    assert Names(c, s[x], s[y], lines);
  }

  lemma OverlapTold(s: seq<Assignment>, lines: Lines, x: nat, y: nat)
    requires x < |s| && y < |s| && x != y
    ensures Telling(AllPairs(SortByStart(s), lines), s[x], s[y], lines)
  {
    if Overlap(s[x], s[y]) && Clash(s[x], s[y], lines) {
      var t := SortByStart(s);
      var i, j := SortedPositions(s, t, x, y);
      var a, b := if i < j then i else j, if i < j then j else i;
      var c := ConflictOf(t[a], t[b]);
      assert ReportedPair(t, a, b, lines, c);
      RowsMembers(t, |t|, lines, c);
      assert Names(c, t[a], t[b], lines);
    }
  }

  /** The sweep with its early break finds what the all-pairs check finds, in the same order. */
  method FindConflicts(assignments: seq<Assignment>, lines: Lines) returns (found: seq<Conflict>)
    ensures found == AllPairs(SortByStart(assignments), lines)
    ensures forall c :: c in found ==> Told(c, assignments, lines)
    ensures forall x, y :: 0 <= x < |assignments| && 0 <= y < |assignments| && x != y ==>
      Telling(found, assignments[x], assignments[y], lines)
  {
    found := Sweep(SortByStart(assignments), lines);
    forall c | c in found ensures Told(c, assignments, lines) { ConflictTold(assignments, lines, c); }
    forall x, y | 0 <= x < |assignments| && 0 <= y < |assignments| && x != y
      ensures Telling(found, assignments[x], assignments[y], lines)
    {
      OverlapTold(assignments, lines, x, y);
    }
  }

  lemma SortedPositions(s: seq<Assignment>, t: seq<Assignment>, x: nat, y: nat) returns (i: nat, j: nat)
    requires multiset(s) == multiset(t) && x < |s| && y < |s| && x != y
    ensures i < |t| && j < |t| && i != j && t[i] == s[x] && t[j] == s[y]
  {
    assert s[x] in multiset(s) && s[y] in multiset(s);
    assert s[x] in t && s[y] in t;
    i :| 0 <= i < |t| && t[i] == s[x];
    if s[x] != s[y] {
      j :| 0 <= j < |t| && t[j] == s[y];
    } else {
      CountTwice(s, x, y);
      if forall k :: 0 <= k < |t| && k != i ==> t[k] != s[x] {
        CountOnce(t, i);
        assert false;
      }
      j :| 0 <= j < |t| && j != i && t[j] == s[x];
    }
  }

  lemma CountTwice(s: seq<Assignment>, x: nat, y: nat)
    requires x < |s| && y < |s| && x != y && s[x] == s[y]
    ensures multiset(s)[s[x]] >= 2
  {
    var lo, hi := if x < y then x else y, if x < y then y else x;
    assert s == s[..hi] + s[hi..];
    assert s[..hi][lo] == s[x] && s[hi..][0] == s[x];
    assert s[x] in multiset(s[..hi]) && s[x] in multiset(s[hi..]);
  }

  lemma CountOnce(t: seq<Assignment>, i: nat)
    requires i < |t| && forall k :: 0 <= k < |t| && k != i ==> t[k] != t[i]
    ensures multiset(t)[t[i]] == 1
  {
    var before, after := t[..i], t[i + 1..];
    assert t == before + [t[i]] + after;
    assert t[i] !in before && t[i] !in after;
    assert t[i] !in multiset(before) && t[i] !in multiset(after);
  }

  // ---- Exactly the overlaps ----

  /** `_slot_of`: a time in seconds since the horizon began, floored to its slot. */
  function SlotOf(seconds: int): int { seconds / (SLOT_MINUTES * 60) }

  /** The table keeps a bar's end after its start; flooring keeps the order but may leave an empty bar. */
  lemma SlotsKeepOrder(starts: int, ends: int)
    requires starts < ends
    ensures SlotOf(starts) * SLOT_MINUTES * 60 <= starts < (SlotOf(starts) + 1) * SLOT_MINUTES * 60
    ensures SlotOf(starts) <= SlotOf(ends)
    ensures SlotOf(starts) == SlotOf(ends) ==> ends - starts < SLOT_MINUTES * 60
  {}

  predicate Forward(s: seq<Assignment>) { forall i :: 0 <= i < |s| ==> s[i].start <= s[i].end }

  predicate Related(a: Assignment, b: Assignment, lines: Lines) { Overlap(a, b) && Clash(a, b, lines) }

  /** b is an empty bar at the start of a, which is not empty, and shares its technician or line. */
  predicate Stray(a: Assignment, b: Assignment, lines: Lines) {
    a.start == b.start == b.end < a.end && Clash(a, b, lines)
  }

  /** No empty bar is listed after such a bar. */
  predicate NoStray(s: seq<Assignment>, lines: Lines) {
    forall i, j :: 0 <= i < j < |s| ==> !Stray(s[i], s[j], lines)
  }

  /** In start order the sweep reports the overlaps and the strays, and no pair is both. */
  lemma SweepTestIsOverlap(a: Assignment, b: Assignment, lines: Lines)
    requires a.start <= b.start && a.start <= a.end && b.start <= b.end
    ensures Reported(a, b, lines) <==> Related(a, b, lines) || Stray(a, b, lines)
    ensures !(Related(a, b, lines) && Stray(a, b, lines))
  {}

  function Count(s: seq<Assignment>, p: Assignment -> bool): nat {
    if s == [] then 0 else (if p(s[0]) then 1 else 0) + Count(s[1..], p)
  }

  function OverlapsOf(a: Assignment, lines: Lines): Assignment -> bool { b => Related(a, b, lines) }
  function StraysOf(a: Assignment, lines: Lines): Assignment -> bool { b => Stray(a, b, lines) }
  function StrayedFrom(b: Assignment, lines: Lines): Assignment -> bool { a => Stray(a, b, lines) }

  /** How many pairs of positions overlap and share a technician or a line. */
  function PairCount(s: seq<Assignment>, lines: Lines): nat {
    if s == [] then 0
    else Count(s[..|s| - 1], OverlapsOf(s[|s| - 1], lines)) + PairCount(s[..|s| - 1], lines)
  }

  function StrayCount(s: seq<Assignment>, lines: Lines): nat {
    if s == [] then 0
    else Count(s[..|s| - 1], StrayedFrom(s[|s| - 1], lines)) + StrayCount(s[..|s| - 1], lines)
  }

  /** The same counts, taken from the front. */
  function PairsFrom(s: seq<Assignment>, lines: Lines): nat {
    if s == [] then 0 else Count(s[1..], OverlapsOf(s[0], lines)) + PairsFrom(s[1..], lines)
  }

  function StraysFrom(s: seq<Assignment>, lines: Lines): nat {
    if s == [] then 0 else Count(s[1..], StraysOf(s[0], lines)) + StraysFrom(s[1..], lines)
  }

  lemma {:induction false} CountInsert(b: Assignment, s: seq<Assignment>, p: Assignment -> bool)
    ensures Count(Insert(b, s), p) == Count(s, p) + (if p(b) then 1 else 0)
    decreases |s|
  {
    if s == [] {
      assert [b][1..] == [];
    } else if b.start < s[0].start {
      assert ([b] + s)[1..] == s;
    } else {
      CountInsert(b, s[1..], p);
      assert ([s[0]] + Insert(b, s[1..]))[1..] == Insert(b, s[1..]);
    }
  }

  lemma {:induction false} CountSnoc(s: seq<Assignment>, b: Assignment, p: Assignment -> bool)
    ensures Count(s + [b], p) == Count(s, p) + (if p(b) then 1 else 0)
    decreases |s|
  {
    if s == [] {
      assert [] + [b] == [b] && [b][1..] == [];
    } else {
      CountSnoc(s[1..], b, p);
      assert (s + [b])[1..] == s[1..] + [b];
    }
  }

  lemma {:induction false} CountZero(s: seq<Assignment>, p: Assignment -> bool)
    ensures Count(s, p) == 0 <==> forall i :: 0 <= i < |s| ==> !p(s[i])
    decreases |s|
  {
    if s != [] {
      CountZero(s[1..], p);
      assert forall i :: 0 < i < |s| ==> s[1..][i - 1] == s[i];
    }
  }

  lemma CountLast(s: seq<Assignment>, before: seq<Assignment>, p: Assignment -> bool)
    requires s != [] && Count(before, p) == Count(s[..|s| - 1], p)
    ensures Count(Insert(s[|s| - 1], before), p) == Count(s, p)
  {
    var n := |s| - 1;
    CountInsert(s[n], before, p);
    CountSnoc(s[..n], s[n], p);
    assert s[..n] + [s[n]] == s;
  }

  lemma {:induction false} CountSort(s: seq<Assignment>, p: Assignment -> bool)
    ensures Count(SortByStart(s), p) == Count(s, p)
    decreases |s|
  {
    if s != [] {
      CountSort(s[..|s| - 1], p);
      CountLast(s, SortByStart(s[..|s| - 1]), p);
    }
  }

  lemma {:induction false} PairsInsert(a: Assignment, s: seq<Assignment>, lines: Lines)
    ensures PairsFrom(Insert(a, s), lines) == PairsFrom(s, lines) + Count(s, OverlapsOf(a, lines))
    decreases |s|
  {
    if s == [] {
      assert [a][1..] == [];
    } else if a.start < s[0].start {
      assert ([a] + s)[1..] == s;
    } else {
      PairsInsert(a, s[1..], lines);
      CountInsert(a, s[1..], OverlapsOf(s[0], lines));
      assert ([s[0]] + Insert(a, s[1..]))[1..] == Insert(a, s[1..]);
    }
  }

  /** The sort puts a bar after those of the same start listed before it, so it keeps the strays. */
  lemma {:induction false} StraysInsert(b: Assignment, s: seq<Assignment>, lines: Lines)
    requires Sorted(s)
    ensures StraysFrom(Insert(b, s), lines) == StraysFrom(s, lines) + Count(s, StrayedFrom(b, lines))
    decreases |s|
  {
    if s == [] {
      assert [b][1..] == [];
    } else if b.start < s[0].start {
      assert ([b] + s)[1..] == s;
      CountZero(s, StraysOf(b, lines));
      CountZero(s, StrayedFrom(b, lines));
    } else {
      StraysInsert(b, s[1..], lines);
      CountInsert(b, s[1..], StraysOf(s[0], lines));
      assert ([s[0]] + Insert(b, s[1..]))[1..] == Insert(b, s[1..]);
    }
  }

  /** Sorting changes neither how many pairs overlap nor how many are strays. */
  lemma {:induction false} PairsSort(s: seq<Assignment>, lines: Lines)
    ensures PairsFrom(SortByStart(s), lines) == PairCount(s, lines)
    ensures StraysFrom(SortByStart(s), lines) == StrayCount(s, lines)
    decreases |s|
  {
    if s != [] {
      var n := |s| - 1;
      var before := SortByStart(s[..n]);
      PairsSort(s[..n], lines);
      PairsInsert(s[n], before, lines);
      StraysInsert(s[n], before, lines);
      CountSort(s[..n], OverlapsOf(s[n], lines));
      CountSort(s[..n], StrayedFrom(s[n], lines));
    }
  }

  lemma {:induction false} StrayCountZero(s: seq<Assignment>, lines: Lines)
    ensures StrayCount(s, lines) == 0 <==> NoStray(s, lines)
    decreases |s|
  {
    if s != [] {
      var n := |s| - 1;
      StrayCountZero(s[..n], lines);
      CountZero(s[..n], StrayedFrom(s[n], lines));
      assert forall i :: 0 <= i < n ==> s[..n][i] == s[i];
      assert NoStray(s, lines) <==> NoStray(s[..n], lines) && forall i :: 0 <= i < n ==> !Stray(s[i], s[n], lines);
    }
  }

  lemma {:induction false} RowCounts(a: Assignment, rest: seq<Assignment>, lines: Lines)
    requires a.start <= a.end && Forward(rest) && forall i :: 0 <= i < |rest| ==> a.start <= rest[i].start
    ensures |Row(a, rest, lines)| == Count(rest, OverlapsOf(a, lines)) + Count(rest, StraysOf(a, lines))
    decreases |rest|
  {
    if rest != [] {
      var n := |rest| - 1;
      RowCounts(a, rest[..n], lines);
      CountSnoc(rest[..n], rest[n], OverlapsOf(a, lines));
      CountSnoc(rest[..n], rest[n], StraysOf(a, lines));
      SweepTestIsOverlap(a, rest[n], lines);
      assert rest[..n] + [rest[n]] == rest;
    }
  }

  lemma {:induction false} RowsCount(s: seq<Assignment>, n: nat, lines: Lines)
    requires Sorted(s) && Forward(s) && n <= |s|
    ensures |Rows(s, n, lines)| + PairsFrom(s[n..], lines) + StraysFrom(s[n..], lines)
         == PairsFrom(s, lines) + StraysFrom(s, lines)
    decreases n
  {
    if n == 0 {
      assert s[0..] == s;
    } else {
      RowsCount(s, n - 1, lines);
      RowCounts(s[n - 1], s[n..], lines);
      assert s[n - 1..][1..] == s[n..];
    }
  }

  lemma SortForward(assignments: seq<Assignment>)
    requires Forward(assignments)
    ensures Forward(SortByStart(assignments))
  {
    var s := SortByStart(assignments);
    forall i | 0 <= i < |s| ensures s[i].start <= s[i].end {
      assert s[i] in multiset(s);
      assert s[i] in assignments;
    }
  }

  /** What the sweep reports, counted: the overlapping pairs and the strays. */
  lemma SweepCounts(assignments: seq<Assignment>, lines: Lines)
    requires Forward(assignments)
    ensures |AllPairs(SortByStart(assignments), lines)| ==
      PairCount(assignments, lines) + StrayCount(assignments, lines)
  {
    var s := SortByStart(assignments);
    SortForward(assignments);
    RowsCount(s, |s|, lines);
    PairsSort(assignments, lines);
  }

  /** An empty bar after one of the same start and technician is reported, though the two share no time. */
  lemma EmptyBarReported(s: seq<Assignment>, lines: Lines)
    requires s == [Assignment("a", Some("t"), 5, 9, 0.0, 0.0), Assignment("b", Some("t"), 5, 5, 0.0, 0.0)]
    ensures !Overlap(s[0], s[1]) && AllPairs(SortByStart(s), lines) != []
  {
    assert Stray(s[0], s[1], lines);
    SweepCounts(s, lines);
    StrayCountZero(s, lines);
  }

  predicate OverlapBehind(s: seq<Assignment>, lines: Lines, c: Conflict) {
    exists x, y :: 0 <= x < |s| && 0 <= y < |s| && x != y && Related(s[x], s[y], lines) && c == ConflictOf(s[x], s[y])
  }

  predicate PairFound(found: seq<Conflict>, a: Assignment, b: Assignment, lines: Lines) {
    Related(a, b, lines) ==> ConflictOf(a, b) in found || ConflictOf(b, a) in found
  }

  /** The conflicts are exactly the overlaps: one behind each, each found, and as many as there are pairs. */
  predicate Exact(found: seq<Conflict>, s: seq<Assignment>, lines: Lines) {
    && |found| == PairCount(s, lines)
    && (forall c :: c in found ==> OverlapBehind(s, lines, c))
    && forall x, y :: 0 <= x < |s| && 0 <= y < |s| && x != y ==> PairFound(found, s[x], s[y], lines)
  }

  lemma ReportedIsStray(assignments: seq<Assignment>, i: nat, j: nat, lines: Lines)
    requires Forward(assignments) && NoStray(assignments, lines)
    requires i < j < |SortByStart(assignments)|
    ensures !Stray(SortByStart(assignments)[i], SortByStart(assignments)[j], lines)
  {
    var s := SortByStart(assignments);
    StrayCountZero(assignments, lines);
    PairsSort(assignments, lines);
    StraysFromZero(s, i, j, lines);
  }

  lemma {:induction false} StraysFromZero(s: seq<Assignment>, i: nat, j: nat, lines: Lines)
    requires StraysFrom(s, lines) == 0 && i < j < |s|
    ensures !Stray(s[i], s[j], lines)
    decreases |s|
  {
    if i == 0 {
      CountZero(s[1..], StraysOf(s[0], lines));
      assert s[1..][j - 1] == s[j];
    } else {
      StraysFromZero(s[1..], i - 1, j - 1, lines);
    }
  }

  /**
   * For all bars that end no earlier than they start, the sweep reports exactly the overlapping pairs
   * that share a technician or a line, each once, if and only if no empty bar is listed after one that
   * is not empty, starts with it and shares its technician or line.
   */
  lemma SweepIsExactIff(assignments: seq<Assignment>, lines: Lines)
    requires Forward(assignments)
    ensures Exact(AllPairs(SortByStart(assignments), lines), assignments, lines) <==> NoStray(assignments, lines)
  {
    SweepCounts(assignments, lines);
    StrayCountZero(assignments, lines);
    if NoStray(assignments, lines) { ConflictsAreOverlaps(assignments, lines); }
  }

  /** Without strays every conflict has an overlap behind it. */
  lemma ConflictsAreOverlaps(assignments: seq<Assignment>, lines: Lines)
    requires Forward(assignments) && NoStray(assignments, lines)
    ensures Exact(AllPairs(SortByStart(assignments), lines), assignments, lines)
  {
    var s := SortByStart(assignments);
    SweepCounts(assignments, lines);
    StrayCountZero(assignments, lines);
    SortForward(assignments);
    forall x, y | 0 <= x < |assignments| && 0 <= y < |assignments| && x != y
      ensures PairFound(AllPairs(s, lines), assignments[x], assignments[y], lines)
    {
      if Related(assignments[x], assignments[y], lines) { OverlapsReported(assignments, lines, x, y); }
    }
    forall c | c in AllPairs(s, lines) ensures OverlapBehind(assignments, lines, c) {
      RowsMembers(s, |s|, lines, c);
      var i, j :| i < |s| && ReportedPair(s, i, j, lines, c);
      ReportedIsStray(assignments, i, j, lines);
      SweepTestIsOverlap(s[i], s[j], lines);
      var x, y := SortedPositions(s, assignments, i, j);
      assert Related(assignments[x], assignments[y], lines) && c == ConflictOf(assignments[x], assignments[y]);
    }
  }

  lemma {:induction false} PairCountZero(s: seq<Assignment>, lines: Lines)
    requires forall i, j :: 0 <= i < j < |s| ==> !Related(s[j], s[i], lines)
    ensures PairCount(s, lines) == 0
    decreases |s|
  {
    if s != [] {
      var n := |s| - 1;
      PairCountZero(s[..n], lines);
      CountZero(s[..n], OverlapsOf(s[n], lines));
    }
  }

  lemma AssignedApart(p: Problem, os: seq<Order>, tt: Timetable, s: seq<Assignment>, lines: Lines, i: nat, j: nat)
    requires Feasible(p, os, tt) && Describes(p, os, tt, s) && DistinctTechnicians(p.technicians) && i < j < |s|
    requires forall k :: 0 <= k < |os| && os[k].id in lines ==> lines[os[k].id] == os[k].line
    ensures !Related(s[j], s[i], lines)
  {
    assert Placed(p, os[i], tt[i]) && Placed(p, os[j], tt[j]);
    if SamePerson(s[j], s[i]) { SameTechnician(p.technicians, tt[i].technician, tt[j].technician); }
  }

  /** A timetable the solver produced has no conflict to report. */
  lemma SolvedHasNoConflicts(p: Problem, os: seq<Order>, tt: Timetable, assignments: seq<Assignment>, lines: Lines)
    requires Feasible(p, os, tt) && Describes(p, os, tt, assignments) && DistinctTechnicians(p.technicians)
    requires forall i :: 0 <= i < |os| && os[i].id in lines ==> lines[os[i].id] == os[i].line
    ensures AllPairs(SortByStart(assignments), lines) == []
  {
    forall i, j | 0 <= i < j < |assignments| ensures !Related(assignments[j], assignments[i], lines) {
      AssignedApart(p, os, tt, assignments, lines, i, j);
    }
    PairCountZero(assignments, lines);
    StrayCountZero(assignments, lines);
    SweepCounts(assignments, lines);
  }
}
