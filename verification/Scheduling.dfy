/** The maintenance scheduling problem: inputs, timetables and what a timetable costs. */
module Scheduling {
  import opened Reals

  const SLOT_MINUTES := 15
  const COST_SCALE := 100.0

  datatype Order = Order(
    id: string, line: string, durationMin: int, priority: int, skills: seq<string>,
    downtimeCostPerHour: real, failureCost: real, riskBySlot: seq<real>, energyKw: real)

  datatype Technician = Technician(id: string, skills: seq<string>, hourlyCost: real, available: seq<bool>)

  datatype Weights = Weights(downtimeCost: real, failureRisk: real, energyCost: real)

  datatype Problem = Problem(
    orders: seq<Order>, technicians: seq<Technician>, slots: nat, tariff: seq<real>, weights: Weights)

  /** `max(1, -(-d // 15))`: whole slots, rounded up, at least one. */
  function Duration(o: Order): (d: nat)
    ensures d >= 1 && d * SLOT_MINUTES >= o.durationMin
    ensures d == 1 || (d - 1) * SLOT_MINUTES < o.durationMin
  {
    var d := -((-o.durationMin) / SLOT_MINUTES);
    if d < 1 then 1 else d
  }

  predicate CanDo(t: Technician, o: Order) {
    o.skills == [] || exists s :: s in o.skills && s in t.skills
  }

  /** No recorded calendar means always available. */
  predicate Available(t: Technician, slot: nat) {
    t.available == [] || (slot < |t.available| && t.available[slot])
  }

  predicate FreeFor(t: Technician, start: nat, duration: nat) {
    forall k :: start <= k < start + duration ==> Available(t, k)
  }

  function Tariff(tariff: seq<real>, slot: nat): real {
    if tariff == [] then 0.0 else tariff[if slot < |tariff| - 1 then slot else |tariff| - 1]
  }

  predicate DistinctIds(p: Problem) {
    && (forall i, j :: 0 <= i < j < |p.orders| ==> p.orders[i].id != p.orders[j].id)
    && (forall i, j :: 0 <= i < j < |p.technicians| ==> p.technicians[i].id != p.technicians[j].id)
  }

  predicate Schedulable(p: Problem, o: Order) {
    Duration(o) <= p.slots && exists t :: t in p.technicians && CanDo(t, o)
  }

  // ---- Timetables ----

  datatype Slot = Slot(start: nat, technician: Technician)

  /** One slot for each order, in the order of the list it is for. */
  type Timetable = seq<Slot>

  predicate Placed(p: Problem, o: Order, s: Slot) {
    && s.start + Duration(o) <= p.slots
    && s.technician in p.technicians
    && CanDo(s.technician, o)
    && FreeFor(s.technician, s.start, Duration(o))
  }

  predicate Apart(a: Order, sa: nat, b: Order, sb: nat) {
    sa + Duration(a) <= sb || sb + Duration(b) <= sa
  }

  /** Every order inside the horizon with one able, free technician; none shares a technician or line. */
  predicate Feasible(p: Problem, os: seq<Order>, tt: Timetable) {
    && |tt| == |os|
    && (forall i :: 0 <= i < |os| ==> Placed(p, os[i], tt[i]))
    && (forall i, j :: 0 <= i < j < |os| && tt[i].technician == tt[j].technician ==>
          Apart(os[i], tt[i].start, os[j], tt[j].start))
    && (forall i, j :: 0 <= i < j < |os| && os[i].line == os[j].line ==>
          Apart(os[i], tt[i].start, os[j], tt[j].start))
  }

  // ---- Costs ----

  /** `int(x)`: towards zero. */
  function Trunc(x: real): int {
    if x >= 0.0 then x.Floor else -((-x).Floor)
  }

  function WaitPenalty(p: Problem, o: Order): int {
    Trunc(p.weights.downtimeCost * o.downtimeCostPerHour * (6 - o.priority) as real * COST_SCALE)
  }

  function Energy(p: Problem, o: Order, start: nat, n: nat): real {
    if n == 0 then 0.0 else Energy(p, o, start, n - 1) + o.energyKw * 0.25 * Tariff(p.tariff, start + n - 1)
  }

  function Risk(o: Order, slot: nat): real {
    if slot < |o.riskBySlot| then o.riskBySlot[slot] else 0.0
  }

  function Weighted(w: Weights, risk: real, failureCost: real, energy: real): real {
    w.failureRisk * risk * failureCost + w.energyCost * energy
  }

  function SlotCost(p: Problem, o: Order, slot: nat): int {
    Trunc(Weighted(p.weights, Risk(o, slot), o.failureCost, Energy(p, o, slot, Duration(o))) * COST_SCALE)
  }

  function LabourCost(o: Order, t: Technician): int {
    if t.hourlyCost == 0.0 then 0
    else Trunc(t.hourlyCost * ((Duration(o) * SLOT_MINUTES) as real / 60.0) * COST_SCALE)
  }

  /** What running `o` in slot `s` costs, with no indicator in sight. */
  function DirectCost(p: Problem, o: Order, s: Slot): int {
    WaitPenalty(p, o) * s.start + SlotCost(p, o, s.start) + LabourCost(o, s.technician)
  }

  function TotalCost(p: Problem, os: seq<Order>, tt: Timetable): int
    requires |tt| == |os|
  {
    if os == [] then 0 else DirectCost(p, os[0], tt[0]) + TotalCost(p, os[1..], tt[1..])
  }

  // ---- What the costs amount to ----

  /** The tariff added up over the slots from lo on and before hi. */
  function TariffOver(tariff: seq<real>, lo: nat, hi: int): real
    decreases hi - lo
  {
    if hi <= lo then 0.0 else Tariff(tariff, lo) + TariffOver(tariff, lo + 1, hi)
  }

  lemma {:induction false} TariffSnoc(tariff: seq<real>, lo: nat, hi: nat)
    requires lo <= hi
    ensures TariffOver(tariff, lo, hi + 1) == TariffOver(tariff, lo, hi) + Tariff(tariff, hi)
    decreases hi - lo
  {
    if lo < hi {
      TariffSnoc(tariff, lo + 1, hi);
    } else {
      assert TariffOver(tariff, lo + 1, hi + 1) == 0.0;
    }
  }

  /** The energy is the power times a quarter of an hour times the tariffs of the slots. */
  lemma {:induction false} EnergyIs(p: Problem, o: Order, start: nat, n: nat)
    ensures Energy(p, o, start, n) == o.energyKw * 0.25 * TariffOver(p.tariff, start, start + n)
    decreases n
  {
    if n > 0 {
      EnergyIs(p, o, start, n - 1);
      TariffSnoc(p.tariff, start, start + n - 1);
      Distribute(o.energyKw * 0.25, TariffOver(p.tariff, start, start + n - 1), Tariff(p.tariff, start + n - 1));
    }
  }

  /** Truncation loses less than one, and never the sign. */
  lemma TruncIsNear(x: real)
    ensures -1.0 < Trunc(x) as real - x < 1.0
    ensures if x >= 0.0 then 0.0 <= Trunc(x) as real <= x else x <= Trunc(x) as real <= 0.0
  {}

  lemma TruncOrder(x: real, y: real)
    requires x <= y
    ensures Trunc(x) <= Trunc(y)
  {
    if x < 0.0 && y < 0.0 { assert (-y).Floor <= (-x).Floor; }
  }

  /**
   * Waiting costs more at a higher priority, which is a lower number, never costs less than nothing, and
   * costs more where an hour of downtime does.
   */
  lemma WaitingCosts(p: Problem, a: Order, b: Order)
    requires p.weights.downtimeCost >= 0.0 && 0.0 <= b.downtimeCostPerHour <= a.downtimeCostPerHour
    requires a.priority <= b.priority <= 6
    ensures WaitPenalty(p, a) >= WaitPenalty(p, b) >= 0
  {
    var w, x, y := p.weights.downtimeCost, a.downtimeCostPerHour, b.downtimeCostPerHour;
    var m, n := (6 - a.priority) as real, (6 - b.priority) as real;
    Products(w, x, y, m, n);
    TruncOrder(w * y * n * COST_SCALE, w * x * m * COST_SCALE);
    TruncIsNear(w * y * n * COST_SCALE);
  }

  lemma Products(w: real, x: real, y: real, m: real, n: real)
    requires w >= 0.0 && 0.0 <= y <= x && 0.0 <= n <= m
    ensures 0.0 <= w * y * n <= w * x * m
  {
    ProductOrder(w, y, x);
    ProductOrder(n, w * y, w * x);
    ProductOrder(w * x, n, m);
    assert w * y >= 0.0 && w * y * n >= 0.0;
  }

  lemma ProductOrder(c: real, a: real, b: real)
    requires c >= 0.0 && a <= b
    ensures c * a <= c * b
  {
    assert c * (b - a) >= 0.0;
  }

  /** Downtime while waiting, in money. */
  function Waiting(p: Problem, o: Order): real {
    p.weights.downtimeCost * o.downtimeCostPerHour * (6 - o.priority) as real
  }

  /** Risk of failure and energy of running from this slot on, in money. */
  function Running(p: Problem, o: Order, slot: nat): real {
    p.weights.failureRisk * (if slot < |o.riskBySlot| then o.riskBySlot[slot] else 0.0) * o.failureCost
    + p.weights.energyCost * (o.energyKw * 0.25 * TariffOver(p.tariff, slot, slot + Duration(o)))
  }

  /** The technician's hours, in money. */
  function Labour(o: Order, t: Technician): real { t.hourlyCost * (Duration(o) as real / 4.0) }

  lemma HundredthsAre(money: real)
    ensures -1.0 < Trunc(money * COST_SCALE) as real - 100.0 * money < 1.0
  {
    TruncIsNear(money * COST_SCALE);
  }

  /** Each coefficient is its money in hundredths, with less than one of them lost. */
  lemma WaitPenaltyIs(p: Problem, o: Order)
    ensures -1.0 < WaitPenalty(p, o) as real - 100.0 * Waiting(p, o) < 1.0
  {
    HundredthsAre(Waiting(p, o));
  }

  lemma SlotCostIs(p: Problem, o: Order, slot: nat)
    ensures -1.0 < SlotCost(p, o, slot) as real - 100.0 * Running(p, o, slot) < 1.0
  {
    EnergyIs(p, o, slot, Duration(o));
    HundredthsAre(Weighted(p.weights, Risk(o, slot), o.failureCost, Energy(p, o, slot, Duration(o))));
    RunningIs(p, o, slot, o.energyKw * 0.25 * TariffOver(p.tariff, slot, slot + Duration(o)));
  }

  lemma RunningIs(p: Problem, o: Order, slot: nat, energy: real)
    requires energy == o.energyKw * 0.25 * TariffOver(p.tariff, slot, slot + Duration(o))
    ensures Weighted(p.weights, Risk(o, slot), o.failureCost, energy) == Running(p, o, slot)
  {}

  lemma LabourCostIs(o: Order, t: Technician)
    ensures -1.0 < LabourCost(o, t) as real - 100.0 * Labour(o, t) < 1.0
  {
    var hours := (Duration(o) * SLOT_MINUTES) as real / 60.0;
    assert hours == Duration(o) as real / 4.0;
    HundredthsAre(t.hourlyCost * hours);
  }

  /** The cost of a placement, in hundredths: its start times the waiting, the running and the labour. */
  lemma PlacementCost(p: Problem, o: Order, s: Slot, money: real)
    requires money == Waiting(p, o) * s.start as real + Running(p, o, s.start) + Labour(o, s.technician)
    ensures -(s.start as real + 2.0) <= DirectCost(p, o, s) as real - 100.0 * money <= s.start as real + 2.0
  {
    WaitPenaltyIs(p, o);
    SlotCostIs(p, o, s.start);
    LabourCostIs(o, s.technician);
    AddUp(WaitPenalty(p, o), s.start, SlotCost(p, o, s.start), LabourCost(o, s.technician),
          Waiting(p, o), Running(p, o, s.start), Labour(o, s.technician), money);
  }

  lemma AddUp(w: int, start: nat, c: int, l: int, x: real, y: real, z: real, money: real)
    requires -1.0 < w as real - 100.0 * x < 1.0 && -1.0 < c as real - 100.0 * y < 1.0
    requires -1.0 < l as real - 100.0 * z < 1.0 && money == x * start as real + y + z
    ensures -(start as real + 2.0) <= (w * start + c + l) as real - 100.0 * money <= start as real + 2.0
  {
    WholeTimes(w, start);
    AddUpReals(w as real, start as real, c as real, l as real, x, y, z, x * start as real);
  }

  lemma AddUpReals(w: real, n: real, c: real, l: real, x: real, y: real, z: real, xn: real)
    requires -1.0 < w - 100.0 * x < 1.0 && -1.0 < c - 100.0 * y < 1.0 && -1.0 < l - 100.0 * z < 1.0
    requires n >= 0.0 && xn == x * n
    ensures -(n + 2.0) <= w * n + c + l - 100.0 * (xn + y + z) <= n + 2.0
  {
    var d := w - 100.0 * x;
    StartTimes(d, n);
    assert d * n == w * n - 100.0 * xn by { Expand(w, x, n); }
  }

  lemma Expand(w: real, x: real, n: real)
    ensures (w - 100.0 * x) * n == w * n - 100.0 * (x * n)
  {}

  lemma StartTimes(d: real, n: real)
    requires -1.0 < d < 1.0 && n >= 0.0
    ensures -n <= d * n <= n
  {
    ProductOrder(n, d, 1.0);
    ProductOrder(n, -1.0, d);
  }

  lemma {:induction false} WholeTimes(w: int, n: nat)
    ensures (w * n) as real == w as real * n as real
  {}
}
