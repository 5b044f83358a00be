/** Time spent in each machine state, from state-change events. Times are whole ticks. */
module StateTime {
  import opened Options

  datatype Event = Event(at: int, state: string, cause: Option<string>)

  datatype StateDuration = StateDuration(state: string, seconds: int, cause: Option<string>)

  /** Which states and causes a total is for. */
  type Selection = (string, Option<string>) -> bool

  // ---- Reference: the event in force at an instant ----

  /** The latest event at or before `t`; of several at the same time, the last listed. */
  function InForce(events: seq<Event>, t: int): Option<Event> {
    if events == [] then None
    else Later(InForce(events[..|events| - 1], t), events[|events| - 1], t)
  }

  function Later(c: Option<Event>, e: Event, t: int): Option<Event> {
    if e.at <= t && (c.None? || c.value.at <= e.at) then Some(e) else c
  }

  predicate Selected(events: seq<Event>, t: int, p: Selection) {
    var c := InForce(events, t);
    c.Some? && p(c.value.state, c.value.cause)
  }

  /** How many instants of [lo, hi) have a selected event in force. */
  function Measure(events: seq<Event>, p: Selection, lo: int, hi: int): nat
    decreases hi - lo
  {
    if hi <= lo then 0 else Measure(events, p, lo, hi - 1) + (if Selected(events, hi - 1, p) then 1 else 0)
  }

  // ---- `durations_from_events` ----

  predicate Sorted(s: seq<Event>) {
    forall i, j :: 0 <= i < j < |s| ==> s[i].at <= s[j].at
  }

  /** Stable: after every event that is not strictly later. */
  function Insert(s: seq<Event>, e: Event): (r: seq<Event>)
    ensures |r| == |s| + 1
  {
    if s == [] || s[|s| - 1].at <= e.at then s + [e] else Insert(s[..|s| - 1], e) + [s[|s| - 1]]
  }

  function SortByTime(events: seq<Event>): (r: seq<Event>)
    ensures |r| == |events|
  {
    if events == [] then [] else Insert(SortByTime(events[..|events| - 1]), events[|events| - 1])
  }

  function Max(a: int, b: int): int { if a < b then b else a }
  function Min(a: int, b: int): int { if a < b then a else b }

  /** The clipped span of event i: until the next event, or the end of the period for the last. */
  function SpanEnd(ordered: seq<Event>, i: nat, periodEnd: int): int
    requires i < |ordered|
  {
    Min(if i + 1 < |ordered| then ordered[i + 1].at else periodEnd, periodEnd)
  }

  function Spans(ordered: seq<Event>, n: nat, periodStart: int, periodEnd: int): seq<StateDuration>
    requires n <= |ordered|
  {
    if n == 0 then []
    else
      var e := ordered[n - 1];
      var seconds := SpanEnd(ordered, n - 1, periodEnd) - Max(e.at, periodStart);
      Spans(ordered, n - 1, periodStart, periodEnd) +
        (if seconds > 0 then [StateDuration(e.state, seconds, e.cause)] else [])
  }

  function Durations(events: seq<Event>, periodStart: int, periodEnd: int): seq<StateDuration> {
    Spans(SortByTime(events), |events|, periodStart, periodEnd)
  }

  method DurationsFromEvents(events: seq<Event>, periodStart: int, periodEnd: int) returns (out: seq<StateDuration>)
    ensures out == Durations(events, periodStart, periodEnd)
    ensures forall p :: Seconds(out, p) == Measure(events, p, periodStart, periodEnd)
    ensures forall i :: 0 <= i < |out| ==> out[i].seconds > 0
  {
    out := [];
    if events != [] {
      var ordered := SortByTime(events);
      for i := 0 to |ordered|
        invariant out == Spans(ordered, i, periodStart, periodEnd)
        invariant forall k :: 0 <= k < |out| ==> out[k].seconds > 0
      {
        var start := Max(ordered[i].at, periodStart);
        var end := if i + 1 < |ordered| then ordered[i + 1].at else periodEnd;
        end := Min(end, periodEnd);
        var seconds := end - start;
        if seconds > 0 { out := out + [StateDuration(ordered[i].state, seconds, ordered[i].cause)]; }
      }
    }
    forall p ensures Seconds(out, p) == Measure(events, p, periodStart, periodEnd) {
      DurationsMeasure(events, p, periodStart, periodEnd);
    }
  }

  function Seconds(ds: seq<StateDuration>, p: Selection): int {
    if ds == [] then 0
    else
      var d := ds[|ds| - 1];
      Seconds(ds[..|ds| - 1], p) + (if p(d.state, d.cause) then d.seconds else 0)
  }

  // ---- The durations measure the reference ----

  lemma {:induction false} InsertMembers(s: seq<Event>, e: Event, x: Event)
    ensures x in Insert(s, e) <==> x == e || x in s
    decreases |s|
  {
    if s != [] && s[|s| - 1].at > e.at {
      InsertMembers(s[..|s| - 1], e, x);
      assert s == s[..|s| - 1] + [s[|s| - 1]];
    }
  }

  lemma {:induction false} InsertSorted(s: seq<Event>, e: Event)
    requires Sorted(s)
    ensures Sorted(Insert(s, e))
    decreases |s|
  {
    if s != [] && s[|s| - 1].at > e.at {
      var n := |s| - 1;
      InsertSorted(s[..n], e);
      var r := Insert(s[..n], e);
      forall k | 0 <= k < |r| ensures r[k].at <= s[n].at {
        assert r[k] in r;
        InsertMembers(s[..n], e, r[k]);
      }
    }
  }

  lemma {:induction false} SortSorts(events: seq<Event>)
    ensures Sorted(SortByTime(events))
    decreases |events|
  {
    if events != [] {
      SortSorts(events[..|events| - 1]);
      InsertSorted(SortByTime(events[..|events| - 1]), events[|events| - 1]);
    }
  }

  lemma {:induction false} InsertInForce(s: seq<Event>, e: Event, t: int)
    requires Sorted(s)
    ensures InForce(Insert(s, e), t) == Later(InForce(s, t), e, t)
    decreases |s|
  {
    if s == [] || s[|s| - 1].at <= e.at {
      assert (s + [e])[..|s|] == s;
    } else {
      var n := |s| - 1;
      var r := Insert(s[..n], e);
      InsertInForce(s[..n], e, t);
      assert (r + [s[n]])[..|r|] == r;
      InForceIsHeld(s[..n], t);
    }
  }

  lemma {:induction false} InForceIsHeld(s: seq<Event>, t: int)
    ensures InForce(s, t).Some? ==> InForce(s, t).value in s && InForce(s, t).value.at <= t
    ensures forall e :: e in s && e.at <= t ==> InForce(s, t).Some? && e.at <= InForce(s, t).value.at
    decreases |s|
  {
    if s != [] {
      InForceIsHeld(s[..|s| - 1], t);
      assert s == s[..|s| - 1] + [s[|s| - 1]];
    }
  }

  lemma {:induction false} SortKeepsInForce(events: seq<Event>, t: int)
    ensures InForce(SortByTime(events), t) == InForce(events, t)
    decreases |events|
  {
    if events != [] {
      var n := |events| - 1;
      SortKeepsInForce(events[..n], t);
      SortSorts(events[..n]);
      InsertInForce(SortByTime(events[..n]), events[n], t);
    }
  }

  /** Event i is the latest at or before t, and of those at one time the last in the list. */
  predicate LatestAt(events: seq<Event>, t: int, i: nat) {
    && i < |events| && events[i].at <= t
    && forall j :: 0 <= j < |events| && events[j].at <= t ==>
         events[j].at < events[i].at || (events[j].at == events[i].at && j <= i)
  }

  /** What is in force, by position: the latest event, the last listed of a tie, or nothing before the first. */
  lemma {:induction false} InForceIs(events: seq<Event>, t: int) returns (i: nat)
    ensures InForce(events, t).None? <==> forall e :: e in events ==> t < e.at
    ensures InForce(events, t).Some? ==> LatestAt(events, t, i) && InForce(events, t) == Some(events[i])
    decreases |events|
  {
    i := 0;
    if events != [] {
      var n := |events| - 1;
      var before := InForceIs(events[..n], t);
      assert events == events[..n] + [events[n]];
      i := if InForce(events, t) == InForce(events[..n], t) && !LatestAt(events, t, n) then before else n;
    }
  }

  /** In a sorted list, event i is in force from its time until the next one's. */
  lemma {:induction false} InForceBetween(s: seq<Event>, i: nat, t: int)
    requires Sorted(s) && i < |s| && s[i].at <= t && (i + 1 < |s| ==> t < s[i + 1].at)
    ensures InForce(s, t) == Some(s[i])
    decreases |s|
  {
    var n := |s| - 1;
    if i == n {
      InForceIsHeld(s[..n], t);
      if InForce(s[..n], t).Some? { assert InForce(s[..n], t).value in s[..n]; }
    } else {
      InForceBetween(s[..n], i, t);
    }
  }

  lemma {:induction false} InForceBefore(s: seq<Event>, t: int)
    requires forall e :: e in s ==> t < e.at
    ensures InForce(s, t).None?
    decreases |s|
  {
    InForceIsHeld(s, t);
  }

  lemma {:induction false} MeasureConstant(events: seq<Event>, p: Selection, lo: int, hi: int, on: bool)
    requires lo <= hi && forall t :: lo <= t < hi ==> Selected(events, t, p) == on
    ensures Measure(events, p, lo, hi) == if on then hi - lo else 0
    decreases hi - lo
  {
    if lo < hi { MeasureConstant(events, p, lo, hi - 1, on); }
  }

  lemma {:induction false} MeasureSplits(events: seq<Event>, p: Selection, a: int, b: int, c: int)
    requires a <= b <= c
    ensures Measure(events, p, a, c) == Measure(events, p, a, b) + Measure(events, p, b, c)
    decreases c - b
  {
    if b < c { MeasureSplits(events, p, a, b, c - 1); }
  }

  function Clamp(x: int, lo: int, hi: int): int { Min(Max(x, lo), hi) }

  /** How far the first n events account for: to the next event, or the end of the period. */
  function Reached(s: seq<Event>, n: nat, lo: int, hi: int): int
    requires n <= |s|
  {
    Clamp(if n < |s| then s[n].at else hi, lo, hi)
  }

  lemma SpanIsMeasured(s: seq<Event>, i: nat, p: Selection, lo: int, hi: int)
    requires Sorted(s) && lo <= hi && i < |s|
    ensures Reached(s, i, lo, hi) <= Reached(s, i + 1, lo, hi)
    ensures var seconds := SpanEnd(s, i, hi) - Max(s[i].at, lo);
      Measure(s, p, Reached(s, i, lo, hi), Reached(s, i + 1, lo, hi)) ==
        if seconds > 0 && p(s[i].state, s[i].cause) then seconds else 0
  {
    var a, b := Reached(s, i, lo, hi), Reached(s, i + 1, lo, hi);
    forall t | a <= t < b ensures Selected(s, t, p) == p(s[i].state, s[i].cause) {
      InForceBetween(s, i, t);
    }
    MeasureConstant(s, p, a, b, p(s[i].state, s[i].cause));
  }

  lemma {:induction false} SpansMeasure(s: seq<Event>, n: nat, p: Selection, lo: int, hi: int)
    requires Sorted(s) && s != [] && n <= |s| && lo <= hi
    ensures lo <= Reached(s, n, lo, hi) <= hi
    ensures Seconds(Spans(s, n, lo, hi), p) == Measure(s, p, lo, Reached(s, n, lo, hi))
    decreases n
  {
    if n == 0 {
      NothingBefore(s, p, lo, hi);
    } else {
      SpansMeasure(s, n - 1, p, lo, hi);
      NextSpan(s, n, p, lo, hi, Reached(s, n - 1, lo, hi), Reached(s, n, lo, hi));
    }
  }

  lemma NextSpan(s: seq<Event>, n: nat, p: Selection, lo: int, hi: int, a: int, b: int)
    requires Sorted(s) && 0 < n <= |s| && lo <= a
    requires lo <= hi && a == Reached(s, n - 1, lo, hi) && b == Reached(s, n, lo, hi)
    requires Seconds(Spans(s, n - 1, lo, hi), p) == Measure(s, p, lo, a)
    ensures lo <= b <= hi && Seconds(Spans(s, n, lo, hi), p) == Measure(s, p, lo, b)
  {
    SpanIsMeasured(s, n - 1, p, lo, hi);
    MeasureSplits(s, p, lo, a, b);
    LastSpan(s, n, p, lo, hi);
  }

  lemma NothingBefore(s: seq<Event>, p: Selection, lo: int, hi: int)
    requires Sorted(s) && s != [] && lo <= hi
    ensures lo <= Reached(s, 0, lo, hi) <= hi && Measure(s, p, lo, Reached(s, 0, lo, hi)) == 0
  {
    forall t | lo <= t < Reached(s, 0, lo, hi) ensures !Selected(s, t, p) { InForceBefore(s, t); }
    MeasureConstant(s, p, lo, Reached(s, 0, lo, hi), false);
  }

  lemma LastSpan(s: seq<Event>, n: nat, p: Selection, lo: int, hi: int)
    requires 0 < n <= |s|
    ensures var seconds, e := SpanEnd(s, n - 1, hi) - Max(s[n - 1].at, lo), s[n - 1];
      Seconds(Spans(s, n, lo, hi), p) ==
        Seconds(Spans(s, n - 1, lo, hi), p) + if seconds > 0 && p(e.state, e.cause) then seconds else 0
  {
    var before, e := Spans(s, n - 1, lo, hi), s[n - 1];
    var seconds := SpanEnd(s, n - 1, hi) - Max(e.at, lo);
    if seconds > 0 {
      assert (before + [StateDuration(e.state, seconds, e.cause)])[..|before|] == before;
    } else {
      assert before + [] == before;
    }
  }

  lemma {:induction false} SpansEmpty(s: seq<Event>, n: nat, lo: int, hi: int)
    requires n <= |s| && hi < lo
    ensures Spans(s, n, lo, hi) == []
  {
    if n > 0 { SpansEmpty(s, n - 1, lo, hi); }
  }

  lemma {:induction false} MeasureSame(a: seq<Event>, b: seq<Event>, p: Selection, lo: int, hi: int)
    requires forall t :: lo <= t < hi ==> Selected(a, t, p) == Selected(b, t, p)
    ensures Measure(a, p, lo, hi) == Measure(b, p, lo, hi)
    decreases hi - lo
  {
    if lo < hi { MeasureSame(a, b, p, lo, hi - 1); }
  }

  /** For every event list, period and selection of states: the seconds are the instants in force. */
  lemma DurationsMeasure(events: seq<Event>, p: Selection, lo: int, hi: int)
    ensures Seconds(Durations(events, lo, hi), p) == Measure(events, p, lo, hi)
  {
    var s := SortByTime(events);
    SortSorts(events);
    forall t ensures Selected(s, t, p) == Selected(events, t, p) { SortKeepsInForce(events, t); }
    MeasureSame(s, events, p, lo, hi);
    if hi < lo {
      SpansEmpty(s, |s|, lo, hi);
    } else if events == [] {
      MeasureConstant(events, p, lo, hi, false);
    } else {
      SpansMeasure(s, |s|, p, lo, hi);
    }
  }

  // ---- Consequences ----

  /** Disjoint selections add up, so states never share an instant. */
  lemma {:induction false} SelectionsAdd(events: seq<Event>, p: Selection, q: Selection, lo: int, hi: int)
    requires forall s, c :: !(p(s, c) && q(s, c))
    ensures Measure(events, p, lo, hi) + Measure(events, q, lo, hi) ==
      Measure(events, (s, c) => p(s, c) || q(s, c), lo, hi)
    decreases hi - lo
  {
    if lo < hi { SelectionsAdd(events, p, q, lo, hi - 1); }
  }

  /** All states together cover the period from the first event on, and nothing before it. */
  lemma TotalIsCovered(events: seq<Event>, first: Event, lo: int, hi: int)
    requires lo <= hi && first in events && forall e :: e in events ==> first.at <= e.at
    ensures Seconds(Durations(events, lo, hi), (_, _) => true) == hi - Clamp(first.at, lo, hi)
  {
    var all: Selection := (_, _) => true;
    var from := Clamp(first.at, lo, hi);
    DurationsMeasure(events, all, lo, hi);
    MeasureSplits(events, all, lo, from, hi);
    forall t | lo <= t < from ensures !Selected(events, t, all) { InForceBefore(events, t); }
    forall t | from <= t < hi ensures Selected(events, t, all) { InForceIsHeld(events, t); }
    MeasureConstant(events, all, lo, from, false);
    MeasureConstant(events, all, from, hi, true);
  }

  const RUNNING: Selection := (s, _) => s == "RUNNING"
  const PLANNED: Selection := (s, _) => s != "MAINTENANCE"

  /** `availability`, before rounding. */
  function Availability(ds: seq<StateDuration>): real {
    var planned := Seconds(ds, PLANNED);
    if planned > 0 then 100.0 * Seconds(ds, RUNNING) as real / planned as real else 0.0
  }

  lemma {:induction false} MeasureMonotone(events: seq<Event>, p: Selection, q: Selection, lo: int, hi: int)
    requires forall s, c :: p(s, c) ==> q(s, c)
    ensures Measure(events, p, lo, hi) <= Measure(events, q, lo, hi)
    decreases hi - lo
  {
    if lo < hi { MeasureMonotone(events, p, q, lo, hi - 1); }
  }

  lemma AvailabilityInRange(events: seq<Event>, lo: int, hi: int)
    ensures 0.0 <= Availability(Durations(events, lo, hi)) <= 100.0
  {
    DurationsMeasure(events, RUNNING, lo, hi);
    DurationsMeasure(events, PLANNED, lo, hi);
    MeasureMonotone(events, RUNNING, PLANNED, lo, hi);
    var run, planned := Measure(events, RUNNING, lo, hi) as real, Measure(events, PLANNED, lo, hi) as real;
    if planned > 0.0 { RatioInRange(run, planned); }
  }

  /** Instants running, as a share of the instants not in maintenance. */
  ghost predicate IsShare(a: real, running: int, planned: int) {
    if planned == 0 then a == 0.0 else a * planned as real == 100.0 * running as real
  }

  /**
   * Availability is that share of the period, measured on the unsorted history: 0 exactly when no instant is
   * running, 100 exactly when there is one not in maintenance and every such one is running.
   */
  lemma AvailabilityIs(events: seq<Event>, lo: int, hi: int)
    ensures var a := Availability(Durations(events, lo, hi));
      var running := Measure(events, (s, c) => s == "RUNNING", lo, hi);
      var planned := Measure(events, (s, c) => s != "MAINTENANCE", lo, hi);
      && 0 <= running <= planned && IsShare(a, running, planned)
      && (a == 0.0 <==> running == 0) && (a == 100.0 <==> planned > 0 && running == planned)
  {
    var run: Selection, on: Selection := (s, c) => s == "RUNNING", (s, c) => s != "MAINTENANCE";
    SameMeasure(events, RUNNING, run, lo, hi);
    SameMeasure(events, PLANNED, on, lo, hi);
    MeasureMonotone(events, run, on, lo, hi);
    AvailabilityOf(events, lo, hi, Measure(events, RUNNING, lo, hi), Measure(events, PLANNED, lo, hi));
  }

  lemma SameMeasure(events: seq<Event>, p: Selection, q: Selection, lo: int, hi: int)
    requires forall s, c :: p(s, c) == q(s, c)
    ensures Measure(events, p, lo, hi) == Measure(events, q, lo, hi)
  {
    MeasureMonotone(events, p, q, lo, hi);
    MeasureMonotone(events, q, p, lo, hi);
  }

  lemma AvailabilityOf(events: seq<Event>, lo: int, hi: int, running: nat, planned: nat)
    requires running == Measure(events, RUNNING, lo, hi) <= planned == Measure(events, PLANNED, lo, hi)
    ensures var a := Availability(Durations(events, lo, hi));
      && IsShare(a, running, planned) && (a == 0.0 <==> running == 0)
      && (a == 100.0 <==> planned > 0 && running == planned)
  {
    DurationsMeasure(events, RUNNING, lo, hi);
    DurationsMeasure(events, PLANNED, lo, hi);
    if planned > 0 { Share(running as real, planned as real); }
  }

  lemma Share(run: real, planned: real)
    requires 0.0 <= run <= planned && planned > 0.0
    ensures var a := 100.0 * run / planned;
      a * planned == 100.0 * run && (a == 0.0 <==> run == 0.0) && (a == 100.0 <==> run == planned)
  {
    var a := 100.0 * run / planned;
    assert a * planned == 100.0 * run;
    assert (a - 100.0) * planned == 100.0 * (run - planned);
  }

  lemma RatioInRange(run: real, planned: real)
    requires 0.0 <= run <= planned && planned > 0.0
    ensures 0.0 <= 100.0 * run / planned <= 100.0
  {
    assert 100.0 * run <= 100.0 * planned;
    assert 100.0 * planned / planned == 100.0;
  }

  // ---- Splitting a period ----

  predicate Increasing(cuts: seq<int>) {
    forall i, j :: 0 <= i < j < |cuts| ==> cuts[i] <= cuts[j]
  }

  /** Seconds per piece, each computed on its own, summed. */
  function SplitSeconds(events: seq<Event>, p: Selection, cuts: seq<int>): int {
    if |cuts| < 2 then 0
    else
      var n := |cuts| - 1;
      SplitSeconds(events, p, cuts[..n]) + Seconds(Durations(events, cuts[n - 1], cuts[n]), p)
  }

  /** Cutting a period anywhere and adding up gives the uncut answer. */
  lemma {:induction false} SplittingConserves(events: seq<Event>, p: Selection, cuts: seq<int>)
    requires Increasing(cuts) && |cuts| >= 1
    ensures SplitSeconds(events, p, cuts) == Seconds(Durations(events, cuts[0], cuts[|cuts| - 1]), p)
    decreases |cuts|
  {
    DurationsMeasure(events, p, cuts[0], cuts[|cuts| - 1]);
    if |cuts| > 1 {
      var n := |cuts| - 1;
      SplittingConserves(events, p, cuts[..n]);
      DurationsMeasure(events, p, cuts[0], cuts[n - 1]);
      DurationsMeasure(events, p, cuts[n - 1], cuts[n]);
      MeasureSplits(events, p, cuts[0], cuts[n - 1], cuts[n]);
    }
  }

  // ---- The feeding query ----

  function Inside(events: seq<Event>, lo: int, hi: int): seq<Event> {
    if events == [] then []
    else (if lo <= events[0].at < hi then [events[0]] else []) + Inside(events[1..], lo, hi)
  }

  lemma {:induction false} InsideMembers(events: seq<Event>, lo: int, hi: int, e: Event)
    ensures e in Inside(events, lo, hi) <==> e in events && lo <= e.at < hi
    decreases |events|
  {
    if events != [] {
      InsideMembers(events[1..], lo, hi, e);
      assert events == [events[0]] + events[1..];
    }
  }

  /**
   * A result `state_events` may return: the events inside and one latest event before, by time. The
   * table puts no order on events of one time, so any order of those may come.
   */
  ghost predicate StateEvents(events: seq<Event>, lo: int, hi: int, rows: seq<Event>) {
    Sorted(rows) && exists before :: LatestBefore(events, lo, before) && RowsOf(events, lo, hi, before, rows)
  }

  ghost predicate RowsOf(events: seq<Event>, lo: int, hi: int, before: Option<Event>, rows: seq<Event>) {
    multiset(rows) ==
      multiset(Inside(events, lo, hi)) + (match before case None => multiset{} case Some(b) => multiset{b})
  }

  ghost predicate LatestBefore(events: seq<Event>, lo: int, before: Option<Event>) {
    match before
    case None => forall e :: e in events ==> e.at >= lo
    case Some(b) => b in events && b.at < lo && forall e :: e in events && e.at < lo ==> e.at <= b.at
  }

  predicate Agree(a: Event, b: Event) { a.state == b.state && a.cause == b.cause }

  /** The event is in force somewhere in the window, unless another of the same time is. */
  predicate Counts(events: seq<Event>, lo: int, hi: int, a: Event) {
    a in events && lo < hi && a.at < hi && (a.at < lo ==> forall e :: e in events && e.at <= lo ==> e.at <= a.at)
  }

  /** Events of one time that count for the window say the same thing. */
  predicate Settled(events: seq<Event>, lo: int, hi: int) {
    forall a, b :: a in events && b in events && a.at == b.at && Counts(events, lo, hi, a) ==> Agree(a, b)
  }

  lemma RowsMembers(events: seq<Event>, lo: int, hi: int, before: Option<Event>, rows: seq<Event>)
    requires RowsOf(events, lo, hi, before, rows)
    ensures forall e :: e in rows <==> (e in events && lo <= e.at < hi) || before == Some(e)
  {
    forall e ensures e in rows <==> (e in events && lo <= e.at < hi) || before == Some(e) {
      InsideMembers(events, lo, hi, e);
      assert e in rows <==> e in multiset(rows);
      assert e in Inside(events, lo, hi) <==> e in multiset(Inside(events, lo, hi));
    }
  }

  lemma PrunedInForce(events: seq<Event>, lo: int, hi: int, rows: seq<Event>, t: int, p: Selection)
    requires Settled(events, lo, hi) && StateEvents(events, lo, hi, rows) && lo <= t < hi
    ensures Selected(rows, t, p) == Selected(events, t, p)
  {
    var before := RowBefore(events, lo, hi, rows);
    PrunedTime(events, lo, hi, before, rows, t);
    var c, d := InForce(events, t), InForce(rows, t);
    if c.Some? { SettledAgree(events, lo, hi, c.value, d.value); }
  }

  lemma SettledAgree(events: seq<Event>, lo: int, hi: int, a: Event, b: Event)
    requires Settled(events, lo, hi) && a in events && b in events && a.at == b.at && Counts(events, lo, hi, a)
    ensures Agree(a, b)
  {}

  lemma RowBefore(events: seq<Event>, lo: int, hi: int, rows: seq<Event>) returns (before: Option<Event>)
    requires StateEvents(events, lo, hi, rows)
    ensures LatestBefore(events, lo, before)
    ensures forall e :: e in rows <==> (e in events && lo <= e.at < hi) || before == Some(e)
  {
    before :| LatestBefore(events, lo, before) && RowsOf(events, lo, hi, before, rows);
    RowsMembers(events, lo, hi, before, rows);
  }

  /** Both lists have an event of the same time in force, one that counts. */
  lemma PrunedTime(events: seq<Event>, lo: int, hi: int, before: Option<Event>, rows: seq<Event>, t: int)
    requires LatestBefore(events, lo, before) && lo <= t < hi
    requires forall e :: e in rows <==> (e in events && lo <= e.at < hi) || before == Some(e)
    ensures InForce(rows, t).Some? <==> InForce(events, t).Some?
    ensures InForce(rows, t).Some? ==>
      var c, d := InForce(events, t).value, InForce(rows, t).value;
      c in events && d in events && c.at == d.at && Counts(events, lo, hi, c)
  {
    InForceIsHeld(events, t);
    InForceIsHeld(rows, t);
    var c := InForce(events, t);
    if c.Some? {
      if c.value.at >= lo { assert c.value in rows; } else { assert before.Some? && before.value in rows; }
    }
  }

  /** The pruned history gives the same durations as the whole one. */
  lemma PruningIsHarmless(events: seq<Event>, lo: int, hi: int, rows: seq<Event>, p: Selection)
    requires Settled(events, lo, hi) && StateEvents(events, lo, hi, rows)
    ensures Seconds(Durations(rows, lo, hi), p) == Seconds(Durations(events, lo, hi), p)
  {
    DurationsMeasure(rows, p, lo, hi);
    DurationsMeasure(events, p, lo, hi);
    forall t | lo <= t < hi ensures Selected(rows, t, p) == Selected(events, t, p) {
      PrunedInForce(events, lo, hi, rows, t, p);
    }
    MeasureSame(rows, events, p, lo, hi);
  }

  /** Whatever rows come back, the same state is in force at every instant of the window. */
  ghost predicate SameAnswers(events: seq<Event>, lo: int, hi: int) {
    forall rows, t, p :: StateEvents(events, lo, hi, rows) && lo <= t < hi ==>
      Selected(rows, t, p) == Selected(events, t, p)
  }

  /** Exactly when the query may stand for the history: when no two events it leaves unordered disagree. */
  lemma PruningIsExact(events: seq<Event>, lo: int, hi: int)
    ensures SameAnswers(events, lo, hi) <==> Settled(events, lo, hi)
  {
    if Settled(events, lo, hi) {
      forall rows, t, p | StateEvents(events, lo, hi, rows) && lo <= t < hi
        ensures Selected(rows, t, p) == Selected(events, t, p)
      {
        PrunedInForce(events, lo, hi, rows, t, p);
      }
    } else {
      var a, b :| a in events && b in events && a.at == b.at && Counts(events, lo, hi, a) && !Agree(a, b);
      TiesDisagree(events, lo, hi, a, b);
    }
  }

  lemma TiesDisagree(events: seq<Event>, lo: int, hi: int, a: Event, b: Event)
    requires a in events && b in events && a.at == b.at && Counts(events, lo, hi, a) && !Agree(a, b)
    ensures !SameAnswers(events, lo, hi)
  {
    var t := Max(a.at, lo);
    InForceIsHeld(events, t);
    var c := InForce(events, t).value;
    assert c.at == a.at;
    var x := if Agree(a, c) then b else a;
    var p: Selection := (s, k) => s == x.state && k == x.cause;
    var rows := RowsEndingIn(events, lo, hi, x, t);
    assert Selected(rows, t, p) && !Selected(events, t, p);
  }

  /** Among the results the query may return, one that lists this event last of its time. */
  lemma RowsEndingIn(events: seq<Event>, lo: int, hi: int, x: Event, t: int) returns (rows: seq<Event>)
    requires Counts(events, lo, hi, x) && t == Max(x.at, lo)
    ensures StateEvents(events, lo, hi, rows) && InForce(rows, t) == Some(x)
  {
    var before, base := RowsBut(events, lo, hi, x, t);
    rows := SortByTime(base + [x]);
    SortSorts(base + [x]);
    SortPermutes(base + [x]);
    assert RowsOf(events, lo, hi, before, rows);
    SortKeepsInForce(base + [x], t);
    assert (base + [x])[..|base|] == base;
    InForceIsHeld(base, t);
  }

  /** The rest of those rows, none of them in force after it. */
  lemma RowsBut(events: seq<Event>, lo: int, hi: int, x: Event, t: int)
    returns (before: Option<Event>, base: seq<Event>)
    requires Counts(events, lo, hi, x) && t == Max(x.at, lo)
    ensures LatestBefore(events, lo, before)
    ensures forall e :: e in base && e.at <= t ==> e.at <= x.at
    ensures multiset(base + [x]) ==
      multiset(Inside(events, lo, hi)) + (match before case None => multiset{} case Some(b) => multiset{b})
  {
    if x.at < lo {
      before, base := Some(x), Inside(events, lo, hi);
      forall e | e in base ensures e in events && lo <= e.at { InsideMembers(events, lo, hi, e); }
    } else {
      before, base := InsideBut(events, lo, hi, x);
    }
  }

  lemma InsideBut(events: seq<Event>, lo: int, hi: int, x: Event)
    returns (before: Option<Event>, base: seq<Event>)
    requires Counts(events, lo, hi, x) && lo <= x.at
    ensures LatestBefore(events, lo, before)
    ensures multiset(base + [x]) ==
      multiset(Inside(events, lo, hi)) + (match before case None => multiset{} case Some(b) => multiset{b})
  {
    InForceIsHeld(events, lo - 1);
    before := InForce(events, lo - 1);
    InsideMembers(events, lo, hi, x);
    var rest := Without(Inside(events, lo, hi), x);
    base := (if before.Some? then [before.value] else []) + rest;
    assert base + [x] == (if before.Some? then [before.value] else []) + (rest + [x]);
  }

  lemma Without(s: seq<Event>, x: Event) returns (r: seq<Event>)
    requires x in s
    ensures multiset(r + [x]) == multiset(s) && forall e :: e in r ==> e in s
  {
    var k :| 0 <= k < |s| && s[k] == x;
    r := s[..k] + s[k + 1..];
    assert s == s[..k] + [x] + s[k + 1..];
  }

  lemma {:induction false} InsertPermutes(s: seq<Event>, e: Event)
    ensures multiset(Insert(s, e)) == multiset(s) + multiset{e}
    decreases |s|
  {
    if s != [] && s[|s| - 1].at > e.at {
      assert s == s[..|s| - 1] + [s[|s| - 1]];
      InsertPermutes(s[..|s| - 1], e);
    }
  }

  lemma {:induction false} SortPermutes(events: seq<Event>)
    ensures multiset(SortByTime(events)) == multiset(events)
    decreases |events|
  {
    if events != [] {
      var n := |events| - 1;
      assert events == events[..n] + [events[n]];
      SortPermutes(events[..n]);
      InsertPermutes(SortByTime(events[..n]), events[n]);
    }
  }

  // ---- The trend ----

  const TREND_BUCKETS := 12

  /** `timedelta / 12`: to the nearest tick, halves to even. */
  function BucketStep(start: int, end: int): (step: int)
    ensures -6 <= TREND_BUCKETS * step - (end - start) <= 6
  {
    var q, r := (end - start) / TREND_BUCKETS, (end - start) % TREND_BUCKETS;
    if 2 * r > TREND_BUCKETS || (2 * r == TREND_BUCKETS && q % 2 == 1) then q + 1 else q
  }

  /** The rows the event query returns for a period. */
  type Query = (int, int) -> seq<Event>

  /** Where bucket k starts, one step after the one before it. */
  function BucketStart(start: int, step: int, k: nat): int {
    if k == 0 then start else BucketStart(start, step, k - 1) + step
  }

  lemma {:induction false} BucketStartIs(start: int, step: int, k: nat)
    ensures BucketStart(start, step, k) == start + step * k
    ensures step >= 0 ==> BucketStart(start, step, k) >= start
    decreases k
  {
    if k > 0 {
      BucketStartIs(start, step, k - 1);
      assert step * k == step * (k - 1) + step;
    }
  }

  /** Seconds of the selected states in each of n buckets of one width, each from its own query. */
  function Buckets(query: Query, p: Selection, start: int, step: int, n: nat): seq<int> {
    seq(n, k requires 0 <= k < n => BucketSeconds(query, p, BucketStart(start, step, k), step))
  }

  function BucketSeconds(query: Query, p: Selection, from: int, step: int): int {
    Seconds(Durations(query(from, from + step), from, from + step), p)
  }

  /** The trend: no bucket at all when the step is not positive. */
  function Trend(query: Query, p: Selection, start: int, end: int): seq<int> {
    if BucketStep(start, end) <= 0 then [] else Buckets(query, p, start, BucketStep(start, end), TREND_BUCKETS)
  }

  lemma OneMoreBucket(query: Query, p: Selection, start: int, step: int, n: nat, from: int)
    requires from == start + step * n
    ensures Buckets(query, p, start, step, n + 1) ==
      Buckets(query, p, start, step, n) + [BucketSeconds(query, p, from, step)]
  {
    BucketStartIs(start, step, n);
  }

  method OeeTrend(query: Query, p: Selection, start: int, end: int) returns (trend: seq<int>)
    ensures trend == Trend(query, p, start, end)
  {
    var step := BucketStep(start, end);
    if step <= 0 { return []; }
    trend := [];
    for bucket := 0 to TREND_BUCKETS
      invariant trend == Buckets(query, p, start, step, bucket)
    {
      var bucketStart := start + step * bucket;
      OneMoreBucket(query, p, start, step, bucket, bucketStart);
      var durations := DurationsFromEvents(query(bucketStart, bucketStart + step), bucketStart, bucketStart + step);
      assert Seconds(durations, p) == BucketSeconds(query, p, bucketStart, step);
      trend := trend + [Seconds(durations, p)];
    }
  }

  function Sum(xs: seq<int>): int {
    if xs == [] then 0 else Sum(xs[..|xs| - 1]) + xs[|xs| - 1]
  }

  /** Each bucket's query answers for this history, and what it leaves unordered does not matter. */
  ghost predicate Answers(query: Query, events: seq<Event>, start: int, step: int, n: nat) {
    forall k: nat :: k < n ==> AnswersAt(query, events, start, step, k)
  }

  ghost predicate AnswersAt(query: Query, events: seq<Event>, start: int, step: int, k: nat) {
    AnswersFrom(query, events, BucketStart(start, step, k), step)
  }

  ghost predicate AnswersFrom(query: Query, events: seq<Event>, from: int, step: int) {
    Settled(events, from, from + step) && StateEvents(events, from, from + step, query(from, from + step))
  }

  lemma BucketMeasures(events: seq<Event>, query: Query, p: Selection, from: int, step: int)
    requires AnswersFrom(query, events, from, step)
    ensures BucketSeconds(query, p, from, step) == Measure(events, p, from, from + step)
  {
    PruningIsHarmless(events, from, from + step, query(from, from + step), p);
    DurationsMeasure(events, p, from, from + step);
  }

  lemma BucketMeasuresAt(events: seq<Event>, query: Query, p: Selection, start: int, step: int,
        n: nat, k: nat, from: int)
    requires Answers(query, events, start, step, n) && k < n && from == BucketStart(start, step, k)
    ensures MeasuresAt(events, p, from, step, BucketSeconds(query, p, from, step))
  {
    assert AnswersAt(query, events, start, step, k);
    BucketMeasures(events, query, p, from, step);
  }

  lemma BucketsMeasure(events: seq<Event>, query: Query, p: Selection, start: int, step: int, n: nat)
    requires Answers(query, events, start, step, n)
    ensures Measured(events, p, start, step, Buckets(query, p, start, step, n))
  {
    var xs := Buckets(query, p, start, step, n);
    forall k | 0 <= k < n ensures MeasuresAt(events, p, BucketStart(start, step, k), step, xs[k]) {
      BucketMeasuresAt(events, query, p, start, step, n, k, BucketStart(start, step, k));
    }
  }

  /** Each value measures its own part of the history. */
  predicate Measured(events: seq<Event>, p: Selection, start: int, step: int, xs: seq<int>) {
    forall k :: 0 <= k < |xs| ==> MeasuresAt(events, p, BucketStart(start, step, k), step, xs[k])
  }

  predicate MeasuresAt(events: seq<Event>, p: Selection, from: int, step: int, x: int) {
    x == Measure(events, p, from, from + step)
  }

  lemma {:induction false} MeasuredAddsUp(events: seq<Event>, p: Selection, start: int, step: int, xs: seq<int>)
    requires step > 0 && Measured(events, p, start, step, xs)
    ensures Sum(xs) == Measure(events, p, start, BucketStart(start, step, |xs|))
    decreases |xs|
  {
    if xs != [] {
      var n := |xs| - 1;
      var from := BucketStart(start, step, n);
      MeasuredAddsUp(events, p, start, step, xs[..n]);
      BucketStartIs(start, step, n);
      MeasureSplits(events, p, start, from, from + step);
    }
  }

  /** Buckets of one width conserve what they span, whatever each one's query returned. */
  lemma BucketsConserve(events: seq<Event>, query: Query, p: Selection, start: int, step: int, n: nat)
    requires step > 0 && Answers(query, events, start, step, n)
    ensures Sum(Buckets(query, p, start, step, n)) == Measure(events, p, start, BucketStart(start, step, n))
  {
    BucketsMeasure(events, query, p, start, step, n);
    MeasuredAddsUp(events, p, start, step, Buckets(query, p, start, step, n));
  }

  /** The 12 buckets end where the window ends exactly when 12 divides it, else within six ticks. */
  lemma BucketsSpanWindow(start: int, end: int)
    ensures start + BucketStep(start, end) * TREND_BUCKETS == end <==> (end - start) % TREND_BUCKETS == 0
    ensures -6 <= start + BucketStep(start, end) * TREND_BUCKETS - end <= 6
    ensures var off := start + BucketStep(start, end) * TREND_BUCKETS - end;
      off == 6 || off == -6 ==> BucketStep(start, end) % 2 == 0
  {
    var q, r := (end - start) / TREND_BUCKETS, (end - start) % TREND_BUCKETS;
    assert end - start == q * TREND_BUCKETS + r;
  }

  /** Value k of the trend is the measure of the k-th of twelve steps of the window. */
  lemma TrendValue(events: seq<Event>, query: Query, p: Selection, start: int, end: int, step: int, k: nat, from: int)
    requires step == BucketStep(start, end) > 0 && Answers(query, events, start, step, TREND_BUCKETS)
    requires k < TREND_BUCKETS && from == start + step * k
    ensures |Trend(query, p, start, end)| == TREND_BUCKETS
    ensures Trend(query, p, start, end)[k] == Measure(events, p, from, from + step)
  {
    BucketStartIs(start, step, k);
    BucketMeasuresAt(events, query, p, start, step, TREND_BUCKETS, k, from);
  }

  /** For this history, its queries and this selection of states the trend adds up to the window. */
  predicate TrendAddsUp(events: seq<Event>, query: Query, p: Selection, start: int, end: int) {
    Sum(Trend(query, p, start, end)) == Measure(events, p, start, end)
  }

  /** In other words, to what the durations of the whole window say. */
  lemma AddsUpIs(events: seq<Event>, query: Query, p: Selection, start: int, end: int)
    ensures TrendAddsUp(events, query, p, start, end) <==>
      Sum(Trend(query, p, start, end)) == Seconds(Durations(events, start, end), p)
  {
    DurationsMeasure(events, p, start, end);
  }

  ghost predicate TrendConserves(start: int, end: int) {
    forall events, query, p ::
      Answers(query, events, start, BucketStep(start, end), TREND_BUCKETS) ==> TrendAddsUp(events, query, p, start, end)
  }

  /** A window of at most six ticks gets no bucket. */
  lemma NoBuckets(start: int, end: int)
    ensures BucketStep(start, end) <= 0 <==> end - start <= 6
  {
    var q, r := (end - start) / TREND_BUCKETS, (end - start) % TREND_BUCKETS;
    assert end - start == q * TREND_BUCKETS + r;
  }

  /** Exactly the windows whose trend conserves every history: the empty ones and those twelve divides. */
  lemma TrendConservesIff(start: int, end: int)
    ensures TrendConserves(start, end) <==> end <= start || (end - start) % TREND_BUCKETS == 0
  {
    if end <= start || (end - start) % TREND_BUCKETS == 0 {
      forall events, query: Query, p: Selection | Answers(query, events, start, BucketStep(start, end), TREND_BUCKETS)
        ensures TrendAddsUp(events, query, p, start, end)
      {
        TrendKeeps(events, query, p, start, end);
      }
    } else {
      TrendLoses(start, end);
    }
  }

  lemma TrendKeeps(events: seq<Event>, query: Query, p: Selection, start: int, end: int)
    requires end <= start || (end - start) % TREND_BUCKETS == 0
    requires Answers(query, events, start, BucketStep(start, end), TREND_BUCKETS)
    ensures TrendAddsUp(events, query, p, start, end)
  {
    var step := BucketStep(start, end);
    NoBuckets(start, end);
    if step > 0 {
      BucketsConserve(events, query, p, start, step, TREND_BUCKETS);
      BucketStartIs(start, step, TREND_BUCKETS);
      BucketsSpanWindow(start, end);
    }
  }

  /** One event before the window is enough: the buckets cover twelve steps, the window something else. */
  lemma TrendLoses(start: int, end: int)
    requires start < end && (end - start) % TREND_BUCKETS != 0
    ensures !TrendConserves(start, end)
  {
    var e, step := Event(start - 1, "RUNNING", None), BucketStep(start, end);
    var all: Selection, query: Query := (_, _) => true, (_, _) => [e];
    NoBuckets(start, end);
    AlwaysAnswers(e, query, start, step, TREND_BUCKETS);
    SumOfBuckets(e, query, all, start, step);
    BucketsSpanWindow(start, end);
    Everywhere(e, all, start, end);
    OneDisagrees([e], query, all, start, end);
  }

  lemma OneDisagrees(events: seq<Event>, query: Query, p: Selection, start: int, end: int)
    requires Answers(query, events, start, BucketStep(start, end), TREND_BUCKETS)
    requires !TrendAddsUp(events, query, p, start, end)
    ensures !TrendConserves(start, end)
  {}

  lemma AlwaysAnswers(e: Event, query: Query, start: int, step: int, n: nat)
    requires e.at < start && step >= 0 && forall a, b :: query(a, b) == [e]
    ensures Answers(query, [e], start, step, n)
  {
    forall k: nat | k < n ensures AnswersAt(query, [e], start, step, k) {
      BucketStartIs(start, step, k);
      OneAnswers(e, query, BucketStart(start, step, k), step);
    }
  }

  lemma SumOfBuckets(e: Event, query: Query, all: Selection, start: int, step: int)
    requires e.at < start && (forall a, b :: query(a, b) == [e]) && forall s, c :: all(s, c)
    ensures step > 0 ==> Sum(Buckets(query, all, start, step, TREND_BUCKETS)) == step * TREND_BUCKETS
  {
    if step > 0 {
      AlwaysAnswers(e, query, start, step, TREND_BUCKETS);
      BucketsConserve([e], query, all, start, step, TREND_BUCKETS);
      BucketStartIs(start, step, TREND_BUCKETS);
      Everywhere(e, all, start, BucketStart(start, step, TREND_BUCKETS));
    }
  }

  /** An event before the period is in force throughout it. */
  lemma Everywhere(e: Event, all: Selection, lo: int, hi: int)
    requires e.at < lo <= hi && forall s, c :: all(s, c)
    ensures Measure([e], all, lo, hi) == hi - lo
  {
    forall t | lo <= t < hi ensures Selected([e], t, all) { assert [e][..0] == []; }
    MeasureConstant([e], all, lo, hi, true);
  }

  lemma OneAnswers(e: Event, query: Query, from: int, step: int)
    requires e.at < from && query(from, from + step) == [e]
    ensures AnswersFrom(query, [e], from, step)
  {
    assert Inside([e], from, from + step) == [];
    assert LatestBefore([e], from, Some(e)) && RowsOf([e], from, from + step, Some(e), [e]);
  }
}
