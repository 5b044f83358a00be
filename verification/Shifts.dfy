/** The shift calendar and the engine loop that follows it. Local time in ticks, fixed UTC offset. */
module Shifts {
  import opened Options

  /** Start and end are times of day; an end at or before the start is on the next day. */
  datatype Shift = Shift(code: string, start: int, end: int)

  const SEARCH_DAYS := 8

  /** A calendar: ticks per day, shifts, working weekdays (0 = Monday) and the weekday of day 0. */
  datatype Calendar = Calendar(day: int, shifts: seq<Shift>, workingDays: set<int>, weekdayOfZero: int) {
    predicate Valid() {
      day > 0 && forall i :: 0 <= i < |shifts| ==> 0 <= shifts[i].start < day && 0 <= shifts[i].end < day
    }

    predicate Works(d: int) { (d + weekdayOfZero) % 7 in workingDays }

    function DayOf(t: int): int
      requires day > 0
    {
      t / day
    }

    function Start(d: int, i: nat): int
      requires i < |shifts|
    {
      d * day + shifts[i].start
    }

    function End(d: int, i: nat): int
      requires i < |shifts|
    {
      d * day + shifts[i].end + (if shifts[i].end <= shifts[i].start then day else 0)
    }

    /** Instant t lies in the occurrence of shift i that starts on day d. */
    predicate Covers(d: int, i: nat, t: int)
      requires i < |shifts|
    {
      Works(d) && Start(d, i) <= t < End(d, i)
    }
  }

  datatype Instance = Instance(shift: Shift, start: int, end: int)

  // ---- `_instances`, `active` and `next_change` ----

  function DayInstances(c: Calendar, d: int, n: nat): seq<Instance>
    requires n <= |c.shifts|
  {
    if n == 0 then []
    else DayInstances(c, d, n - 1) + [Instance(c.shifts[n - 1], c.Start(d, n - 1), c.End(d, n - 1))]
  }

  function Instances(c: Calendar, first: int, days: nat): seq<Instance> {
    if days == 0 then []
    else
      Instances(c, first, days - 1) +
      (if c.Works(first + days - 1) then DayInstances(c, first + days - 1, |c.shifts|) else [])
  }

  method InstancesLoop(c: Calendar, first: int, days: nat) returns (out: seq<Instance>)
    ensures out == Instances(c, first, days)
  {
    out := [];
    for offset := 0 to days
      invariant out == Instances(c, first, offset)
    {
      if !c.Works(first + offset) { continue; }
      var today: seq<Instance> := [];
      for i := 0 to |c.shifts|
        invariant today == DayInstances(c, first + offset, i)
      {
        var start := (first + offset) * c.day + c.shifts[i].start;
        var end := (first + offset) * c.day + c.shifts[i].end;
        if end <= start { end := end + c.day; }
        today := today + [Instance(c.shifts[i], start, end)];
      }
      out := out + today;
    }
  }

  function FirstCovering(s: seq<Instance>, t: int): Option<Shift> {
    if s == [] then None
    else if s[0].start <= t < s[0].end then Some(s[0].shift)
    else FirstCovering(s[1..], t)
  }

  function Active(c: Calendar, t: int): Option<Shift>
    requires c.Valid()
  {
    FirstCovering(Instances(c, c.DayOf(t) - 1, 2), t)
  }

  method ActiveLoop(c: Calendar, t: int) returns (r: Option<Shift>)
    requires c.Valid()
    ensures r == Active(c, t)
  {
    var s := InstancesLoop(c, c.DayOf(t) - 1, 2);
    for k := 0 to |s|
      invariant FirstCovering(s, t) == FirstCovering(s[k..], t)
    {
      assert s[k..][0] == s[k] && s[k..][1..] == s[k + 1..];
      if s[k].start <= t < s[k].end { return Some(s[k].shift); }
    }
    assert s[|s|..] == [];
    r := None;
  }

  function Boundaries(s: seq<Instance>, t: int): (r: seq<int>)
    ensures forall e :: e in r ==> e > t
  {
    if s == [] then []
    else
      (if s[0].start > t then [s[0].start] else []) + (if s[0].end > t then [s[0].end] else []) + Boundaries(s[1..], t)
  }

  function Least(s: seq<int>): (r: int)
    requires s != []
    ensures r in s && forall e :: e in s ==> r <= e
  {
    if |s| == 1 then s[0]
    else
      assert s == [s[0]] + s[1..];
      var r := Least(s[1..]);
      if s[0] < r then s[0] else r
  }

  function NextChange(c: Calendar, t: int): (r: int)
    requires c.Valid()
    ensures r > t
  {
    var b := Boundaries(Instances(c, c.DayOf(t) - 1, SEARCH_DAYS), t);
    if b == [] then t + c.day else Least(b)
  }

  // ---- Days ----

  lemma DayBounds(c: Calendar, t: int)
    requires c.Valid()
    ensures c.DayOf(t) * c.day <= t < c.DayOf(t) * c.day + c.day
  {
  }

  lemma {:induction false} DayStep(d: int, e: int, day: int)
    requires day > 0 && d < e
    ensures d * day + day <= e * day
    decreases e - d
  {
    var before := e - 1;
    assert e * day == before * day + day;
    if d < before { DayStep(d, before, day); }
  }

  /** An occurrence lies within the day it starts on and the next. */
  lemma InstanceSpan(c: Calendar, d: int, i: nat)
    requires c.Valid() && i < |c.shifts|
    ensures d * c.day <= c.Start(d, i) < d * c.day + c.day
    ensures c.Start(d, i) < c.End(d, i) < d * c.day + c.day + c.day
  {
  }

  /** So only an occurrence of today or yesterday can cover an instant, or end after it having begun. */
  lemma OnlyTwoDays(c: Calendar, d: int, i: nat, t: int)
    requires c.Valid() && i < |c.shifts|
    ensures c.Start(d, i) <= t < c.End(d, i) ==> d == c.DayOf(t) || d == c.DayOf(t) - 1
    ensures d < c.DayOf(t) - 1 ==> c.End(d, i) <= t
    ensures d > c.DayOf(t) ==> t < c.Start(d, i)
  {
    InstanceSpan(c, d, i);
    DayBounds(c, t);
    var today := c.DayOf(t);
    if d < today - 1 {
      DayStep(d, today - 1, c.day);
      assert (today - 1) * c.day == today * c.day - c.day;
    }
    if d > today { DayStep(today, d, c.day); }
  }

  // ---- `active` against the whole calendar ----

  /** The first occurrence covering t, over all days: earliest day first, then list order. */
  ghost predicate IsActive(c: Calendar, t: int, r: Option<Shift>)
    requires c.Valid()
  {
    match r
    case None => forall d, i :: 0 <= i < |c.shifts| ==> !c.Covers(d, i, t)
    case Some(s) => exists d, i :: 0 <= i < |c.shifts| && s == c.shifts[i] && FirstAt(c, t, d, i)
  }

  ghost predicate FirstAt(c: Calendar, t: int, d: int, i: int)
    requires c.Valid() && 0 <= i < |c.shifts|
  {
    c.Covers(d, i, t) &&
    forall e, j :: 0 <= j < |c.shifts| && (e < d || (e == d && j < i)) ==> !c.Covers(e, j, t)
  }

  lemma {:induction false} FirstCoveringAppend(a: seq<Instance>, b: seq<Instance>, t: int)
    ensures FirstCovering(a + b, t) == if FirstCovering(a, t).Some? then FirstCovering(a, t) else FirstCovering(b, t)
    decreases |a|
  {
    if a == [] {
      assert a + b == b;
    } else {
      assert (a + b)[1..] == a[1..] + b;
      FirstCoveringAppend(a[1..], b, t);
    }
  }

  lemma {:induction false} FirstOfDay(c: Calendar, d: int, n: nat, t: int) returns (i: nat)
    requires c.Valid() && n <= |c.shifts| && c.Works(d)
    ensures FirstCovering(DayInstances(c, d, n), t).None? ==> forall j :: 0 <= j < n ==> !c.Covers(d, j, t)
    ensures FirstCovering(DayInstances(c, d, n), t).Some? ==>
      i < n && c.Covers(d, i, t) && FirstCovering(DayInstances(c, d, n), t) == Some(c.shifts[i])
      && forall j :: 0 <= j < i ==> !c.Covers(d, j, t)
    decreases n
  {
    i := 0;
    if n > 0 {
      i := FirstOfDay(c, d, n - 1, t);
      var last := [Instance(c.shifts[n - 1], c.Start(d, n - 1), c.End(d, n - 1))];
      FirstCoveringAppend(DayInstances(c, d, n - 1), last, t);
      if FirstCovering(DayInstances(c, d, n - 1), t).None? { i := n - 1; }
    }
  }

  function OneDay(c: Calendar, d: int): seq<Instance> {
    if c.Works(d) then DayInstances(c, d, |c.shifts|) else []
  }

  lemma TwoDays(c: Calendar, t: int)
    requires c.Valid()
    ensures Active(c, t) ==
      var yesterday := FirstCovering(OneDay(c, c.DayOf(t) - 1), t);
      if yesterday.Some? then yesterday else FirstCovering(OneDay(c, c.DayOf(t)), t)
  {
    var d := c.DayOf(t);
    assert Instances(c, d - 1, 0) == [];
    assert Instances(c, d - 1, 1) == [] + OneDay(c, d - 1) == OneDay(c, d - 1);
    assert Instances(c, d - 1, 2) == OneDay(c, d - 1) + OneDay(c, d);
    FirstCoveringAppend(OneDay(c, d - 1), OneDay(c, d), t);
  }

  /** The two-day search finds what a search of every day finds. */
  lemma ActiveIsGlobal(c: Calendar, t: int)
    requires c.Valid()
    ensures IsActive(c, t, Active(c, t))
  {
    var d := c.DayOf(t);
    TwoDays(c, t);
    forall e, j | 0 <= j < |c.shifts| && c.Covers(e, j, t) ensures e == d || e == d - 1 { OnlyTwoDays(c, e, j, t); }
    if c.Works(d - 1) {
      var i := FirstOfDay(c, d - 1, |c.shifts|, t);
      if FirstCovering(OneDay(c, d - 1), t).Some? {
        assert FirstAt(c, t, d - 1, i);
        return;
      }
    }
    var y := d - 1;
    assert forall j :: 0 <= j < |c.shifts| ==> !c.Covers(y, j, t);
    if c.Works(d) {
      var i := FirstOfDay(c, d, |c.shifts|, t);
      if FirstCovering(OneDay(c, d), t).Some? { assert FirstAt(c, t, d, i); }
    }
  }

  /** What is active depends only on which occurrences cover the instant. */
  lemma SameCoverSameActive(c: Calendar, t: int, u: int)
    requires c.Valid() && forall d, i :: 0 <= i < |c.shifts| ==> c.Covers(d, i, t) == c.Covers(d, i, u)
    ensures Active(c, t) == Active(c, u)
  {
    ActiveIsGlobal(c, t);
    ActiveIsGlobal(c, u);
    var a, b := Active(c, t), Active(c, u);
    if a.Some? {
      var d, i :| 0 <= i < |c.shifts| && a.value == c.shifts[i] && FirstAt(c, t, d, i);
      assert c.Covers(d, i, u);
    }
    if b.Some? {
      var e, j :| 0 <= j < |c.shifts| && b.value == c.shifts[j] && FirstAt(c, u, e, j);
      assert c.Covers(e, j, t);
    }
  }

  // ---- `next_change` ----

  lemma {:induction false} BoundariesAre(s: seq<Instance>, t: int, e: int)
    ensures e in Boundaries(s, t) <==> e > t && exists k :: 0 <= k < |s| && (e == s[k].start || e == s[k].end)
    decreases |s|
  {
    if s != [] {
      BoundariesAre(s[1..], t, e);
      if k :| 0 <= k < |s| && (e == s[k].start || e == s[k].end) {
        if k > 0 { assert s[1..][k - 1] == s[k]; }
      }
    }
  }

  lemma {:induction false} DayInstancesAre(c: Calendar, d: int, n: nat, x: Instance)
    requires n <= |c.shifts|
    ensures x in DayInstances(c, d, n) <==>
      exists i :: 0 <= i < n && x == Instance(c.shifts[i], c.Start(d, i), c.End(d, i))
    decreases n
  {
    if n > 0 { DayInstancesAre(c, d, n - 1, x); }
  }

  lemma {:induction false} InstancesAre(c: Calendar, first: int, days: nat, x: Instance)
    ensures x in Instances(c, first, days) <==>
      exists d, i :: first <= d < first + days && 0 <= i < |c.shifts| && c.Works(d)
        && x == Instance(c.shifts[i], c.Start(d, i), c.End(d, i))
    decreases days
  {
    if days > 0 {
      InstancesAre(c, first, days - 1, x);
      DayInstancesAre(c, first + days - 1, |c.shifts|, x);
    }
  }

  /** An edge of a working occurrence in the search window after t is no earlier than the next change. */
  lemma EdgeInWindow(c: Calendar, t: int, d: int, i: nat, e: int)
    requires c.Valid() && i < |c.shifts| && c.Works(d) && c.DayOf(t) - 1 <= d < c.DayOf(t) - 1 + SEARCH_DAYS
    requires e > t && (e == c.Start(d, i) || e == c.End(d, i))
    ensures NextChange(c, t) <= e
  {
    var s := Instances(c, c.DayOf(t) - 1, SEARCH_DAYS);
    var x := Instance(c.shifts[i], c.Start(d, i), c.End(d, i));
    InstancesAre(c, c.DayOf(t) - 1, SEARCH_DAYS, x);
    var k :| 0 <= k < |s| && s[k] == x;
    BoundariesAre(s, t, e);
  }

  /** The next change falls before anything the search window leaves out could begin. */
  lemma NextChangeInWindow(c: Calendar, t: int)
    requires c.Valid()
    ensures NextChange(c, t) <= (c.DayOf(t) - 1 + SEARCH_DAYS) * c.day
  {
    var first := c.DayOf(t) - 1;
    var s := Instances(c, first, SEARCH_DAYS);
    var b := Boundaries(s, t);
    DayBounds(c, t);
    assert (first + SEARCH_DAYS) * c.day == c.DayOf(t) * c.day + 7 * c.day;
    if b != [] {
      var e := b[0];
      assert e in b;
      BoundariesAre(s, t, e);
      var k :| 0 <= k < |s| && (e == s[k].start || e == s[k].end);
      assert s[k] in s;
      InstancesAre(c, first, SEARCH_DAYS, s[k]);
      var d, i :| first <= d < first + SEARCH_DAYS && 0 <= i < |c.shifts| && c.Works(d)
        && s[k] == Instance(c.shifts[i], c.Start(d, i), c.End(d, i));
      InstanceSpan(c, d, i);
      DayStep(d, first + SEARCH_DAYS, c.day);
      if c.Start(d, i) > t {
        EdgeInWindow(c, t, d, i, c.Start(d, i));
      } else {
        EdgeInWindow(c, t, d, i, c.End(d, i));
        OnlyTwoDays(c, d, i, t);
        if d < c.DayOf(t) { DayStep(d, c.DayOf(t), c.day); }
      }
    }
  }

  /** No occurrence begins or ends between t and the next change. */
  lemma NoEdgeBefore(c: Calendar, t: int, d: int, i: nat, e: int)
    requires c.Valid() && i < |c.shifts| && c.Works(d)
    requires e > t && (e == c.Start(d, i) || e == c.End(d, i))
    ensures NextChange(c, t) <= e
  {
    var first := c.DayOf(t) - 1;
    if first <= d < first + SEARCH_DAYS {
      EdgeInWindow(c, t, d, i, e);
    } else if d < first {
      OnlyTwoDays(c, d, i, t);
      InstanceSpan(c, d, i);
    } else {
      NextChangeInWindow(c, t);
      InstanceSpan(c, d, i);
      if d > first + SEARCH_DAYS { DayStep(first + SEARCH_DAYS, d, c.day); }
    }
  }

  /** An occurrence of a working day from one day on and before another begins or ends at e. */
  ghost predicate Edge(c: Calendar, first: int, end: int, e: int) {
    exists d, i :: first <= d < end && 0 <= i < |c.shifts| && EdgeOf(c, d, i, e)
  }

  predicate EdgeOf(c: Calendar, d: int, i: int, e: int)
    requires 0 <= i < |c.shifts|
  {
    c.Works(d) && (e == c.Start(d, i) || e == c.End(d, i))
  }

  /** The first edge after t within the days searched, with none before it on any day; else a day on. */
  ghost predicate IsNextChange(c: Calendar, t: int, r: int)
    requires c.Valid()
  {
    && (forall d, i, e :: 0 <= i < |c.shifts| && t < e < r ==> !EdgeOf(c, d, i, e))
    && if exists e :: EdgeAfter(c, t, e) then EdgeAfter(c, t, r) else r == t + c.day
  }

  ghost predicate EdgeAfter(c: Calendar, t: int, e: int)
    requires c.Valid()
  {
    e > t && Edge(c, c.DayOf(t) - 1, c.DayOf(t) - 1 + SEARCH_DAYS, e)
  }

  lemma BoundaryIsEdge(c: Calendar, t: int, first: int, e: int)
    ensures e in Boundaries(Instances(c, first, SEARCH_DAYS), t) <==> e > t && Edge(c, first, first + SEARCH_DAYS, e)
  {
    var s := Instances(c, first, SEARCH_DAYS);
    BoundariesAre(s, t, e);
    if k :| 0 <= k < |s| && (e == s[k].start || e == s[k].end) {
      InstancesAre(c, first, SEARCH_DAYS, s[k]);
      var d, i :| first <= d < first + SEARCH_DAYS && 0 <= i < |c.shifts| && c.Works(d)
        && s[k] == Instance(c.shifts[i], c.Start(d, i), c.End(d, i));
      assert EdgeOf(c, d, i, e);
    }
    if d, i :| first <= d < first + SEARCH_DAYS && 0 <= i < |c.shifts| && EdgeOf(c, d, i, e) {
      var x := Instance(c.shifts[i], c.Start(d, i), c.End(d, i));
      InstancesAre(c, first, SEARCH_DAYS, x);
      var k :| 0 <= k < |s| && s[k] == x;
    }
  }

  /** The next change is a change: the first begin or end of an occurrence after t, or a day on when none is near. */
  lemma NextChangeIsEdge(c: Calendar, t: int)
    requires c.Valid()
    ensures IsNextChange(c, t, NextChange(c, t))
  {
    var first, r := c.DayOf(t) - 1, NextChange(c, t);
    var b := Boundaries(Instances(c, first, SEARCH_DAYS), t);
    forall d, i, e | 0 <= i < |c.shifts| && t < e < r ensures !EdgeOf(c, d, i, e) {
      if EdgeOf(c, d, i, e) { NoEdgeBefore(c, t, d, i, e); }
    }
    if b != [] {
      BoundaryIsEdge(c, t, first, r);
      assert EdgeAfter(c, t, r);
    } else {
      forall e ensures !EdgeAfter(c, t, e) { BoundaryIsEdge(c, t, first, e); }
    }
  }

  /** `active` does not change before `next_change`, in every calendar and at every instant. */
  lemma ActiveConstantUntilChange(c: Calendar, t: int, u: int)
    requires c.Valid() && t <= u < NextChange(c, t)
    ensures Active(c, u) == Active(c, t)
  {
    forall d, i | 0 <= i < |c.shifts| ensures c.Covers(d, i, t) == c.Covers(d, i, u) {
      if c.Works(d) {
        if c.Start(d, i) > t { NoEdgeBefore(c, t, d, i, c.Start(d, i)); }
        if c.End(d, i) > t { NoEdgeBefore(c, t, d, i, c.End(d, i)); }
      }
    }
    SameCoverSameActive(c, t, u);
  }

  // ---- The calendar repeats ----

  /** b says of every day what c says n days later, which is `lag` ticks later. */
  ghost predicate Ahead(b: Calendar, c: Calendar, n: int, lag: int) {
    && b.Valid() && c.Valid() && b.day == c.day && b.shifts == c.shifts && lag == n * c.day
    && forall d :: b.Works(d) == c.Works(d + n)
  }

  lemma AheadAt(b: Calendar, c: Calendar, n: int, lag: int, d: int, i: nat)
    requires Ahead(b, c, n, lag) && i < |c.shifts|
    ensures b.Works(d) == c.Works(d + n)
    ensures b.Start(d, i) + lag == c.Start(d + n, i) && b.End(d, i) + lag == c.End(d + n, i)
  {
    assert (d + n) * c.day == d * c.day + n * c.day;
  }

  lemma DayAhead(b: Calendar, c: Calendar, n: int, lag: int, t: int)
    requires Ahead(b, c, n, lag)
    ensures c.DayOf(t + lag) == b.DayOf(t) + n
  {
    var d, e := b.DayOf(t), c.DayOf(t + lag);
    DayBounds(b, t);
    DayBounds(c, t + lag);
    assert (d + n) * c.day == d * c.day + n * c.day;
    if e < d + n { DayStep(e, d + n, c.day); }
    if d + n < e { DayStep(d + n, e, c.day); }
  }

  lemma Behind(b: Calendar, c: Calendar, n: int, lag: int)
    requires Ahead(b, c, n, lag)
    ensures Ahead(c, b, -n, -lag)
  {
    forall d ensures c.Works(d) == b.Works(d + -n) { assert b.Works(d - n) == c.Works(d - n + n); }
  }

  lemma FirstAhead(b: Calendar, c: Calendar, n: int, lag: int, d: int, i: nat, t: int)
    requires Ahead(b, c, n, lag) && i < |c.shifts| && FirstAt(b, t, d, i)
    ensures FirstAt(c, t + lag, d + n, i)
  {
    AheadAt(b, c, n, lag, d, i);
    var day, u := d + n, t + lag;
    forall e, j | 0 <= j < |c.shifts| && (e < day || (e == day && j < i)) ensures !c.Covers(e, j, u) {
      AheadAt(b, c, n, lag, e - n, j);
      assert !b.Covers(e - n, j, t);
    }
  }

  lemma ActiveAhead(b: Calendar, c: Calendar, n: int, lag: int, t: int)
    requires Ahead(b, c, n, lag)
    ensures Active(b, t) == Active(c, t + lag)
  {
    var u := t + lag;
    ActiveIsGlobal(b, t);
    ActiveIsGlobal(c, u);
    if Active(b, t).Some? {
      var d, i :| 0 <= i < |c.shifts| && Active(b, t).value == c.shifts[i] && FirstAt(b, t, d, i);
      FirstAhead(b, c, n, lag, d, i, t);
      OneFirst(c, u, d + n, i);
    } else {
      forall d, i | 0 <= i < |c.shifts| ensures !c.Covers(d, i, u) {
        AheadAt(b, c, n, lag, d - n, i);
        assert !b.Covers(d - n, i, t);
      }
    }
  }

  lemma OneFirst(c: Calendar, t: int, d: int, i: nat)
    requires c.Valid() && i < |c.shifts| && FirstAt(c, t, d, i)
    ensures Active(c, t) == Some(c.shifts[i])
  {
    ActiveIsGlobal(c, t);
    if Active(c, t).Some? {
      var e, j :| 0 <= j < |c.shifts| && Active(c, t).value == c.shifts[j] && FirstAt(c, t, e, j);
      assert c.Covers(e, j, t) && c.Covers(d, i, t);
    }
  }

  lemma EdgeAhead(b: Calendar, c: Calendar, n: int, lag: int, t: int, e: int)
    requires Ahead(b, c, n, lag) && EdgeAfter(b, t, e)
    ensures EdgeAfter(c, t + lag, e + lag)
  {
    DayAhead(b, c, n, lag, t);
    var first := b.DayOf(t) - 1;
    var d, i :| first <= d < first + SEARCH_DAYS && 0 <= i < |c.shifts| && EdgeOf(b, d, i, e);
    AheadAt(b, c, n, lag, d, i);
    assert EdgeOf(c, d + n, i, e + lag);
  }

  lemma EdgeSearched(c: Calendar, t: int, e: int)
    requires c.Valid() && EdgeAfter(c, t, e)
    ensures NextChange(c, t) <= e
  {
    var first := c.DayOf(t) - 1;
    var d, i :| first <= d < first + SEARCH_DAYS && 0 <= i < |c.shifts| && EdgeOf(c, d, i, e);
    EdgeInWindow(c, t, d, i, e);
  }

  lemma NoneAhead(b: Calendar, c: Calendar, n: int, lag: int, t: int)
    requires Ahead(b, c, n, lag) && forall e :: !EdgeAfter(b, t, e)
    ensures NextChange(c, t + lag) == t + lag + c.day
  {
    var u := t + lag;
    Behind(b, c, n, lag);
    NextChangeIsEdge(c, u);
    if EdgeAfter(c, u, NextChange(c, u)) { EdgeAhead(c, b, -n, -lag, u, NextChange(c, u)); }
  }

  lemma NextChangeAhead(b: Calendar, c: Calendar, n: int, lag: int, t: int)
    requires Ahead(b, c, n, lag)
    ensures NextChange(c, t + lag) <= NextChange(b, t) + lag
  {
    NextChangeIsEdge(b, t);
    if e :| EdgeAfter(b, t, e) {
      EdgeAhead(b, c, n, lag, t, NextChange(b, t));
      EdgeSearched(c, t + lag, NextChange(b, t) + lag);
    } else {
      NoneAhead(b, c, n, lag, t);
    }
  }

  lemma NextChangeBehind(b: Calendar, c: Calendar, n: int, lag: int, t: int)
    requires Ahead(b, c, n, lag)
    ensures NextChange(b, t) + lag <= NextChange(c, t + lag)
  {
    Behind(b, c, n, lag);
    NextChangeAhead(c, b, -n, -lag, t + lag);
  }

  lemma BothAhead(b: Calendar, c: Calendar, n: int, lag: int, t: int)
    requires Ahead(b, c, n, lag)
    ensures Active(b, t) == Active(c, t + lag) && NextChange(b, t) + lag == NextChange(c, t + lag)
  {
    ActiveAhead(b, c, n, lag, t);
    NextChangeAhead(b, c, n, lag, t);
    NextChangeBehind(b, c, n, lag, t);
  }

  lemma SameWeekday(c: Calendar, n: int, d: int)
    requires n % 7 == 0
    ensures c.Works(d) == c.Works(d + n)
  {
    assert (d + n + c.weekdayOfZero) % 7 == (d + c.weekdayOfZero) % 7;
  }

  /** What happens in one week happens in every other. */
  lemma WeeksAreAlike(c: Calendar, n: int, lag: int, t: int)
    requires c.Valid() && n % 7 == 0 && lag == n * c.day
    ensures Active(c, t) == Active(c, t + lag) && NextChange(c, t) + lag == NextChange(c, t + lag)
  {
    forall d ensures c.Works(d) == c.Works(d + n) { SameWeekday(c, n, d); }
    BothAhead(c, c, n, lag, t);
  }

  /** Which day is numbered 0 makes no difference once its weekday is right. */
  lemma OriginIsFree(c: Calendar, b: Calendar, n: int, lag: int, t: int)
    requires c.Valid() && b == c.(weekdayOfZero := c.weekdayOfZero + n) && lag == n * c.day
    ensures Active(b, t) == Active(c, t + lag) && NextChange(b, t) + lag == NextChange(c, t + lag)
  {
    BothAhead(b, c, n, lag, t);
  }

  // ---- The engine's shift process ----

  /** When the loop last woke and the shift it set then; it sleeps until epsilon past the next change. */
  datatype Engine = Engine(woke: int, shift: Option<Shift>)

  function Wake(c: Calendar, e: Engine, epsilon: int): Engine
    requires c.Valid()
  {
    var now := NextChange(c, e.woke) + epsilon;
    Engine(now, Active(c, now))
  }

  function EngineAfter(c: Calendar, start: int, epsilon: int, n: nat): Engine
    requires c.Valid()
  {
    if n == 0 then Engine(start, Active(c, start)) else Wake(c, EngineAfter(c, start, epsilon, n - 1), epsilon)
  }

  class ShiftProcess {
    const calendar: Calendar
    const epsilon: nat
    var now: int
    var shift: Option<Shift>

    constructor (calendar: Calendar, epsilon: nat, start: int)
      requires calendar.Valid()
      ensures this.calendar == calendar && this.epsilon == epsilon
      ensures Engine(now, shift) == EngineAfter(calendar, start, epsilon, 0)
    {
      this.calendar, this.epsilon, now := calendar, epsilon, start;
      this.shift := Active(calendar, start);
    }

    /** One turn of the loop: sleep, then read the calendar. */
    method Step()
      requires calendar.Valid()
      modifies this
      ensures Engine(now, shift) == Wake(calendar, old(Engine(now, shift)), epsilon)
    {
      var wait := NextChange(calendar, now) - now;
      now := now + (if wait > 0 then wait else 0) + epsilon;
      shift := ActiveAt(calendar, now);
    }

    function ActiveAt(c: Calendar, t: int): Option<Shift>
      requires c.Valid()
    {
      Active(c, t)
    }
  }

  lemma EngineIsCurrent(c: Calendar, start: int, epsilon: nat, n: nat)
    requires c.Valid()
    ensures var e := EngineAfter(c, start, epsilon, n); e.shift == Active(c, e.woke)
  {
    if n > 0 { WakeMoves(c, EngineAfter(c, start, epsilon, n - 1), epsilon); }
  }

  lemma WakeMoves(c: Calendar, e: Engine, epsilon: nat)
    requires c.Valid()
    ensures var w := Wake(c, e, epsilon); w.shift == Active(c, w.woke) && w.woke >= e.woke + 1
  {}

  /** Until the loop wakes again the engine's shift is the calendar's, except within epsilon of the change. */
  lemma EngineMatchesCalendar(c: Calendar, start: int, epsilon: nat, n: nat, u: int)
    requires c.Valid()
    requires var e := EngineAfter(c, start, epsilon, n); e.woke <= u < EngineAfter(c, start, epsilon, n + 1).woke
    ensures var e := EngineAfter(c, start, epsilon, n);
      e.shift == Active(c, u) || NextChange(c, e.woke) <= u < NextChange(c, e.woke) + epsilon
  {
    EngineIsCurrent(c, start, epsilon, n);
    var e := EngineAfter(c, start, epsilon, n);
    if u < NextChange(c, e.woke) { ActiveConstantUntilChange(c, e.woke, u); }
  }

  /** Whenever the engine wakes, it is epsilon after the next change from its last waking, and at no other time. */
  lemma WakesOnChange(c: Calendar, e: Engine, epsilon: nat)
    requires c.Valid()
    ensures IsNextChange(c, e.woke, Wake(c, e, epsilon).woke - epsilon)
  {
    NextChangeIsEdge(c, e.woke);
    assert Wake(c, e, epsilon).woke - epsilon == NextChange(c, e.woke);
  }
}
