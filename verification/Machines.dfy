/** The machine state machine: steps, fault injection, resets and the operator's load setpoint. */
module Machines {
  import opened Options
  import opened Degradation

  datatype State = RUNNING | IDLE | DOWN | MAINTENANCE

  /** A component; one without a degradation process never wears and never fails. */
  datatype Part = Part(code: string, mode: Option<string>, wear: Option<Wear>)

  /** `left` is the maintenance time left and `failed` the component recorded as failed. */
  datatype Status = Status(
    state: State, load: real, setpoint: Option<real>, operating: real, left: real, failed: Option<string>,
    parts: seq<Part>)

  /** What one step is given: the context, the walked load, and each component's pace and draw. */
  datatype Tick = Tick(dt: real, producing: bool, plan: real, walk: real, pace: string -> real, draw: string -> real)

  datatype FaultMode = Gradual | Sudden

  datatype Event =
    | Step(tick: Tick)
    | Inject(mode: string, how: FaultMode, severity: real, pace: string -> real)
    | Reset(code: Option<string>)
    | SetLoad(load: real)
  {
    /** Severities are validated as fractions before they reach a machine. */
    predicate Allowed() { Inject? ==> 0.0 <= severity <= 1.0 }
  }

  // ---- One event ----

  predicate Broken(p: Part) { p.wear.Some? && Failed(p.wear.value) }

  function Worn(p: Part, t: Tick): Part {
    if p.wear.Some? then p.(wear := Some(Degradation.Step(p.wear.value, t.dt, t.pace(p.code), t.draw(p.code)))) else p
  }

  function AllWorn(ps: seq<Part>, t: Tick): seq<Part> {
    seq(|ps|, i requires 0 <= i < |ps| => Worn(ps[i], t))
  }

  /** The first failed component in declaration order. */
  function FirstBroken(ps: seq<Part>): (r: Option<nat>)
    ensures r.Some? ==> r.value < |ps| && Broken(ps[r.value]) && forall i :: 0 <= i < r.value ==> !Broken(ps[i])
    ensures r.None? ==> forall i :: 0 <= i < |ps| ==> !Broken(ps[i])
    decreases |ps|
  {
    if ps == [] then None
    else if Broken(ps[0]) then Some(0)
    else match FirstBroken(ps[1..]) case Some(k) => Some(k + 1) case None => None
  }

  function Checked(m: Status): Status {
    if m.state == DOWN then m
    else match FirstBroken(m.parts)
      case Some(k) => m.(state := DOWN, load := 0.0, failed := Some(m.parts[k].code))
      case None => m
  }

  function Updated(m: Status, dt: real, producing: bool): Status {
    if m.state == DOWN then m
    else if m.state == MAINTENANCE && m.left - dt > 0.0 then m.(left := m.left - dt)
    else m.(left := if m.state == MAINTENANCE then m.left - dt else m.left,
            state := if producing then RUNNING else IDLE)
  }

  function Target(m: Status, t: Tick): real { if m.setpoint.Some? then m.setpoint.value else t.plan }

  function Operated(m: Status, t: Tick): Status {
    if m.state == RUNNING
    then m.(operating := Target(m, t), parts := AllWorn(m.parts, t),
            load := if m.setpoint.Some? then Target(m, t) else t.walk)
    else m.(load := 0.0)
  }

  function Stepped(m: Status, t: Tick): Status {
    Checked(Operated(Updated(m, t.dt, t.producing && Target(m, t) > 0.0), t))
  }

  /** The first component with this failure mode. */
  function PartForMode(ps: seq<Part>, mode: string): (r: Option<nat>)
    ensures r.Some? ==> r.value < |ps| && ps[r.value].mode == Some(mode)
    ensures r.Some? ==> forall i :: 0 <= i < r.value ==> ps[i].mode != Some(mode)
    ensures r.None? ==> forall i :: 0 <= i < |ps| ==> ps[i].mode != Some(mode)
    decreases |ps|
  {
    if ps == [] then None
    else if ps[0].mode == Some(mode) then Some(0)
    else match PartForMode(ps[1..], mode) case Some(k) => Some(k + 1) case None => None
  }

  /** The fault exists: some component has the mode, and the first that has it has a process. */
  predicate Injectable(ps: seq<Part>, mode: string) {
    PartForMode(ps, mode).Some? && ps[PartForMode(ps, mode).value].wear.Some?
  }

  function Injected(m: Status, mode: string, how: FaultMode, severity: real, pace: string -> real): Status
    requires GradualTarget(severity) != 0.0
  {
    match PartForMode(m.parts, mode)
    case None => m
    case Some(k) =>
      var p := m.parts[k];
      if p.wear.None? then m
      else if how == Gradual
        then m.(parts := m.parts[k := p.(wear := Some(Hastened(p.wear.value, severity, pace(p.code))))])
      else Checked(m.(parts := m.parts[k := p.(wear := Some(Jump(p.wear.value, severity)))]))
  }

  function Restored(p: Part, code: Option<string>): Part {
    if p.wear.Some? && (code.None? || p.code == code.value) then p.(wear := Some(Renewed(p.wear.value))) else p
  }

  function AllRestored(ps: seq<Part>, code: Option<string>): seq<Part> {
    seq(|ps|, i requires 0 <= i < |ps| => Restored(ps[i], code))
  }

  predicate Knows(ps: seq<Part>, code: Option<string>) {
    code.None? || exists i :: 0 <= i < |ps| && ps[i].code == code.value
  }

  /** `reset`: one component or all of them; an unknown code is an error and changes nothing. */
  function Restarted(m: Status, code: Option<string>, duration: real): Status {
    if !Knows(m.parts, code) then m
    else m.(
      parts := AllRestored(m.parts, code),
      failed :=
        if m.failed.Some? && (code == m.failed || (code.None? && Knows(m.parts, m.failed))) then None else m.failed,
      state := MAINTENANCE, left := duration, load := 0.0)
  }

  function Next(m: Status, e: Event, duration: real): Status
    requires e.Allowed()
  {
    match e
    case Step(t) => Stepped(m, t)
    case Inject(mode, how, severity, pace) =>
      TargetInRange(severity);
      Injected(m, mode, how, severity, pace)
    case Reset(code) => Restarted(m, code, duration)
    case SetLoad(load) => m.(setpoint := Some(load), operating := load)
  }

  predicate AllAllowed(es: seq<Event>) { forall i :: 0 <= i < |es| ==> es[i].Allowed() }

  function Run(m: Status, es: seq<Event>, duration: real): Status
    requires AllAllowed(es)
  {
    if es == [] then m
    else Next(Run(m, es[..|es| - 1], duration), es[|es| - 1], duration)
  }

  // ---- The class ----

  /** What a machine is built from: the fixed part of a component and its process. */
  datatype Component = Component(code: string, mode: Option<string>, process: DegradationProcess?)

  function PartOf(c: Component): Part
    reads if c.process == null then {} else {c.process}
  {
    Part(c.code, c.mode, if c.process == null then None else Some(c.process.Abs()))
  }

  class Machine {
    const components: seq<Component>
    const duration: real
    var state: State
    var load: real
    var setpoint: Option<real>
    var operating: real
    var left: real
    var failed: Option<string>

    /** Each process belongs to one component; codes are dictionary keys. */
    ghost predicate Valid() {
      forall i, j :: 0 <= i < j < |components| ==>
        && components[i].code != components[j].code
        && (components[i].process != null ==> components[i].process != components[j].process)
    }

    function Processes(): set<object> {
      set i | 0 <= i < |components| && components[i].process != null :: components[i].process
    }

    ghost function Parts(): (r: seq<Part>)
      reads Processes()
      ensures |r| == |components| && forall i :: 0 <= i < |r| ==> r[i] == PartOf(components[i])
    {
      seq(|components|, i requires 0 <= i < |components| reads Processes() => PartOf(components[i]))
    }

    ghost function Abs(): Status
      reads this, Processes()
    {
      Status(state, load, setpoint, operating, left, failed, Parts())
    }

    constructor (components: seq<Component>, duration: real)
      requires forall i, j :: 0 <= i < j < |components| ==>
        && components[i].code != components[j].code
        && (components[i].process != null ==> components[i].process != components[j].process)
      ensures Valid() && this.components == components && this.duration == duration
      ensures Abs() == Status(IDLE, 0.0, None, 100.0, 0.0, None, Parts())
    {
      this.components, this.duration := components, duration;
      state, load, setpoint, operating, left, failed := IDLE, 0.0, None, 100.0, 0.0, None;
    }

    method StepBy(t: Tick)
      requires Valid()
      modifies this, Processes()
      ensures Valid() && Abs() == Stepped(old(Abs()), t)
    {
      var target := if setpoint.Some? then setpoint.value else t.plan;
      UpdateState(t.dt, t.producing && target > 0.0);
      Operate(t);
      CheckFailures();
    }

    /** The load of this step and the wear it does. */
    method Operate(t: Tick)
      requires Valid()
      modifies this, Processes()
      ensures Valid() && Abs() == Operated(old(Abs()), t)
    {
      if state == RUNNING {
        operating := if setpoint.Some? then setpoint.value else t.plan;
        load := if setpoint.Some? then setpoint.value else t.walk;
        Degrade(t);
      } else {
        load := 0.0;
      }
    }

    method UpdateState(dt: real, producing: bool)
      requires Valid()
      modifies this
      ensures Valid() && Abs() == Updated(old(Abs()), dt, producing)
    {
      if state == DOWN { return; }
      if state == MAINTENANCE {
        left := left - dt;
        if left > 0.0 { return; }
      }
      state := if producing then RUNNING else IDLE;
    }

    method Degrade(t: Tick)
      requires Valid()
      modifies Processes()
      ensures Valid() && Parts() == AllWorn(old(Parts()), t)
    {
      for i := 0 to |components|
        invariant forall j :: 0 <= j < i ==> PartOf(components[j]) == Worn(old(PartOf(components[j])), t)
        invariant forall j :: i <= j < |components| ==> PartOf(components[j]) == old(PartOf(components[j]))
      {
        var c := components[i];
        if c.process != null {
          assert c.process in Processes();
          c.process.StepBy(t.dt, t.pace(c.code), t.draw(c.code));
        }
      }
    }

    method CheckFailures()
      requires Valid()
      modifies this
      ensures Valid() && Abs() == Checked(old(Abs()))
    {
      if state == DOWN { return; }
      ghost var ps := Parts();
      for i := 0 to |components|
        invariant forall j :: 0 <= j < i ==> !Broken(ps[j])
        invariant Abs() == old(Abs()) && Parts() == ps
      {
        var c := components[i];
        assert ps[i] == PartOf(c);
        if c.process != null && Failed(c.process.Abs()) {
          state, load, failed := DOWN, 0.0, Some(c.code);
          return;
        }
      }
    }

    /** False where the source raises: no component has the mode, or it has no process. */
    method InjectFault(mode: string, how: FaultMode, severity: real, pace: string -> real) returns (ok: bool)
      requires Valid() && 0.0 <= severity <= 1.0
      modifies this, Processes()
      ensures Valid() && Abs() == Next(old(Abs()), Inject(mode, how, severity, pace), duration)
      ensures ok <==> Injectable(old(Parts()), mode)
    {
      TargetInRange(severity);
      ghost var ps := Parts();
      var i := 0;
      while i < |components| && components[i].mode != Some(mode)
        invariant 0 <= i <= |components| && forall j :: 0 <= j < i ==> ps[j].mode != Some(mode)
      {
        i := i + 1;
      }
      assert i < |components| ==> ps[i] == PartOf(components[i]);
      assert PartForMode(ps, mode) == if i == |components| then None else Some(i);
      if i == |components| || components[i].process == null { return false; }
      var c := components[i];
      assert c.process in Processes();
      if how == Gradual {
        c.process.Hasten(severity, pace(c.code));
        assert Parts() == ps[i := ps[i].(wear := Some(Hastened(ps[i].wear.value, severity, pace(c.code))))];
      } else {
        c.process.JumpBy(severity);
        assert Parts() == ps[i := ps[i].(wear := Some(Jump(ps[i].wear.value, severity)))];
        CheckFailures();
      }
      return true;
    }

    /** False where the source raises: the code names no component. */
    method ResetParts(code: Option<string>) returns (ok: bool)
      requires Valid()
      modifies this, Processes()
      ensures Valid() && Abs() == Restarted(old(Abs()), code, duration) && ok == Knows(old(Parts()), code)
    {
      ok := KnowsCode(code);
      if !ok { return; }
      var cleared := failed.Some?;
      if cleared && code != failed {
        cleared := code.None?;
        if cleared { cleared := KnowsCode(failed); }
      }
      Renew(code);
      if cleared { failed := None; }
      state, left, load := MAINTENANCE, duration, 0.0;
    }

    method KnowsCode(code: Option<string>) returns (known: bool)
      ensures known == Knows(Parts(), code)
    {
      ghost var ps := Parts();
      assert forall i :: 0 <= i < |ps| ==> ps[i].code == components[i].code;
      known := code.None? || exists i :: 0 <= i < |components| && components[i].code == code.value;
    }

    method Renew(code: Option<string>)
      requires Valid()
      modifies Processes()
      ensures Valid() && Parts() == AllRestored(old(Parts()), code)
    {
      ghost var ps := Parts();
      for i := 0 to |components|
        invariant forall j :: 0 <= j < i ==> PartOf(components[j]) == Restored(ps[j], code)
        invariant forall j :: i <= j < |components| ==> PartOf(components[j]) == ps[j]
      {
        var c := components[i];
        if c.process != null && (code.None? || c.code == code.value) {
          assert c.process in Processes();
          c.process.Reset();
        }
      }
    }

    method SetLoadSetpoint(pct: real)
      requires Valid()
      modifies this
      ensures Valid() && Abs() == old(Abs()).(setpoint := Some(pct), operating := pct)
    {
      setpoint, operating := Some(pct), pct;
    }
  }
}

/** What every run of a machine keeps. */
module MachineRuns {
  import opened Options
  import opened Reals
  import opened Degradation
  import opened Machines

  predicate SoundParts(ps: seq<Part>) {
    && (forall i :: 0 <= i < |ps| && ps[i].wear.Some? ==> ps[i].wear.value.Sound())
    && (forall i, j :: 0 <= i < j < |ps| ==> ps[i].code != ps[j].code)
  }

  predicate HasBroken(ps: seq<Part>) { exists i :: 0 <= i < |ps| && Broken(ps[i]) }

  predicate BrokenAt(ps: seq<Part>, code: string) {
    exists i :: 0 <= i < |ps| && ps[i].code == code && Broken(ps[i])
  }

  /** The promises about a machine's state. */
  predicate Consistent(m: Status) {
    && (m.state == RUNNING || m.state == IDLE ==> !HasBroken(m.parts))
    && (m.state == DOWN ==> m.failed.Some? && BrokenAt(m.parts, m.failed.value))
    && (m.state != RUNNING ==> m.load == 0.0)
    && SoundParts(m.parts)
  }

  /** A machine as built: idle, and every process new with its initial damage. */
  predicate Initial(m: Status) {
    && m.state == IDLE && m.load == 0.0 && m.failed.None?
    && (forall i, j :: 0 <= i < j < |m.parts| ==> m.parts[i].code != m.parts[j].code)
    && (forall i :: 0 <= i < |m.parts| && m.parts[i].wear.Some? ==> AsNew(m.parts[i].wear.value))
  }

  predicate AsNew(w: Wear) { w.Sound() && !Failed(w) && Damage(w) <= INITIAL_DAMAGE_MAX }

  lemma InitialIsConsistent(m: Status)
    requires Initial(m)
    ensures Consistent(m)
  {}

  lemma WornParts(ps: seq<Part>, t: Tick)
    requires SoundParts(ps)
    ensures SoundParts(AllWorn(ps, t))
  {
    var qs := AllWorn(ps, t);
    forall i | 0 <= i < |qs| && qs[i].wear.Some? ensures qs[i].wear.value.Sound() {
      StepKeepsSound(ps[i].wear.value, t.dt, t.pace(ps[i].code), t.draw(ps[i].code));
    }
  }

  lemma CheckedIsConsistent(m: Status)
    requires SoundParts(m.parts) && (m.state != RUNNING ==> m.load == 0.0)
    requires m.state == DOWN ==> m.failed.Some? && BrokenAt(m.parts, m.failed.value)
    ensures Consistent(Checked(m))
    ensures Checked(m).state == (if HasBroken(m.parts) then DOWN else m.state)
  {}

  lemma PutSound(ps: seq<Part>, k: nat, w: Wear)
    requires SoundParts(ps) && k < |ps| && ps[k].wear.Some? && w.Sound()
    ensures SoundParts(ps[k := ps[k].(wear := Some(w))])
    ensures Failed(ps[k].wear.value) == Failed(w) ==>
      forall i :: 0 <= i < |ps| ==> Broken(ps[k := ps[k].(wear := Some(w))][i]) == Broken(ps[i])
    ensures Failed(w) ==> forall i :: 0 <= i < |ps| && Broken(ps[i]) ==> Broken(ps[k := ps[k].(wear := Some(w))][i])
  {}

  lemma SteppedIsConsistent(m: Status, t: Tick)
    requires Consistent(m)
    ensures Consistent(Stepped(m, t))
  {
    WornParts(m.parts, t);
    CheckedIsConsistent(Operated(Updated(m, t.dt, t.producing && Target(m, t) > 0.0), t));
  }

  lemma InjectedIsConsistent(m: Status, mode: string, how: FaultMode, severity: real, pace: string -> real)
    requires Consistent(m) && 0.0 <= severity <= 1.0
    ensures GradualTarget(severity) != 0.0 && Consistent(Injected(m, mode, how, severity, pace))
  {
    TargetInRange(severity);
    if Injectable(m.parts, mode) {
      var k := PartForMode(m.parts, mode).value;
      var w := m.parts[k].wear.value;
      if how == Gradual {
        InjectionHitsTarget(w, severity, pace(m.parts[k].code));
        SameWearElse(w, Hastened(w, severity, pace(m.parts[k].code)));
        PutSound(m.parts, k, Hastened(w, severity, pace(m.parts[k].code)));
        assert Consistent(Injected(m, mode, how, severity, pace));
      } else {
        JumpAdds(w, severity);
        PutSound(m.parts, k, Jump(w, severity));
        CheckedIsConsistent(m.(parts := m.parts[k := m.parts[k].(wear := Some(Jump(w, severity)))]));
      }
    }
  }

  lemma RestartedIsConsistent(m: Status, code: Option<string>, duration: real)
    requires Consistent(m)
    ensures Consistent(Restarted(m, code, duration))
    ensures Knows(m.parts, code) ==> Restarted(m, code, duration).state == MAINTENANCE
  {
    var qs := AllRestored(m.parts, code);
    forall i | 0 <= i < |qs| && qs[i].wear.Some? ensures qs[i].wear.value.Sound() {
      ResetRenews(m.parts[i].wear.value);
    }
  }

  lemma NextIsConsistent(m: Status, e: Event, duration: real)
    requires Consistent(m) && e.Allowed()
    ensures Consistent(Next(m, e, duration))
  {
    match e
    case Step(t) => SteppedIsConsistent(m, t);
    case Inject(mode, how, severity, pace) => InjectedIsConsistent(m, mode, how, severity, pace);
    case Reset(code) => RestartedIsConsistent(m, code, duration);
    case SetLoad(_) =>
  }

  /**
   * In every run: a RUNNING or IDLE machine has no failed component, a DOWN one records a component
   * that has failed, and a machine that is not RUNNING carries no load.
   */
  lemma {:induction false} EveryRunIsConsistent(m: Status, es: seq<Event>, duration: real)
    requires Initial(m) && AllAllowed(es)
    ensures Consistent(Run(m, es, duration))
  {
    if es == [] {
      InitialIsConsistent(m);
    } else {
      EveryRunIsConsistent(m, es[..|es| - 1], duration);
      NextIsConsistent(Run(m, es[..|es| - 1], duration), es[|es| - 1], duration);
    }
  }

  // ---- What a step does ----

  /** The plant produces, and the operator's load, or else the plan's, is positive. */
  predicate Wanted(m: Status, t: Tick) {
    t.producing && (if m.setpoint.Some? then m.setpoint.value > 0.0 else t.plan > 0.0)
  }

  /** Down, or in maintenance for longer than this step. */
  predicate Resting(m: Status, t: Tick) {
    m.state == DOWN || (m.state == MAINTENANCE && m.left > t.dt)
  }

  /** Every component has worn by its own process, for the step's time, at its own pace. */
  ghost predicate WornBy(ps: seq<Part>, qs: seq<Part>, t: Tick) {
    |qs| == |ps| && forall i :: 0 <= i < |ps| ==>
      && qs[i].code == ps[i].code && qs[i].mode == ps[i].mode
      && if ps[i].wear.None? then qs[i].wear.None?
         else qs[i].wear == Some(Degradation.Step(ps[i].wear.value, t.dt, t.pace(ps[i].code), t.draw(ps[i].code)))
  }

  /** This component is the first of them that has failed. */
  predicate FirstToFail(ps: seq<Part>, code: Option<string>) {
    exists k :: 0 <= k < |ps| && Broken(ps[k]) && code == Some(ps[k].code) && forall i :: 0 <= i < k ==> !Broken(ps[i])
  }

  /**
   * The outcome of a step. The machine works when it neither rests nor lacks production or load; only then do
   * its components wear, and it ends RUNNING unless one has failed. It is IDLE when only production or load
   * is missing.
   */
  ghost predicate Outcome(m: Status, n: Status, t: Tick) {
    var works := !Resting(m, t) && Wanted(m, t);
    && (if works then WornBy(m.parts, n.parts, t) else n.parts == m.parts)
    && (n.state == RUNNING <==> works && !HasBroken(n.parts))
    && (n.state == IDLE <==> !Resting(m, t) && !Wanted(m, t) && !HasBroken(n.parts))
    && (n.state == MAINTENANCE <==> m.state == MAINTENANCE && m.left > t.dt && !HasBroken(n.parts))
    && (n.state == DOWN <==> m.state == DOWN || HasBroken(n.parts))
    && n.load == (if n.state != RUNNING then 0.0 else if m.setpoint.Some? then m.setpoint.value else t.walk)
    && n.operating == (if !works then m.operating else if m.setpoint.Some? then m.setpoint.value else t.plan)
    && n.setpoint == m.setpoint && n.left == (if m.state == MAINTENANCE then m.left - t.dt else m.left)
    && (if n.state == DOWN && m.state != DOWN then FirstToFail(n.parts, n.failed) else n.failed == m.failed)
  }

  lemma StepOutcome(m: Status, t: Tick)
    requires Consistent(m)
    ensures Outcome(m, Stepped(m, t), t)
  {
    var u := Updated(m, t.dt, t.producing && Target(m, t) > 0.0);
    var o := Operated(u, t);
    assert u.parts == m.parts && u.failed == m.failed && u.setpoint == m.setpoint;
    assert u.state == RUNNING <==> !Resting(m, t) && Wanted(m, t);
    assert if u.state == RUNNING then WornBy(m.parts, o.parts, t) else o.parts == m.parts;
    CheckOutcome(o);
  }

  lemma CheckOutcome(o: Status)
    ensures var n := Checked(o);
      && n == o.(state := n.state, load := n.load, failed := n.failed)
      && (o.state == DOWN ==> n == o)
      && (o.state != DOWN && HasBroken(o.parts) ==>
            n.state == DOWN && n.load == 0.0 && FirstToFail(o.parts, n.failed))
      && (o.state != DOWN && !HasBroken(o.parts) ==> n == o)
  {}

  /** Every step of every reachable machine. */
  lemma EveryStepOutcome(m: Status, es: seq<Event>, t: Tick, duration: real)
    requires Initial(m) && AllAllowed(es)
    ensures Outcome(Run(m, es, duration), Next(Run(m, es, duration), Step(t), duration), t)
  {
    EveryRunIsConsistent(m, es, duration);
    StepOutcome(Run(m, es, duration), t);
  }

  /** The operator's load is what the machine runs at from the next step that works on, until it is set again. */
  lemma SetpointHolds(m: Status, load: real, t: Tick, duration: real)
    requires Consistent(m)
    ensures var s := Next(m, SetLoad(load), duration);
      && s == m.(setpoint := Some(load), operating := load)
      && Stepped(s, t).setpoint == Some(load)
      && (Stepped(s, t).state == RUNNING ==> t.producing && load > 0.0 && Stepped(s, t).load == load)
  {
    StepOutcome(m.(setpoint := Some(load), operating := load), t);
  }

  // ---- What a fault and a reset do ----

  /** Only component k differs, and only in its wear. */
  ghost predicate OnlyWearOf(ps: seq<Part>, qs: seq<Part>, k: nat) {
    && k < |ps| == |qs| && ps[k].wear.Some? && qs[k].wear.Some? && qs[k] == ps[k].(wear := qs[k].wear)
    && forall i :: 0 <= i < |ps| && i != k ==> qs[i] == ps[i]
  }

  /** What a random law below level 0 has to make up before it shows damage. */
  function Deficit(w: Wear): real { if w.law.Paris? then 0.0 else Max(-w.level, 0.0) }

  function Sooner(rul: Option<real>, target: real): Option<real> {
    match rul case None => None case Some(r) => Some(Min(r, target))
  }

  /**
   * A fault befalls the first component with its mode and no other. A sudden one raises the damage by the
   * severity, and the machine is down if that or anything else has failed; a gradual one leaves the target
   * time, or what was left if that is less.
   */
  lemma FaultOutcome(m: Status, mode: string, how: FaultMode, severity: real, pace: string -> real, k: nat)
    requires Consistent(m) && 0.0 <= severity <= 1.0 && k < |m.parts| && m.parts[k].wear.Some?
    requires m.parts[k].mode == Some(mode) && forall i :: 0 <= i < k ==> m.parts[i].mode != Some(mode)
    ensures GradualTarget(severity) != 0.0
    ensures var n := Injected(m, mode, how, severity, pace);
      && OnlyWearOf(m.parts, n.parts, k)
      && var w, v := m.parts[k].wear.value, n.parts[k].wear.value;
        if how == Sudden then
          && Damage(v) == Min(Damage(w) + Max(severity - Deficit(w), 0.0), 1.0)
          && (n.state == DOWN <==> m.state == DOWN || HasBroken(n.parts))
        else
          && n == m.(parts := n.parts) && Failed(v) == Failed(w)
          && TrueRul(v, pace(m.parts[k].code)) == Sooner(TrueRul(w, pace(m.parts[k].code)), GradualTarget(severity))
  {
    TargetInRange(severity);
    assert PartForMode(m.parts, mode) == Some(k);
    var w, p := m.parts[k].wear.value, pace(m.parts[k].code);
    if how == Gradual {
      InjectionHitsTarget(w, severity, p);
      SameWearElse(w, Hastened(w, severity, p));
    } else {
      JumpAdds(w, severity);
      CheckOutcome(m.(parts := m.parts[k := m.parts[k].(wear := Some(Jump(w, severity)))]));
    }
  }

  /** The reset is meant for this component. */
  predicate Meant(p: Part, code: Option<string>) { code.None? || p.code == code.value }

  /**
   * A reset renews the components it is meant for, with no damage and their whole lives ahead, and leaves every
   * other one as it is. It forgets the recorded failure exactly when it renews that component.
   */
  lemma ResetOutcome(m: Status, code: Option<string>, duration: real)
    requires Consistent(m)
    ensures var n := Restarted(m, code, duration);
      if !Knows(m.parts, code) then n == m
      else
        && |n.parts| == |m.parts| && n.state == MAINTENANCE && n.left == duration && n.load == 0.0
        && n.setpoint == m.setpoint && n.operating == m.operating
        && (forall i :: 0 <= i < |m.parts| ==> RenewedPart(m.parts[i], n.parts[i], code))
        && (n.failed != m.failed ==> n.failed.None?)
        && (m.failed.Some? ==>
              (n.failed.None? <==> exists i :: 0 <= i < |m.parts| && RecordedPart(m, i) && Meant(m.parts[i], code)))
  {
    var n := Restarted(m, code, duration);
    if Knows(m.parts, code) {
      forall i | 0 <= i < |m.parts| ensures RenewedPart(m.parts[i], n.parts[i], code) {
        if m.parts[i].wear.Some? { ResetRenews(m.parts[i].wear.value); }
      }
      if m.failed.Some? { RecordForgotten(m, code); }
    }
  }

  predicate RecordedPart(m: Status, i: nat)
    requires i < |m.parts|
  {
    m.failed == Some(m.parts[i].code)
  }

  ghost predicate RenewedPart(p: Part, q: Part, code: Option<string>) {
    && q.code == p.code && q.mode == p.mode && (q.wear.Some? <==> p.wear.Some?)
    && (!Meant(p, code) ==> q == p)
    && (Meant(p, code) && p.wear.Some? ==>
          && Damage(q.wear.value) == 0.0 && !Failed(q.wear.value) && q.wear.value.multiplier == 1.0
          && q.wear.value.law == p.wear.value.law && RemainingReference(q.wear.value) == p.wear.value.law.life)
  }

  lemma RecordForgotten(m: Status, code: Option<string>)
    requires m.failed.Some? && Knows(m.parts, code)
    ensures code == m.failed || (code.None? && Knows(m.parts, m.failed)) <==>
      exists i :: 0 <= i < |m.parts| && RecordedPart(m, i) && Meant(m.parts[i], code)
  {
    if code == m.failed || (code.None? && Knows(m.parts, m.failed)) {
      var i :| 0 <= i < |m.parts| && m.parts[i].code == m.failed.value;
      assert RecordedPart(m, i) && Meant(m.parts[i], code);
    }
  }

  // ---- Leaving DOWN ----

  /** Only a reset of a known component, or of all, takes a machine out of DOWN. */
  lemma DownUntilReset(m: Status, e: Event, duration: real)
    requires Consistent(m) && m.state == DOWN && e.Allowed()
    ensures Next(m, e, duration).state != DOWN <==> e.Reset? && Knows(m.parts, e.code)
    ensures Next(m, e, duration).state != DOWN ==> Next(m, e, duration).state == MAINTENANCE
    ensures Next(m, e, duration).state == DOWN ==> Next(m, e, duration).failed == m.failed
  {}

  predicate NoReset(es: seq<Event>) { forall i :: 0 <= i < |es| ==> !es[i].Reset? }

  lemma {:induction false} DownIsAbsorbing(m: Status, es: seq<Event>, duration: real)
    requires Consistent(m) && m.state == DOWN && AllAllowed(es) && NoReset(es)
    ensures var n := Run(m, es, duration); Consistent(n) && n.state == DOWN && n.failed == m.failed
  {
    if es != [] {
      var init := es[..|es| - 1];
      DownIsAbsorbing(m, init, duration);
      NextIsConsistent(Run(m, init, duration), es[|es| - 1], duration);
      DownUntilReset(Run(m, init, duration), es[|es| - 1], duration);
    }
  }

  /** A failed component other than the one reset. */
  predicate StillBroken(ps: seq<Part>, code: string) {
    exists i :: 0 <= i < |ps| && ps[i].code != code && Broken(ps[i])
  }

  lemma RestoredBroken(m: Status, code: string, duration: real)
    requires SoundParts(m.parts) && Knows(m.parts, Some(code))
    ensures HasBroken(Restarted(m, Some(code), duration).parts) <==> StillBroken(m.parts, code)
  {
    var qs := Restarted(m, Some(code), duration).parts;
    forall i | 0 <= i < |qs| ensures Broken(qs[i]) <==> m.parts[i].code != code && Broken(m.parts[i]) {
      assert qs[i] == Restored(m.parts[i], Some(code));
      if m.parts[i].wear.Some? { ResetRenews(m.parts[i].wear.value); }
    }
    if HasBroken(qs) {
      var i :| 0 <= i < |qs| && Broken(qs[i]);
      assert Broken(m.parts[i]);
    }
    if StillBroken(m.parts, code) {
      var i :| 0 <= i < |m.parts| && m.parts[i].code != code && Broken(m.parts[i]);
      assert Broken(qs[i]);
    }
  }

  lemma WornStaysBroken(ps: seq<Part>, t: Tick)
    requires HasBroken(ps)
    ensures HasBroken(AllWorn(ps, t))
  {
    var i :| 0 <= i < |ps| && Broken(ps[i]);
    assert Degradation.Step(ps[i].wear.value, t.dt, t.pace(ps[i].code), t.draw(ps[i].code)) == ps[i].wear.value;
    assert Broken(AllWorn(ps, t)[i]);
  }

  /**
   * After a reset of one component, the next step finds the machine DOWN again if another component
   * is failed, and, within the maintenance time, only then.
   */
  lemma DownAgainAfterWrongReset(m: Status, code: string, t: Tick, duration: real)
    requires Consistent(m) && Knows(m.parts, Some(code))
    ensures var r := Restarted(m, Some(code), duration);
      && r.state == MAINTENANCE
      && (StillBroken(m.parts, code) ==> Stepped(r, t).state == DOWN)
      && (t.dt < duration ==> (Stepped(r, t).state == DOWN <==> StillBroken(m.parts, code)))
  {
    var r := Restarted(m, Some(code), duration);
    RestartedIsConsistent(m, Some(code), duration);
    RestoredBroken(m, code, duration);
    if HasBroken(r.parts) { WornStaysBroken(r.parts, t); }
    BrokenGoesDown(r, t);
  }

  lemma BrokenGoesDown(r: Status, t: Tick)
    requires Consistent(r) && r.state == MAINTENANCE && (HasBroken(r.parts) ==> HasBroken(AllWorn(r.parts, t)))
    ensures HasBroken(r.parts) ==> Stepped(r, t).state == DOWN
    ensures r.left - t.dt > 0.0 && !HasBroken(r.parts) ==> Stepped(r, t) == r.(left := r.left - t.dt)
  {}

  /** In particular, resetting anything but the component that stopped the machine does not help. */
  lemma WrongResetDoesNotHelp(m: Status, code: string, t: Tick, duration: real)
    requires Consistent(m) && m.state == DOWN && Knows(m.parts, Some(code)) && Some(code) != m.failed
    ensures Stepped(Restarted(m, Some(code), duration), t).state == DOWN
    ensures Restarted(m, Some(code), duration).failed == m.failed
  {
    var i :| 0 <= i < |m.parts| && m.parts[i].code == m.failed.value && Broken(m.parts[i]);
    assert StillBroken(m.parts, code);
    DownAgainAfterWrongReset(m, code, t, duration);
  }

  // ---- Maintenance time ----

  function Elapsed(ts: seq<Tick>): real {
    if ts == [] then 0.0 else Elapsed(ts[..|ts| - 1]) + ts[|ts| - 1].dt
  }

  function Ticks(m: Status, ts: seq<Tick>): Status {
    if ts == [] then m else Stepped(Ticks(m, ts[..|ts| - 1]), ts[|ts| - 1])
  }

  lemma FullResetMendsAll(m: Status, duration: real)
    requires Consistent(m)
    ensures var r := Restarted(m, None, duration); Consistent(r) && !HasBroken(r.parts) && r.left == duration
    ensures m.state == DOWN ==> Restarted(m, None, duration).failed.None?
  {
    var r := Restarted(m, None, duration);
    RestartedIsConsistent(m, None, duration);
    forall i | 0 <= i < |r.parts| ensures !Broken(r.parts[i]) {
      if m.parts[i].wear.Some? { ResetRenews(m.parts[i].wear.value); }
    }
  }

  /** The machine is in maintenance after these steps exactly while less than the duration has passed. */
  lemma {:induction false} MaintenanceLasts(m: Status, ts: seq<Tick>, duration: real)
    requires Consistent(m) && duration > 0.0 && forall i :: 0 <= i < |ts| ==> ts[i].dt >= 0.0
    ensures var n := Ticks(Restarted(m, None, duration), ts);
      && Consistent(n) && (n.state == MAINTENANCE <==> Elapsed(ts) < duration)
      && (n.state == MAINTENANCE ==> !HasBroken(n.parts) && n.left == duration - Elapsed(ts))
  {
    if ts == [] {
      FullResetMendsAll(m, duration);
    } else {
      var init, t := ts[..|ts| - 1], ts[|ts| - 1];
      MaintenanceLasts(m, init, duration);
      var n := Ticks(Restarted(m, None, duration), init);
      SteppedIsConsistent(n, t);
      OutOfMaintenance(n, t);
    }
  }

  lemma OutOfMaintenance(n: Status, t: Tick)
    requires Consistent(n)
    ensures n.state != MAINTENANCE || n.left - t.dt <= 0.0 ==> Stepped(n, t).state != MAINTENANCE
    ensures n.state == MAINTENANCE && !HasBroken(n.parts) && n.left - t.dt > 0.0 ==>
      Stepped(n, t) == n.(left := n.left - t.dt)
  {}

  // ---- A gradual fault brings the machine down on time ----

  /** Steps that run the machine at this pace of wear for the component. */
  predicate Producing(m: Status, ts: seq<Tick>, code: string, pace: real) {
    forall i :: 0 <= i < |ts| ==>
      ts[i].dt >= 0.0 && ts[i].producing && Target(m, ts[i]) > 0.0 && ts[i].pace(code) == pace
  }

  /** Component k wears by a deterministic law, and this much time is left at the pace. */
  predicate Ages(m: Status, k: nat, code: string, pace: real, rul: real) {
    && k < |m.parts| && m.parts[k].code == code && m.parts[k].wear.Some?
    && var w := m.parts[k].wear.value;
      w.Sound() && w.law.Deterministic() && TrueRul(w, pace) == Some(rul)
  }

  lemma DrawIgnored(w: Wear, dt: real, pace: real, draw: real)
    requires w.law.Deterministic()
    ensures Degradation.Step(w, dt, pace, draw) == Degradation.Step(w, dt, pace, 0.0)
  {}

  lemma WornAges(p: Part, t: Tick, pace: real)
    requires p.wear.Some? && p.wear.value.Sound() && p.wear.value.law.Deterministic()
    requires t.dt >= 0.0 && t.pace(p.code) == pace && pace > 0.0
    ensures var q := Worn(p, t);
      && q.code == p.code && q.wear.Some? && q.wear.value.Sound() && q.wear.value.law.Deterministic()
      && TrueRul(p.wear.value, pace).Some?
      && TrueRul(q.wear.value, pace) == Some(Reals.Max(TrueRul(p.wear.value, pace).value - t.dt, 0.0))
      && (Broken(q) <==> t.dt >= TrueRul(p.wear.value, pace).value)
  {
    var w := p.wear.value;
    DrawIgnored(w, t.dt, pace, t.draw(p.code));
    StepKeepsSound(w, t.dt, pace, 0.0);
    RulFallsWithTime(w, t.dt, pace);
  }

  /** One producing step: the component stops the machine only when its time is used up. */
  lemma StepAges(m: Status, t: Tick, k: nat, code: string, pace: real, rul: real)
    requires Consistent(m) && (m.state == RUNNING || m.state == IDLE) && Ages(m, k, code, pace, rul)
    requires Producing(m, [t], code, pace) && pace > 0.0
    ensures var n := Stepped(m, t);
      && n.setpoint == m.setpoint && Consistent(n) && (n.state == DOWN || n.state == RUNNING)
      && (n.state != DOWN ==> rul > t.dt && Ages(n, k, code, pace, rul - t.dt))
      && (n.state == DOWN && n.failed == Some(code) ==> t.dt >= rul)
  {
    SteppedIsConsistent(m, t);
    assert [t][0] == t;
    WornAges(m.parts[k], t, pace);
    ProducingStep(m, t);
    var n := Stepped(m, t);
    assert AllWorn(m.parts, t)[k] == Worn(m.parts[k], t);
    if n.state == DOWN && n.failed == Some(code) {
      var j :| 0 <= j < |n.parts| && n.parts[j].code == code && Broken(n.parts[j]);
      assert j == k;
    }
  }

  lemma ProducingStep(m: Status, t: Tick)
    requires m.state == RUNNING || m.state == IDLE
    requires t.producing && Target(m, t) > 0.0
    ensures var n := Stepped(m, t);
      && n.parts == AllWorn(m.parts, t) && n.setpoint == m.setpoint
      && n.state == (if HasBroken(n.parts) then DOWN else RUNNING)
  {}

  /** The machine has aged as the component's clock says, unless it is down. */
  predicate Aged(m: Status, n: Status, k: nat, code: string, pace: real, rul: real) {
    && n.setpoint == m.setpoint && Consistent(n)
    && (n.state != DOWN ==> (n.state == RUNNING || n.state == IDLE) && Ages(n, k, code, pace, rul))
  }

  lemma {:induction false} TicksAge(m: Status, ts: seq<Tick>, k: nat, code: string, pace: real, rul: real)
    returns (left: real)
    requires Aged(m, m, k, code, pace, rul)
    requires Producing(m, ts, code, pace) && pace > 0.0
    ensures left == rul - Elapsed(ts) && Aged(m, Ticks(m, ts), k, code, pace, left)
  {
    left := rul;
    if ts != [] {
      var init, t := ts[..|ts| - 1], ts[|ts| - 1];
      ProducingParts(m, ts, code, pace);
      var before := TicksAge(m, init, k, code, pace, rul);
      TicksSnoc(m, ts);
      left := before - t.dt;
      NextAges(m, Ticks(m, init), t, k, code, pace, before, Ticks(m, ts), left);
    }
  }

  lemma TicksSnoc(m: Status, ts: seq<Tick>)
    requires ts != []
    ensures var init, t := ts[..|ts| - 1], ts[|ts| - 1];
      Ticks(m, ts) == Stepped(Ticks(m, init), t) && Elapsed(ts) == Elapsed(init) + t.dt
  {}

  lemma ProducingParts(m: Status, ts: seq<Tick>, code: string, pace: real)
    requires Producing(m, ts, code, pace) && ts != []
    ensures Producing(m, ts[..|ts| - 1], code, pace) && Producing(m, [ts[|ts| - 1]], code, pace)
  {
    var init, last := ts[..|ts| - 1], [ts[|ts| - 1]];
    assert forall i :: 0 <= i < |init| ==> init[i] == ts[i];
    assert forall i :: 0 <= i < |last| ==> last[i] == ts[|ts| - 1];
  }

  lemma NextAges(m: Status, n: Status, t: Tick, k: nat, code: string, pace: real, rul: real, s: Status, left: real)
    requires Producing(m, [t], code, pace) && pace > 0.0 && s == Stepped(n, t) && left == rul - t.dt
    requires Aged(m, n, k, code, pace, rul)
    ensures Aged(m, s, k, code, pace, left)
  {
    if n.state == DOWN {
      StaysDown(n, t);
    } else {
      assert Target(n, t) == Target(m, t) && [t][0] == t;
      StepAges(n, t, k, code, pace, rul);
    }
  }

  lemma StaysDown(n: Status, t: Tick)
    requires Consistent(n) && n.state == DOWN
    ensures Stepped(n, t) == n
  {}

  lemma AgesWhileUp(m: Status, k: nat, code: string, pace: real, rul: real)
    requires Consistent(m) && (m.state == RUNNING || m.state == IDLE) && Ages(m, k, code, pace, rul) && pace > 0.0
    ensures rul > 0.0
  {
    var w := m.parts[k].wear.value;
    assert !Broken(m.parts[k]);
    RulFallsWithTime(w, 0.0, pace);
  }

  /** A machine that is still up has time left. */
  lemma {:induction false} UpBeforeTime(m: Status, ts: seq<Tick>, k: nat, code: string, pace: real, rul: real)
    requires Consistent(m) && (m.state == RUNNING || m.state == IDLE) && Ages(m, k, code, pace, rul)
    requires Producing(m, ts, code, pace) && pace > 0.0
    ensures Ticks(m, ts).state != DOWN ==> Elapsed(ts) < rul
  {
    var left := TicksAge(m, ts, k, code, pace, rul);
    var n := Ticks(m, ts);
    if n.state != DOWN { AgesWhileUp(n, k, code, pace, left); }
  }

  /** The step in which the component stops the machine is the one that uses up its time. */
  lemma {:induction false} DownOnTime(m: Status, init: seq<Tick>, t: Tick, k: nat, code: string, pace: real, rul: real)
    requires Consistent(m) && (m.state == RUNNING || m.state == IDLE) && Ages(m, k, code, pace, rul)
    requires Producing(m, init + [t], code, pace) && pace > 0.0 && Ticks(m, init).state != DOWN
    ensures var n := Stepped(Ticks(m, init), t);
      n.state == DOWN && n.failed == Some(code) ==> Elapsed(init) < rul <= Elapsed(init) + t.dt
  {
    ProducingSplit(m, init, t, code, pace);
    UpBeforeTime(m, init, k, code, pace, rul);
    DownInTime(m, Ticks(m, init), init, t, k, code, pace, rul);
  }

  lemma DownInTime(m: Status, n: Status, init: seq<Tick>, t: Tick, k: nat, code: string, pace: real, rul: real)
    requires Aged(m, m, k, code, pace, rul) && n == Ticks(m, init) && n.state != DOWN
    requires Producing(m, init, code, pace) && Producing(m, [t], code, pace) && pace > 0.0
    ensures var s := Stepped(n, t); s.state == DOWN && s.failed == Some(code) ==> rul <= Elapsed(init) + t.dt
  {
    var left := TicksAge(m, init, k, code, pace, rul);
    StopsOnTime(m, n, t, k, code, pace, left);
  }

  lemma ProducingSplit(m: Status, init: seq<Tick>, t: Tick, code: string, pace: real)
    requires Producing(m, init + [t], code, pace)
    ensures Producing(m, init, code, pace) && Producing(m, [t], code, pace)
  {
    var ts := init + [t];
    ProducingParts(m, ts, code, pace);
    assert ts[..|ts| - 1] == init && ts[|ts| - 1] == t;
  }

  lemma StopsOnTime(m: Status, n: Status, t: Tick, k: nat, code: string, pace: real, rul: real)
    requires Aged(m, n, k, code, pace, rul) && n.state != DOWN && Producing(m, [t], code, pace) && pace > 0.0
    ensures var s := Stepped(n, t); s.state == DOWN && s.failed == Some(code) ==> rul <= t.dt
  {
    assert Target(n, t) == Target(m, t) && [t][0] == t;
    StepAges(n, t, k, code, pace, rul);
  }

  /** The gradual fault `mode` would shorten a deterministic component's life at this pace. */
  predicate Shortens(m: Status, mode: string, severity: real, pace: string -> real) {
    && 0.0 <= severity <= 1.0 && Injectable(m.parts, mode)
    && var p := m.parts[PartForMode(m.parts, mode).value];
      var rul := TrueRul(p.wear.value, pace(p.code));
      && p.wear.value.law.Deterministic() && pace(p.code) > 0.0
      && rul.Some? && rul.value > GradualTarget(severity)
  }

  lemma {:induction false} InjectedAges(m: Status, mode: string, severity: real, pace: string -> real)
    requires Consistent(m) && Shortens(m, mode, severity, pace)
    ensures GradualTarget(severity) > 0.0
    ensures var k, v := PartForMode(m.parts, mode).value, Injected(m, mode, Gradual, severity, pace);
      && Consistent(v) && v.state == m.state && v.setpoint == m.setpoint
      && Ages(v, k, m.parts[k].code, pace(m.parts[k].code), GradualTarget(severity))
  {
    var k := PartForMode(m.parts, mode).value;
    InjectedIsConsistent(m, mode, Gradual, severity, pace);
    TargetInRange(severity);
    InjectionHitsTarget(m.parts[k].wear.value, severity, pace(m.parts[k].code));
  }

  /**
   * A gradual fault that shortens the life of a component, on a machine then run at the pace the
   * fault was sized for: the machine is still up only before the target, and if it is that
   * component that stops it, the step that stops it is the one that reaches the target.
   */
  lemma {:induction false} GradualFaultIsOnTime(
      m: Status, mode: string, severity: real, pace: string -> real, init: seq<Tick>, last: Tick, code: string)
    requires Consistent(m) && (m.state == RUNNING || m.state == IDLE) && Shortens(m, mode, severity, pace)
    requires code == m.parts[PartForMode(m.parts, mode).value].code && Producing(m, init + [last], code, pace(code))
    ensures GradualTarget(severity) > 0.0
    ensures var v, t := Injected(m, mode, Gradual, severity, pace), GradualTarget(severity);
      var before, after := Ticks(v, init), Stepped(Ticks(v, init), last);
      && (before.state != DOWN ==> Elapsed(init) < t)
      && (before.state != DOWN && after.state == DOWN && after.failed == Some(code)
          ==> Elapsed(init) < t <= Elapsed(init) + last.dt)
  {
    var v, k, ts := Injected(m, mode, Gradual, severity, pace), PartForMode(m.parts, mode).value, init + [last];
    InjectedAges(m, mode, severity, pace);
    assert forall i :: 0 <= i < |ts| ==> Target(v, ts[i]) == Target(m, ts[i]);
    assert forall i :: 0 <= i < |init| ==> init[i] == ts[i];
    UpBeforeTime(v, init, k, code, pace(code), GradualTarget(severity));
    if Ticks(v, init).state != DOWN { DownOnTime(v, init, last, k, code, pace(code), GradualTarget(severity)); }
  }
}
