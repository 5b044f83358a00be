/** Degradation processes: wear in reference-seconds, remaining life, jumps and resets. */
module Degradation {
  import opened Options
  import opened Reals

  const INITIAL_DAMAGE_MAX := 0.3
  const HOUR_S := 3600.0
  const GRADUAL_MIN_H := 1.0
  const GRADUAL_MAX_H := 24.0

  /** What the power x^k and its inverse y^(1/k) are known to satisfy on the positive reals. */
  ghost predicate PowerPair(k: real, pow: real -> real, root: real -> real) {
    && (forall x {:trigger pow(x)} :: x > 0.0 ==> pow(x) > 0.0 && root(pow(x)) == x)
    && (forall y {:trigger root(y)} :: y > 0.0 ==> root(y) > 0.0 && pow(root(y)) == y)
    && (forall x, y :: 0.0 < x < y ==> if k < 0.0 then pow(x) > pow(y) else pow(x) < pow(y))
  }

  /** The life is in reference-seconds; `cps` is cycles per second and k = 1 - m/2. */
  datatype Law =
    | Taylor(life: real)
    | Paris(life: real, a0: real, aCrit: real, k: real, cps: real, pow: real -> real, root: real -> real)
    | Wiener(life: real)
    | Gamma(life: real)
  {
    ghost predicate Valid() {
      life > 0.0 && (Paris? ==> 0.0 < a0 < aCrit && k != 0.0 && cps > 0.0 && PowerPair(k, pow, root))
    }

    predicate Deterministic() { Taylor? || Paris? }
  }

  type SoundLaw = l: Law | l.Valid() witness Taylor(1.0)

  /** `level` is the tool wear, the crack length in metres, or the degradation level. */
  datatype Wear = Wear(law: SoundLaw, level: real, latched: bool, multiplier: real) {
    /** What every reachable process satisfies. */
    predicate Sound() {
      && multiplier >= 1.0
      && match law {
        case Taylor(_) => 0.0 <= level <= 1.0
        case Paris(_, a0, aCrit, _, _, _, _) => a0 <= level <= aCrit
        case Wiener(_) => level <= 1.0 && latched == (level == 1.0)
        case Gamma(_) => level <= 1.0
      }
    }
  }

  // ---- The laws ----

  /** The crack-growth constant that takes a0 to aCrit in the reference life. */
  function G(l: SoundLaw): real
    requires l.Paris?
  {
    (l.pow(l.aCrit) - l.pow(l.a0)) / (l.k * (l.life * l.cps))
  }

  /** How fast a^k moves per reference-second; it has the sign of k. */
  function Drift(l: SoundLaw): (r: real)
    requires l.Paris?
    ensures r != 0.0 && (r < 0.0 <==> l.k < 0.0)
    ensures r * l.life == l.pow(l.aCrit) - l.pow(l.a0)
  {
    DriftFacts(l);
    l.k * G(l) * l.cps
  }

  lemma DriftFacts(l: SoundLaw)
    requires l.Paris?
    ensures l.k * G(l) * l.cps * l.life == l.pow(l.aCrit) - l.pow(l.a0)
    ensures l.k * G(l) * l.cps != 0.0 && (l.k * G(l) * l.cps < 0.0 <==> l.k < 0.0)
  {
    var c := l.pow(l.aCrit) - l.pow(l.a0);
    var n := l.k * (l.life * l.cps);
    NonZero(l.life, l.cps);
    NonZero(l.k, l.life * l.cps);
    assert G(l) * n == c;
    assert l.k * G(l) * l.cps * l.life == G(l) * n;
    assert c != 0.0 && (c < 0.0 <==> l.k < 0.0);
    SignOfFactor(l.k * G(l) * l.cps, l.life, c);
  }

  function Damage(w: Wear): real {
    match w.law
    case Taylor(_) => w.level
    case Paris(_, a0, aCrit, _, _, _, _) => Clamp((w.level - a0) / (aCrit - a0))
    case Wiener(_) => if w.latched then 1.0 else Clamp(w.level)
    case Gamma(_) => Clamp(w.level)
  }

  predicate Failed(w: Wear) {
    if w.law.Wiener? then w.latched else Damage(w) >= 1.0
  }

  /** Reference-seconds of wear per second at a pace: acceleration times the Arrhenius factor. */
  function Rate(multiplier: real, pace: real): real { pace * multiplier }

  function Reference(dt: real, rate: real): real { dt * rate }

  /** Wear by an equivalent reference duration; `draw` is the random part of the random laws. */
  function Advance(w: Wear, reference: real, draw: real): Wear {
    match w.law
    case Taylor(life) => w.(level := Min(w.level + reference / life, 1.0))
    case Paris(_, _, aCrit, k, _, pow, root) =>
      var target := ParisTarget(w.law, w.level, reference);
      var crit := pow(aCrit);
      var reached := if k < 0.0 then target <= crit else target >= crit;
      w.(level := if reached then aCrit else Min(root(target), aCrit))
    case Wiener(life) => SetLevel(w, w.level + 1.0 / life * reference + draw)
    case Gamma(_) => w.(level := Min(w.level + draw, 1.0))
  }

  /** a^k after an equivalent reference duration. */
  function ParisTarget(l: SoundLaw, a: real, reference: real): real
    requires l.Paris?
  {
    l.pow(a) + l.k * G(l) * reference * l.cps
  }

  function SetLevel(w: Wear, level: real): Wear {
    w.(level := Min(level, 1.0), latched := level >= 1.0)
  }

  function Step(w: Wear, dt: real, pace: real, draw: real): Wear {
    if dt <= 0.0 || Failed(w) then w
    else if Reference(dt, Rate(w.multiplier, pace)) > 0.0 then Advance(w, Reference(dt, Rate(w.multiplier, pace)), draw)
    else w
  }

  function RemainingReference(w: Wear): real {
    match w.law
    case Taylor(life) => (1.0 - w.level) * life
    case Paris(_, _, aCrit, k, cps, pow, _) =>
      assert Drift(w.law) == k * G(w.law) * cps;
      (pow(aCrit) - pow(w.level)) / (k * G(w.law)) / cps
    case Wiener(life) => (1.0 - w.level) * life
    case Gamma(life) => (1.0 - w.level) * life
  }

  /** Remaining operating seconds at this pace; None when the pace causes no wear. */
  function TrueRul(w: Wear, pace: real): Option<real> {
    if Failed(w) then Some(0.0)
    else if Rate(w.multiplier, pace) <= 0.0 then None
    else Some(Quotient(Max(RemainingReference(w), 0.0), Rate(w.multiplier, pace)))
  }

  function Jump(w: Wear, amount: real): Wear {
    match w.law
    case Paris(_, a0, aCrit, _, _, _, _) => w.(level := a0 + Min(Damage(w) + amount, 1.0) * (aCrit - a0))
    case Wiener(_) => SetLevel(w, w.level + amount)
    case _ => w.(level := Min(w.level + amount, 1.0))
  }

  function Renewed(w: Wear): Wear {
    w.(multiplier := 1.0, latched := w.latched && !w.law.Wiener?, level := if w.law.Paris? then w.law.a0 else 0.0)
  }

  function New(law: SoundLaw, initial: real): Wear {
    match law
    case Taylor(_) => Wear(law, Min(initial, 1.0), false, 1.0)
    case Paris(_, a0, _, _, _, _, _) => Jump(Wear(law, a0, false, 1.0), initial)
    case _ => Wear(law, initial, false, 1.0)
  }

  /** The target of a gradual injection, in seconds. */
  function GradualTarget(severity: real): real {
    (GRADUAL_MAX_H - (GRADUAL_MAX_H - GRADUAL_MIN_H) * severity) * 3600.0
  }

  /** A gradual injection of `Machine.inject`: a life above the target is sped up, else nothing. */
  function Hastened(w: Wear, severity: real, pace: real): Wear
    requires GradualTarget(severity) != 0.0
  {
    var rul := TrueRul(w, pace);
    if rul.Some? && rul.value > GradualTarget(severity)
    then w.(multiplier := w.multiplier * (rul.value / GradualTarget(severity)))
    else w
  }

  class DegradationProcess {
    const law: SoundLaw
    var level: real
    var latched: bool
    var multiplier: real

    function Abs(): Wear
      reads this
    {
      Wear(law, level, latched, multiplier)
    }

    constructor (law: SoundLaw, initial: real)
      requires 0.0 <= initial <= INITIAL_DAMAGE_MAX
      ensures Abs() == New(law, initial) && Abs().Sound() && !Failed(Abs())
    {
      this.law := law;
      multiplier := 1.0;
      latched := false;
      level := match law case Taylor(_) => Min(initial, 1.0) case Paris(_, a0, _, _, _, _, _) => a0 case _ => initial;
      new;
      NewIsSound(law, initial);
      if law.Paris? { JumpBy(initial); }
    }

    method JumpBy(amount: real)
      modifies this
      ensures Abs() == Jump(old(Abs()), amount)
    {
      match law
      case Paris(_, a0, aCrit, _, _, _, _) =>
        var damage := Min(Damage(Abs()) + amount, 1.0);
        level := a0 + damage * (aCrit - a0);
      case Wiener(_) =>
        latched := level + amount >= 1.0;
        level := Min(level + amount, 1.0);
      case _ =>
        level := Min(level + amount, 1.0);
    }

    method StepBy(dt: real, pace: real, draw: real)
      modifies this
      ensures Abs() == Step(old(Abs()), dt, pace, draw)
    {
      if dt <= 0.0 || Failed(Abs()) { return; }
      var reference := Reference(dt, Rate(Abs().multiplier, pace));
      if reference > 0.0 { AdvanceBy(reference, draw); }
    }

    method AdvanceBy(reference: real, draw: real)
      modifies this
      ensures Abs() == Advance(old(Abs()), reference, draw)
    {
      match law
      case Taylor(life) =>
        level := Min(level + reference / life, 1.0);
      case Paris(_, _, aCrit, k, _, pow, root) =>
        var target := ParisTarget(law, level, reference);
        var reached := if k < 0.0 then target <= pow(aCrit) else target >= pow(aCrit);
        level := if reached then aCrit else Min(root(target), aCrit);
      case Wiener(life) =>
        var next := level + 1.0 / life * reference + draw;
        level := Min(next, 1.0);
        latched := next >= 1.0;
      case Gamma(_) =>
        level := Min(level + draw, 1.0);
    }

    method Reset()
      modifies this
      ensures Abs() == Renewed(old(Abs()))
    {
      multiplier := 1.0;
      match law
      case Paris(_, a0, _, _, _, _, _) => level := a0;
      case Wiener(_) => level, latched := 0.0, false;
      case _ => level := 0.0;
    }

    method Hasten(severity: real, pace: real)
      requires GradualTarget(severity) != 0.0
      modifies this
      ensures Abs() == Hastened(old(Abs()), severity, pace)
    {
      var rul := TrueRul(Abs(), pace);
      if rul.Some? && rul.value > GradualTarget(severity) {
        multiplier := multiplier * (rul.value / GradualTarget(severity));
      }
    }
  }

  // ---- Every operation keeps a process sound ----

  /** Failure, read off the state. */
  lemma FailedIs(w: Wear)
    requires w.Sound()
    ensures Failed(w) <==> w.level == (if w.law.Paris? then w.law.aCrit else 1.0)
    ensures 0.0 <= Damage(w) <= 1.0
  {
    if w.law.Paris? { FractionIn(w.level, w.law.a0, w.law.aCrit); }
  }

  /** A sudden injection raises the damage by its amount, capped at 1, less what a level below 0 has to make up. */
  lemma JumpAdds(w: Wear, amount: real)
    requires w.Sound() && amount >= 0.0
    ensures Jump(w, amount).Sound()
    ensures var deficit := if w.law.Paris? then 0.0 else Max(-w.level, 0.0);
      Damage(Jump(w, amount)) == Min(Damage(w) + Max(amount - deficit, 0.0), 1.0)
    ensures Damage(Jump(w, amount)) >= Damage(w) && (Failed(w) ==> Failed(Jump(w, amount)))
  {
    FailedIs(w);
    if w.law.Paris? { ParisJump(w, amount); }
  }

  lemma ParisJump(w: Wear, amount: real)
    requires w.law.Paris? && w.Sound() && amount >= 0.0
    ensures Jump(w, amount).Sound() && Damage(Jump(w, amount)) == Min(Damage(w) + amount, 1.0)
  {
    FailedIs(w);
    var d := Min(Damage(w) + amount, 1.0);
    LevelOf(Jump(w, amount), d);
  }

  lemma LevelOf(v: Wear, d: real)
    requires v.law.Paris? && v.multiplier >= 1.0 && 0.0 <= d <= 1.0
    requires v.level == v.law.a0 + d * (v.law.aCrit - v.law.a0)
    ensures v.Sound() && Damage(v) == d
  {
    BetweenIs(v.level, d, v.law.a0, v.law.aCrit);
  }

  lemma NewIsSound(law: SoundLaw, initial: real)
    requires 0.0 <= initial <= INITIAL_DAMAGE_MAX
    ensures New(law, initial).Sound() && !Failed(New(law, initial)) && Damage(New(law, initial)) == initial
  {
    if law.Paris? {
      var w := Wear(law, law.a0, false, 1.0);
      FractionIn(law.a0, law.a0, law.aCrit);
      assert (law.a0 - law.a0) / (law.aCrit - law.a0) == 0.0;
      JumpAdds(w, initial);
    }
  }

  lemma ParisTargetIs(w: Wear, reference: real)
    requires w.law.Paris? && w.Sound() && reference > 0.0
    ensures var l, d, r := w.law, Drift(w.law), RemainingReference(w);
      var target := ParisTarget(l, w.level, reference);
      && target == l.pow(w.level) + d * reference
      && l.pow(l.aCrit) - target == (r - reference) * d
      && ((if l.k < 0.0 then target <= l.pow(l.aCrit) else target >= l.pow(l.aCrit)) <==> reference >= r)
      && (if l.k < 0.0 then target < l.pow(w.level) else target > l.pow(w.level))
  {
    var l, d := w.law, Drift(w.law);
    ParisRemaining(w);
    assert l.k * G(l) * reference * l.cps == d * reference;
    LineMeets(d, RemainingReference(w), reference, l.pow(w.level), l.pow(l.aCrit));
    SignOf(d, reference);
  }

  lemma ParisBelow(w: Wear, reference: real)
    requires w.law.Paris? && w.Sound() && 0.0 < reference < RemainingReference(w)
    ensures var a := w.law.root(ParisTarget(w.law, w.level, reference));
      && w.level < a < w.law.aCrit && w.law.pow(a) == ParisTarget(w.law, w.level, reference)
  {
    ParisTargetIs(w, reference);
    var l := w.law;
    assert l.pow(w.level) > 0.0 && l.pow(l.aCrit) > 0.0;
    var target := ParisTarget(l, w.level, reference);
    assert target > 0.0;
    var a := l.root(target);
    assert l.pow(a) == target && a > 0.0;
    if a >= l.aCrit { assert false; }
    if a <= w.level { assert false; }
  }

  lemma ParisAdvances(w: Wear, reference: real, draw: real)
    requires w.law.Paris? && w.Sound() && reference > 0.0
    ensures var v := Advance(w, reference, draw);
      && v.Sound() && v.law == w.law && v.multiplier == w.multiplier && w.level <= v.level
      && RemainingReference(v) == Max(RemainingReference(w) - reference, 0.0)
  {
    ParisTargetIs(w, reference);
    var v := Advance(w, reference, draw);
    if reference < RemainingReference(w) {
      ParisBelow(w, reference);
      ParisLeft(w, v, reference);
    } else {
      assert v.level == w.law.aCrit;
      ParisRemaining(v);
    }
  }

  lemma ParisLeft(w: Wear, v: Wear, reference: real)
    requires w.law.Paris? && w.Sound() && v.law == w.law && v.Sound() && 0.0 < reference < RemainingReference(w)
    requires w.law.pow(v.level) == ParisTarget(w.law, w.level, reference)
    ensures RemainingReference(v) == RemainingReference(w) - reference
  {
    ParisTargetIs(w, reference);
    ParisRemaining(v);
    FractionUnique(w.law.pow(w.law.aCrit) - w.law.pow(v.level), Drift(w.law), RemainingReference(w) - reference);
  }

  lemma ParisRemaining(w: Wear)
    requires w.law.Paris? && w.Sound()
    ensures Drift(w.law) * RemainingReference(w) == w.law.pow(w.law.aCrit) - w.law.pow(w.level)
    ensures RemainingReference(w) == (w.law.pow(w.law.aCrit) - w.law.pow(w.level)) / Drift(w.law)
    ensures RemainingReference(w) >= 0.0 && (RemainingReference(w) == 0.0 <==> w.level == w.law.aCrit)
  {
    var l := w.law;
    var d, x := Drift(l), l.pow(l.aCrit) - l.pow(w.level);
    var kg := l.k * G(l);
    assert d == kg * l.cps;
    var r := RemainingReference(w);
    assert r == x / kg / l.cps;
    assert r * l.cps == x / kg;
    assert (r * l.cps) * kg == x;
    assert d * r == x;
    FractionUnique(x, d, r);
    if w.level < l.aCrit {
      assert if l.k < 0.0 then x < 0.0 else x > 0.0;
      if d > 0.0 { SignOfFactor(r, d, x); } else { SignOfFactor(r, -d, -x); }
    }
  }

  lemma TaylorAdvances(w: Wear, reference: real, draw: real)
    requires w.law.Taylor? && w.Sound() && reference > 0.0
    ensures var v := Advance(w, reference, draw);
      && v.Sound() && v.law == w.law && v.multiplier == w.multiplier
      && RemainingReference(v) == Max(RemainingReference(w) - reference, 0.0)
  {
    var life, q := w.law.life, reference / w.law.life;
    assert q * life == reference;
    SignOfFactor(q, life, reference);
    var left := 1.0 - (w.level + q);
    assert left * life == RemainingReference(w) - reference;
    SignOfFactor(left, life, RemainingReference(w) - reference);
  }

  /** Wear of a deterministic law: the remaining life falls by the reference duration, down to 0. */
  lemma AdvanceMeasures(w: Wear, reference: real, draw: real)
    requires w.law.Deterministic() && w.Sound() && reference > 0.0
    ensures var v := Advance(w, reference, draw);
      && v.Sound() && v.law == w.law && v.multiplier == w.multiplier
      && RemainingReference(v) == Max(RemainingReference(w) - reference, 0.0)
  {
    if w.law.Paris? { ParisAdvances(w, reference, draw); } else { TaylorAdvances(w, reference, draw); }
  }

  lemma AdvanceKeepsSound(w: Wear, reference: real, draw: real)
    requires w.Sound() && reference > 0.0
    ensures Advance(w, reference, draw).Sound() && Advance(w, reference, draw).law == w.law
  {
    if w.law.Deterministic() { AdvanceMeasures(w, reference, draw); }
  }

  lemma StepKeepsSound(w: Wear, dt: real, pace: real, draw: real)
    requires w.Sound()
    ensures Step(w, dt, pace, draw).Sound() && Step(w, dt, pace, draw).law == w.law
  {
    var t := Reference(dt, Rate(w.multiplier, pace));
    if t > 0.0 { AdvanceKeepsSound(w, t, draw); }
  }

  /** A reset process is as new: no damage, and the whole reference life ahead at every law. */
  lemma ResetRenews(w: Wear)
    requires w.Sound()
    ensures Renewed(w).Sound() && !Failed(Renewed(w)) && Damage(Renewed(w)) == 0.0
    ensures RemainingReference(Renewed(w)) == w.law.life
  {
    var v := Renewed(w);
    if w.law.Paris? {
      FractionIn(v.level, w.law.a0, w.law.aCrit);
      assert (v.level - w.law.a0) / (w.law.aCrit - w.law.a0) == 0.0;
      ParisRemaining(v);
      FractionUnique(w.law.pow(w.law.aCrit) - w.law.pow(w.law.a0), Drift(w.law), w.law.life);
    }
  }

  // ---- Deterministic wear adds up ----

  /** A leg of operation: a duration and the pace of wear during it. */
  datatype Leg = Leg(dt: real, pace: real)

  function LegDose(l: Leg, multiplier: real): (r: real)
    ensures r >= 0.0
  {
    if l.dt > 0.0 && Reference(l.dt, Rate(multiplier, l.pace)) > 0.0 then Reference(l.dt, Rate(multiplier, l.pace))
    else 0.0
  }

  /** Miner's rule: the reference-seconds of wear of all legs. */
  function Dose(legs: seq<Leg>, multiplier: real): (r: real)
    ensures r >= 0.0
  {
    if legs == [] then 0.0
    else Dose(legs[..|legs| - 1], multiplier) + LegDose(legs[|legs| - 1], multiplier)
  }

  function Steps(w: Wear, legs: seq<Leg>): Wear {
    if legs == [] then w
    else
      var last := legs[|legs| - 1];
      Step(Steps(w, legs[..|legs| - 1]), last.dt, last.pace, 0.0)
  }

  lemma StepMeasures(w: Wear, l: Leg)
    requires w.law.Deterministic() && w.Sound()
    ensures var v := Step(w, l.dt, l.pace, 0.0);
      && v.Sound() && v.law == w.law && v.multiplier == w.multiplier
      && RemainingReference(v) == Max(RemainingReference(w) - LegDose(l, w.multiplier), 0.0)
  {
    RemainingZero(w);
    if l.dt > 0.0 && !Failed(w) && Reference(l.dt, Rate(w.multiplier, l.pace)) > 0.0 { StepAdvances(w, l); }
  }

  lemma StepAdvances(w: Wear, l: Leg)
    requires w.law.Deterministic() && w.Sound() && l.dt > 0.0 && !Failed(w)
    requires Reference(l.dt, Rate(w.multiplier, l.pace)) > 0.0
    ensures var v := Step(w, l.dt, l.pace, 0.0);
      && v.Sound() && v.law == w.law && v.multiplier == w.multiplier
      && RemainingReference(v) == Max(RemainingReference(w) - LegDose(l, w.multiplier), 0.0)
  {
    StepIsAdvance(w, l, LegDose(l, w.multiplier));
    AdvanceMeasures(w, LegDose(l, w.multiplier), 0.0);
  }

  lemma StepIsAdvance(w: Wear, l: Leg, reference: real)
    requires l.dt > 0.0 && !Failed(w) && reference == Reference(l.dt, Rate(w.multiplier, l.pace)) > 0.0
    ensures Step(w, l.dt, l.pace, 0.0) == Advance(w, reference, 0.0) && reference == LegDose(l, w.multiplier)
  {}

  lemma RemainingZero(w: Wear)
    requires w.law.Deterministic() && w.Sound()
    ensures RemainingReference(w) >= 0.0 && (Failed(w) <==> RemainingReference(w) == 0.0)
  {
    FailedIs(w);
    if w.law.Paris? { ParisRemaining(w); } else { SignOf(w.law.life, 1.0 - w.level); }
  }

  /**
   * Any sequence of steps, of any sizes and paces, uses up exactly its dose: the process has
   * failed if and only if the dose has reached the remaining life.
   */
  lemma {:induction false} WearIsDose(w: Wear, legs: seq<Leg>)
    requires w.law.Deterministic() && w.Sound()
    ensures var v := Steps(w, legs);
      && v.Sound() && v.law == w.law && v.multiplier == w.multiplier
      && RemainingReference(v) == Max(RemainingReference(w) - Dose(legs, w.multiplier), 0.0)
      && (Failed(v) <==> Dose(legs, w.multiplier) >= RemainingReference(w))
  {
    if legs == [] {
      RemainingZero(w);
    } else {
      var init, last := legs[..|legs| - 1], legs[|legs| - 1];
      var u := Steps(w, init);
      WearIsDose(w, init);
      StepMeasures(u, last);
      RemainingZero(Step(u, last.dt, last.pace, 0.0));
    }
  }

  /** The remaining life determines the state of a deterministic process. */
  lemma RemainingDetermines(v: Wear, w: Wear)
    requires v.law == w.law && v.law.Deterministic() && v.Sound() && w.Sound()
    requires RemainingReference(v) == RemainingReference(w)
    ensures v.level == w.level
  {
    if w.law.Paris? {
      ParisRemaining(v);
      ParisRemaining(w);
      assert w.law.root(w.law.pow(v.level)) == v.level && w.law.root(w.law.pow(w.level)) == w.level;
    } else {
      Cancel(1.0 - v.level, 1.0 - w.level, w.law.life);
    }
  }

  lemma {:induction false} StepsKeepLatch(w: Wear, legs: seq<Leg>)
    requires w.law.Deterministic()
    ensures Steps(w, legs).latched == w.latched && Steps(w, legs).law == w.law
  {
    if legs != [] { StepsKeepLatch(w, legs[..|legs| - 1]); }
  }

  /** Equal doses leave equal states, so neither the order nor the cutting of the steps matters. */
  lemma SameDoseSameWear(w: Wear, legs: seq<Leg>, others: seq<Leg>)
    requires w.law.Deterministic() && w.Sound() && Dose(legs, w.multiplier) == Dose(others, w.multiplier)
    ensures Steps(w, legs) == Steps(w, others)
  {
    WearIsDose(w, legs);
    WearIsDose(w, others);
    StepsKeepLatch(w, legs);
    StepsKeepLatch(w, others);
    RemainingDetermines(Steps(w, legs), Steps(w, others));
  }

  lemma DoseOfTwo(a: Leg, b: Leg, m: real)
    ensures Dose([a], m) == LegDose(a, m) && Dose([a, b], m) == LegDose(a, m) + LegDose(b, m)
  {
    assert [a][..0] == [] && [a, b][..1] == [a];
  }

  lemma StepsOfTwo(w: Wear, a: Leg, b: Leg)
    ensures Steps(w, [a]) == Step(w, a.dt, a.pace, 0.0)
    ensures Steps(w, [a, b]) == Step(Step(w, a.dt, a.pace, 0.0), b.dt, b.pace, 0.0)
  {
    assert [a][..0] == [] && [a, b][..1] == [a];
  }

  lemma LegDoseAdds(d1: real, d2: real, pace: real, m: real)
    requires d1 >= 0.0 && d2 >= 0.0
    ensures LegDose(Leg(d1 + d2, pace), m) == LegDose(Leg(d1, pace), m) + LegDose(Leg(d2, pace), m)
  {
    var rate := pace * m;
    assert (d1 + d2) * rate == d1 * rate + d2 * rate;
    if rate != 0.0 { SignOf(rate, d1); SignOf(rate, d2); }
  }

  /** "Exact for any step size": two steps at one pace are one step of their total. */
  lemma StepSizeIsExact(w: Wear, d1: real, d2: real, pace: real)
    requires w.law.Deterministic() && w.Sound() && d1 >= 0.0 && d2 >= 0.0
    ensures Step(Step(w, d1, pace, 0.0), d2, pace, 0.0) == Step(w, d1 + d2, pace, 0.0)
  {
    var a, b, c := Leg(d1, pace), Leg(d2, pace), Leg(d1 + d2, pace);
    DoseOfTwo(a, b, w.multiplier);
    DoseOfTwo(c, c, w.multiplier);
    LegDoseAdds(d1, d2, pace, w.multiplier);
    SameDoseSameWear(w, [a, b], [c]);
    StepsOfTwo(w, a, b);
    StepsOfTwo(w, c, c);
  }

  /** True RUL falls by exactly the elapsed time, and failure comes exactly when it is used up. */
  lemma RulFallsWithTime(w: Wear, d: real, pace: real)
    requires w.law.Deterministic() && w.Sound() && d >= 0.0 && pace > 0.0
    ensures TrueRul(w, pace).Some? && TrueRul(w, pace).value >= 0.0
    ensures TrueRul(Step(w, d, pace, 0.0), pace) == Some(Max(TrueRul(w, pace).value - d, 0.0))
    ensures Failed(Step(w, d, pace, 0.0)) <==> d >= TrueRul(w, pace).value
  {
    SignOf(pace, w.multiplier);
    StepMeasures(w, Leg(d, pace));
    SignOf(Rate(w.multiplier, pace), d);
    RulOf(w, Step(w, d, pace, 0.0), d, pace);
  }

  lemma RulOf(w: Wear, v: Wear, d: real, pace: real)
    requires w.law.Deterministic() && w.Sound() && v.law == w.law && v.Sound() && v.multiplier == w.multiplier
    requires Rate(w.multiplier, pace) > 0.0
    requires RemainingReference(v) == Max(RemainingReference(w) - Reference(d, Rate(w.multiplier, pace)), 0.0)
    ensures TrueRul(w, pace).Some? && TrueRul(w, pace).value >= 0.0
    ensures TrueRul(v, pace) == Some(Max(TrueRul(w, pace).value - d, 0.0))
    ensures Failed(v) <==> d >= TrueRul(w, pace).value
  {
    RemainingZero(w);
    RemainingZero(v);
    TimeLeft(RemainingReference(w), RemainingReference(v), Rate(w.multiplier, pace), d);
    RulIs(w, pace);
    RulIs(v, pace);
  }

  lemma RulIs(w: Wear, pace: real)
    requires w.law.Deterministic() && w.Sound() && Rate(w.multiplier, pace) > 0.0
    ensures TrueRul(w, pace) == Some(Quotient(RemainingReference(w), Rate(w.multiplier, pace)))
  {
    RemainingZero(w);
    if Failed(w) { FractionUnique(0.0, Rate(w.multiplier, pace), 0.0); }
  }

  // ---- Gradual injection ----

  lemma TargetInRange(severity: real)
    requires 0.0 <= severity <= 1.0
    ensures GRADUAL_MIN_H * HOUR_S <= GradualTarget(severity) <= GRADUAL_MAX_H * HOUR_S
  {}

  /** A gradual injection never lengthens a life; one that shortens it leaves exactly the target. */
  lemma InjectionHitsTarget(w: Wear, severity: real, pace: real)
    requires w.Sound() && 0.0 <= severity <= 1.0
    ensures GRADUAL_MIN_H * HOUR_S <= GradualTarget(severity) <= GRADUAL_MAX_H * HOUR_S
    ensures var v, t := Hastened(w, severity, pace), GradualTarget(severity);
      && v.Sound() && v == w.(multiplier := v.multiplier)
      && (TrueRul(w, pace).Some? && TrueRul(w, pace).value > t ==> TrueRul(v, pace) == Some(t))
      && (TrueRul(w, pace).None? || TrueRul(w, pace).value <= t ==> v == w)
  {
    TargetInRange(severity);
    var rul := TrueRul(w, pace);
    if rul.Some? && rul.value > GradualTarget(severity) { InjectionShortens(w, severity, pace); }
  }

  lemma InjectionShortens(w: Wear, severity: real, pace: real)
    requires w.Sound() && GradualTarget(severity) > 0.0
    requires TrueRul(w, pace).Some? && TrueRul(w, pace).value > GradualTarget(severity)
    ensures var v := Hastened(w, severity, pace);
      v.Sound() && v == w.(multiplier := v.multiplier) && TrueRul(v, pace) == Some(GradualTarget(severity))
  {
    var v := Hastened(w, severity, pace);
    var r, t := Max(RemainingReference(w), 0.0), GradualTarget(severity);
    SpeedUp(r, TrueRul(w, pace).value, pace, w.multiplier, t, v.multiplier);
    SameWearElse(w, v);
    RulAt(v, pace, pace * v.multiplier, r, t);
  }

  lemma RulAt(v: Wear, pace: real, rate: real, r: real, t: real)
    requires !Failed(v) && rate == Rate(v.multiplier, pace) && rate > 0.0 && r == Max(RemainingReference(v), 0.0)
    requires Quotient(r, rate) == t
    ensures TrueRul(v, pace) == Some(t)
  {}

  lemma SameWearElse(w: Wear, v: Wear)
    requires v == w.(multiplier := v.multiplier)
    ensures Failed(v) == Failed(w) && RemainingReference(v) == RemainingReference(w)
  {}

  /** The target of an injection falls evenly from a day to an hour as the severity rises. */
  lemma TargetFalls(severity: real)
    ensures GradualTarget(severity) == 86400.0 * (1.0 - severity) + 3600.0 * severity
  {}

  /** Where a pace causes no wear there is no end in sight, and operation changes nothing. */
  lemma NoPaceNoWear(w: Wear, dt: real, pace: real, draw: real)
    requires w.Sound() && !Failed(w)
    ensures TrueRul(w, pace).None? <==> pace <= 0.0
    ensures pace <= 0.0 || dt <= 0.0 ==> Step(w, dt, pace, draw) == w
  {
    if pace < 0.0 { SignOf(pace, w.multiplier); } else if pace > 0.0 { NonZero(pace, w.multiplier); }
    if dt > 0.0 && pace * w.multiplier < 0.0 { SignOf(pace * w.multiplier, dt); }
  }

  /** After a shortening injection, operation at the same pace fails exactly at the target. */
  lemma InjectedFailsOnTime(w: Wear, severity: real, pace: real, d: real)
    requires w.law.Deterministic() && w.Sound() && 0.0 <= severity <= 1.0 && pace > 0.0 && d >= 0.0
    requires TrueRul(w, pace).Some? && TrueRul(w, pace).value > GradualTarget(severity)
    ensures Failed(Step(Hastened(w, severity, pace), d, pace, 0.0)) <==> d >= GradualTarget(severity)
  {
    InjectionHitsTarget(w, severity, pace);
    RulFallsWithTime(Hastened(w, severity, pace), d, pace);
  }

  // ---- Random wear ----

  /** A leg of operation of a random law, with the random part of its increment. */
  datatype Shock = Shock(dt: real, pace: real, draw: real)

  function Shocked(w: Wear, ss: seq<Shock>): Wear {
    if ss == [] then w
    else
      var s := ss[|ss| - 1];
      Step(Shocked(w, ss[..|ss| - 1]), s.dt, s.pace, s.draw)
  }

  /** What a leg adds to the level: the drift of its reference time and the draw, or only the draw. */
  function Adds(w: Wear, s: Shock): real {
    var reference := s.dt * (s.pace * w.multiplier);
    if s.dt <= 0.0 || reference <= 0.0 then 0.0
    else if w.law.Wiener? then Quotient(reference, w.law.life) + s.draw else s.draw
  }

  /** The level the legs add up to. */
  function Reached(w: Wear, ss: seq<Shock>): real {
    if ss == [] then w.level else Reached(w, ss[..|ss| - 1]) + Adds(w, ss[|ss| - 1])
  }

  /** The level has been at 1 or above after some of the legs. */
  predicate Passed(w: Wear, ss: seq<Shock>) {
    exists n :: 0 <= n <= |ss| && Reached(w, ss[..n]) >= 1.0
  }

  lemma PassedSnoc(w: Wear, ss: seq<Shock>)
    requires ss != []
    ensures Passed(w, ss) <==> Passed(w, ss[..|ss| - 1]) || Reached(w, ss) >= 1.0
  {
    var k := |ss| - 1;
    assert forall n :: 0 <= n <= k ==> ss[..k][..n] == ss[..n];
    assert ss[..k + 1] == ss;
    if Passed(w, ss[..k]) {
      var n :| 0 <= n <= k && Reached(w, ss[..k][..n]) >= 1.0;
      assert Reached(w, ss[..n]) >= 1.0;
    }
    if Passed(w, ss) && Reached(w, ss) < 1.0 {
      var n :| 0 <= n <= |ss| && Reached(w, ss[..n]) >= 1.0;
      assert n <= k && Reached(w, ss[..k][..n]) >= 1.0;
    }
  }

  lemma ShockAdds(w: Wear, v: Wear, s: Shock)
    requires !w.law.Deterministic() && v == w.(level := v.level, latched := v.latched) && v.Sound() && !Failed(v)
    ensures var u := Step(v, s.dt, s.pace, s.draw);
      && u == w.(level := u.level, latched := u.latched) && u.Sound()
      && (Failed(u) <==> v.level + Adds(w, s) >= 1.0)
      && u.level == Min(v.level + Adds(w, s), 1.0)
  {
    FailedIs(v);
    StepKeepsSound(v, s.dt, s.pace, s.draw);
    FailedIs(Step(v, s.dt, s.pace, s.draw));
    if w.law.Wiener? { PerLife(w.law.life, s.dt * (s.pace * w.multiplier)); }
  }

  lemma PerLife(life: real, reference: real)
    requires life > 0.0
    ensures 1.0 / life * reference == Quotient(reference, life)
  {
    FractionUnique(reference, life, 1.0 / life * reference);
  }

  /**
   * First passage: a process of a random law has failed exactly when the level its legs add up to has been at 1
   * at the end of some leg, even if it fell again; until then that level is its own.
   */
  lemma {:induction false} FirstPassage(w: Wear, ss: seq<Shock>)
    requires !w.law.Deterministic() && w.Sound() && !Failed(w)
    ensures var v := Shocked(w, ss);
      && v == w.(level := v.level, latched := v.latched) && v.Sound()
      && (Failed(v) <==> Passed(w, ss)) && v.level == (if Failed(v) then 1.0 else Reached(w, ss))
    decreases |ss|
  {
    FailedIs(w);
    if ss == [] {
      assert ss[..0] == [];
    } else {
      var init, s := ss[..|ss| - 1], ss[|ss| - 1];
      FirstPassage(w, init);
      PassedSnoc(w, ss);
      var v := Shocked(w, init);
      if !Failed(v) {
        ShockAdds(w, v, s);
        NotPassed(w, init);
      }
    }
  }

  lemma NotPassed(w: Wear, ss: seq<Shock>)
    requires !Passed(w, ss)
    ensures Reached(w, ss) < 1.0
  {
    assert ss[..|ss|] == ss;
  }

  /** With its mean increment, a process of a random law fails exactly when its remaining life has passed. */
  lemma MeanLife(w: Wear, dt: real, pace: real, draw: real)
    requires !w.law.Deterministic() && w.Sound() && !Failed(w) && pace > 0.0 && dt > 0.0
    requires draw == if w.law.Wiener? then 0.0 else Quotient(dt * (pace * w.multiplier), w.law.life)
    ensures TrueRul(w, pace).Some?
    ensures Failed(Step(w, dt, pace, draw)) <==> dt >= TrueRul(w, pace).value
  {
    SignOf(pace, w.multiplier);
    MeanRul(w, pace, pace * w.multiplier);
    MeanStep(w, dt, pace, draw, pace * w.multiplier, Quotient(dt * (pace * w.multiplier), w.law.life));
    MeanPassage(w.level, w.law.life, pace * w.multiplier, dt, Quotient(dt * (pace * w.multiplier), w.law.life),
                TrueRul(w, pace).value);
  }

  lemma MeanRul(w: Wear, pace: real, rate: real)
    requires !w.law.Deterministic() && w.Sound() && !Failed(w) && rate == pace * w.multiplier > 0.0
    ensures TrueRul(w, pace) == Some(Quotient((1.0 - w.level) * w.law.life, rate))
  {
    FailedIs(w);
    SignOf(w.law.life, 1.0 - w.level);
    assert RemainingReference(w) == (1.0 - w.level) * w.law.life == w.law.life * (1.0 - w.level);
    assert Rate(w.multiplier, pace) == rate;
  }

  lemma MeanStep(w: Wear, dt: real, pace: real, draw: real, rate: real, x: real)
    requires !w.law.Deterministic() && w.Sound() && !Failed(w) && rate == pace * w.multiplier > 0.0 && dt > 0.0
    requires x == Quotient(dt * rate, w.law.life) && draw == if w.law.Wiener? then 0.0 else x
    ensures Failed(Step(w, dt, pace, draw)) <==> w.level + x >= 1.0
  {
    SignOf(rate, dt);
    ShockAdds(w, w, Shock(dt, pace, draw));
  }

  lemma MeanPassage(level: real, life: real, rate: real, dt: real, x: real, rul: real)
    requires life > 0.0 && rate > 0.0 && x == Quotient(dt * rate, life) && rul == Quotient((1.0 - level) * life, rate)
    ensures level + x >= 1.0 <==> dt >= rul
  {
    assert x * life == dt * rate && rul * rate == (1.0 - level) * life;
    assert (level + x - 1.0) * life == (dt - rul) * rate;
    SignOfFactor(level + x - 1.0, life, (dt - rul) * rate);
    SignOfFactor(dt - rul, rate, (dt - rul) * rate);
  }
}
