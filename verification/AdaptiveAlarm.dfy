/** Adaptive alarms: a rolling window for each rule and a z-score against it. */
module AdaptiveAlarms {
  import opened Options
  import opened Reals
  import opened Sums

  const MIN_SAMPLES := 30
  const DEFAULT_SIGMA := 3.0
  const DEFAULT_WINDOW := "1h"
  const WINDOW_SAMPLES: map<string, nat> :=
    map["5m" := 300, "15m" := 900, "30m" := 1800, "1h" := 3600, "6h" := 21600, "24h" := 86400]

  datatype Rule = Rule(id: string, sigma: Option<real>, window: Option<string>) {
    function Sigma(): real { if sigma.Some? then sigma.value else DEFAULT_SIGMA }

    function Window(): string { if window.Some? then window.value else DEFAULT_WINDOW }

    /** A window that is not in the table gets the default one. */
    function Samples(): (n: nat)
      ensures n > MIN_SAMPLES
    {
      if Window() in WINDOW_SAMPLES then WINDOW_SAMPLES[Window()] else WINDOW_SAMPLES[DEFAULT_WINDOW]
    }
  }

  datatype Alarm = Alarm(ruleId: string, value: real, threshold: real)

  // ---- The window ----

  /** The last n values, or all of them. */
  function Last(s: seq<real>, n: nat): seq<real> {
    if |s| <= n then s else s[|s| - n..]
  }

  // ---- The decision on a window ----

  function Id(): real -> real { (x: real) => x }

  function Mean(w: seq<real>): real
    requires w != []
  {
    Quotient(SumOf(w, Id()), |w| as real)
  }

  function Deviation(w: seq<real>): real -> real
    requires w != []
  {
    Minus(Id(), Mean(w))
  }

  function Variance(w: seq<real>): real
    requires w != []
  {
    Quotient(SumOf(w, Times(Deviation(w), Deviation(w))), |w| as real)
  }

  function Size(x: real): real { if x < 0.0 then -x else x }

  function Threshold(mean: real, sigma: real, std: real): real { mean + sigma * std }

  function Decide(rule: Rule, w: seq<real>, value: real, sqrt: real -> real): Option<Alarm> {
    if |w| < MIN_SAMPLES then None
    else
      var mean, std := Mean(w), sqrt(Variance(w));
      if std < 0.0000000001 then None
      else if Quotient(Size(value - mean), std) <= rule.Sigma() then None
      else Some(Alarm(rule.id, value, Threshold(mean, rule.Sigma(), std)))
  }

  // ---- The engine ----

  class AlarmEngine {
    /** The stored list of each rule, by rule and not by sensor. */
    var windows: map<string, seq<real>>
    const sqrt: real -> real

    constructor (sqrt: real -> real)
      ensures windows == map[] && this.sqrt == sqrt
    {
      this.sqrt := sqrt;
      windows := map[];
    }

    method EvaluateAdaptive(rule: Rule, value: real) returns (alarm: Option<Alarm>)
      modifies this
      ensures windows == Pushed(old(windows), rule, value)
      ensures alarm == Decide(rule, windows[rule.id], value, sqrt)
    {
      var held := if rule.id in windows then windows[rule.id] else [];
      held := held + [value];
      var samples := rule.Samples();
      if |held| > samples { held := held[|held| - samples..]; }
      windows := windows[rule.id := held];
      alarm := Judge(rule, held, value);
    }

    /** The statistics of the stored values, and the decision on them. */
    method Judge(rule: Rule, held: seq<real>, value: real) returns (alarm: Option<Alarm>)
      ensures alarm == Decide(rule, held, value, sqrt)
    {
      if |held| < MIN_SAMPLES { return None; }
      var n := |held| as real;
      var total := Total(held, Id());
      var mean := Quotient(total, n);
      assert mean == Mean(held);
      var squares := Total(held, Times(Minus(Id(), mean), Minus(Id(), mean)));
      var std := sqrt(Quotient(squares, n));
      assert std == sqrt(Variance(held));
      if std < 0.0000000001 { return None; }
      var z := Quotient(Size(value - mean), std);
      if z <= rule.Sigma() { return None; }
      return Some(Alarm(rule.id, value, Threshold(mean, rule.Sigma(), std)));
    }

    /** The store drops a list that was not pushed to for two hours. */
    method Expire(id: string)
      modifies this
      ensures windows == old(windows) - {id}
    {
      windows := windows - {id};
    }
  }

  method Total(w: seq<real>, f: real -> real) returns (total: real)
    ensures total == SumOf(w, f)
  {
    total := 0.0;
    for i := 0 to |w|
      invariant total == SumOf(w[..i], f)
    {
      assert w[..i + 1][..i] == w[..i];
      total := total + f(w[i]);
    }
    assert w[..|w|] == w;
  }

  function Pushed(windows: map<string, seq<real>>, rule: Rule, value: real): map<string, seq<real>> {
    var held := if rule.id in windows then windows[rule.id] else [];
    windows[rule.id := Last(held + [value], rule.Samples())]
  }

  // ---- Runs ----

  datatype Event = Evaluate(rule: Rule, value: real) | Expired(id: string)

  function Run(es: seq<Event>): map<string, seq<real>> {
    if es == [] then map[]
    else
      var before := Run(es[..|es| - 1]);
      match es[|es| - 1]
      case Evaluate(rule, value) => Pushed(before, rule, value)
      case Expired(id) => before - {id}
  }

  /** Everything evaluated under a rule since its list last expired. */
  function History(es: seq<Event>, id: string): seq<real> {
    if es == [] then []
    else
      var before := History(es[..|es| - 1], id);
      match es[|es| - 1]
      case Evaluate(rule, value) => if rule.id == id then before + [value] else before
      case Expired(other) => if other == id then [] else before
  }

  /** A rule keeps its definition during the run. */
  predicate Fixed(es: seq<Event>, rule: Rule) {
    forall i :: 0 <= i < |es| && es[i].Evaluate? && es[i].rule.id == rule.id ==> es[i].rule == rule
  }

  lemma LastSnoc(s: seq<real>, x: real, n: nat)
    requires n > 0
    ensures Last(Last(s, n) + [x], n) == Last(s + [x], n)
  {}

  /** After any run, a rule's window is exactly the last values evaluated under it. */
  lemma {:induction false} WindowIsLast(es: seq<Event>, rule: Rule)
    requires Fixed(es, rule)
    ensures History(es, rule.id) == [] <==> rule.id !in Run(es)
    ensures rule.id in Run(es) ==> Run(es)[rule.id] == Last(History(es, rule.id), rule.Samples())
  {
    if es != [] {
      var init, last := es[..|es| - 1], es[|es| - 1];
      assert forall i :: 0 <= i < |init| ==> init[i] == es[i];
      WindowIsLast(init, rule);
      if last.Evaluate? && last.rule.id == rule.id {
        LastSnoc(History(init, rule.id), last.value, rule.Samples());
      }
    }
  }

  // ---- No value is far from a window it is in ----

  lemma MeanIs(w: seq<real>)
    requires w != []
    ensures SumOf(w, Deviation(w)) == 0.0
    ensures Variance(w) * |w| as real == SumOf(w, Times(Deviation(w), Deviation(w))) && Variance(w) >= 0.0
  {
    Centred(w, Id(), Mean(w));
    SumOfSquares(w, Deviation(w));
    SignOfFactor(Variance(w), |w| as real, SumOf(w, Times(Deviation(w), Deviation(w))));
  }

  /** The square of a sum is at most the count times the sum of squares. */
  lemma {:induction false} SquareOfSum(w: seq<real>, f: real -> real, total: real, squares: real, q: real)
    requires total == SumOf(w, f) && squares == SumOf(w, Times(f, f)) && q == total * total
    ensures q <= |w| as real * squares
  {
    if |w| == 1 {
      assert w[..0] == [];
    } else if w != [] {
      var init, a := w[..|w| - 1], f(w[|w| - 1]);
      var s, sq := SumOf(init, f), SumOf(init, Times(f, f));
      SquareOfSum(init, f, s, sq, s * s);
      CauchyStep(|init| as real, s, sq, a, s * s, a * a);
      assert q == s * s + 2.0 * (s * a) + a * a;
      Grown(|init| as real, sq, a * a);
    }
  }

  lemma Grown(m: real, sq: real, aa: real)
    ensures (m + 1.0) * (sq + aa) == m * sq + sq + m * aa + aa
  {}

  lemma CauchyStep(m: real, s: real, sq: real, a: real, ss: real, aa: real)
    requires m >= 1.0 && ss == s * s && aa == a * a && ss <= m * sq
    ensures 2.0 * (s * a) <= sq + m * aa
  {
    var x := s - m * a;
    var xx := x * x;
    SquareSign(x, xx);
    assert xx == ss - 2.0 * m * (s * a) + m * m * aa;
    var gap := sq + m * aa - 2.0 * (s * a);
    assert gap * m == m * sq + m * m * aa - 2.0 * m * (s * a);
    SignOfFactor(gap, m, gap * m);
  }

  /** The squared deviation of the newest value is at most n - 1 times the variance. */
  lemma NewestIsNear(w: seq<real>, d: real, dd: real)
    requires w != [] && d == w[|w| - 1] - Mean(w) && dd == d * d
    ensures dd <= (|w| - 1) as real * Variance(w)
  {
    MeanIs(w);
    var init, dev := w[..|w| - 1], Deviation(w);
    var s, sq := SumOf(init, dev), SumOf(init, Times(dev, dev));
    assert dev(w[|w| - 1]) == d;
    assert s == -d;
    assert s * s == dd;
    SquareOfSum(init, dev, s, sq, dd);
    Near(|w| as real, dd, sq, Variance(w));
  }

  lemma Near(n: real, dd: real, sq: real, v: real)
    requires n >= 1.0 && dd <= (n - 1.0) * sq && v * n == sq + dd
    ensures dd <= (n - 1.0) * v
  {
    var gap := (n - 1.0) * v - dd;
    assert gap * n == (n - 1.0) * (v * n) - dd * n;
    assert (n - 1.0) * (v * n) == (n - 1.0) * sq + (n - 1.0) * dd;
    SignOfFactor(gap, n, gap * n);
  }

  /** The z-score passes the threshold, in squares. */
  lemma ZPasses(d: real, v: real, std: real, sigma: real, dd: real)
    requires std > 0.0 && std * std == v && dd == d * d
    ensures Quotient(Size(d), std) > sigma <==> sigma < 0.0 || sigma * sigma * v < dd
  {
    var z, a := Quotient(Size(d), std), Size(d);
    assert z * std == a;
    assert a * a == dd;
    SignOfFactor(z, std, a);
    if sigma >= 0.0 {
      assert (z - sigma) * std == a - sigma * std;
      SignOfFactor(z - sigma, std, a - sigma * std);
      SignOf(std, sigma);
      SquareOrder(sigma * std, a);
      assert sigma * std * (sigma * std) == sigma * sigma * v;
    }
  }

  lemma StdIs(v: real, sqrt: real -> real)
    requires IsRoot(sqrt) && v >= 0.0
    ensures sqrt(v) >= 0.0 && sqrt(v) * sqrt(v) == v
  {}

  /** What a decision on a window comes to, when there are enough values that are not all alike. */
  lemma DecideIs(rule: Rule, w: seq<real>, value: real, sqrt: real -> real, dd: real)
    requires IsRoot(sqrt) && w != [] && dd == (value - Mean(w)) * (value - Mean(w))
    ensures Decide(rule, w, value, sqrt).Some? <==>
      && |w| >= MIN_SAMPLES && sqrt(Variance(w)) >= 0.0000000001
      && (rule.Sigma() < 0.0 || rule.Sigma() * rule.Sigma() * Variance(w) < dd)
  {
    MeanIs(w);
    StdIs(Variance(w), sqrt);
    if sqrt(Variance(w)) >= 0.0000000001 {
      ZPasses(value - Mean(w), Variance(w), sqrt(Variance(w)), rule.Sigma(), dd);
    }
  }

  /**
   * What an alarm carries: the rule, the value, and a threshold that lies sigma deviations above the mean, on
   * the mean's far side when the value is low. A value above the mean has passed it, one below never has.
   */
  lemma AlarmCarries(rule: Rule, w: seq<real>, value: real, sqrt: real -> real)
    requires IsRoot(sqrt) && w != [] && Decide(rule, w, value, sqrt).Some? && rule.Sigma() >= 0.0
    ensures var a, d := Decide(rule, w, value, sqrt).value, value - Mean(w);
      var t := a.threshold - Mean(w);
      && a.ruleId == rule.id && a.value == value && t >= 0.0
      && t * t == rule.Sigma() * rule.Sigma() * Variance(w)
      && (d > 0.0 <==> value > a.threshold) && (d < 0.0 <==> value < Mean(w) - t)
  {
    MeanIs(w);
    StdIs(Variance(w), sqrt);
    Passes(value - Mean(w), sqrt(Variance(w)), rule.Sigma(), Variance(w));
  }

  lemma Passes(d: real, std: real, sigma: real, v: real)
    requires std > 0.0 && sigma >= 0.0 && std * std == v && Quotient(Size(d), std) > sigma
    ensures var t := sigma * std;
      t >= 0.0 && t * t == sigma * sigma * v && (d > 0.0 <==> d > t) && (d < 0.0 <==> d < -t)
  {
    var q, t := Quotient(Size(d), std), sigma * std;
    assert q * std == Size(d);
    SignOf(std, sigma);
    SignOf(std, q - sigma);
    assert (q - sigma) * std == Size(d) - t;
    assert t * t == sigma * sigma * (std * std);
  }

  /** An alarm on the newest value of a window of n needs sigma squared below n - 1. */
  lemma AlarmNeedsRoom(rule: Rule, w: seq<real>, sqrt: real -> real)
    requires IsRoot(sqrt) && w != [] && Decide(rule, w, w[|w| - 1], sqrt).Some? && rule.Sigma() >= 0.0
    ensures rule.Sigma() * rule.Sigma() < (|w| - 1) as real
  {
    var d := w[|w| - 1] - Mean(w);
    var dd, v := d * d, Variance(w);
    DecideIs(rule, w, w[|w| - 1], sqrt, dd);
    MeanIs(w);
    StdIs(v, sqrt);
    NewestIsNear(w, d, dd);
    Room(rule.Sigma() * rule.Sigma(), v, (|w| - 1) as real, dd);
  }

  lemma Room(q: real, v: real, m: real, dd: real)
    requires v >= 0.0 && q * v < dd && dd <= m * v
    ensures q < m
  {
    assert (m - q) * v == m * v - q * v;
    if v > 0.0 { SignOfFactor(m - q, v, m * v - q * v); }
  }

  // ---- A spike after a flat history is as far as a value can be ----

  function Spike(n: nat): seq<real>
    requires n > 0
  {
    Flat(n - 1) + [n as real]
  }

  function Flat(n: nat): (r: seq<real>)
    ensures |r| == n && forall i :: 0 <= i < n ==> r[i] == 0.0
  {
    seq(n, i => 0.0)
  }

  lemma {:induction false} FlatSum(w: seq<real>, f: real -> real, c: real)
    requires forall i :: 0 <= i < |w| ==> f(w[i]) == c
    ensures SumOf(w, f) == |w| as real * c
  {
    if w != [] {
      FlatSum(w[..|w| - 1], f, c);
      Distribute(c, (|w| - 1) as real, 1.0);
    }
  }

  lemma SpikeSum(n: nat, f: real -> real, low: real, high: real)
    requires n > 0 && f(0.0) == low && f(n as real) == high
    ensures SumOf(Spike(n), f) == (n - 1) as real * low + high
  {
    var w, flat := Spike(n), Flat(n - 1);
    assert w[..n - 1] == flat && w[n - 1] == n as real;
    FlatSum(flat, f, low);
  }

  lemma SpikeMoments(n: nat)
    requires n > 0
    ensures Mean(Spike(n)) == 1.0 && Variance(Spike(n)) == (n - 1) as real
  {
    var w, m := Spike(n), (n - 1) as real;
    SpikeSum(n, Id(), 0.0, n as real);
    FractionUnique(SumOf(w, Id()), n as real, 1.0);
    SpikeSum(n, Times(Deviation(w), Deviation(w)), 1.0, m * m);
    SpikeSquares(n as real, m);
    FractionUnique(SumOf(w, Times(Deviation(w), Deviation(w))), n as real, m);
  }

  lemma SpikeSquares(n: real, m: real)
    requires n == m + 1.0
    ensures m * 1.0 + m * m == m * n
  {}

  /** The bound is sharp: a spike raises the alarm exactly when sigma leaves room for one. */
  lemma SpikeAlarmsIff(rule: Rule, n: nat, sqrt: real -> real)
    requires IsRoot(sqrt) && n >= MIN_SAMPLES
    ensures Decide(rule, Spike(n), n as real, sqrt).Some? <==>
      rule.Sigma() < 0.0 || rule.Sigma() * rule.Sigma() < (n - 1) as real
  {
    var m, sigma := (n - 1) as real, rule.Sigma();
    SpikeMoments(n);
    StdIs(m, sqrt);
    if sqrt(m) < 1.0 { SquareOrder(sqrt(m), 1.0); }
    assert n as real - Mean(Spike(n)) == m;
    DecideIs(rule, Spike(n), n as real, sqrt, m * m);
    assert (m - sigma * sigma) * m == m * m - sigma * sigma * m;
    SignOfFactor(m - sigma * sigma, m, m * m - sigma * sigma * m);
  }

  // ---- Alarms over runs ----

  /** What evaluating a value under a rule answers after a run. */
  function Outcome(es: seq<Event>, rule: Rule, value: real, sqrt: real -> real): Option<Alarm> {
    Decide(rule, Pushed(Run(es), rule, value)[rule.id], value, sqrt)
  }

  lemma OutcomeIs(es: seq<Event>, rule: Rule, value: real, sqrt: real -> real)
    requires Fixed(es, rule)
    ensures var w := Last(History(es, rule.id) + [value], rule.Samples());
      Pushed(Run(es), rule, value)[rule.id] == w && w != [] && w[|w| - 1] == value
  {
    WindowIsLast(es, rule);
    LastSnoc(History(es, rule.id), value, rule.Samples());
    assert [] + [value] == [value];
  }

  /** No alarm before there is room for it: the samples in the window less one must exceed sigma squared. */
  lemma NoAlarmWithoutRoom(es: seq<Event>, rule: Rule, value: real, sqrt: real -> real)
    requires IsRoot(sqrt) && Fixed(es, rule) && rule.Sigma() >= 0.0
    ensures Outcome(es, rule, value, sqrt).Some? ==>
      && rule.Sigma() * rule.Sigma() < |History(es, rule.id)| as real
      && rule.Sigma() * rule.Sigma() < (rule.Samples() - 1) as real
  {
    OutcomeIs(es, rule, value, sqrt);
    if Outcome(es, rule, value, sqrt).Some? {
      AlarmNeedsRoom(rule, Last(History(es, rule.id) + [value], rule.Samples()), sqrt);
    }
  }

  function Evaluations(rule: Rule, s: seq<real>): seq<Event> {
    seq(|s|, i requires 0 <= i < |s| => Evaluate(rule, s[i]))
  }

  lemma {:induction false} EvaluationsHistory(rule: Rule, s: seq<real>)
    ensures History(Evaluations(rule, s), rule.id) == s && Fixed(Evaluations(rule, s), rule)
  {
    if s != [] {
      assert Evaluations(rule, s)[..|s| - 1] == Evaluations(rule, s[..|s| - 1]);
      EvaluationsHistory(rule, s[..|s| - 1]);
    }
  }

  /** Some run of a rule alarms. */
  ghost predicate CanAlarm(rule: Rule, sqrt: real -> real) {
    exists es, value :: Fixed(es, rule) && Outcome(es, rule, value, sqrt).Some?
  }

  /** Exactly when a rule can ever alarm: its sigma squared is below its window less one. */
  lemma CanAlarmIff(rule: Rule, sqrt: real -> real)
    requires IsRoot(sqrt)
    ensures CanAlarm(rule, sqrt) <==>
      rule.Sigma() < 0.0 || rule.Sigma() * rule.Sigma() < (rule.Samples() - 1) as real
  {
    var k := rule.Samples();
    if CanAlarm(rule, sqrt) && rule.Sigma() >= 0.0 {
      var es: seq<Event>, value: real :| Fixed(es, rule) && Outcome(es, rule, value, sqrt).Some?;
      NoAlarmWithoutRoom(es, rule, value, sqrt);
    }
    if rule.Sigma() < 0.0 || rule.Sigma() * rule.Sigma() < (k - 1) as real {
      var es := Evaluations(rule, Spike(k)[..k - 1]);
      EvaluationsHistory(rule, Spike(k)[..k - 1]);
      OutcomeIs(es, rule, k as real, sqrt);
      assert Spike(k)[..k - 1] + [k as real] == Spike(k);
      SpikeAlarmsIff(rule, k, sqrt);
      assert Outcome(es, rule, k as real, sqrt).Some?;
    }
  }

  /** A five-minute rule at eighteen deviations is silent for ever. */
  lemma SilentRule(rule: Rule, sqrt: real -> real)
    requires IsRoot(sqrt) && rule.window == Some("5m") && rule.sigma.Some? && rule.sigma.value >= 18.0
    ensures !CanAlarm(rule, sqrt)
  {
    CanAlarmIff(rule, sqrt);
    SquareOrder(18.0, rule.sigma.value);
  }

  /** An unknown or missing window lasts an hour and a missing sigma is three, so such a rule can alarm. */
  lemma DefaultsCanAlarm(rule: Rule, sqrt: real -> real, sigma: real)
    requires IsRoot(sqrt) && (rule.window.Some? ==> rule.window.value !in WINDOW_SAMPLES || rule.window == Some("1h"))
    requires sigma == (if rule.sigma.Some? then rule.sigma.value else 3.0)
    ensures CanAlarm(rule, sqrt) <==> sigma < 0.0 || sigma * sigma < 3599.0
  {
    var s, room := rule.Sigma(), rule.Samples() - 1;
    assert "1h" != "6h" && "1h" != "24h" && WINDOW_SAMPLES["1h"] == 3600;
    assert s == sigma && room == 3599;
    CanAlarmIff(rule, sqrt);
    assert CanAlarm(rule, sqrt) <==> s < 0.0 || s * s < room as real;
    assert s * s == sigma * sigma;
    assert room as real == 3599.0;
  }
}
