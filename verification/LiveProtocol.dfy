/** Client and hub together, over every mix of subscribe, unsubscribe, delivery, loss and reconnect. */
module LiveProtocol {
  import opened Options
  import opened LiveClient
  import opened LiveHub

  datatype State = State(
    client: Client,
    hub: Sockets,
    gone: set<nat>,                     // sockets whose hub entry was removed; it never comes back
    subs: seq<Option<seq<string>>>)     // every subscription made, None once unsubscribed

  datatype Event =
    | Start | Stop
    | Sub(topics: seq<string>) | Unsub(sub: nat)
    | Token(waiting: nat, ok: bool) | Timer
    | Opens(socket: nat, keys: seq<string>) | Closes(socket: nat)
    | Accepts(socket: nat) | Receives(socket: nat) | HubDrops(socket: nat)

  const Init := State(Client(map[], None, 0, true, None, [], []), map[], {}, [])

  ghost predicate Enabled(s: State, e: Event) {
    var c := s.client;
    match e
    case Start => true
    case Stop => true
    case Sub(_) => true
    case Unsub(i) => i < |s.subs| && s.subs[i].Some?
    case Token(k, _) => k < |c.pending|
    case Timer => c.timer.Some?
    case Opens(k, keys) => k < |c.sockets| && c.sockets[k].ready.Connecting? && Lists(keys, c.topics.Keys)
    case Closes(k) => k < |c.sockets| && !c.sockets[k].ready.Closed?
    case Accepts(k) => k < |c.sockets| && k !in s.hub && k !in s.gone
    case Receives(k) => k < |c.sockets| && k in s.hub && c.sockets[k].queue != []
    case HubDrops(k) => k in s.hub
  }

  function Popped(c: Client, k: nat): Client
    requires k < |c.sockets| && c.sockets[k].queue != []
  {
    c.(sockets := c.sockets[k := c.sockets[k].(queue := c.sockets[k].queue[1..])])
  }

  ghost function Next(s: State, e: Event, wf: string -> bool): State {
    if !Enabled(s, e) then s
    else
      var c := s.client;
      match e
      case Start => s.(client := Started(c))
      case Stop => s.(client := Stopped(c))
      case Sub(ts) => s.(client := Subscribed(c, ts), subs := s.subs + [Some(ts)])
      case Unsub(i) => s.(client := Unsubscribed(c, s.subs[i].value), subs := s.subs[i := None])
      case Token(k, ok) => s.(client := if ok then TokenArrived(c, k) else TokenFailed(c, k))
      case Timer => s.(client := TimerFired(c))
      case Opens(k, keys) => s.(client := Opened(c, k, keys))
      case Closes(k) => s.(client := SocketClosed(c, k))
      case Accepts(k) => s.(hub := s.hub[k := {}])
      case Receives(k) => s.(client := Popped(c, k), hub := Handled(s.hub, k, c.sockets[k].queue[0], wf))
      case HubDrops(k) => s.(hub := s.hub - {k}, gone := s.gone + {k})
  }

  ghost function Run(es: seq<Event>, wf: string -> bool): State {
    if es == [] then Init else Next(Run(es[..|es| - 1], wf), es[|es| - 1], wf)
  }

  // ---- Reference counts ----

  function Occurs(ts: seq<string>, t: string): nat
    decreases |ts|
  {
    if ts == [] then 0 else Occurs(ts[..|ts| - 1], t) + (if ts[|ts| - 1] == t then 1 else 0)
  }

  function CountOf(topics: map<string, nat>, t: string): nat {
    if t in topics then topics[t] else 0
  }

  predicate Positive(topics: map<string, nat>) {
    forall t :: t in topics ==> topics[t] > 0
  }

  /** Times the live subscriptions name the topic. */
  function Total(subs: seq<Option<seq<string>>>, t: string): nat {
    if subs == [] then 0
    else Total(subs[..|subs| - 1], t) + (match subs[|subs| - 1] case None => 0 case Some(ts) => Occurs(ts, t))
  }

  lemma {:induction false} TotalUpdate(subs: seq<Option<seq<string>>>, i: nat, t: string)
    requires i < |subs| && subs[i].Some?
    ensures Total(subs, t) == Total(subs[i := None], t) + Occurs(subs[i].value, t)
    decreases |subs|
  {
    var n := |subs| - 1;
    if i < n {
      assert subs[i := None][..n] == subs[..n][i := None];
      TotalUpdate(subs[..n], i, t);
    } else {
      assert subs[i := None][..n] == subs[..n];
    }
  }

  lemma {:induction false} BumpFacts(topics: map<string, nat>, ts: seq<string>)
    requires Positive(topics)
    ensures var (m, added) := Bump(topics, ts);
      && Positive(m)
      && (forall t :: CountOf(m, t) == CountOf(topics, t) + Occurs(ts, t))
      && (forall t :: t in added <==> t in m && t !in topics)
      && topics.Keys <= m.Keys
    decreases |ts|
  {
    if ts != [] { BumpFacts(topics, ts[..|ts| - 1]); }
  }

  lemma {:induction false} DropFacts(topics: map<string, nat>, ts: seq<string>)
    requires Positive(topics) && forall t :: Occurs(ts, t) <= CountOf(topics, t)
    ensures var (m, removed) := Drop(topics, ts);
      && Positive(m)
      && (forall t :: CountOf(m, t) == CountOf(topics, t) - Occurs(ts, t))
      && (forall t :: t in removed <==> t in topics && t !in m)
      && m.Keys <= topics.Keys
    decreases |ts|
  {
    if ts != [] {
      var n := |ts| - 1;
      assert forall t :: Occurs(ts[..n], t) <= Occurs(ts, t);
      DropFacts(topics, ts[..n]);
      var (m, removed) := Drop(topics, ts[..n]);
      assert Occurs(ts, ts[n]) == Occurs(ts[..n], ts[n]) + 1;
      assert CountOf(m, ts[n]) > 0;
    }
  }

  /** Topics nobody holds stay unheld when released once more, and are all given up again. */
  lemma {:induction false} UnheldStayUnheld(topics: map<string, nat>, ts: seq<string>)
    requires forall t :: t in ts ==> t !in topics
    ensures Drop(topics, ts) == (topics, ts)
    decreases |ts|
  {
    if ts != [] {
      var n := |ts| - 1;
      UnheldStayUnheld(topics, ts[..n]);
      assert topics - {ts[n]} == topics && ts[..n] + [ts[n]] == ts;
    }
  }

  // ---- The invariant ----

  function ApplyAll(held: set<string>, queue: seq<Request>, wf: string -> bool): set<string>
    decreases |queue|
  {
    if queue == [] then held else ApplyAll(Applied(held, queue[0], wf), queue[1..], wf)
  }

  lemma {:induction false} ApplySnoc(held: set<string>, queue: seq<Request>, r: Request, wf: string -> bool)
    ensures ApplyAll(held, queue + [r], wf) == Applied(ApplyAll(held, queue, wf), r, wf)
    decreases |queue|
  {
    if queue == [] {
      assert [r][1..] == [];
    } else {
      assert (queue + [r])[1..] == queue[1..] + [r];
      ApplySnoc(Applied(held, queue[0], wf), queue[1..], r, wf);
    }
  }

  function Wanted(topics: map<string, nat>, wf: string -> bool): set<string> {
    set t | t in topics && wf(t)
  }

  function Held(hub: Sockets, k: nat): set<string> {
    if k in hub then hub[k] else {}
  }

  /** What the hub will hold once it has read everything sent on this socket. */
  function Eventually(s: State, k: nat, wf: string -> bool): set<string>
    requires k < |s.client.sockets|
  {
    ApplyAll(Held(s.hub, k), s.client.sockets[k].queue, wf)
  }

  predicate Mirrored(s: State, wf: string -> bool) {
    var c := s.client;
    CanSend(c) && c.ws.value !in s.gone ==> Eventually(s, c.ws.value, wf) == Wanted(c.topics, wf)
  }

  ghost predicate Fresh(s: State) {
    var c := s.client;
    && (forall k :: 0 <= k < |c.sockets| && c.sockets[k].ready.Connecting? ==>
          c.sockets[k].queue == [] && Held(s.hub, k) == {})
    && (forall k :: k in s.hub || k in s.gone ==> k < |c.sockets|)
    && (c.ws.Some? ==> c.ws.value < |c.sockets|)
  }

  ghost predicate Counted(s: State) {
    Positive(s.client.topics) && forall t :: CountOf(s.client.topics, t) == Total(s.subs, t)
  }

  ghost predicate Inv(s: State, wf: string -> bool) {
    Mirrored(s, wf) && Fresh(s) && Counted(s)
  }

  /** Sending a request keeps the mirror when it makes exactly the change the topic map made. */
  lemma SendMirrors(s: State, c: Client, r: Request, wf: string -> bool)
    requires Mirrored(s, wf) && Fresh(s) && c == s.client.(topics := c.topics)
    requires Applied(Wanted(s.client.topics, wf), r, wf) == Wanted(c.topics, wf)
    requires r.topics == [] ==> Wanted(s.client.topics, wf) == Wanted(c.topics, wf)
    ensures var t := s.(client := Sent(c, r)); Mirrored(t, wf) && Fresh(t)
  {
    if CanSend(c) && r.topics != [] {
      var k := c.ws.value;
      ApplySnoc(Held(s.hub, k), c.sockets[k].queue, r, wf);
    }
  }

  lemma InvSub(s: State, ts: seq<string>, wf: string -> bool)
    requires Inv(s, wf)
    ensures Inv(Next(s, Sub(ts), wf), wf)
  {
    var t := Next(s, Sub(ts), wf);
    var (m, added) := Bump(s.client.topics, ts);
    BumpFacts(s.client.topics, ts);
    assert Accepted(added, wf) == Wanted(m, wf) - Wanted(s.client.topics, wf);
    SendMirrors(s, s.client.(topics := m), Request.Subscribe(added), wf);
    assert t.subs[..|t.subs| - 1] == s.subs;
  }

  lemma InvUnsub(s: State, i: nat, wf: string -> bool)
    requires Inv(s, wf) && Enabled(s, Unsub(i))
    ensures Inv(Next(s, Unsub(i), wf), wf)
  {
    var t := Next(s, Unsub(i), wf);
    var ts := s.subs[i].value;
    forall x ensures Occurs(ts, x) + Total(t.subs, x) == CountOf(s.client.topics, x) { TotalUpdate(s.subs, i, x); }
    var (m, removed) := Drop(s.client.topics, ts);
    DropFacts(s.client.topics, ts);
    assert Accepted(removed, wf) == Wanted(s.client.topics, wf) - Wanted(m, wf);
    assert Wanted(s.client.topics, wf) - Accepted(removed, wf) == Wanted(m, wf);
    SendMirrors(s, s.client.(topics := m), Request.Unsubscribe(removed), wf);
  }

  lemma InvOpens(s: State, k: nat, keys: seq<string>, wf: string -> bool)
    requires Inv(s, wf) && Enabled(s, Opens(k, keys))
    ensures Inv(Next(s, Opens(k, keys), wf), wf)
  {
    var c, t := s.client, Next(s, Opens(k, keys), wf);
    assert Accepted(keys, wf) == Wanted(c.topics, wf);
    if c.ws == Some(k) {
      ApplySnoc({}, [], Request.Subscribe(keys), wf);
      assert {} + Wanted(c.topics, wf) == Wanted(c.topics, wf);
      if keys == [] { assert c.topics.Keys == {}; }
      assert Held(s.hub, k) == {} && c.sockets[k].queue == [];
      if keys != [] { assert t.client.sockets[k].queue == [] + [Request.Subscribe(keys)]; }
    } else if CanSend(c) && keys != [] {
      var j := c.ws.value;
      ApplySnoc(Held(s.hub, j), c.sockets[j].queue, Request.Subscribe(keys), wf);
      assert Wanted(c.topics, wf) + Wanted(c.topics, wf) == Wanted(c.topics, wf);
    }
  }

  lemma InvReceives(s: State, k: nat, wf: string -> bool)
    requires Inv(s, wf) && Enabled(s, Receives(k))
    ensures Inv(Next(s, Receives(k), wf), wf)
  {
    var t := Next(s, Receives(k), wf);
    assert forall j :: j in t.hub <==> j in s.hub;
  }

  lemma InvStep(s: State, e: Event, wf: string -> bool)
    requires Inv(s, wf)
    ensures Inv(Next(s, e, wf), wf)
  {
    if Enabled(s, e) {
      match e
      case Sub(ts) => InvSub(s, ts, wf);
      case Unsub(i) => InvUnsub(s, i, wf);
      case Opens(k, keys) => InvOpens(s, k, keys, wf);
      case Receives(k) => InvReceives(s, k, wf);
      case _ =>
    }
  }

  lemma {:induction false} InvRun(es: seq<Event>, wf: string -> bool)
    ensures Inv(Run(es, wf), wf)
    decreases |es|
  {
    if es != [] {
      InvRun(es[..|es| - 1], wf);
      InvStep(Run(es[..|es| - 1], wf), es[|es| - 1], wf);
    }
  }

  /**
   * In every run, with the current socket open and still known to the hub: the hub's set after the
   * messages in flight is exactly the client's well-formed topics.
   */
  lemma HubMirrorsClient(es: seq<Event>, wf: string -> bool)
    ensures var s := Run(es, wf); var c := s.client;
      CanSend(c) && c.ws.value !in s.gone ==> Eventually(s, c.ws.value, wf) == Wanted(c.topics, wf)
  {
    InvRun(es, wf);
  }

  /** Nothing of a stopped client is on its way: no timer, no socket of its own, no connect it still waits for. */
  predicate Quiet(c: Client) {
    && (forall i :: 0 <= i < |c.pending| ==> c.pending[i] <= c.generation)
    && (c.timer.Some? ==> c.timer.value <= c.generation)
    && (c.stopped ==> c.timer.None? && c.ws.None? && forall i :: 0 <= i < |c.pending| ==> c.pending[i] != c.generation)
  }

  /** In every run, from `stop` to the next `start`. */
  lemma {:induction false} StoppedIsQuiet(es: seq<Event>, wf: string -> bool)
    ensures Quiet(Run(es, wf).client)
    decreases |es|
  {
    if es != [] {
      var n := |es| - 1;
      StoppedIsQuiet(es[..n], wf);
      QuietStep(Run(es[..n], wf), es[n], wf);
    }
  }

  lemma QuietStep(s: State, e: Event, wf: string -> bool)
    requires Quiet(s.client)
    ensures Quiet(Next(s, e, wf).client)
  {
    if Enabled(s, e) {
      match e
      case Token(k, ok) =>
        var w := Without(s.client.pending, k);
        assert forall i :: 0 <= i < |w| ==> w[i] == s.client.pending[if i < k then i else i + 1];
      case _ =>
    }
  }

  /** In every run a topic is kept exactly while live subscriptions name it, with their number as its count. */
  lemma CountsLiveSubscriptions(es: seq<Event>, wf: string -> bool, t: string)
    ensures var s := Run(es, wf);
      && (t in s.client.topics <==> Total(s.subs, t) > 0)
      && (t in s.client.topics ==> s.client.topics[t] == Total(s.subs, t))
  {
    InvRun(es, wf);
    assert CountOf(Run(es, wf).client.topics, t) == Total(Run(es, wf).subs, t);
  }

  /** With nothing in flight, a live message reaches the current socket exactly when a subscription wants it. */
  lemma DeliveredWhenWanted(es: seq<Event>, wf: string -> bool, topic: string)
    ensures var s := Run(es, wf); var c := s.client;
      CanSend(c) && c.ws.value in s.hub && c.ws.value !in s.gone && c.sockets[c.ws.value].queue == [] ==>
        (c.ws.value in Targets(s.hub, topic) <==> wf(topic) && Total(s.subs, topic) > 0)
  {
    InvRun(es, wf);
    CountsLiveSubscriptions(es, wf, topic);
  }

  // ---- One socket at a time ----

  function Copies(s: seq<nat>, g: nat): nat {
    if s == [] then 0 else (if s[0] == g then 1 else 0) + Copies(s[1..], g)
  }

  lemma {:induction false} CopiesWithout(s: seq<nat>, k: nat, g: nat)
    requires k < |s|
    ensures Copies(s, g) == Copies(Without(s, k), g) + (if s[k] == g then 1 else 0)
    decreases |s|
  {
    var w := Without(s, k);
    if k == 0 {
      assert w == s[1..];
    } else {
      assert w[1..] == Without(s[1..], k - 1) && w[0] == s[0];
      CopiesWithout(s[1..], k - 1, g);
    }
  }

  lemma {:induction false} CopiesSnoc(s: seq<nat>, x: nat, g: nat)
    ensures Copies(s + [x], g) == Copies(s, g) + (if x == g then 1 else 0)
    decreases |s|
  {
    if s == [] {
      assert [x][1..] == [] && s + [x] == [x];
    } else {
      assert (s + [x])[1..] == s[1..] + [x];
      CopiesSnoc(s[1..], x, g);
    }
  }

  lemma {:induction false} NoCopies(s: seq<nat>, g: nat)
    requires forall i :: 0 <= i < |s| ==> s[i] < g
    ensures Copies(s, g) == 0
    decreases |s|
  {
    if s != [] { NoCopies(s[1..], g); }
  }

  predicate Live(c: Client, k: nat)
    requires k < |c.sockets|
  {
    c.sockets[k].ready.Connecting? || c.sockets[k].ready.Open?
  }

  /** Ways the current generation is connected or still trying to be. */
  function Attempts(c: Client): nat {
    (if c.ws.Some? then 1 else 0) + (if c.timer == Some(c.generation) then 1 else 0) + Copies(c.pending, c.generation)
  }

  predicate Single(c: Client) {
    && Attempts(c) == (if c.stopped then 0 else 1)
    && (forall k :: 0 <= k < |c.sockets| && Live(c, k) ==> c.ws == Some(k))
    && (c.ws.Some? ==> c.ws.value < |c.sockets| && Live(c, c.ws.value))
    && (forall i :: 0 <= i < |c.pending| ==> c.pending[i] <= c.generation)
    && (c.timer.Some? ==> c.timer.value <= c.generation)
  }

  /** Started only with no socket, and no reconnect scheduled by a token that a newer connect replaced. */
  predicate Calm(c: Client, e: Event) {
    match e
    case Start => c.stopped || c.ws.None?
    case Token(k, ok) =>
      ok || c.stopped || c.timer == Some(c.generation) || (k < |c.pending| && c.pending[k] == c.generation)
    case _ => true
  }

  lemma SingleStart(s: State, wf: string -> bool)
    requires Single(s.client)
    ensures Single(Next(s, Start, wf).client) <==> Calm(s.client, Start)
  {
    var c, d := s.client, Next(s, Start, wf).client;
    NoCopies(c.pending, d.generation);
    CopiesSnoc(c.pending, d.generation, d.generation);
    assert d.sockets == c.sockets;
  }

  lemma SingleStop(s: State, wf: string -> bool)
    requires Single(s.client)
    ensures Single(Next(s, Stop, wf).client)
  {
    NoCopies(s.client.pending, s.client.generation + 1);
  }

  lemma SingleToken(s: State, k: nat, ok: bool, wf: string -> bool)
    requires Single(s.client) && k < |s.client.pending|
    ensures Single(Next(s, Token(k, ok), wf).client) <==> Calm(s.client, Token(k, ok))
  {
    var c, d := s.client, Next(s, Token(k, ok), wf).client;
    CopiesWithout(c.pending, k, c.generation);
    assert forall i :: 0 <= i < |d.pending| ==> d.pending[i] == c.pending[if i < k then i else i + 1];
    if ok && c.pending[k] == c.generation {
      assert Live(d, |c.sockets|);
      assert forall j :: 0 <= j < |c.sockets| ==> Live(d, j) == Live(c, j);
    } else {
      assert d.sockets == c.sockets;
    }
  }

  lemma SingleTimer(s: State, wf: string -> bool)
    requires Single(s.client) && s.client.timer.Some?
    ensures Single(Next(s, Timer, wf).client)
  {
    CopiesSnoc(s.client.pending, s.client.timer.value, s.client.generation);
  }

  /** Sending leaves every socket in the state it was in. */
  lemma SingleSent(c: Client, r: Request)
    requires Single(c)
    ensures Single(Sent(c, r))
  {
    var d := Sent(c, r);
    assert forall k :: 0 <= k < |c.sockets| ==> d.sockets[k].ready == c.sockets[k].ready;
  }

  lemma SingleOther(s: State, e: Event, wf: string -> bool)
    requires Single(s.client) && Enabled(s, e) && !e.Start? && !e.Stop? && !e.Token? && !e.Timer?
    ensures Single(Next(s, e, wf).client)
  {
    var c, d := s.client, Next(s, e, wf).client;
    match e
    case Sub(ts) => SingleSent(c.(topics := Bump(c.topics, ts).0), Request.Subscribe(Bump(c.topics, ts).1));
    case Unsub(i) =>
      var ts := s.subs[i].value;
      SingleSent(c.(topics := Drop(c.topics, ts).0), Request.Unsubscribe(Drop(c.topics, ts).1));
    case Opens(k, keys) => SingleOpens(c, k, keys);
    case Closes(k) => SingleCloses(c, k);
    case Receives(k) =>
      assert forall j :: 0 <= j < |c.sockets| ==> Live(d, j) == Live(c, j);
    case _ =>
  }

  lemma SingleOpens(c: Client, k: nat, keys: seq<string>)
    requires Single(c) && k < |c.sockets| && c.sockets[k].ready.Connecting?
    ensures Single(Opened(c, k, keys))
  {
    var open := c.(sockets := c.sockets[k := c.sockets[k].(ready := Open)]);
    assert forall j :: 0 <= j < |c.sockets| ==> Live(open, j) == Live(c, j);
    SingleSent(open, Request.Subscribe(keys));
  }

  lemma SingleCloses(c: Client, k: nat)
    requires Single(c) && k < |c.sockets|
    ensures Single(SocketClosed(c, k))
  {
    var d := SocketClosed(c, k);
    assert forall j :: 0 <= j < |c.sockets| && Live(d, j) ==> Live(c, j) && j != k;
  }

  /** Exactly which steps keep at most one live socket, the current one, with one attempt in progress. */
  lemma SingleStep(s: State, e: Event, wf: string -> bool)
    requires Single(s.client) && Enabled(s, e)
    ensures Single(Next(s, e, wf).client) <==> Calm(s.client, e)
  {
    match e
    case Start => SingleStart(s, wf);
    case Stop => SingleStop(s, wf);
    case Token(k, ok) => SingleToken(s, k, ok, wf);
    case Timer => SingleTimer(s, wf);
    case _ => SingleOther(s, e, wf);
  }

  ghost predicate CalmRun(es: seq<Event>, wf: string -> bool) {
    forall i :: 0 <= i < |es| ==> Calm(Run(es[..i], wf).client, es[i])
  }

  /** A calm run never has two sockets connecting or open. */
  lemma {:induction false} OneSocketAtATime(es: seq<Event>, wf: string -> bool)
    requires CalmRun(es, wf)
    ensures var c := Run(es, wf).client;
      && Single(c)
      && forall j, k :: 0 <= j < |c.sockets| && 0 <= k < |c.sockets| && Live(c, j) && Live(c, k) ==> j == k
    decreases |es|
  {
    if es != [] {
      var n := |es| - 1;
      forall i | 0 <= i < n ensures Calm(Run(es[..n][..i], wf).client, es[..n][i]) { assert es[..n][..i] == es[..i]; }
      OneSocketAtATime(es[..n], wf);
      if Enabled(Run(es[..n], wf), es[n]) { SingleStep(Run(es[..n], wf), es[n], wf); }
    }
  }

  // ---- The steps that can end in two sockets ----

  predicate TwoLive(c: Client) {
    exists j, k :: 0 <= j < k < |c.sockets| && Live(c, j) && Live(c, k)
  }

  ghost function RunFrom(s: State, es: seq<Event>, wf: string -> bool): State
    decreases |es|
  {
    if es == [] then s else RunFrom(Next(s, es[0], wf), es[1..], wf)
  }

  /** Tokens that arrive and timers that fire: what happens by itself. */
  predicate Arriving(es: seq<Event>) {
    forall i :: 0 <= i < |es| ==> es[i].Timer? || (es[i].Token? && es[i].ok)
  }

  ghost predicate Safe(s: State, wf: string -> bool) {
    forall es :: Arriving(es) ==> !TwoLive(RunFrom(s, es, wf).client)
  }

  lemma {:induction false} SingleIsSafe(s: State, es: seq<Event>, wf: string -> bool)
    requires Single(s.client) && Arriving(es)
    ensures !TwoLive(RunFrom(s, es, wf).client)
    decreases |es|
  {
    if es != [] {
      assert es[0].Timer? || (es[0].Token? && es[0].ok);
      if Enabled(s, es[0]) { SingleStep(s, es[0], wf); }
      assert forall i :: 0 <= i < |es| - 1 ==> es[1..][i] == es[i + 1];
      SingleIsSafe(Next(s, es[0], wf), es[1..], wf);
    }
  }

  /** The token of a connect of the current generation opens a socket, and closes none. */
  lemma OpensAnother(s: State, k: nat, wf: string -> bool)
    requires k < |s.client.pending| && s.client.pending[k] == s.client.generation
    ensures var c, d := s.client, Next(s, Token(k, true), wf).client;
      && |d.sockets| == |c.sockets| + 1 && Live(d, |c.sockets|)
      && (forall j :: 0 <= j < |c.sockets| ==> Live(d, j) == Live(c, j))
      && d.generation == c.generation && d.timer == c.timer
  {}

  /** With a socket live already, it is the second. */
  lemma SecondSocket(s: State, k: nat, j: nat, wf: string -> bool)
    requires k < |s.client.pending| && s.client.pending[k] == s.client.generation
    requires j < |s.client.sockets| && Live(s.client, j)
    ensures TwoLive(Next(s, Token(k, true), wf).client)
  {
    OpensAnother(s, k, wf);
    assert Live(Next(s, Token(k, true), wf).client, j);
  }

  /** So does a timer of the current generation, once its token has come. */
  lemma TimerOpensSecond(s: State, j: nat, wf: string -> bool) returns (es: seq<Event>)
    requires s.client.timer == Some(s.client.generation)
    requires j < |s.client.sockets| && Live(s.client, j)
    ensures Arriving(es) && TwoLive(RunFrom(s, es, wf).client)
  {
    var k, t := |s.client.pending|, Next(s, Timer, wf);
    es := [Timer, Token(k, true)];
    assert t.client.pending[k] == t.client.generation && Live(t.client, j);
    SecondSocket(t, k, j, wf);
    RunsTwo(s, es, wf);
  }

  lemma RunsOne(s: State, es: seq<Event>, wf: string -> bool)
    requires |es| == 1
    ensures RunFrom(s, es, wf) == Next(s, es[0], wf)
  {}

  lemma RunsTwo(s: State, es: seq<Event>, wf: string -> bool)
    requires |es| == 2
    ensures RunFrom(s, es, wf) == Next(Next(s, es[0], wf), es[1], wf)
  {
    RunsOne(Next(s, es[0], wf), es[1..], wf);
  }

  lemma {:induction false} CopyIsThere(s: seq<nat>, g: nat) returns (i: nat)
    requires Copies(s, g) > 0
    ensures i < |s| && s[i] == g
    decreases |s|
  {
    if s[0] == g {
      i := 0;
    } else {
      i := CopyIsThere(s[1..], g);
      i := i + 1;
    }
  }

  lemma StartOpensTwo(s: State, wf: string -> bool) returns (es: seq<Event>)
    requires Single(s.client) && !Calm(s.client, Start)
    ensures Arriving(es) && TwoLive(RunFrom(Next(s, Start, wf), es, wf).client)
  {
    var k, t := |s.client.pending|, Next(s, Start, wf);
    es := [Token(k, true)];
    assert t.client.pending[k] == t.client.generation && Live(t.client, s.client.ws.value);
    SecondSocket(t, k, s.client.ws.value, wf);
    RunsOne(t, es, wf);
  }

  lemma FailureOpensTwo(s: State, k: nat, wf: string -> bool) returns (es: seq<Event>)
    requires Single(s.client) && k < |s.client.pending| && !Calm(s.client, Token(k, false))
    ensures Arriving(es) && TwoLive(RunFrom(Next(s, Token(k, false), wf), es, wf).client)
  {
    var c, t := s.client, Next(s, Token(k, false), wf);
    if c.ws.Some? {
      assert Live(t.client, c.ws.value);
      es := TimerOpensSecond(t, c.ws.value, wf);
    } else {
      CopiesWithout(c.pending, k, c.generation);
      var i := CopyIsThere(t.client.pending, c.generation);
      OpensAnother(t, i, wf);
      var u := Next(t, Token(i, true), wf);
      es := TimerOpensSecond(u, |c.sockets|, wf);
      ConsRuns(t, Token(i, true), es, wf);
      es := [Token(i, true)] + es;
    }
  }

  lemma ConsRuns(s: State, e: Event, es: seq<Event>, wf: string -> bool)
    ensures RunFrom(s, [e] + es, wf) == RunFrom(Next(s, e, wf), es, wf)
    ensures Arriving(es) && (e.Timer? || (e.Token? && e.ok)) ==> Arriving([e] + es)
  {
    assert ([e] + es)[1..] == es;
  }

  /**
   * Exactly which steps are safe: after a calm one no tokens and timers to come open two sockets, after any
   * other some do.
   */
  lemma CalmIsSafe(s: State, e: Event, wf: string -> bool)
    requires Single(s.client) && Enabled(s, e)
    ensures Calm(s.client, e) <==> Safe(Next(s, e, wf), wf)
  {
    var t := Next(s, e, wf);
    if Calm(s.client, e) {
      SingleStep(s, e, wf);
      forall es | Arriving(es) ensures !TwoLive(RunFrom(t, es, wf).client) { SingleIsSafe(t, es, wf); }
    } else if e.Start? {
      var es := StartOpensTwo(s, wf);
    } else {
      var es := FailureOpensTwo(s, e.waiting, wf);
    }
  }

  /** A token failing after its connect was replaced schedules a second connect: two live sockets. */
  lemma StaleFailureOpensTwo(s: State, wf: string -> bool)
    requires s.client == Client(map[], None, 3, false, None, [1, 3], [])
    ensures var t := Next(Next(Next(Next(s, Token(0, false), wf), Token(0, true), wf), Timer, wf), Token(0, true), wf);
      |t.client.sockets| == 2 && Live(t.client, 0) && Live(t.client, 1)
  {
    var a := Next(s, Token(0, false), wf);
    assert a.client == s.client.(pending := [3], timer := Some(3));
    var b := Next(a, Token(0, true), wf);
    assert b.client == a.client.(pending := [], ws := Some(0), sockets := [Socket(Connecting, [])]);
    var c := Next(b, Timer, wf);
    assert c.client.pending == [3];
    assert c.client.sockets == b.client.sockets;
  }

  /** The state that lemma starts from: start, stop and start again before the first token fails. */
  lemma RestartWaitsOnTwoTokens(wf: string -> bool)
    ensures Run([Start, Stop, Start], wf).client == Client(map[], None, 3, false, None, [1, 3], [])
  {
    var es := [Start, Stop, Start];
    assert es[..2] == [Start, Stop] && [Start, Stop][..1] == [Start] && [Start][..0] == [];
    assert Run([Start], wf) == Next(Init, Start, wf);
    assert Run([Start, Stop], wf) == Next(Run([Start], wf), Stop, wf);
    assert Run(es, wf) == Next(Run([Start, Stop], wf), Start, wf);
  }
}
