/** The browser side of `/ws/live`: reference-counted topics over a reconnecting socket. */
module LiveClient {
  import opened Options

  datatype Request = Subscribe(topics: seq<string>) | Unsubscribe(topics: seq<string>)

  datatype Ready = Connecting | Open | Closing | Closed

  /** A WebSocket and what has been sent on it and not read by the server yet. */
  datatype Socket = Socket(ready: Ready, queue: seq<Request>)

  datatype Client = Client(
    topics: map<string, nat>,
    ws: Option<nat>,          // index of the current socket
    generation: nat,
    stopped: bool,
    timer: Option<nat>,       // generation a pending reconnect timer will connect under
    pending: seq<nat>,        // generations of connects still waiting for their token
    sockets: seq<Socket>)

  // ---- Topics ----

  /** `subscribe`'s filter: counts every topic and keeps the ones that were not there. */
  function Bump(topics: map<string, nat>, ts: seq<string>): (r: (map<string, nat>, seq<string>))
    decreases |ts|
  {
    if ts == [] then (topics, [])
    else
      var n := |ts| - 1;
      var (m, added) := Bump(topics, ts[..n]);
      var count := if ts[n] in m then m[ts[n]] else 0;
      (m[ts[n] := count + 1], if count == 0 then added + [ts[n]] else added)
  }

  /** The unsubscriber's filter: a missing topic counts as one, and a spent one is deleted. */
  function Drop(topics: map<string, nat>, ts: seq<string>): (r: (map<string, nat>, seq<string>))
    decreases |ts|
  {
    if ts == [] then (topics, [])
    else
      var n := |ts| - 1;
      var (m, removed) := Drop(topics, ts[..n]);
      var held: int := if ts[n] in m then m[ts[n]] else 1;
      var count := held - 1;
      if count <= 0 then (m - {ts[n]}, removed + [ts[n]]) else (m[ts[n] := count], removed)
  }

  // ---- Steps ----

  predicate CanSend(c: Client) {
    c.ws.Some? && c.ws.value < |c.sockets| && c.sockets[c.ws.value].ready.Open?
  }

  function Sent(c: Client, r: Request): Client {
    if r.topics != [] && CanSend(c) then
      var k := c.ws.value;
      c.(sockets := c.sockets[k := c.sockets[k].(queue := c.sockets[k].queue + [r])])
    else c
  }

  function Subscribed(c: Client, ts: seq<string>): Client {
    var (m, added) := Bump(c.topics, ts);
    Sent(c.(topics := m), Request.Subscribe(added))
  }

  function Unsubscribed(c: Client, ts: seq<string>): Client {
    var (m, removed) := Drop(c.topics, ts);
    Sent(c.(topics := m), Request.Unsubscribe(removed))
  }

  function Started(c: Client): Client {
    c.(stopped := false, generation := c.generation + 1, pending := c.pending + [c.generation + 1])
  }

  function Stopped(c: Client): Client {
    c.(stopped := true, generation := c.generation + 1, timer := None, ws := None,
       sockets := if c.ws.Some? && c.ws.value < |c.sockets| && c.sockets[c.ws.value].ready != Closed
                  then c.sockets[c.ws.value := c.sockets[c.ws.value].(ready := Closing)] else c.sockets)
  }

  function Reconnecting(c: Client): Client {
    if c.stopped then c else c.(timer := Some(c.generation))
  }

  function Without(s: seq<nat>, k: nat): seq<nat>
    requires k < |s|
  {
    s[..k] + s[k + 1..]
  }

  /** The token of the k-th waiting connect arrives: a stale generation gives up, else a new socket. */
  function TokenArrived(c: Client, k: nat): Client
    requires k < |c.pending|
  {
    var d := c.(pending := Without(c.pending, k));
    if c.pending[k] != c.generation then d
    else d.(ws := Some(|c.sockets|), sockets := c.sockets + [Socket(Connecting, [])])
  }

  function TokenFailed(c: Client, k: nat): Client
    requires k < |c.pending|
  {
    Reconnecting(c.(pending := Without(c.pending, k)))
  }

  function TimerFired(c: Client): Client
    requires c.timer.Some?
  {
    c.(timer := None, pending := c.pending + [c.timer.value])
  }

  /** The keys of the topic map, in some order. */
  ghost predicate Lists(ts: seq<string>, keys: set<string>) {
    forall t :: t in ts <==> t in keys
  }

  function Opened(c: Client, k: nat, keys: seq<string>): Client
    requires k < |c.sockets|
  {
    Sent(c.(sockets := c.sockets[k := c.sockets[k].(ready := Open)]), Request.Subscribe(keys))
  }

  function SocketClosed(c: Client, k: nat): Client
    requires k < |c.sockets|
  {
    var d := c.(sockets := c.sockets[k := c.sockets[k].(ready := Closed)]);
    if c.ws != Some(k) then d else Reconnecting(d.(ws := None))
  }

  /** The class of `ws.ts`; each method is the step function above on its fields. */
  class LiveSocket {
    var topics: map<string, nat>
    var ws: Option<nat>
    var generation: nat
    var stopped: bool
    var timer: Option<nat>
    var pending: seq<nat>
    var sockets: seq<Socket>

    function Abs(): Client
      reads this
    {
      Client(topics, ws, generation, stopped, timer, pending, sockets)
    }

    constructor ()
      ensures Abs() == Client(map[], None, 0, true, None, [], [])
    {
      topics, ws, generation, stopped, timer, pending, sockets := map[], None, 0, true, None, [], [];
    }

    method Send(r: Request)
      modifies this`sockets
      ensures Abs() == Sent(old(Abs()), r)
    {
      if r.topics != [] && ws.Some? && ws.value < |sockets| && sockets[ws.value].ready.Open? {
        sockets := sockets[ws.value := sockets[ws.value].(queue := sockets[ws.value].queue + [r])];
      }
    }

    method SubscribeTo(ts: seq<string>)
      modifies this
      ensures Abs() == Subscribed(old(Abs()), ts)
    {
      var added: seq<string> := [];
      for i := 0 to |ts|
        invariant (topics, added) == Bump(old(topics), ts[..i])
        invariant Abs() == old(Abs()).(topics := topics)
      {
        assert ts[..i + 1][..i] == ts[..i];
        var count := if ts[i] in topics then topics[ts[i]] else 0;
        topics := topics[ts[i] := count + 1];
        if count == 0 { added := added + [ts[i]]; }
      }
      assert ts[..|ts|] == ts;
      Send(Request.Subscribe(added));
    }

    /** The closure `subscribe` returns. */
    method UnsubscribeFrom(ts: seq<string>)
      modifies this
      ensures Abs() == Unsubscribed(old(Abs()), ts)
    {
      var removed: seq<string> := [];
      for i := 0 to |ts|
        invariant (topics, removed) == Drop(old(topics), ts[..i])
        invariant Abs() == old(Abs()).(topics := topics)
      {
        assert ts[..i + 1][..i] == ts[..i];
        var held: int := if ts[i] in topics then topics[ts[i]] else 1;
        var count := held - 1;
        if count <= 0 {
          topics := topics - {ts[i]};
          removed := removed + [ts[i]];
        } else {
          topics := topics[ts[i] := count];
        }
      }
      assert ts[..|ts|] == ts;
      Send(Request.Unsubscribe(removed));
    }

    method Start()
      modifies this
      ensures Abs() == Started(old(Abs()))
    {
      stopped := false;
      generation := generation + 1;
      pending := pending + [generation];
    }

    method Stop()
      modifies this
      ensures Abs() == Stopped(old(Abs()))
    {
      stopped := true;
      generation := generation + 1;
      timer := None;
      var old_ws := ws;
      ws := None;
      if old_ws.Some? && old_ws.value < |sockets| && sockets[old_ws.value].ready != Closed {
        sockets := sockets[old_ws.value := sockets[old_ws.value].(ready := Closing)];
      }
    }

    method ScheduleReconnect()
      modifies this`timer
      ensures Abs() == Reconnecting(old(Abs()))
    {
      if stopped { return; }
      timer := Some(generation);
    }

    method OnToken(k: nat, ok: bool)
      requires k < |pending|
      modifies this
      ensures Abs() == if ok then TokenArrived(old(Abs()), k) else TokenFailed(old(Abs()), k)
    {
      var g := pending[k];
      pending := Without(pending, k);
      if !ok {
        ScheduleReconnect();
        return;
      }
      if g != generation { return; }
      ws := Some(|sockets|);
      sockets := sockets + [Socket(Connecting, [])];
    }

    method OnTimer()
      requires timer.Some?
      modifies this
      ensures Abs() == TimerFired(old(Abs()))
    {
      pending := pending + [timer.value];
      timer := None;
    }

    method OnOpen(k: nat, keys: seq<string>)
      requires k < |sockets| && Lists(keys, topics.Keys)
      modifies this
      ensures Abs() == Opened(old(Abs()), k, keys)
    {
      sockets := sockets[k := sockets[k].(ready := Open)];
      Send(Request.Subscribe(keys));
    }

    method OnClose(k: nat)
      requires k < |sockets|
      modifies this
      ensures Abs() == SocketClosed(old(Abs()), k)
    {
      sockets := sockets[k := sockets[k].(ready := Closed)];
      if ws != Some(k) { return; }
      ws := None;
      ScheduleReconnect();
    }
  }
}

/** The server side: one topic set for each accepted socket. */
module LiveHub {
  import opened LiveClient

  type Sockets = map<nat, set<string>>

  /** Topics that are strings of the accepted shape; the shape itself is a parameter. */
  function Accepted(ts: seq<string>, wellFormed: string -> bool): set<string> {
    set t | t in ts && wellFormed(t)
  }

  function Applied(held: set<string>, r: Request, wellFormed: string -> bool): set<string> {
    match r
    case Subscribe(ts) => held + Accepted(ts, wellFormed)
    case Unsubscribe(ts) => held - Accepted(ts, wellFormed)
  }

  function Handled(sockets: Sockets, ws: nat, r: Request, wellFormed: string -> bool): Sockets {
    if ws in sockets then sockets[ws := Applied(sockets[ws], r, wellFormed)] else sockets
  }

  function Targets(sockets: Sockets, topic: string): set<nat> {
    set ws | ws in sockets && topic in sockets[ws]
  }

  class WsHub {
    var sockets: Sockets
    const wellFormed: string -> bool

    constructor (wellFormed: string -> bool)
      ensures sockets == map[] && this.wellFormed == wellFormed
    {
      this.wellFormed := wellFormed;
      sockets := map[];
    }

    method Accept(ws: nat)
      modifies this
      ensures sockets == old(sockets)[ws := {}]
    {
      sockets := sockets[ws := {}];
    }

    /** One turn of the receive loop; false when the entry is gone and the handler ends. */
    method Receive(ws: nat, r: Request) returns (alive: bool, reply: set<string>)
      modifies this
      ensures alive == (ws in old(sockets)) && sockets == Handled(old(sockets), ws, r, wellFormed)
      ensures alive ==> reply == sockets[ws]
    {
      reply := {};
      if ws !in sockets { return false, reply; }
      var topics := Accepted(r.topics, wellFormed);
      match r {
        case Subscribe(_) => sockets := sockets[ws := sockets[ws] + topics];
        case Unsubscribe(_) => sockets := sockets[ws := sockets[ws] - topics];
      }
      alive, reply := true, sockets[ws];
    }

    /** Send to every subscribed socket; one that fails loses its entry. */
    method PublishLocal(topic: string, fails: nat -> bool) returns (reached: set<nat>)
      modifies this
      ensures reached == set ws | ws in Targets(old(sockets), topic) && !fails(ws)
      ensures sockets == old(sockets) - (set ws | ws in Targets(old(sockets), topic) && fails(ws))
    {
      var targets := Targets(sockets, topic);
      ghost var all := targets;
      reached := {};
      while targets != {}
        invariant targets <= all
        invariant reached == set ws | ws in all - targets && !fails(ws)
        invariant sockets == old(sockets) - (set ws | ws in all - targets && fails(ws))
        decreases |targets|
      {
        var ws :| ws in targets;
        targets := targets - {ws};
        if fails(ws) { sockets := sockets - {ws}; } else { reached := reached + {ws}; }
      }
    }
  }
}
