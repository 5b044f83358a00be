/** Store-and-forward as interleaved steps of the publisher thread, the replay threads and the broker link. */
module EdgeProtocol {
  import opened EdgeOutbox

  datatype Publisher = Idle | Checking(m: Message) | Sending(m: Message) | Queueing(m: Message)

  /** The thread inside the replay lock; Confirming is after the broker took the row and before its delete. */
  datatype Replay = Off | Fetching | Draining(page: seq<Row>, i: nat) | Confirming(page: seq<Row>, i: nat)

  datatype State = State(
    outbox: seq<Row>, nextId: nat, connected: bool, publisher: Publisher, waiting: nat, replay: Replay,
    accepted: seq<Message>,   // what the broker took, in order
    owed: seq<Message>,       // what was handed to publish, less what a crash took from its hands
    handed: seq<Message>,
    crashes: nat)

  datatype Event =
    | Hand(m: Message) | Check | Send(ok: bool) | Enqueue
    | Connect | Disconnect
    | StartReplay | Fetch | Replayed(ok: bool) | Delete
    | Crash

  const Init := State([], 1, false, Idle, 0, Off, [], [], [], 0)

  predicate Enabled(s: State, e: Event) {
    match e
    case Hand(m) => s.publisher.Idle? && m !in s.handed
    case Check => s.publisher.Checking?
    case Send(_) => s.publisher.Sending?
    case Enqueue => s.publisher.Queueing?
    case Connect => !s.connected
    case Disconnect => s.connected
    case StartReplay => s.waiting > 0 && s.replay.Off?
    case Fetch => s.replay.Fetching?
    case Replayed(_) => s.replay.Draining? && s.replay.i < |s.replay.page|
    case Delete => s.replay.Confirming? && s.replay.i < |s.replay.page|
    case Crash => true
  }

  function Next(s: State, e: Event, batch: nat): State {
    if !Enabled(s, e) then s
    else
      match e
      case Hand(m) => s.(publisher := Checking(m), handed := s.handed + [m], owed := s.owed + [m])
      case Check => s.(publisher := if s.outbox == [] then Sending(s.publisher.m) else Queueing(s.publisher.m))
      case Send(ok) =>
        if s.connected && ok then s.(publisher := Idle, accepted := s.accepted + [s.publisher.m])
        else s.(publisher := Queueing(s.publisher.m))
      case Enqueue =>
        s.(publisher := Idle, outbox := s.outbox + [Row(s.nextId, s.publisher.m)], nextId := s.nextId + 1)
      case Connect => s.(connected := true, waiting := s.waiting + 1)
      case Disconnect => s.(connected := false)
      case StartReplay => s.(waiting := s.waiting - 1, replay := Fetching)
      case Fetch =>
        var page := s.outbox[..if batch < |s.outbox| then batch else |s.outbox|];
        s.(replay := if page == [] then Off else Draining(page, 0))
      case Replayed(ok) =>
        if s.connected && ok then
          s.(accepted := s.accepted + [s.replay.page[s.replay.i].msg], replay := Confirming(s.replay.page, s.replay.i))
        else s.(replay := Off)
      case Delete =>
        s.(outbox := DeleteId(s.outbox, s.replay.page[s.replay.i].id),
           replay := if s.replay.i + 1 == |s.replay.page| then Fetching else Draining(s.replay.page, s.replay.i + 1))
      case Crash =>
        s.(connected := false, publisher := Idle, waiting := 0, replay := Off, crashes := s.crashes + 1,
           owed := if |InHand(s)| <= |s.owed| then s.owed[..|s.owed| - |InHand(s)|] else [])
  }

  /** The message publish has taken and neither sent nor queued yet. */
  function InHand(s: State): seq<Message> {
    match s.publisher
    case Idle => []
    case Checking(m) => [m]
    case Sending(m) => [m]
    case Queueing(m) => [m]
  }

  function Run(es: seq<Event>, batch: nat): State {
    if es == [] then Init else Next(Run(es[..|es| - 1], batch), es[|es| - 1], batch)
  }

  // ---- The invariant ----

  predicate HeadAccepted(s: State) {
    s.outbox != [] && s.outbox[0].msg in s.accepted
  }

  /** Queued messages the broker does not have yet: a sent but not yet deleted head is counted as sent. */
  function Remaining(s: State): seq<Message> {
    Messages(if HeadAccepted(s) then s.outbox[1..] else s.outbox)
  }

  predicate NoRepeats(ms: seq<Message>) {
    forall i, j :: 0 <= i < j < |ms| ==> ms[i] != ms[j]
  }

  predicate ReplayOk(s: State) {
    match s.replay
    case Off => true
    case Fetching => true
    case Draining(page, i) => i < |page| && page[i..] <= s.outbox
    case Confirming(page, i) => i < |page| && page[i..] <= s.outbox && HeadAccepted(s)
  }

  /** Deliveries beyond the first of each message. */
  function Repeats(s: State): nat { |s.accepted| - |Dedup(s.accepted)| }

  /** A head that is accepted while nobody is about to delete it will be delivered again. */
  function Armed(s: State): nat { if HeadAccepted(s) && !s.replay.Confirming? then 1 else 0 }

  /** Accepted once each, then waiting, then in hand: exactly what is owed, in order. */
  predicate Balanced(s: State) { Dedup(s.accepted) + Remaining(s) + InHand(s) == s.owed }

  /** What is owed was handed over, without repeats; before any crash it is all of that. */
  predicate Ledger(owed: seq<Message>, handed: seq<Message>, crashes: nat) {
    && NoRepeats(owed)
    && (forall m :: m in owed ==> m in handed)
    && (crashes == 0 ==> owed == handed)
  }

  predicate Flow(s: State) { Balanced(s) && Ledger(s.owed, s.handed, s.crashes) }

  predicate Shape(s: State) {
    && Ordered(s.outbox, s.nextId)
    && (HeadAccepted(s) ==> s.accepted[|s.accepted| - 1] == s.outbox[0].msg)
    && (s.publisher.Sending? ==> s.outbox == [])
    && ReplayOk(s)
  }

  predicate Inv(s: State) {
    Flow(s) && Shape(s) && Repeats(s) + Armed(s) <= s.crashes
  }

  lemma MessagesTail(rows: seq<Row>)
    requires rows != []
    ensures Messages(rows) == [rows[0].msg] + Messages(rows[1..])
  {
  }

  lemma MessagesAppend(rows: seq<Row>, r: Row)
    ensures Messages(rows + [r]) == Messages(rows) + [r.msg]
  {
  }

  lemma DedupSnoc(ms: seq<Message>, m: Message)
    ensures Dedup(ms + [m]) == if m in ms then Dedup(ms) else Dedup(ms) + [m]
  {
    assert (ms + [m])[..|ms|] == ms;
  }

  /** Nothing still owed after the deliveries has been delivered. */
  lemma RestNotAccepted(s: State, k: nat)
    requires Inv(s) && |Dedup(s.accepted)| <= k < |s.owed|
    ensures s.owed[k] !in s.accepted
  {
    var d := Dedup(s.accepted);
    assert forall i :: 0 <= i < |d| ==> s.owed[i] == d[i];
    DedupMembers(s.accepted, s.owed[k]);
  }

  lemma InvHand(s: State, m: Message, batch: nat)
    requires Inv(s) && Enabled(s, Hand(m))
    ensures Inv(Next(s, Hand(m), batch))
  {
    var t := Next(s, Hand(m), batch);
    assert HeadAccepted(t) == HeadAccepted(s) && Remaining(t) == Remaining(s);
    assert s.owed == Dedup(s.accepted) + Remaining(s) + [] == Dedup(s.accepted) + Remaining(s);
    LedgerSnoc(s.owed, s.handed, s.crashes, m);
  }

  lemma LedgerSnoc(owed: seq<Message>, handed: seq<Message>, crashes: nat, m: Message)
    requires Ledger(owed, handed, crashes) && m !in handed
    ensures Ledger(owed + [m], handed + [m], crashes)
  {}

  lemma InvCheck(s: State, batch: nat)
    requires Inv(s) && Enabled(s, Check)
    ensures Inv(Next(s, Check, batch))
  {
    var t := Next(s, Check, batch);
    assert HeadAccepted(t) == HeadAccepted(s) && Remaining(t) == Remaining(s);
  }

  lemma InvSend(s: State, ok: bool, batch: nat)
    requires Inv(s) && Enabled(s, Send(ok))
    ensures Inv(Next(s, Send(ok), batch))
  {
    var t := Next(s, Send(ok), batch);
    if s.connected && ok {
      var m := s.publisher.m;
      assert s.owed[|Dedup(s.accepted)|] == m;
      RestNotAccepted(s, |Dedup(s.accepted)|);
      DedupSnoc(s.accepted, m);
    }
    assert HeadAccepted(t) == HeadAccepted(s) == false && Remaining(t) == Remaining(s) == [];
  }

  lemma InvEnqueue(s: State, batch: nat)
    requires Inv(s) && Enabled(s, Enqueue)
    ensures Inv(Next(s, Enqueue, batch))
  {
    var t := Next(s, Enqueue, batch);
    var m, row := s.publisher.m, Row(s.nextId, s.publisher.m);
    assert s.owed[|s.owed| - 1] == m;
    RestNotAccepted(s, |s.owed| - 1);
    assert HeadAccepted(t) == HeadAccepted(s);
    RemainingSnoc(s, t, row);
    FlowMoves(s, t, m);
    ShapeEnqueue(s, batch);
  }

  lemma RemainingSnoc(s: State, t: State, row: Row)
    requires t.outbox == s.outbox + [row] && HeadAccepted(t) == HeadAccepted(s)
    ensures Remaining(t) == Remaining(s) + [row.msg]
  {
    if HeadAccepted(s) {
      assert t.outbox[1..] == s.outbox[1..] + [row];
      MessagesAppend(s.outbox[1..], row);
    } else {
      MessagesAppend(s.outbox, row);
    }
  }

  lemma FlowMoves(s: State, t: State, m: Message)
    requires Flow(s) && InHand(s) == [m] && InHand(t) == []
    requires t.accepted == s.accepted && t.owed == s.owed && t.handed == s.handed && t.crashes == s.crashes
    requires Remaining(t) == Remaining(s) + [m]
    ensures Flow(t)
  {
    assert Dedup(s.accepted) + (Remaining(s) + [m]) + [] == Dedup(s.accepted) + Remaining(s) + [m];
  }

  lemma ShapeEnqueue(s: State, batch: nat)
    requires Inv(s) && Enabled(s, Enqueue)
    requires HeadAccepted(Next(s, Enqueue, batch)) == HeadAccepted(s)
    ensures Shape(Next(s, Enqueue, batch))
  {
    var t := Next(s, Enqueue, batch);
    assert Ordered(t.outbox, t.nextId);
    if s.replay.Draining? || s.replay.Confirming? {
      StillPrefix(s.replay.page[s.replay.i..], s.outbox, t.outbox[|s.outbox|]);
    }
  }

  lemma StillPrefix(left: seq<Row>, rows: seq<Row>, r: Row)
    requires left <= rows
    ensures left <= rows + [r]
  {}

  /** Steps that touch only the link and the replay thread, not the table or the broker. */
  lemma Unmoved(s: State, t: State)
    requires Inv(s) && t == s.(connected := t.connected, waiting := t.waiting, replay := t.replay)
    requires t.replay == s.replay || (ReplayOk(t) && !s.replay.Confirming? && !t.replay.Confirming?)
    ensures Inv(t)
  {
    assert HeadAccepted(t) == HeadAccepted(s) && Remaining(t) == Remaining(s) && InHand(t) == InHand(s);
    SameFlow(s, t);
    assert Ordered(t.outbox, t.nextId) && Shape(t);
    assert Repeats(t) == Repeats(s) && Armed(t) == Armed(s);
  }

  lemma InvLink(s: State, e: Event, batch: nat)
    requires Inv(s) && Enabled(s, e) && (e.Connect? || e.Disconnect? || e.StartReplay?)
    ensures Inv(Next(s, e, batch))
  {
    Unmoved(s, Next(s, e, batch));
  }

  lemma InvFetch(s: State, batch: nat)
    requires Inv(s) && Enabled(s, Fetch)
    ensures Inv(Next(s, Fetch, batch))
  {
    var t := Next(s, Fetch, batch);
    if t.replay.Draining? { assert t.replay.page[0..] == t.replay.page; }
    Unmoved(s, t);
  }

  lemma InvReplayed(s: State, ok: bool, batch: nat)
    requires Inv(s) && Enabled(s, Replayed(ok))
    ensures Inv(Next(s, Replayed(ok), batch))
  {
    var t := Next(s, Replayed(ok), batch);
    if s.connected && ok {
      var m := s.outbox[0].msg;
      assert s.replay.page[s.replay.i..][0] == s.outbox[0];
      assert t.accepted == s.accepted + [m];
      DedupSnoc(s.accepted, m);
      assert t.accepted[|t.accepted| - 1] == m && HeadAccepted(t);
      MessagesTail(s.outbox);
      FlowReplayed(s, t, m);
      assert Repeats(t) == Repeats(s) + Armed(s) && Armed(t) == 0;
    } else {
      Unmoved(s, t);
    }
  }

  lemma FlowReplayed(s: State, t: State, m: Message)
    requires Balanced(s) && s.outbox != [] && m == s.outbox[0].msg && HeadAccepted(t)
    requires t == s.(accepted := s.accepted + [m], replay := t.replay)
    requires Dedup(t.accepted) == (if m in s.accepted then Dedup(s.accepted) else Dedup(s.accepted) + [m])
    requires Messages(s.outbox) == [m] + Messages(s.outbox[1..])
    ensures Balanced(t)
  {
    var rest := Messages(s.outbox[1..]);
    assert InHand(t) == InHand(s) && Remaining(t) == rest;
    if m in s.accepted {
      assert Remaining(s) == rest;
    } else {
      assert Remaining(s) == [m] + rest;
      Slide(Dedup(s.accepted), m, rest, InHand(s));
    }
  }

  lemma Slide(d: seq<Message>, m: Message, rest: seq<Message>, hand: seq<Message>)
    ensures d + ([m] + rest) + hand == d + [m] + rest + hand
  {}

  lemma InvDelete(s: State, batch: nat)
    requires Inv(s) && Enabled(s, Delete)
    ensures Inv(Next(s, Delete, batch))
  {
    var t := Next(s, Delete, batch);
    ShapeDelete(s, batch);
    assert Remaining(t) == Remaining(s) && InHand(t) == InHand(s);
    SameFlow(s, t);
    assert Repeats(t) == Repeats(s) && Armed(t) == 0;
  }

  lemma NextHeadNotAccepted(s: State)
    requires Inv(s) && HeadAccepted(s) && |s.outbox| > 1
    ensures s.outbox[1].msg !in s.accepted
  {
    var k := |Dedup(s.accepted)|;
    MessagesTail(s.outbox[1..]);
    assert s.owed[k] == Remaining(s)[0];
    RestNotAccepted(s, k);
  }

  lemma ShapeDelete(s: State, batch: nat)
    requires Inv(s) && Enabled(s, Delete)
    ensures var t := Next(s, Delete, batch); t.outbox == s.outbox[1..] && !HeadAccepted(t) && Shape(t)
  {
    var t := Next(s, Delete, batch);
    DeletedHead(s, batch);
    HeadGone(s, t);
    ReplayAfterDelete(s, batch);
  }

  lemma HeadGone(s: State, t: State)
    requires Inv(s) && HeadAccepted(s) && t.outbox == s.outbox[1..] && t.accepted == s.accepted
    ensures !HeadAccepted(t)
  {
    if |s.outbox| > 1 { NextHeadNotAccepted(s); }
  }

  lemma ReplayAfterDelete(s: State, batch: nat)
    requires Enabled(s, Delete) && ReplayOk(s) && Next(s, Delete, batch).outbox == s.outbox[1..]
    ensures ReplayOk(Next(s, Delete, batch))
  {
    PrefixTail(s.replay.page, s.replay.i, s.outbox);
  }

  lemma DeletedHead(s: State, batch: nat)
    requires Shape(s) && Enabled(s, Delete)
    ensures var t := Next(s, Delete, batch); t.outbox == s.outbox[1..] && Ordered(t.outbox, t.nextId)
  {
    var page, i := s.replay.page, s.replay.i;
    assert page[i..][0] == page[i] == s.outbox[0];
    DeleteHead(s.outbox, s.nextId);
  }

  lemma PrefixTail(page: seq<Row>, i: nat, rows: seq<Row>)
    requires i < |page| && page[i..] <= rows
    ensures rows != [] && page[i + 1..] <= rows[1..]
  {
    var left := page[i..];
    assert forall k :: 0 <= k < |page| - i - 1 ==> page[i + 1..][k] == left[k + 1] == rows[k + 1] == rows[1..][k];
  }

  lemma SameFlow(s: State, t: State)
    requires Flow(s) && t.accepted == s.accepted && Remaining(t) == Remaining(s) && InHand(t) == InHand(s)
    requires t.owed == s.owed && t.handed == s.handed && t.crashes == s.crashes
    ensures Flow(t)
  {
  }

  lemma InvCrash(s: State, batch: nat)
    requires Inv(s)
    ensures Inv(Next(s, Crash, batch))
  {
    var t := Next(s, Crash, batch);
    assert HeadAccepted(t) == HeadAccepted(s) && Remaining(t) == Remaining(s);
    FlowCrash(s, t);
  }

  lemma FlowCrash(s: State, t: State)
    requires Flow(s) && t.accepted == s.accepted && Remaining(t) == Remaining(s) && InHand(t) == []
    requires t.handed == s.handed && t.crashes > 0
    requires t.owed == if |InHand(s)| <= |s.owed| then s.owed[..|s.owed| - |InHand(s)|] else []
    ensures Flow(t)
  {
    var d := Dedup(s.accepted) + Remaining(s);
    CutOff(d, InHand(s));
    assert t.owed == d && d + [] == d;
    LedgerCut(s.owed, s.handed, s.crashes, |d|, t.crashes);
  }

  lemma CutOff(d: seq<Message>, hand: seq<Message>)
    ensures (d + hand)[..|d + hand| - |hand|] == d && |d| <= |d + hand|
  {}

  lemma LedgerCut(owed: seq<Message>, handed: seq<Message>, crashes: nat, n: nat, more: nat)
    requires Ledger(owed, handed, crashes) && n <= |owed| && more > 0
    ensures Ledger(owed[..n], handed, more)
  {
    assert forall i :: 0 <= i < n ==> owed[..n][i] == owed[i];
    forall m | m in owed[..n] ensures m in handed { assert m in owed; }
  }

  lemma InvStep(s: State, e: Event, batch: nat)
    requires Inv(s)
    ensures Inv(Next(s, e, batch))
  {
    if Enabled(s, e) {
      match e
      case Hand(m) => InvHand(s, m, batch);
      case Check => InvCheck(s, batch);
      case Send(ok) => InvSend(s, ok, batch);
      case Enqueue => InvEnqueue(s, batch);
      case Connect => InvLink(s, e, batch);
      case Disconnect => InvLink(s, e, batch);
      case StartReplay => InvLink(s, e, batch);
      case Fetch => InvFetch(s, batch);
      case Replayed(ok) => InvReplayed(s, ok, batch);
      case Delete => InvDelete(s, batch);
      case Crash => InvCrash(s, batch);
    }
  }

  lemma {:induction false} InvRun(es: seq<Event>, batch: nat)
    ensures Inv(Run(es, batch))
    decreases |es|
  {
    if es == [] {
      assert Messages([]) == [];
    } else {
      InvRun(es[..|es| - 1], batch);
      InvStep(Run(es[..|es| - 1], batch), es[|es| - 1], batch);
    }
  }

  // ---- What every run keeps ----

  predicate CrashFree(es: seq<Event>) {
    forall i :: 0 <= i < |es| ==> !es[i].Crash?
  }

  lemma {:induction false} NoCrashes(es: seq<Event>, batch: nat)
    requires CrashFree(es)
    ensures Run(es, batch).crashes == 0
    decreases |es|
  {
    if es != [] { NoCrashes(es[..|es| - 1], batch); }
  }

  lemma {:induction false} DedupFull(ms: seq<Message>)
    requires |Dedup(ms)| == |ms|
    ensures Dedup(ms) == ms
    decreases |ms|
  {
    if ms != [] { DedupFull(ms[..|ms| - 1]); }
  }

  /**
   * Over every interleaving without a crash: accepted, then queued (a sent but undeleted head once),
   * then in hand, is the sequence given to publish. Nothing lost, reordered or sent twice.
   */
  lemma NothingLostOrReordered(es: seq<Event>, batch: nat)
    requires CrashFree(es)
    ensures var s := Run(es, batch); s.accepted + Remaining(s) + InHand(s) == s.handed
    ensures var s := Run(es, batch); NoRepeats(s.handed)
  {
    InvRun(es, batch);
    NoCrashes(es, batch);
    DedupFull(Run(es, batch).accepted);
  }

  /** With crashes: one repeat at most for each, and first deliveries stay in order. */
  lemma CrashesRepeatAtMostOnce(es: seq<Event>, batch: nat)
    ensures var s := Run(es, batch);
      |s.accepted| <= |Dedup(s.accepted)| + s.crashes && Dedup(s.accepted) <= s.owed
  {
    InvRun(es, batch);
    var s := Run(es, batch);
    assert Dedup(s.accepted) + (Remaining(s) + InHand(s)) == s.owed;
  }

  /** The next message owed, or the outbox head again when it was the last one sent. */
  predicate NextOrHead(s: State, m: Message) {
    if m in s.accepted then HeadAccepted(s) && m == s.outbox[0].msg && m == s.accepted[|s.accepted| - 1]
    else |Dedup(s.accepted)| < |s.owed| && m == s.owed[|Dedup(s.accepted)|]
  }

  /** Every delivery in every run is the next message owed or a repeat of the outbox head. */
  lemma DeliveryIsNextOrHead(es: seq<Event>, e: Event, batch: nat)
    ensures var s, t := Run(es, batch), Next(Run(es, batch), e, batch);
      t.accepted == s.accepted || exists m :: t.accepted == s.accepted + [m] && NextOrHead(s, m)
  {
    InvRun(es, batch);
    var s, t := Run(es, batch), Next(Run(es, batch), e, batch);
    if t.accepted != s.accepted {
      if e.Replayed? { ReplayDelivers(s, e, batch); } else { SendDelivers(s, e, batch); }
    }
  }

  lemma SendDelivers(s: State, e: Event, batch: nat)
    requires Inv(s) && Enabled(s, e) && e.Send? && s.connected && e.ok
    ensures Next(s, e, batch).accepted == s.accepted + [s.publisher.m] && NextOrHead(s, s.publisher.m)
  {
    assert s.owed[|Dedup(s.accepted)|] == s.publisher.m;
    RestNotAccepted(s, |Dedup(s.accepted)|);
  }

  lemma ReplayDelivers(s: State, e: Event, batch: nat)
    requires Inv(s) && Enabled(s, e) && e.Replayed? && s.connected && e.ok
    ensures s.outbox != [] && Next(s, e, batch).accepted == s.accepted + [s.outbox[0].msg]
    ensures NextOrHead(s, s.outbox[0].msg)
  {
    assert s.replay.page[s.replay.i..][0] == s.outbox[0];
    MessagesTail(s.outbox);
    if !HeadAccepted(s) {
      assert s.owed[|Dedup(s.accepted)|] == Remaining(s)[0];
    }
  }

  /** A direct send happens only with an empty outbox, so it overtakes nothing. */
  lemma DirectSendOvertakesNothing(es: seq<Event>, batch: nat)
    ensures var s := Run(es, batch); s.publisher.Sending? ==> s.outbox == [] && s.replay.Confirming? == false
  {
    InvRun(es, batch);
  }

  /** End to end: what ingest stores is a prefix of what is owed, once each, and all of it once drained. */
  lemma StoredIsOwedPrefix(es: seq<Event>, batch: nat)
    requires forall a, b :: a in Run(es, batch).handed && b in Run(es, batch).handed ==>
      KeyOf(a) == KeyOf(b) ==> a == b
    ensures var s := Run(es, batch); var table := StoreAll(AllKnown(s.accepted));
      && table <= s.owed && OnePerKey(table)
      && (s.outbox == [] && s.publisher.Idle? ==> table == s.owed)
  {
    InvRun(es, batch);
    var s := Run(es, batch);
    forall m | m in s.accepted ensures m in s.handed {
      DedupMembers(s.accepted, m);
      assert Dedup(s.accepted) + (Remaining(s) + InHand(s)) == s.owed;
      assert m in s.owed;
    }
    StoreIsDedup(s.accepted);
    StoredOncePerKey(AllKnown(s.accepted));
    assert Dedup(s.accepted) + (Remaining(s) + InHand(s)) == s.owed;
  }

  // ---- What does not hold: an outbox that empties while connected ----

  /** Connected, rows queued, and no replay thread left to send them. */
  predicate Stranded(s: State) {
    s.connected && s.outbox != [] && s.replay.Off? && s.waiting == 0
  }

  /**
   * The race: one message waits, the link comes up, and `publish` finds the table not empty just before
   * the replay takes that message, deletes it, finds the table empty and ends; then it queues.
   */
  lemma StrandedIsReachable(a: Message, b: Message, es: seq<Event>)
    requires a != b
    requires es == [Hand(a), Check, Send(true), Enqueue] + [Connect, StartReplay, Fetch] + [Hand(b), Check]
                 + [Replayed(true), Delete, Fetch] + [Enqueue]
    ensures Stranded(Run(es, 100)) && Run(es, 100).accepted == [a] && Messages(Run(es, 100).outbox) == [b]
  {
    var rows, queued := [Row(1, a)], [Hand(a), Check, Send(true), Enqueue];
    OneWaits(a, queued);
    ReplayReads(queued, State(rows, 2, false, Idle, 0, Off, [], [a], [a], 0));
    var reading := queued + [Connect, StartReplay, Fetch];
    PublishSeesRow(b, reading, State(rows, 2, true, Idle, 0, Draining(rows, 0), [], [a], [a], 0));
    ReplayEnds(reading + [Hand(b), Check],
               State(rows, 2, true, Queueing(b), 0, Draining(rows, 0), [], [a, b], [a, b], 0));
    RunSnoc(reading + [Hand(b), Check] + [Replayed(true), Delete, Fetch], Enqueue, 100);
    assert [] + [Row(2, b)] == [Row(2, b)];
  }

  lemma OneWaits(a: Message, es: seq<Event>)
    requires es == [Hand(a), Check, Send(true), Enqueue]
    ensures Run(es, 100) == State([Row(1, a)], 2, false, Idle, 0, Off, [], [a], [a], 0)
  {
    RunSnoc([], Hand(a), 100);
    assert [] + [Hand(a)] == [Hand(a)];
    RunSnoc([Hand(a)], Check, 100);
    assert [Hand(a)] + [Check] == es[..2];
    RunSnoc(es[..2], Send(true), 100);
    assert es[..2] + [Send(true)] == es[..3];
    RunSnoc(es[..3], Enqueue, 100);
    assert es[..3] + [Enqueue] == es;
  }

  lemma RunThree(es: seq<Event>, a: Event, b: Event, c: Event)
    ensures Run(es + [a, b, c], 100) == Next(Next(Next(Run(es, 100), a, 100), b, 100), c, 100)
  {
    RunSnoc(es, a, 100);
    RunSnoc(es + [a], b, 100);
    RunSnoc(es + [a] + [b], c, 100);
    assert es + [a] + [b] + [c] == es + [a, b, c];
  }

  lemma ReplayReads(es: seq<Event>, s: State)
    requires Run(es, 100) == s && !s.connected && s.waiting == 0 && s.replay.Off? && |s.outbox| == 1
    ensures Run(es + [Connect, StartReplay, Fetch], 100) == s.(connected := true, replay := Draining(s.outbox, 0))
  {
    RunThree(es, Connect, StartReplay, Fetch);
    assert s.outbox[..1] == s.outbox;
  }

  lemma PublishSeesRow(b: Message, es: seq<Event>, s: State)
    requires Run(es, 100) == s && s.publisher.Idle? && s.outbox != [] && b !in s.handed
    ensures Run(es + [Hand(b), Check], 100) ==
      s.(publisher := Queueing(b), handed := s.handed + [b], owed := s.owed + [b])
  {
    RunSnoc(es, Hand(b), 100);
    RunSnoc(es + [Hand(b)], Check, 100);
    assert es + [Hand(b)] + [Check] == es + [Hand(b), Check];
  }

  lemma ReplayEnds(es: seq<Event>, s: State)
    requires Run(es, 100) == s && s.connected && |s.outbox| == 1 && s.replay == Draining(s.outbox, 0)
    ensures Run(es + [Replayed(true), Delete, Fetch], 100) ==
      s.(outbox := [], replay := Off, accepted := s.accepted + [s.outbox[0].msg])
  {
    RunThree(es, Replayed(true), Delete, Fetch);
    DeleteHead(s.outbox, s.outbox[0].id + 1);
    assert s.outbox[1..] == [];
  }

  lemma RunSnoc(es: seq<Event>, e: Event, batch: nat)
    ensures Run(es + [e], batch) == Next(Run(es, batch), e, batch)
  {
    assert (es + [e])[..|es|] == es;
  }

  /**
   * What strands messages: queueing one while connected with no replay thread alive, or the broker refusing
   * the last replay thread while connected.
   */
  predicate Strands(s: State, e: Event) {
    Enabled(s, e) && s.connected && s.waiting == 0 && ((e.Enqueue? && s.replay.Off?) || (e.Replayed? && !e.ok))
  }

  /** Exactly these steps do. */
  lemma StrandingSteps(es: seq<Event>, e: Event, batch: nat)
    requires batch > 0 && !Stranded(Run(es, batch)) && Enabled(Run(es, batch), e)
    ensures var s := Run(es, batch); Stranded(Next(s, e, batch)) <==> Strands(s, e)
  {
    InvRun(es, batch);
    var s := Run(es, batch);
    if e.Replayed? { assert s.replay.page[s.replay.i..][0] == s.outbox[0]; }
  }

  /** Step i strands messages, and the link has neither gone down nor crashed since. */
  predicate StrandedSince(es: seq<Event>, i: nat, batch: nat) {
    i < |es| && Strands(Run(es[..i], batch), es[i]) && forall j :: i < j < |es| ==> !es[j].Disconnect? && !es[j].Crash?
  }

  lemma SinceSnoc(es: seq<Event>, i: nat, batch: nat)
    requires es != [] && i < |es| - 1
    ensures var n := |es| - 1;
      StrandedSince(es, i, batch) <==> StrandedSince(es[..n], i, batch) && !es[n].Disconnect? && !es[n].Crash?
  {
    var n := |es| - 1;
    assert es[..n][..i] == es[..i];
    assert forall j :: 0 <= j < n ==> es[..n][j] == es[j];
  }

  /** A run ends stranded exactly when such a step is the last word: until the first one every queue is attended. */
  lemma {:induction false} StrandedIff(es: seq<Event>, batch: nat)
    requires batch > 0
    ensures Stranded(Run(es, batch)) <==> exists i :: StrandedSince(es, i, batch)
    decreases |es|
  {
    if es != [] {
      var n := |es| - 1;
      var init, e := es[..n], es[n];
      StrandedIff(init, batch);
      if Stranded(Run(es, batch)) {
        if Stranded(Run(init, batch)) {
          var i :| StrandedSince(init, i, batch);
          SinceSnoc(es, i, batch);
        } else {
          StrandingSteps(init, e, batch);
          assert StrandedSince(es, n, batch);
        }
      }
      if i :| StrandedSince(es, i, batch) { StrandedStays(es, i, batch); }
    }
  }

  lemma StrandedStays(es: seq<Event>, i: nat, batch: nat)
    requires batch > 0 && StrandedSince(es, i, batch)
    requires i < |es| - 1 ==> (StrandedSince(es[..|es| - 1], i, batch) ==> Stranded(Run(es[..|es| - 1], batch)))
    ensures Stranded(Run(es, batch))
  {
    var n := |es| - 1;
    if i < n {
      SinceSnoc(es, i, batch);
      StaysStranded(Run(es[..n], batch), es[n], batch);
    } else {
      StrandsNow(es[..n], es[n], batch);
    }
  }

  lemma StaysStranded(s: State, e: Event, batch: nat)
    requires Stranded(s) && !e.Disconnect? && !e.Crash?
    ensures Stranded(Next(s, e, batch))
  {}

  lemma StrandsNow(es: seq<Event>, e: Event, batch: nat)
    requires Strands(Run(es, batch), e)
    ensures Stranded(Next(Run(es, batch), e, batch))
  {
    InvRun(es, batch);
    var s := Run(es, batch);
    if e.Replayed? { assert s.replay.page[s.replay.i..][0] == s.outbox[0]; }
  }

  function RunFrom(s: State, es: seq<Event>, batch: nat): State {
    if es == [] then s else Next(RunFrom(s, es[..|es| - 1], batch), es[|es| - 1], batch)
  }

  /** Once stranded, nothing queued leaves before the next connect. */
  lemma {:induction false} StrandedUntilReconnect(s: State, es: seq<Event>, batch: nat)
    requires s.outbox != [] && s.replay.Off? && s.waiting == 0
    requires forall i :: 0 <= i < |es| ==> !es[i].Connect?
    ensures var t := RunFrom(s, es, batch); s.outbox <= t.outbox && t.replay.Off? && t.waiting == 0
    decreases |es|
  {
    if es != [] { StrandedUntilReconnect(s, es[..|es| - 1], batch); }
  }

  /** After a crash nothing is sent or deleted before the next connect; what was queued stays queued. */
  lemma {:induction false} QuietAfterCrash(s: State, es: seq<Event>, batch: nat)
    requires forall i :: 0 <= i < |es| ==> !es[i].Connect?
    ensures var t := RunFrom(Next(s, Crash, batch), es, batch);
      && t.accepted == s.accepted && s.outbox <= t.outbox && !t.connected && t.replay.Off? && t.waiting == 0
    decreases |es|
  {
    if es != [] { QuietAfterCrash(s, es[..|es| - 1], batch); }
  }

  /** Replay threads made since the last crash, one for each connect. */
  function Threads(es: seq<Event>, batch: nat): nat {
    if es == [] || es[|es| - 1].Crash? then 0
    else
      var before := es[..|es| - 1];
      Threads(before, batch) + (if es[|es| - 1].Connect? && !Run(before, batch).connected then 1 else 0)
  }

  /** Those that have entered the replay since. */
  function Entered(es: seq<Event>, batch: nat): nat {
    if es == [] || es[|es| - 1].Crash? then 0
    else
      var before := es[..|es| - 1];
      var s := Run(before, batch);
      Entered(before, batch) + (if es[|es| - 1].StartReplay? && s.waiting > 0 && s.replay.Off? then 1 else 0)
  }

  /** In every run each connect is a replay thread of its own, which waits until it enters or a crash ends it. */
  lemma {:induction false} EveryConnectReplays(es: seq<Event>, batch: nat)
    ensures Run(es, batch).waiting + Entered(es, batch) == Threads(es, batch)
    ensures !Run(es, batch).replay.Off? ==> Entered(es, batch) > 0
    decreases |es|
  {
    if es != [] { EveryConnectReplays(es[..|es| - 1], batch); }
  }
}
