/** The durable outbox of the edge runner, its replay loop and the idempotent ingest behind it. */
module EdgeOutbox {

  datatype Message = Message(id: string, time: int, topic: string, payload: string)

  datatype Row = Row(id: nat, msg: Message)

  function Messages(rows: seq<Row>): (ms: seq<Message>)
    ensures |ms| == |rows| && forall i :: 0 <= i < |rows| ==> ms[i] == rows[i].msg
  {
    seq(|rows|, i requires 0 <= i < |rows| => rows[i].msg)
  }

  /** AUTOINCREMENT: ids grow down the table and none is ever reused. */
  predicate Ordered(rows: seq<Row>, nextId: nat) {
    && (forall i, j :: 0 <= i < j < |rows| ==> rows[i].id < rows[j].id)
    && (forall i :: 0 <= i < |rows| ==> rows[i].id < nextId)
  }

  /** `DELETE FROM outbox WHERE id = ?` */
  function DeleteId(rows: seq<Row>, id: nat): seq<Row> {
    if rows == [] then []
    else (if rows[0].id == id then [] else [rows[0]]) + DeleteId(rows[1..], id)
  }

  lemma {:induction false} DeleteMissing(rows: seq<Row>, id: nat)
    requires forall i :: 0 <= i < |rows| ==> rows[i].id != id
    ensures DeleteId(rows, id) == rows
    decreases |rows|
  {
    if rows != [] { DeleteMissing(rows[1..], id); }
  }

  lemma DeleteHead(rows: seq<Row>, nextId: nat)
    requires Ordered(rows, nextId) && rows != []
    ensures DeleteId(rows, rows[0].id) == rows[1..]
    ensures Ordered(rows[1..], nextId)
  {
    var rest := rows[1..];
    forall i | 0 <= i < |rest| ensures rest[i].id != rows[0].id && rest[i].id < nextId {
      assert rest[i] == rows[i + 1];
    }
    DeleteMissing(rest, rows[0].id);
    assert [] + rest == rest;
  }

  /** The broker behind the client; its answers are arbitrary. */
  class Broker {
    var log: seq<Message>
    var replies: seq<bool>
    const accepts: nat -> bool

    constructor (accepts: nat -> bool)
      ensures log == [] && replies == [] && this.accepts == accepts
    {
      this.accepts := accepts;
      log, replies := [], [];
    }

    method Publish(m: Message) returns (ok: bool)
      modifies this
      ensures ok == accepts(|old(replies)|)
      ensures replies == old(replies) + [ok] && log == old(log) + (if ok then [m] else [])
    {
      ok := accepts(|replies|);
      replies := replies + [ok];
      if ok { log := log + [m]; }
    }
  }

  function Yes(n: nat): (r: seq<bool>)
    ensures |r| == n && forall i :: 0 <= i < n ==> r[i]
  {
    seq(n, _ => true)
  }

  class StoreAndForward {
    var rows: seq<Row>
    var nextId: nat

    ghost predicate Valid()
      reads this
    {
      Ordered(rows, nextId)
    }

    constructor ()
      ensures Valid() && rows == []
    {
      rows, nextId := [], 1;
    }

    method Enqueue(m: Message)
      requires Valid()
      modifies this
      ensures Valid() && rows == old(rows) + [Row(old(nextId), m)] && nextId == old(nextId) + 1
    {
      rows := rows + [Row(nextId, m)];
      nextId := nextId + 1;
    }

    method Pending() returns (n: nat)
      ensures n == |rows|
    {
      n := |rows|;
    }

    /** One page of rows already read: each deleted once accepted, until the first refusal. */
    method DrainPage(page: seq<Row>, broker: Broker) returns (n: nat)
      requires Valid() && page <= rows
      modifies this, broker
      ensures Valid() && nextId == old(nextId)
      ensures n <= |page| && rows == old(rows)[n..]
      ensures broker.log == old(broker.log) + Messages(page[..n])
      ensures broker.replies == old(broker.replies) + Yes(n) + (if n < |page| then [false] else [])
    {
      ghost var all := rows;
      n := 0;
      while n < |page|
        invariant n <= |page| && Valid() && nextId == old(nextId) && rows == all[n..]
        invariant broker.log == old(broker.log) + Messages(page[..n])
        invariant broker.replies == old(broker.replies) + Yes(n)
      {
        assert page[n] == all[n] == rows[0];
        var ok := broker.Publish(page[n].msg);
        if !ok { return; }
        DeleteHead(rows, nextId);
        rows := DeleteId(rows, page[n].id);
        MessagesSnoc(page, n);
        n := n + 1;
      }
    }

    /** Oldest first, stopping at the first refusal; what went out is gone from the table, the rest is not. */
    method Drain(broker: Broker, batch: nat) returns (sent: nat)
      requires Valid()
      modifies this, broker
      ensures Valid() && nextId == old(nextId)
      ensures sent <= |old(rows)| && rows == old(rows)[sent..]
      ensures broker.log == old(broker.log) + Messages(old(rows)[..sent])
      ensures batch == 0 ==> sent == 0 && broker.replies == old(broker.replies)
      ensures batch > 0 ==>
        broker.replies == old(broker.replies) + Yes(sent) + (if sent < |old(rows)| then [false] else [])
    {
      ghost var all, said := rows, broker.replies;
      sent := 0;
      while true
        invariant Valid() && nextId == old(nextId)
        invariant sent <= |all| && rows == all[sent..] && (batch == 0 ==> sent == 0)
        invariant broker.log == old(broker.log) + Messages(all[..sent]) && broker.replies == said + Yes(sent)
        decreases |rows|
      {
        var page := rows[..if batch < |rows| then batch else |rows|];
        if page == [] { return; }
        var n := DrainPage(page, broker);
        PageSent(all, sent, n, page, old(broker.log), said);
        sent := sent + n;
        if n < |page| { return; }
      }
    }
  }

  lemma MessagesSnoc(rows: seq<Row>, n: nat)
    requires n < |rows|
    ensures Messages(rows[..n + 1]) == Messages(rows[..n]) + [rows[n].msg]
  {
  }

  lemma MessagesSlice(all: seq<Row>, start: nat, n: nat, page: seq<Row>)
    requires start <= |all| && page <= all[start..] && n <= |page|
    ensures start + n <= |all| && Messages(all[..start + n]) == Messages(all[..start]) + Messages(page[..n])
    ensures all[start..][n..] == all[start + n..]
  {
    forall i | 0 <= i < n ensures page[i] == all[start + i] {
      assert page[i] == all[start..][i];
    }
  }

  /** After one more page: the rows, the log and the answers, counted from the start. */
  lemma PageSent(all: seq<Row>, start: nat, n: nat, page: seq<Row>, log: seq<Message>, said: seq<bool>)
    requires start <= |all| && page <= all[start..] && n <= |page|
    ensures start + n <= |all| && all[start..][n..] == all[start + n..]
    ensures log + Messages(all[..start]) + Messages(page[..n]) == log + Messages(all[..start + n])
    ensures said + Yes(start) + Yes(n) == said + Yes(start + n)
  {
    MessagesSlice(all, start, n, page);
    YesAppend(said, start, n);
  }

  lemma YesAppend(said: seq<bool>, a: nat, b: nat)
    ensures said + Yes(a) + Yes(b) == said + Yes(a + b)
  {
  }

  /** The part of the runner that publishes, as one thread sees it when no other runs. */
  class EdgeRunner {
    const outbox: StoreAndForward
    const broker: Broker
    var connected: bool

    constructor (outbox: StoreAndForward, broker: Broker)
      ensures this.outbox == outbox && this.broker == broker && !connected
    {
      this.outbox, this.broker, connected := outbox, broker, false;
    }

    method Send(m: Message) returns (ok: bool)
      modifies broker
      ensures ok == (connected && broker.accepts(|old(broker.replies)|))
      ensures broker.log == old(broker.log) + (if ok then [m] else [])
    {
      if !connected { return false; }
      ok := broker.Publish(m);
    }

    method Publish(m: Message) returns (sent: bool)
      requires outbox.Valid()
      modifies broker, outbox
      ensures outbox.Valid()
      ensures sent == (old(outbox.rows) == [] && connected && broker.accepts(|old(broker.replies)|))
      ensures broker.log == old(broker.log) + (if sent then [m] else [])
      ensures Messages(outbox.rows) == Messages(old(outbox.rows)) + (if sent then [] else [m])
    {
      var pending := outbox.Pending();
      if pending == 0 {
        sent := Send(m);
        if sent { return; }
      }
      outbox.Enqueue(m);
      sent := false;
    }
  }

  // ---- Ingest ----

  /** Each message once, where it first occurs. */
  function Dedup(ms: seq<Message>): (r: seq<Message>)
    ensures |r| <= |ms|
  {
    if ms == [] then []
    else
      var n := |ms| - 1;
      if ms[n] in ms[..n] then Dedup(ms[..n]) else Dedup(ms[..n]) + [ms[n]]
  }

  lemma {:induction false} DedupMembers(ms: seq<Message>, m: Message)
    ensures m in Dedup(ms) <==> m in ms
    decreases |ms|
  {
    if ms != [] {
      var n := |ms| - 1;
      DedupMembers(ms[..n], m);
      assert ms == ms[..n] + [ms[n]];
    }
  }

  datatype Key = Key(id: string, time: int)

  function KeyOf(m: Message): Key { Key(m.id, m.time) }

  predicate Stored(table: seq<Message>, k: Key) {
    exists i :: 0 <= i < |table| && KeyOf(table[i]) == k
  }

  /** A delivery, and whether its model resolves when it arrives. */
  datatype Delivery = Delivery(msg: Message, modelKnown: bool)

  function Store(table: seq<Message>, d: Delivery): seq<Message> {
    if !d.modelKnown || Stored(table, KeyOf(d.msg)) then table else table + [d.msg]
  }

  function StoreAll(ds: seq<Delivery>): seq<Message> {
    if ds == [] then [] else Store(StoreAll(ds[..|ds| - 1]), ds[|ds| - 1])
  }

  class PredictionTable {
    var rows: seq<Message>

    constructor ()
      ensures rows == []
    {
      rows := [];
    }

    method StoreEdgePrediction(d: Delivery) returns (stored: bool)
      modifies this
      ensures rows == Store(old(rows), d) && stored == (rows != old(rows))
    {
      if !d.modelKnown { return false; }
      var exists_ := false;
      for i := 0 to |rows|
        invariant exists_ == exists k :: 0 <= k < i && KeyOf(rows[k]) == KeyOf(d.msg)
      {
        if KeyOf(rows[i]) == KeyOf(d.msg) { exists_ := true; }
      }
      if exists_ { return false; }
      rows := rows + [d.msg];
      stored := true;
    }
  }

  predicate OnePerKey(table: seq<Message>) {
    forall i, j :: 0 <= i < j < |table| ==> KeyOf(table[i]) != KeyOf(table[j])
  }

  /** A row for this id and time. */
  predicate HasRow(table: seq<Message>, id: string, time: int) {
    exists i :: 0 <= i < |table| && table[i].id == id && table[i].time == time
  }

  /** A prediction of this id and time has been delivered while its model was known. */
  predicate Delivered(ds: seq<Delivery>, id: string, time: int) {
    exists i :: 0 <= i < |ds| && ds[i].modelKnown && ds[i].msg.id == id && ds[i].msg.time == time
  }

  /** Whatever arrives and however often: one row for each id and time delivered with a known model. */
  lemma StoredOnce(ds: seq<Delivery>, id: string, time: int)
    ensures var table := StoreAll(ds);
      && (HasRow(table, id, time) <==> Delivered(ds, id, time))
      && forall i, j :: 0 <= i < j < |table| ==> table[i].id != table[j].id || table[i].time != table[j].time
  {
    StoredOncePerKey(ds);
    var table := StoreAll(ds);
    forall i, j | 0 <= i < j < |table| ensures table[i].id != table[j].id || table[i].time != table[j].time {
      assert KeyOf(table[i]) != KeyOf(table[j]);
    }
    assert HasRow(table, id, time) <==> Stored(table, Key(id, time)) by {
      if i :| 0 <= i < |table| && table[i].id == id && table[i].time == time {
        assert KeyOf(table[i]) == Key(id, time);
      }
    }
    if i :| 0 <= i < |ds| && ds[i].modelKnown && ds[i].msg.id == id && ds[i].msg.time == time {
      assert KeyOf(ds[i].msg) == Key(id, time);
    }
  }

  lemma {:induction false} StoredOncePerKey(ds: seq<Delivery>)
    ensures OnePerKey(StoreAll(ds))
    ensures forall k :: Stored(StoreAll(ds), k) <==>
      exists i :: 0 <= i < |ds| && ds[i].modelKnown && KeyOf(ds[i].msg) == k
    decreases |ds|
  {
    if ds != [] {
      var n := |ds| - 1;
      var before, d, after := StoreAll(ds[..n]), ds[n], StoreAll(ds);
      StoredOncePerKey(ds[..n]);
      forall k ensures Stored(after, k) <==> Stored(before, k) || (d.modelKnown && KeyOf(d.msg) == k) {
        StoredAfter(before, d, k);
      }
      forall k ensures Stored(after, k) <==> exists i :: 0 <= i < |ds| && ds[i].modelKnown && KeyOf(ds[i].msg) == k {
        if Stored(before, k) {
          var i :| 0 <= i < n && ds[..n][i].modelKnown && KeyOf(ds[..n][i].msg) == k;
          assert ds[i].modelKnown && KeyOf(ds[i].msg) == k;
        }
        if i :| 0 <= i < |ds| && ds[i].modelKnown && KeyOf(ds[i].msg) == k {
          if i < n { assert ds[..n][i] == ds[i]; }
        }
      }
    }
  }

  lemma StoredAfter(table: seq<Message>, d: Delivery, k: Key)
    ensures Stored(Store(table, d), k) <==> Stored(table, k) || (d.modelKnown && KeyOf(d.msg) == k)
  {
    var after := table + [d.msg];
    if Stored(table, k) {
      var i :| 0 <= i < |table| && KeyOf(table[i]) == k;
      assert after[i] == table[i];
    }
    assert after[|table|] == d.msg;
  }

  function AllKnown(ms: seq<Message>): (ds: seq<Delivery>)
    ensures |ds| == |ms|
  {
    seq(|ms|, i requires 0 <= i < |ms| => Delivery(ms[i], true))
  }

  /** With distinct keys and registered models the table is the deliveries without repeats, in order. */
  lemma {:induction false} StoreIsDedup(ms: seq<Message>)
    requires forall a, b :: a in ms && b in ms && KeyOf(a) == KeyOf(b) ==> a == b
    ensures StoreAll(AllKnown(ms)) == Dedup(ms)
    decreases |ms|
  {
    if ms != [] {
      var n := |ms| - 1;
      var init := ms[..n];
      assert AllKnown(ms)[..n] == AllKnown(init);
      StoreIsDedup(init);
      var table := Dedup(init);
      if ms[n] in init {
        DedupMembers(init, ms[n]);
        var i :| 0 <= i < |table| && table[i] == ms[n];
        assert KeyOf(table[i]) == KeyOf(ms[n]);
      } else {
        forall i | 0 <= i < |table| ensures KeyOf(table[i]) != KeyOf(ms[n]) {
          DedupMembers(init, table[i]);
        }
      }
    }
  }
}
