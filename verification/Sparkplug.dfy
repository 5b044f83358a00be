/** A Sparkplug B edge node: its session state machine and what it puts on the wire. */
module SparkplugNode {

  datatype Message =
    | NBirth(bd: nat)                       // always carries seq 0
    | NDeath(bd: nat)
    | DBirth(device: string, seqNo: nat)
    | DData(device: string, seqNo: nat)
    | DDeath(device: string, seqNo: nat)

  /** What the broker sees: sessions opening with a will and closing, messages between, attempts it refused. */
  datatype Entry = Connected(will: nat) | Sent(m: Message) | Dropped | Turned

  datatype Node = Node(
    last: seq<string>,     // devices with values, in the order they first appeared
    born: set<string>, bd: nat, seqNo: nat,
    connected: bool, will: nat, wire: seq<Entry>)

  const Init := Node([], {}, 0, 0, false, 0, [])

  function NextSeq(n: Node): nat { (n.seqNo + 1) % 256 }

  function Put(n: Node, m: Message): Node { n.(wire := n.wire + [Sent(m)]) }

  function BirthDevice(n: Node, device: string): Node {
    Put(n, DBirth(device, NextSeq(n))).(seqNo := NextSeq(n), born := n.born + {device})
  }

  function BirthAll(n: Node, devices: seq<string>): Node {
    if devices == [] then n
    else BirthDevice(BirthAll(n, devices[..|devices| - 1]), devices[|devices| - 1])
  }

  function Reborn(n: Node): Node {
    BirthAll(Put(n.(seqNo := 0), NBirth(n.bd)).(born := {}), n.last)
  }

  function KillAll(n: Node, devices: seq<string>): Node {
    if devices == [] then n
    else
      var m := KillAll(n, devices[..|devices| - 1]);
      Put(m, DDeath(devices[|devices| - 1], NextSeq(m))).(seqNo := NextSeq(m))
  }

  /** The part of `stop` inside the lock; the disconnect follows as its own step. */
  function Announced(n: Node, devices: seq<string>): Node {
    Put(KillAll(n, devices), NDeath(n.bd)).(born := {})
  }

  function Published(n: Node, device: string): Node {
    var m := n.(last := if device in n.last then n.last else n.last + [device]);
    if !n.connected then m
    else if device !in n.born then BirthDevice(m, device)
    else Put(m, DData(device, NextSeq(m))).(seqNo := NextSeq(m))
  }

  function ConnectedNode(n: Node): Node {
    Reborn(n.(connected := true, wire := n.wire + [Connected(n.will)]))
  }

  /** The client calls `_on_disconnect` after a refused attempt as well. */
  function Disconnected(n: Node): Node {
    n.(connected := false, wire := n.wire + [if n.connected then Dropped else Turned], born := {},
       bd := (n.bd + 1) % 256, will := (n.bd + 1) % 256)
  }

  datatype Event =
    | Publish(device: string)
    | Connect | Refused | Disconnect
    | Rebirth                       // an NCMD asking for it, or the simulation engine replaced
    | Announce(devices: seq<string>)

  /** `sorted(self._born)`: every born device, once. */
  predicate Listing(devices: seq<string>, born: set<string>) {
    && (forall i, j :: 0 <= i < j < |devices| ==> devices[i] != devices[j])
    && (forall i :: 0 <= i < |devices| ==> devices[i] in born)
    && (forall d :: d in born ==> d in devices)
  }

  predicate Enabled(n: Node, e: Event) {
    match e
    case Publish(_) => true
    case Connect => !n.connected
    case Refused => !n.connected
    case Disconnect => true
    case Rebirth => n.connected
    case Announce(ds) => n.connected && Listing(ds, n.born)
  }

  function Next(n: Node, e: Event): Node {
    if !Enabled(n, e) then n
    else
      match e
      case Publish(d) => Published(n, d)
      case Connect => ConnectedNode(n)
      case Refused => n
      case Disconnect => Disconnected(n)
      case Rebirth => Reborn(n)
      case Announce(ds) => Announced(n, ds)
  }

  function Run(es: seq<Event>): Node {
    if es == [] then Init else Next(Run(es[..|es| - 1]), es[|es| - 1])
  }

  /** The class itself; the MQTT client is the wire plus its connection flag and registered will. */
  class SparkplugEdgeNode {
    var last: seq<string>
    var born: set<string>
    var bdSeq: nat
    var seqNo: nat
    var connected: bool
    var will: nat
    var wire: seq<Entry>

    function Abs(): Node
      reads this
    {
      Node(last, born, bdSeq, seqNo, connected, will, wire)
    }

    constructor ()
      ensures Abs() == Init
    {
      last, born, bdSeq, seqNo, connected, will, wire := [], {}, 0, 0, false, 0, [];
    }

    method TakeSeq() returns (r: nat)
      modifies this`seqNo
      ensures r == NextSeq(old(Abs())) && Abs() == old(Abs()).(seqNo := r)
    {
      seqNo := (seqNo + 1) % 256;
      r := seqNo;
    }

    method PublishDBirth(device: string)
      modifies this`seqNo, this`wire, this`born
      ensures Abs() == BirthDevice(old(Abs()), device)
    {
      var s := TakeSeq();
      wire := wire + [Sent(DBirth(device, s))];
      born := born + {device};
    }

    method DoRebirth()
      modifies this`seqNo, this`wire, this`born
      ensures Abs() == Reborn(old(Abs()))
    {
      seqNo := 0;
      wire := wire + [Sent(NBirth(bdSeq))];
      born := {};
      ghost var start := Abs();
      for i := 0 to |last|
        invariant Abs() == BirthAll(start, last[..i])
      {
        assert last[..i + 1][..i] == last[..i];
        PublishDBirth(last[i]);
      }
      assert last[..|last|] == last;
    }

    method PublishDevice(device: string)
      modifies this
      ensures Abs() == Published(old(Abs()), device)
    {
      if device !in last { last := last + [device]; }
      if !connected { return; }
      if device !in born {
        PublishDBirth(device);
        return;
      }
      var s := TakeSeq();
      wire := wire + [Sent(DData(device, s))];
    }

    method StopAnnounce(devices: seq<string>)
      requires connected && Listing(devices, born)
      modifies this
      ensures Abs() == Announced(old(Abs()), devices)
    {
      for i := 0 to |devices|
        invariant Abs() == KillAll(old(Abs()), devices[..i])
      {
        assert devices[..i + 1][..i] == devices[..i];
        var s := TakeSeq();
        wire := wire + [Sent(DDeath(devices[i], s))];
      }
      assert devices[..|devices|] == devices;
      KillKeeps(old(Abs()), devices);
      wire := wire + [Sent(NDeath(bdSeq))];
      born := {};
    }

    method OnConnect(failure: bool)
      modifies this
      ensures Abs() == if failure then old(Abs()) else ConnectedNode(old(Abs()))
    {
      if failure { return; }
      connected := true;
      wire := wire + [Connected(will)];
      DoRebirth();
    }

    method OnDisconnect()
      modifies this
      ensures Abs() == Disconnected(old(Abs()))
    {
      wire := wire + [if connected then Dropped else Turned];
      connected := false;
      born := {};
      bdSeq := (bdSeq + 1) % 256;
      will := bdSeq;
    }
  }

  lemma {:induction false} KillKeeps(n: Node, devices: seq<string>)
    ensures var m := KillAll(n, devices); m == n.(seqNo := m.seqNo, wire := m.wire)
    decreases |devices|
  {
    if devices != [] { KillKeeps(n, devices[..|devices| - 1]); }
  }

  lemma {:induction false} BirthKeeps(n: Node, devices: seq<string>)
    ensures var m := BirthAll(n, devices); m == n.(seqNo := m.seqNo, wire := m.wire, born := m.born)
    decreases |devices|
  {
    if devices != [] { BirthKeeps(n, devices[..|devices| - 1]); }
  }

  // ---- The protocol, as a property of the wire alone ----

  /** Device messages since the last NBIRTH. */
  function SinceNBirth(w: seq<Entry>): nat {
    if w == [] then 0
    else match w[|w| - 1]
      case Sent(NBirth(_)) => 0
      case Sent(DBirth(_, _)) => SinceNBirth(w[..|w| - 1]) + 1
      case Sent(DData(_, _)) => SinceNBirth(w[..|w| - 1]) + 1
      case Sent(DDeath(_, _)) => SinceNBirth(w[..|w| - 1]) + 1
      case _ => SinceNBirth(w[..|w| - 1])
  }

  /** Devices with a DBIRTH after the last NBIRTH of this session and no DDEATH since. */
  function Alive(w: seq<Entry>): set<string> {
    if w == [] then {}
    else match w[|w| - 1]
      case Sent(NBirth(_)) => {}
      case Sent(DBirth(d, _)) => Alive(w[..|w| - 1]) + {d}
      case Sent(DDeath(d, _)) => Alive(w[..|w| - 1]) - {d}
      case Dropped => {}
      case Turned => {}
      case Connected(_) => {}
      case _ => Alive(w[..|w| - 1])
  }

  datatype Session = Closed | Opening(will: nat) | Born(will: nat)

  /** Whether a session is open, the will it registered, and whether its NBIRTH has gone out. */
  function SessionOf(w: seq<Entry>): Session {
    if w == [] then Closed
    else match w[|w| - 1]
      case Connected(will) => Opening(will)
      case Dropped => Closed
      case Turned => Closed
      case Sent(NBirth(_)) =>
        var s := SessionOf(w[..|w| - 1]);
        if s.Opening? then Born(s.will) else s
      case _ => SessionOf(w[..|w| - 1])
  }

  /** Sessions and attempts that have ended. */
  function Drops(w: seq<Entry>): nat {
    if w == [] then 0 else Drops(w[..|w| - 1]) + (if w[|w| - 1].Dropped? || w[|w| - 1].Turned? then 1 else 0)
  }

  /** The next entry is in order after `w`: sessions, births, numbers and certificates. */
  predicate InOrder(w: seq<Entry>, e: Entry) {
    match e
    case Connected(will) => SessionOf(w).Closed? && will == Drops(w) % 256
    case Dropped => !SessionOf(w).Closed?
    case Turned => SessionOf(w).Closed?
    case Sent(NBirth(bd)) => !SessionOf(w).Closed? && bd == SessionOf(w).will
    case Sent(NDeath(bd)) => SessionOf(w) == Born(bd)
    case Sent(DBirth(_, q)) => SessionOf(w).Born? && q == (SinceNBirth(w) + 1) % 256
    case Sent(DData(d, q)) => SessionOf(w).Born? && d in Alive(w) && q == (SinceNBirth(w) + 1) % 256
    case Sent(DDeath(d, q)) => SessionOf(w).Born? && d in Alive(w) && q == (SinceNBirth(w) + 1) % 256
  }

  predicate Orderly(w: seq<Entry>) {
    forall i :: 0 <= i < |w| ==> InOrder(w[..i], w[i])
  }

  lemma OrderlySnoc(w: seq<Entry>, e: Entry)
    requires Orderly(w) && InOrder(w, e)
    ensures Orderly(w + [e])
  {
    var v := w + [e];
    forall i | 0 <= i < |v| ensures InOrder(v[..i], v[i]) {
      if i < |w| {
        assert v[..i] == w[..i];
      } else {
        assert v[..i] == w;
      }
    }
  }

  /** After appending: how each reading of the wire moves. */
  lemma Snoc(w: seq<Entry>, e: Entry)
    ensures (w + [e])[..|w|] == w && (w + [e])[|w|] == e
  {
  }

  // ---- The invariant ----

  predicate Inv(n: Node) {
    && Orderly(n.wire)
    && n.bd == Drops(n.wire) % 256 && n.will == n.bd
    && (n.connected ==>
          SessionOf(n.wire) == Born(n.bd) && n.born == Alive(n.wire) && n.seqNo == SinceNBirth(n.wire) % 256)
    && (!n.connected ==> SessionOf(n.wire).Closed? && n.born == {})
  }

  lemma InvDevice(n: Node, m: Message, k: Node)
    requires Inv(n) && n.connected && InOrder(n.wire, Sent(m))
    requires (m.DBirth? || m.DData?) && m.seqNo == NextSeq(n)
    requires k == Put(n, m).(seqNo := NextSeq(n), last := k.last,
                             born := if m.DBirth? then n.born + {m.device} else n.born)
    ensures Inv(k)
  {
    Snoc(n.wire, Sent(m));
    OrderlySnoc(n.wire, Sent(m));
  }

  lemma NextSeqInOrder(n: Node)
    requires Inv(n) && n.connected
    ensures NextSeq(n) == (SinceNBirth(n.wire) + 1) % 256
  {
  }

  lemma InvBirth(n: Node, device: string)
    requires Inv(n) && n.connected
    ensures Inv(BirthDevice(n, device)) && BirthDevice(n, device).connected
  {
    NextSeqInOrder(n);
    InvDevice(n, DBirth(device, NextSeq(n)), BirthDevice(n, device));
  }

  lemma {:induction false} InvBirthAll(n: Node, devices: seq<string>)
    requires Inv(n) && n.connected
    ensures Inv(BirthAll(n, devices)) && BirthAll(n, devices).connected
    decreases |devices|
  {
    if devices != [] {
      var k := |devices| - 1;
      InvBirthAll(n, devices[..k]);
      InvBirth(BirthAll(n, devices[..k]), devices[k]);
    }
  }

  /** NBIRTH: from an open session, whether or not it was born before. */
  lemma InvReborn(n: Node)
    requires Orderly(n.wire) && n.bd == Drops(n.wire) % 256 && n.will == n.bd && n.connected
    requires SessionOf(n.wire) == Born(n.bd) || SessionOf(n.wire) == Opening(n.bd)
    ensures Inv(Reborn(n)) && Reborn(n).connected
  {
    InvNBirth(n);
    InvBirthAll(Put(n.(seqNo := 0), NBirth(n.bd)).(born := {}), n.last);
  }

  lemma InvNBirth(n: Node)
    requires Orderly(n.wire) && n.bd == Drops(n.wire) % 256 && n.will == n.bd && n.connected
    requires SessionOf(n.wire) == Born(n.bd) || SessionOf(n.wire) == Opening(n.bd)
    ensures Inv(Put(n.(seqNo := 0), NBirth(n.bd)).(born := {}))
  {
    Snoc(n.wire, Sent(NBirth(n.bd)));
    OrderlySnoc(n.wire, Sent(NBirth(n.bd)));
  }

  lemma InvConnect(n: Node)
    requires Inv(n) && !n.connected
    ensures Inv(ConnectedNode(n))
  {
    Snoc(n.wire, Connected(n.will));
    OrderlySnoc(n.wire, Connected(n.will));
    InvReborn(n.(connected := true, wire := n.wire + [Connected(n.will)]));
  }

  lemma InvDisconnect(n: Node)
    requires Inv(n)
    ensures Inv(Disconnected(n))
  {
    InvEnds(n, if n.connected then Dropped else Turned, Disconnected(n));
  }

  lemma InvEnds(n: Node, e: Entry, k: Node)
    requires Inv(n) && e == (if n.connected then Dropped else Turned)
    requires k == n.(connected := false, wire := n.wire + [e], born := {},
                     bd := (n.bd + 1) % 256, will := (n.bd + 1) % 256)
    ensures Inv(k)
  {
    Snoc(n.wire, e);
    OrderlySnoc(n.wire, e);
    assert Drops(k.wire) == Drops(n.wire) + 1;
  }

  lemma InvKill(n: Node, d: string)
    requires Inv(n) && n.connected && d in n.born
    ensures Inv(Put(n, DDeath(d, NextSeq(n))).(seqNo := NextSeq(n), born := n.born - {d}))
  {
    var entry := Sent(DDeath(d, NextSeq(n)));
    NextSeqInOrder(n);
    Snoc(n.wire, entry);
    OrderlySnoc(n.wire, entry);
  }

  /** `stop` leaves `_born` alone until the end; here it shrinks with each DDEATH. */
  function Survivors(n: Node, devices: seq<string>): Node {
    KillAll(n, devices).(born := n.born - (set d | d in devices))
  }

  lemma {:induction false} InvKillAll(n: Node, devices: seq<string>)
    requires Inv(n) && n.connected
    requires forall i, j :: 0 <= i < j < |devices| ==> devices[i] != devices[j]
    requires forall i :: 0 <= i < |devices| ==> devices[i] in n.born
    ensures Inv(Survivors(n, devices))
    decreases |devices|
  {
    if devices == [] {
      assert n.born - (set d | d in devices) == n.born;
    } else {
      var k := |devices| - 1;
      InvKillAll(n, devices[..k]);
      SurvivorsSnoc(n, devices);
      InvKill(Survivors(n, devices[..k]), devices[k]);
    }
  }

  lemma SurvivorsSnoc(n: Node, devices: seq<string>)
    requires devices != [] && forall i :: 0 <= i < |devices| - 1 ==> devices[i] != devices[|devices| - 1]
    requires devices[|devices| - 1] in n.born
    ensures var d, s := devices[|devices| - 1], Survivors(n, devices[..|devices| - 1]);
      && d in s.born && s.connected == n.connected
      && Survivors(n, devices) == Put(s, DDeath(d, NextSeq(s))).(seqNo := NextSeq(s), born := s.born - {d})
  {
    var init, d := devices[..|devices| - 1], devices[|devices| - 1];
    KillKeeps(n, init);
    assert forall x :: x in devices <==> x in init || x == d;
    assert n.born - (set x | x in devices) == n.born - (set x | x in init) - {d};
  }

  lemma InvAnnounce(n: Node, devices: seq<string>)
    requires Inv(n) && Enabled(n, Announce(devices))
    ensures Inv(Announced(n, devices))
  {
    InvKillAll(n, devices);
    KillKeeps(n, devices);
    var m := KillAll(n, devices);
    assert n.born - (set d | d in devices) == {};
    Snoc(m.wire, Sent(NDeath(n.bd)));
    OrderlySnoc(m.wire, Sent(NDeath(n.bd)));
  }

  lemma InvPublish(n: Node, device: string)
    requires Inv(n)
    ensures Inv(Published(n, device))
  {
    var m := n.(last := if device in n.last then n.last else n.last + [device]);
    if n.connected {
      NextSeqInOrder(n);
      if device !in n.born {
        InvBirth(m, device);
      } else {
        InvDevice(m, DData(device, NextSeq(m)), Published(n, device));
      }
    }
  }

  lemma InvStep(n: Node, e: Event)
    requires Inv(n)
    ensures Inv(Next(n, e))
  {
    if Enabled(n, e) {
      match e
      case Publish(d) => InvPublish(n, d);
      case Connect => InvConnect(n);
      case Refused =>
      case Disconnect => InvDisconnect(n);
      case Rebirth => InvReborn(n);
      case Announce(ds) => InvAnnounce(n, ds);
    }
  }

  /** In every run everything on the wire is in order, and the node knows exactly which devices are alive. */
  lemma {:induction false} RunOrderly(es: seq<Event>)
    ensures Inv(Run(es))
    decreases |es|
  {
    if es != [] {
      RunOrderly(es[..|es| - 1]);
      InvStep(Run(es[..|es| - 1]), es[|es| - 1]);
    }
  }

  // ---- What conformance means, read off by position ----

  predicate IsDevice(e: Entry) {
    e.Sent? && !e.m.NBirth? && !e.m.NDeath?
  }

  /** The k-th device message after an NBIRTH carries k mod 256. */
  lemma {:induction false} SeqCountsFromBirth(w: seq<Entry>, b: nat, i: nat)
    requires b < i < |w| && w[b].Sent? && w[b].m.NBirth?
    requires forall j :: b < j < i ==> !(w[j].Sent? && w[j].m.NBirth?)
    ensures SinceNBirth(w[..i]) == DeviceMessages(w[b + 1..i])
    decreases i
  {
    var v := w[..i];
    assert v[..i - 1] == w[..i - 1];
    if i == b + 1 {
      assert v[|v| - 1] == w[b] && w[b + 1..i] == [];
    } else {
      SeqCountsFromBirth(w, b, i - 1);
      assert w[b + 1..i][..i - b - 2] == w[b + 1..i - 1];
    }
  }

  function DeviceMessages(w: seq<Entry>): nat {
    if w == [] then 0 else DeviceMessages(w[..|w| - 1]) + (if IsDevice(w[|w| - 1]) then 1 else 0)
  }

  /** A device alive at a point was born earlier in that session, after its last NBIRTH. */
  lemma {:induction false} AliveWasBorn(w: seq<Entry>, device: string) returns (b: nat)
    requires device in Alive(w)
    ensures b < |w| && w[b].Sent? && w[b].m.DBirth? && w[b].m.device == device
    ensures forall j :: b < j < |w| ==> !w[j].Dropped? && !w[j].Connected? && (w[j].Sent? ==> !w[j].m.NBirth?)
    decreases |w|
  {
    var n := |w| - 1;
    if w[n].Sent? && w[n].m.DBirth? && w[n].m.device == device {
      b := n;
    } else {
      b := AliveWasBorn(w[..n], device);
    }
  }

  /** In an open session every certificate carries the will's bdSeq, itself the count of drops before it. */
  lemma {:induction false} SessionWill(w: seq<Entry>) returns (c: nat)
    requires !SessionOf(w).Closed?
    ensures c < |w| && w[c].Connected? && w[c].will == SessionOf(w).will
    ensures forall j :: c < j < |w| ==> !w[j].Dropped? && !w[j].Connected?
    decreases |w|
  {
    var n := |w| - 1;
    if w[n].Connected? {
      c := n;
    } else {
      c := SessionWill(w[..n]);
    }
  }

  lemma DeviceSeq(w: seq<Entry>, i: nat)
    requires Orderly(w) && i < |w| && IsDevice(w[i])
    ensures w[i].m.seqNo == (SinceNBirth(w[..i]) + 1) % 256
  {
    assert InOrder(w[..i], w[i]);
  }

  lemma DeviceMessagesSnoc(w: seq<Entry>, e: Entry)
    ensures DeviceMessages(w + [e]) == DeviceMessages(w) + (if IsDevice(e) then 1 else 0)
  {
    assert (w + [e])[..|w|] == w;
  }

  lemma SeqOnWire(w: seq<Entry>, b: nat, i: nat)
    requires Orderly(w) && b < i < |w| && w[b].Sent? && w[b].m.NBirth? && IsDevice(w[i])
    requires forall j :: b < j < i ==> !(w[j].Sent? && w[j].m.NBirth?)
    ensures w[i].m.seqNo == DeviceMessages(w[b + 1..i + 1]) % 256
  {
    SeqCountsFromBirth(w, b, i);
    DeviceSeq(w, i);
    assert w[b + 1..i + 1] == w[b + 1..i] + [w[i]];
    DeviceMessagesSnoc(w[b + 1..i], w[i]);
  }

  /** In every run: a device message's seq is its number since the last NBIRTH, mod 256. */
  lemma SeqInEveryRun(es: seq<Event>, b: nat, i: nat)
    requires b < i < |Run(es).wire| && Run(es).wire[b].Sent? && Run(es).wire[b].m.NBirth? && IsDevice(Run(es).wire[i])
    requires forall j :: b < j < i ==> !(Run(es).wire[j].Sent? && Run(es).wire[j].m.NBirth?)
    ensures Run(es).wire[i].m.seqNo == DeviceMessages(Run(es).wire[b + 1..i + 1]) % 256
  {
    RunOrderly(es);
    SeqOnWire(Run(es).wire, b, i);
  }

  /** In every run: data is preceded by a birth of its device with no NBIRTH or session change between. */
  lemma DataAfterBirthInEveryRun(es: seq<Event>, i: nat) returns (b: nat)
    requires i < |Run(es).wire| && Run(es).wire[i].Sent? && Run(es).wire[i].m.DData?
    ensures var w := Run(es).wire;
      && b < i && w[b].Sent? && w[b].m.DBirth? && w[b].m.device == w[i].m.device
      && forall j :: b < j < i ==> !w[j].Dropped? && !w[j].Connected? && (w[j].Sent? ==> !w[j].m.NBirth?)
  {
    RunOrderly(es);
    var w := Run(es).wire;
    assert InOrder(w[..i], w[i]);
    b := AliveWasBorn(w[..i], w[i].m.device);
  }

  /** In every run: births and deaths of a session carry the will it connected with. */
  lemma CertificatesMatchWill(es: seq<Event>, i: nat) returns (c: nat)
    requires i < |Run(es).wire| && Run(es).wire[i].Sent? && (Run(es).wire[i].m.NBirth? || Run(es).wire[i].m.NDeath?)
    ensures var w := Run(es).wire;
      && c < i && w[c] == Connected(w[i].m.bd) && w[c].will == Drops(w[..c]) % 256
      && forall j :: c < j < i ==> !w[j].Dropped? && !w[j].Connected?
  {
    RunOrderly(es);
    var w := Run(es).wire;
    assert InOrder(w[..i], w[i]);
    c := SessionWill(w[..i]);
    assert w[..i][c] == w[c] && InOrder(w[..c], w[c]);
  }

  // ---- Nothing after a death certificate ----

  /** A death certificate has gone out in this session. */
  predicate Dead(w: seq<Entry>) {
    w != [] && match w[|w| - 1]
      case Sent(NDeath(_)) => true
      case Dropped => false
      case Connected(_) => false
      case _ => Dead(w[..|w| - 1])
  }

  /** After its death certificate a session only ends. */
  predicate DeathIsLast(w: seq<Entry>) {
    forall i :: 0 <= i < |w| && Dead(w[..i]) ==> w[i].Dropped?
  }

  /** What the protocol asks of the wire. */
  predicate Conforms(w: seq<Entry>) { Orderly(w) && DeathIsLast(w) }

  /** The node has announced its end and has not disconnected yet. */
  function Leaving(es: seq<Event>): bool {
    if es == [] then false
    else
      var init, e := es[..|es| - 1], es[|es| - 1];
      if !Enabled(Run(init), e) then Leaving(init)
      else match e
        case Announce(_) => true
        case Connect => false
        case Disconnect => false
        case _ => Leaving(init)
  }

  /** The step puts something on the wire. */
  predicate Speaks(n: Node, e: Event) {
    Enabled(n, e) && (e.Rebirth? || e.Announce? || (e.Publish? && n.connected))
  }

  predicate QuietAt(es: seq<Event>, i: nat)
    requires i < |es|
  {
    Leaving(es[..i]) ==> !Speaks(Run(es[..i]), es[i])
  }

  /** Nothing is published, reborn or announced between an announcement and its disconnect. */
  predicate Quiet(es: seq<Event>) { forall i :: 0 <= i < |es| ==> QuietAt(es, i) }

  /** v is w with births, data and device deaths added. */
  predicate Adds(w: seq<Entry>, v: seq<Entry>) {
    w <= v && forall i :: |w| <= i < |v| ==> v[i].Sent? && !v[i].m.NDeath?
  }

  lemma DeathSnoc(w: seq<Entry>, e: Entry)
    ensures DeathIsLast(w + [e]) <==> DeathIsLast(w) && (Dead(w) ==> e.Dropped?)
    ensures Dead(w + [e]) ==
      if e.Sent? && e.m.NDeath? then true else if e.Dropped? || e.Connected? then false else Dead(w)
  {
    var v := w + [e];
    assert v[..|w|] == w && v[|v| - 1] == e;
    assert forall i :: 0 <= i < |w| ==> v[..i] == w[..i] && v[i] == w[i];
  }

  lemma {:induction false} AddsKeep(w: seq<Entry>, v: seq<Entry>)
    requires Adds(w, v)
    ensures Dead(v) == Dead(w)
    ensures DeathIsLast(v) <==> DeathIsLast(w) && (Dead(w) ==> v == w)
    decreases |v|
  {
    if |v| > |w| {
      var n := |v| - 1;
      assert v[..n][..|w|] == w && forall i :: 0 <= i < n ==> v[..n][i] == v[i];
      AddsKeep(w, v[..n]);
      DeathSnoc(v[..n], v[n]);
      assert v == v[..n] + [v[n]];
    } else {
      assert v == w;
    }
  }

  lemma {:induction false} BirthAdds(n: Node, devices: seq<string>)
    ensures Adds(n.wire, BirthAll(n, devices).wire)
    decreases |devices|
  {
    if devices != [] { BirthAdds(n, devices[..|devices| - 1]); }
  }

  lemma {:induction false} KillAdds(n: Node, devices: seq<string>)
    ensures Adds(n.wire, KillAll(n, devices).wire)
    decreases |devices|
  {
    if devices != [] { KillAdds(n, devices[..|devices| - 1]); }
  }

  lemma RebornAdds(n: Node)
    ensures Adds(n.wire, Reborn(n).wire) && Reborn(n).wire != n.wire
  {
    BirthAdds(Put(n.(seqNo := 0), NBirth(n.bd)).(born := {}), n.last);
  }

  lemma AnnounceDeath(n: Node, devices: seq<string>)
    ensures Dead(Announced(n, devices).wire)
    ensures DeathIsLast(Announced(n, devices).wire) <==> DeathIsLast(n.wire) && !Dead(n.wire)
  {
    KillAdds(n, devices);
    AddsKeep(n.wire, KillAll(n, devices).wire);
    DeathSnoc(KillAll(n, devices).wire, Sent(NDeath(n.bd)));
    KillKeeps(n, devices);
  }

  lemma ConnectDeath(n: Node)
    ensures !Dead(ConnectedNode(n).wire)
    ensures DeathIsLast(ConnectedNode(n).wire) <==> DeathIsLast(n.wire) && !Dead(n.wire)
  {
    var c := n.(connected := true, wire := n.wire + [Connected(n.will)]);
    DeathSnoc(n.wire, Connected(n.will));
    RebornAdds(c);
    AddsKeep(c.wire, Reborn(c).wire);
  }

  /** One step: it breaks the rule exactly when the node is dead and the step speaks. */
  lemma StepDeath(n: Node, e: Event)
    requires Dead(n.wire) ==> n.connected
    ensures var m := Next(n, e);
      && (DeathIsLast(m.wire) <==> DeathIsLast(n.wire) && !(Dead(n.wire) && Speaks(n, e)))
      && (Dead(m.wire) <==>
          if Enabled(n, e) && e.Announce? then true
          else if Enabled(n, e) && (e.Connect? || e.Disconnect?) then false else Dead(n.wire))
      && (Dead(m.wire) ==> m.connected)
  {
    var m := Next(n, e);
    if Enabled(n, e) {
      match e
      case Publish(d) => AddsKeep(n.wire, m.wire);
      case Connect => ConnectDeath(n);
      case Refused =>
      case Disconnect => DeathSnoc(n.wire, if n.connected then Dropped else Turned);
      case Rebirth =>
        RebornAdds(n);
        BirthKeeps(Put(n.(seqNo := 0), NBirth(n.bd)).(born := {}), n.last);
        AddsKeep(n.wire, m.wire);
      case Announce(ds) =>
        AnnounceDeath(n, ds);
        KillKeeps(n, ds);
    }
  }

  lemma QuietSnoc(es: seq<Event>)
    requires es != []
    ensures var init, e := es[..|es| - 1], es[|es| - 1];
      Quiet(es) <==> Quiet(init) && !(Leaving(init) && Speaks(Run(init), e))
  {
    var n := |es| - 1;
    forall i | 0 <= i < n ensures QuietAt(es, i) == QuietAt(es[..n], i) { assert es[..n][..i] == es[..i]; }
    assert QuietAt(es, n) == !(Leaving(es[..n]) && Speaks(Run(es[..n]), es[n]));
  }

  lemma {:induction false} DeathIsLastIff(es: seq<Event>)
    ensures DeathIsLast(Run(es).wire) <==> Quiet(es)
    ensures Dead(Run(es).wire) == Leaving(es) && (Leaving(es) ==> Run(es).connected)
    decreases |es|
  {
    if es != [] {
      var init, e := es[..|es| - 1], es[|es| - 1];
      DeathIsLastIff(init);
      StepDeath(Run(init), e);
      QuietSnoc(es);
    }
  }

  /**
   * What a run puts on the wire conforms exactly when nothing is published, reborn or announced again
   * between `stop`'s announcement and the disconnect that follows it.
   */
  lemma RunConforms(es: seq<Event>)
    ensures Conforms(Run(es).wire) <==> Quiet(es)
  {
    RunOrderly(es);
    DeathIsLastIff(es);
  }

  /**
   * `stop` lets go of the lock before it disconnects, so a rebirth requested on the network thread may get
   * it in between: a birth after the death certificate.
   */
  lemma BirthAfterDeath(d: string, es: seq<Event>)
    requires es == [Connect, Publish(d), Announce([d]), Rebirth]
    ensures !Conforms(Run(es).wire)
  {
    var one, two, three := es[..1], es[..2], es[..3];
    assert one == [] + [Connect] && two == one + [Publish(d)] && three == two + [Announce([d])];
    FirstBirth(d, one, two);
    assert Leaving(three) by { assert three[..|three| - 1] == two; }
    DeathIsLastIff(three);
    assert Speaks(Run(three), es[3]) && !QuietAt(es, 3);
    RunConforms(es);
  }

  lemma FirstBirth(d: string, one: seq<Event>, two: seq<Event>)
    requires one == [] + [Connect] && two == one + [Publish(d)]
    ensures Run(two).connected && Run(two).born == {d}
  {
    RunSnoc([], Connect);
    Connects(Init);
    RunSnoc(one, Publish(d));
  }

  lemma Connects(n: Node)
    requires !n.connected && n.last == []
    ensures Next(n, Connect).connected && Next(n, Connect).born == {} && Next(n, Connect).last == []
  {}

  lemma RunSnoc(es: seq<Event>, e: Event)
    ensures Run(es + [e]) == Next(Run(es), e)
  {
    assert (es + [e])[..|es|] == es;
  }

  // ---- What each step puts on the wire ----

  /** The devices published so far, in the order they first were. */
  function PublishedBy(es: seq<Event>): seq<string> {
    if es == [] then []
    else
      var before, e := PublishedBy(es[..|es| - 1]), es[|es| - 1];
      if e.Publish? && e.device !in before then before + [e.device] else before
  }

  lemma {:induction false} PublishedMembers(es: seq<Event>, d: string)
    ensures d in PublishedBy(es) <==> Publish(d) in es
    decreases |es|
  {
    if es != [] {
      PublishedMembers(es[..|es| - 1], d);
      assert es == es[..|es| - 1] + [es[|es| - 1]];
    }
  }

  predicate NoRepeats(ds: seq<string>) { forall i, j :: 0 <= i < j < |ds| ==> ds[i] != ds[j] }

  /** The node keeps values for exactly the devices published. */
  lemma {:induction false} LastIsPublished(es: seq<Event>)
    ensures Run(es).last == PublishedBy(es) && NoRepeats(PublishedBy(es))
    decreases |es|
  {
    if es != [] {
      var n := Run(es[..|es| - 1]);
      LastIsPublished(es[..|es| - 1]);
      match es[|es| - 1]
      case Connect => RebornKeepsLast(n.(connected := true, wire := n.wire + [Connected(n.will)]));
      case Rebirth => RebornKeepsLast(n);
      case Announce(ds) => KillKeeps(n, ds);
      case _ =>
    }
  }

  lemma RebornKeepsLast(n: Node)
    ensures Reborn(n).last == n.last && Reborn(n).connected == n.connected
  {
    BirthKeeps(Put(n.(seqNo := 0), NBirth(n.bd)).(born := {}), n.last);
  }

  /** w is one DBIRTH for each of the devices, in this order. */
  predicate Births(w: seq<Entry>, ds: seq<string>) {
    |w| == |ds| && forall i :: 0 <= i < |ds| ==> w[i].Sent? && w[i].m.DBirth? && w[i].m.device == ds[i]
  }

  predicate Deaths(w: seq<Entry>, ds: seq<string>) {
    |w| == |ds| && forall i :: 0 <= i < |ds| ==> w[i].Sent? && w[i].m.DDeath? && w[i].m.device == ds[i]
  }

  lemma {:induction false} BirthAllAppends(n: Node, ds: seq<string>) returns (w: seq<Entry>)
    ensures BirthAll(n, ds).wire == n.wire + w && Births(w, ds)
    decreases |ds|
  {
    w := [];
    if ds != [] {
      var init, d := ds[..|ds| - 1], ds[|ds| - 1];
      var before := BirthAllAppends(n, init);
      w := before + [Sent(DBirth(d, NextSeq(BirthAll(n, init))))];
      assert n.wire + before + [w[|w| - 1]] == n.wire + w;
      assert forall i :: 0 <= i < |init| ==> w[i] == before[i] && init[i] == ds[i];
    }
  }

  lemma {:induction false} KillAllAppends(n: Node, ds: seq<string>) returns (w: seq<Entry>)
    ensures KillAll(n, ds).wire == n.wire + w && Deaths(w, ds)
    decreases |ds|
  {
    w := [];
    if ds != [] {
      var init, d := ds[..|ds| - 1], ds[|ds| - 1];
      var before := KillAllAppends(n, init);
      w := before + [Sent(DDeath(d, NextSeq(KillAll(n, init))))];
      assert n.wire + before + [w[|w| - 1]] == n.wire + w;
      assert forall i :: 0 <= i < |init| ==> w[i] == before[i] && init[i] == ds[i];
    }
  }

  lemma {:induction false} BirthsLive(w: seq<Entry>, b: seq<Entry>, ds: seq<string>)
    requires Births(b, ds)
    ensures Alive(w + b) == Alive(w) + set d | d in ds
    decreases |ds|
  {
    if ds == [] {
      assert w + b == w;
    } else {
      var k := |ds| - 1;
      BirthsLive(w, b[..k], ds[..k]);
      Snoc(w + b[..k], b[k]);
      assert w + b == w + b[..k] + [b[k]];
      assert forall d :: d in ds <==> d in ds[..k] || d == ds[k];
    }
  }

  /**
   * A rebirth, in any run: an NBIRTH, then one DBIRTH for each device published before, each once and in the
   * order it first was; and those are the devices alive afterwards.
   */
  lemma RebirthBirthsAll(es: seq<Event>) returns (births: seq<Entry>)
    requires Run(es).connected
    ensures Run(es + [Rebirth]).wire == Run(es).wire + [Sent(NBirth(Run(es).will))] + births
    ensures Births(births, PublishedBy(es)) && NoRepeats(PublishedBy(es))
    ensures Alive(Run(es + [Rebirth]).wire) == set d | d in PublishedBy(es)
  {
    RunOrderly(es);
    LastIsPublished(es);
    RunSnoc(es, Rebirth);
    births := RebornAppends(Run(es));
  }

  lemma RebornAppends(n: Node) returns (births: seq<Entry>)
    ensures Reborn(n).wire == n.wire + [Sent(NBirth(n.bd))] + births && Births(births, n.last)
    ensures Alive(Reborn(n).wire) == set d | d in n.last
  {
    var w := n.wire + [Sent(NBirth(n.bd))];
    births := BirthAllAppends(Put(n.(seqNo := 0), NBirth(n.bd)).(born := {}), n.last);
    BirthsLive(w, births, n.last);
    Snoc(n.wire, Sent(NBirth(n.bd)));
  }

  /** A connect, in any run: a session with the will, and then what a rebirth puts there. */
  lemma ConnectBirthsAll(es: seq<Event>) returns (births: seq<Entry>)
    requires !Run(es).connected
    ensures var n := Run(es);
      Run(es + [Connect]).wire == n.wire + [Connected(n.will)] + [Sent(NBirth(n.will))] + births
    ensures Births(births, PublishedBy(es)) && NoRepeats(PublishedBy(es)) && Run(es + [Connect]).connected
    ensures Alive(Run(es + [Connect]).wire) == set d | d in PublishedBy(es)
  {
    RunOrderly(es);
    LastIsPublished(es);
    RunSnoc(es, Connect);
    var n := Run(es);
    var m := n.(connected := true, wire := n.wire + [Connected(n.will)]);
    RebornKeepsLast(m);
    births := RebornAppends(m);
  }

  /** One entry more: DDATA for a device alive before, DBIRTH for any other. */
  predicate OneSample(w: seq<Entry>, v: seq<Entry>, d: string) {
    && |v| == |w| + 1 && v[..|w|] == w && v[|w|].Sent?
    && match v[|w|].m
       case DData(e, _) => e == d && d in Alive(w)
       case DBirth(e, _) => e == d && d !in Alive(w)
       case _ => false
  }

  /** A sample, in any run: DDATA for a device alive, DBIRTH for any other, nothing when offline. */
  lemma PublishSends(es: seq<Event>, d: string)
    ensures var n, m := Run(es), Run(es + [Publish(d)]);
      if n.connected then OneSample(n.wire, m.wire, d) && d in Alive(m.wire) else m.wire == n.wire
  {
    RunOrderly(es);
    RunSnoc(es, Publish(d));
    if Run(es).connected { SampleSent(Run(es), d); }
  }

  lemma SampleSent(n: Node, d: string)
    requires n.connected && n.born == Alive(n.wire)
    ensures OneSample(n.wire, Published(n, d).wire, d) && d in Alive(Published(n, d).wire)
  {
    var q := NextSeq(n);
    Snoc(n.wire, Sent(if d in n.born then DData(d, q) else DBirth(d, q)));
  }

  /** An announcement, in any run: one DDEATH for each device alive, each once, then the NDEATH. */
  lemma AnnounceKillsAll(es: seq<Event>, ds: seq<string>) returns (deaths: seq<Entry>)
    requires Enabled(Run(es), Announce(ds))
    ensures Run(es + [Announce(ds)]).wire == Run(es).wire + deaths + [Sent(NDeath(Run(es).will))]
    ensures Deaths(deaths, ds) && NoRepeats(ds) && forall d :: d in ds <==> d in Alive(Run(es).wire)
    ensures Run(es + [Announce(ds)]).born == {}
  {
    RunOrderly(es);
    RunSnoc(es, Announce(ds));
    KillKeeps(Run(es), ds);
    deaths := KillAllAppends(Run(es), ds);
  }
}
