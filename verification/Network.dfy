/**
 Two tunnels without a password over the network of module Delivery: it loses, duplicates, delays
 and reorders the octets they put on the wire. Every datagram a tunnel handles is one act of
 overhearing, one of the delivery layer and, if something is due, one batch of module Pairing, so
 the two ends agree over such a network too.
 */
module Network {
  import opened Prelude
  import opened AvpCodec
  import opened MessageCodec
  import opened Runtime
  import opened Safety
  import opened Speech
  import KE = KernelEntry
  import opened TypedMessages
  import L = Delivery
  import Q = Pairing
  import T = TunnelFsm
  import S = SessionFsm
  import P = Transport

  // ---- a tunnel and its history -------------------------------------------------------

  /**
   A tunnel, with what module Delivery remembers of its end: how far each side has come and every
   datagram it may ever have put on the wire.
   */
  datatype Node = Node(rt: Rt, history: L.End)

  ghost predicate OnRecord(wire: seq<Bytes>, h: L.End) { forall b :: b in wire ==> Recorded(b, h) }

  ghost predicate Recorded(b: Bytes, h: L.End) { exists d :: d in h.wire && d.bytes == b }

  /** The history is the tunnel's own, and all octets it put on the wire are among its datagrams. */
  ghost predicate Tied(n: Node) {
    && n.rt.setup.auth.None? && n.history.peer == n.rt.peer && n.history.sent == n.rt.sent
    && OnRecord(n.rt.wire, n.history)
  }

  /** The queued messages that carry the current Nr, as datagrams. */
  function Fresh(h: L.End, r: Rt): set<L.Datagram> {
    set k | 0 <= k < |r.peer.queue| && r.peer.queue[k].msg.nr == r.peer.nrExpect :: L.Datagram(r.peer.queue[k].encoded, h.acked + k, h.recv)
  }

  function Record(h: L.End, r: Rt): L.End { h.(peer := r.peer, sent := r.sent, wire := h.wire + Fresh(h, r)) }

  lemma FreshGenuine(h: L.End, r: Rt)
    requires L.SenderInv(Record(h, r)) && r.peer.nrExpect == Low16(h.recv)
    ensures forall d :: d in Fresh(h, r) ==> L.Genuine(d, r.sent, h.recv)
  {
    hide L.SenderInv, FromWire, ToWire, Low16;
    var h' := Record(h, r);
    forall d | d in Fresh(h, r) ensures L.Genuine(d, r.sent, h.recv) {
      var k :| 0 <= k < |r.peer.queue| && r.peer.queue[k].msg.nr == r.peer.nrExpect
               && d == L.Datagram(r.peer.queue[k].encoded, h.acked + k, h.recv);
      L.QueueEntry(h', k);
    }
  }

  /** Place by place, what speaking adds to the queue. */
  lemma QueueGrows(r: Rt, q: Rt)
    requires Speaks(r, q)
    ensures r.peer.queue <= q.peer.queue && r.sent <= q.sent && |q.peer.queue| - |r.peer.queue| == |q.sent| - |r.sent|
    ensures forall i :: |r.peer.queue| <= i < |q.peer.queue| ==>
              q.peer.queue[i].msg.avps == q.sent[i - |r.peer.queue| + |r.sent|] && q.peer.queue[i].msg.nr == r.peer.nrExpect
    ensures q.peer == r.peer.(queue := q.peer.queue, nsSend := q.peer.nsSend) && q.peer.nsSend == Low16(r.peer.nsSend + (|q.sent| - |r.sent|))
  {
    hide ReadsBack, Low16;
    forall i | |r.peer.queue| <= i < |q.peer.queue|
      ensures q.peer.queue[i].msg.avps == q.sent[i - |r.peer.queue| + |r.sent|] && q.peer.queue[i].msg.nr == r.peer.nrExpect
    {
      var k := i - |r.peer.queue| + |r.sent|;
      assert Spoken(r.setup, r.peer, q.sent[k], q.peer.queue[k - |r.sent| + |r.peer.queue|], q.wire[k - |r.sent| + |r.wire|]);
    }
  }

  lemma SendsKeepSender(h: L.End, r: Rt, q: Rt)
    requires L.SenderInv(h) && h.peer == r.peer && h.sent == r.sent && Speaks(r, q)
    requires P.PeerInv(q.peer) && |q.peer.queue| < L.HALF_TURN
    ensures L.SenderInv(Record(h, q))
  {
    hide P.PeerInv, Speaks, Low16, Fresh;
    QueueGrows(r, q);
    forall i | 0 <= i < |q.peer.queue| ensures q.peer.queue[i].msg.avps == q.sent[h.acked + i] {
      if i < |r.peer.queue| {
        assert q.peer.queue[i] == r.peer.queue[i] && q.sent[h.acked + i] == r.sent[h.acked + i];
      } else {
        assert i - |r.peer.queue| + |r.sent| == h.acked + i;
      }
    }
    SentLow(|r.sent|, |q.sent| - |r.sent|);
  }

  lemma SentLow(n: int, i: int)
    ensures Low16(Low16(n) + i) == Low16(n + i)
  {
  }

  lemma SendsKeepHalves(h: L.End, y: L.End, r: Rt, q: Rt)
    requires L.Half(h, y) && L.Half(y, h) && h.peer == r.peer && h.sent == r.sent && Speaks(r, q)
    requires P.PeerInv(q.peer) && |q.peer.queue| < L.HALF_TURN
    ensures L.Half(Record(h, q), y) && L.Half(y, Record(h, q))
  {
    hide L.SenderInv, L.Genuine, L.Buffered, Prelude.Flatten, P.PeerInv;
    SendsKeepSender(h, r, q);
    FreshGenuine(h, q);
    L.GenuineLater(h, q.sent, h.recv);
    L.ReceiverLater(y, h.sent, q.sent);
  }

  lemma SendsKeepRecord(h: L.End, r: Rt, q: Rt)
    requires Speaks(r, q) && r.setup.auth.None? && OnRecord(r.wire, h)
    ensures OnRecord(q.wire, Record(h, q))
  {
    forall b | b in q.wire ensures Recorded(b, Record(h, q)) {
      if b in r.wire {
        var d :| d in h.wire && d.bytes == b;
        assert d in Record(h, q).wire;
      } else {
        var j :| 0 <= j < |q.wire| && q.wire[j] == b;
        assert j >= |r.wire|;
        var k := j - |r.wire| + |r.sent|;
        var i := k - |r.sent| + |r.peer.queue|;
        assert Spoken(r.setup, r.peer, q.sent[k], q.peer.queue[i], q.wire[k - |r.sent| + |r.wire|]);
        assert q.peer.queue[i].encoded == b && q.peer.queue[i].msg.nr == q.peer.nrExpect;
        assert L.Datagram(q.peer.queue[i].encoded, h.acked + i, h.recv) in Record(h, q).wire;
      }
    }
  }

  /** What is true of two nodes whatever happens in between. */
  ghost predicate Linked(n: Node, o: Node) { Tied(n) && L.Half(n.history, o.history) && L.Half(o.history, n.history) }

  /** A node whose tunnel went on to q, sending. */
  lemma SendsKeepLink(n: Node, o: Node, q: Rt)
    requires Linked(n, o) && Speaks(n.rt, q) && P.PeerInv(q.peer) && |q.peer.queue| < L.HALF_TURN
    ensures Linked(Node(q, Record(n.history, q)), o)
  {
    hide Speaks, L.Half, P.PeerInv, OnRecord;
    SpeaksSetup(n.rt, q);
    SendsKeepHalves(n.history, o.history, n.rt, q);
    SendsKeepRecord(n.history, n.rt, q);
  }

  lemma SpeaksSetup(r: Rt, q: Rt)
    requires Speaks(r, q)
    ensures q.setup == r.setup
  {
  }

  // ---- own events ----------------------------------------------------------------------

  /** The tick itself; what a dead peer leads to comes after. */
  function Ticked(n: Node, now: real): Node {
    var (peer, resend, dead) := P.Tick(n.rt.peer, now);
    Node(n.rt.(peer := peer, wire := n.rt.wire + resend), L.DoTimer(n.history, now))
  }

  function OwnNode(n: Node, e: Event, now: real): Node {
    var q := Next(n.rt, e, now).rt;
    Node(q, Record(if e.Tick? then Ticked(n, now).history else n.history, q))
  }

  lemma TickLinks(n: Node, o: Node, now: real)
    requires Linked(n, o)
    ensures Linked(Ticked(n, now), o)
  {
    hide L.Half, P.TickQueue, P.PeerInv, L.DoTimer;
    L.TimerKeeps(n.history, o.history, now);
    L.TimerPeer(n.history, now);
    HalfPeer(n.history, o.history);
    TickRecorded(n.history, n.rt.wire, now);
  }

  lemma HalfPeer(x: L.End, y: L.End)
    requires L.Half(x, y)
    ensures P.PeerInv(x.peer)
  {
  }

  lemma TickRecorded(h: L.End, wire: seq<Bytes>, now: real)
    requires P.PeerInv(h.peer) && OnRecord(wire, h)
    ensures OnRecord(wire + P.Tick(h.peer, now).1, L.DoTimer(h, now))
  {
    hide P.PeerInv, P.Tick, ToWire, FromWire;
    var h' := L.DoTimer(h, now);
    forall b | b in wire + P.Tick(h.peer, now).1 ensures Recorded(b, h') {
      if b in wire {
        var d :| d in h.wire && d.bytes == b;
        assert d in h'.wire;
      } else {
        P.RetransmissionIsFaithful(h.peer, now, b);
        var i :| P.ResentFrom(h.peer, h'.peer, i, b);
        assert h'.peer.queue[i].encoded == b;
        assert L.Datagram(h'.peer.queue[i].encoded, h.acked + i, h.recv) in h'.wire;
      }
    }
  }

  lemma OwnLinks(n: Node, o: Node, e: Event, now: real)
    requires Linked(n, o) && Inv(n.rt) && Possible(n.rt, e) && !e.Datagram?
    requires |OwnNode(n, e, now).rt.peer.queue| < L.HALF_TURN
    ensures Linked(OwnNode(n, e, now), o)
  {
    hide L.Half, P.PeerInv, Agrees, HelloInv, TunnelStep, Speaks, Record, P.Tick, L.DoTimer, T.React, TunnelWords, Chorus;
    NextKeeps(n.rt, e, now);
    if e.Tick? {
      TickLinks(n, o, now);
      var t := Ticked(n, now);
      if P.Tick(n.rt.peer, now).2 {
        TunnelStepSpeaks(t.rt, T.Dead, now);
      } else {
        SpeaksNothing(t.rt, t.rt);
      }
      SendsKeepLink(t, o, Next(n.rt, e, now).rt);
    } else {
      OwnSpeaks(n.rt, e, now);
      SendsKeepLink(n, o, Next(n.rt, e, now).rt);
    }
  }

  // ---- datagrams -----------------------------------------------------------------------

  /** The history once the peer's CCID has been overheard. */
  function Knowing(n: Node, d: L.Datagram): L.End {
    match FromWire(d.bytes)
    case Failure => n.history
    case Success(m) => n.history.(peer := n.history.peer.(remoteCcid := Learned(n.history.peer.remoteCcid, m.avps)))
  }

  function HearNode(n: Node, d: L.Datagram, now: real): Node {
    var q := HandleDatagram(n.rt, d.bytes, now).rt;
    Node(q, Record(L.DoDeliver(Knowing(n, d), d), q))
  }

  /** The tunnel after the delivery layer's part, before anything is dispatched. */
  function Received(n: Node, d: L.Datagram): Rt {
    match FromWire(d.bytes)
    case Failure => n.rt
    case Success(m) =>
      var q := Overhear(n.rt, m.avps);
      var received := P.Receive(q.peer, m);
      Reply(q.(peer := received.peer), received.responses).rt
  }

  function Delivered(n: Node, d: L.Datagram): seq<Avp> { L.DeliveredBy(Knowing(n, d), d) }

  lemma KnowingLinks(n: Node, o: Node, d: L.Datagram)
    requires Linked(n, o)
    ensures L.Half(Knowing(n, d), o.history) && L.Half(o.history, Knowing(n, d))
  {
    hide FromWire, Learned, L.WireInv, L.Buffered, Prelude.Flatten;
    if FromWire(d.bytes).Success? {
      P.RemoteKeepsInv(n.history.peer, Learned(n.history.peer.remoteCcid, FromWire(d.bytes).value.avps));
      SameSender(n.history, Knowing(n, d));
    }
  }

  lemma SameSender(x: L.End, x': L.End)
    requires x' == x.(peer := x.peer.(remoteCcid := x'.peer.remoteCcid))
    ensures L.SenderInv(x) ==> L.SenderInv(x')
    ensures L.WireInv(x) ==> L.WireInv(x')
  {
    hide FromWire, ToWire;
  }

  /** Handling a datagram is receiving it, then dispatching what is delivered. */
  lemma HandledInTwo(n: Node, d: L.Datagram, now: real)
    requires Tied(n) && Inv(n.rt)
    ensures HandleDatagram(n.rt, d.bytes, now)
            == if FromWire(d.bytes).Failure? then Outcome(n.rt, false) else Arrived(Received(n, d), Delivered(n, d), now)
    ensures var r := Received(n, d);
            && r.peer == L.DoDeliver(Knowing(n, d), d).peer && r.peer.remoteCcid == Knowing(n, d).peer.remoteCcid
            && r == n.rt.(peer := r.peer, wire := r.wire) && Inv(r)
  {
    hide Agrees, P.PeerInv, Configured, HelloInv, FromWire, Arrived, P.Receive, Learned, Reply, OnRecord;
    OpenInRange(n.rt.setup, d.bytes);
    if FromWire(d.bytes).Success? {
      var m := FromWire(d.bytes).value;
      var q := Overhear(n.rt, m.avps);
      LearnedInRange(n.rt.peer.remoteCcid, m.avps);
      LearnedOnce(n.rt.peer.remoteCcid, m.avps);
      OverhearOk(n.rt.peer, q.peer.remoteCcid);
      var received := P.Receive(q.peer, m);
      RepliesEncode(q.peer, m);
      var q' := q.(peer := received.peer);
      ReplyLogs(q', received.responses);
      ReplyNeverRaises(q', received.responses);
      PeerMoves(n.rt, Received(n, d));
    }
  }

  lemma ReplyWire(r: Rt, responses: seq<ControlMessage>)
    requires |responses| <= 1
    ensures forall b :: b in Reply(r, responses).rt.wire ==>
              b in r.wire || (responses != [] && ToWire(responses[0]).Success? && b == P.Encoding(responses[0]))
  {
    hide ToWire;
    if responses != [] {
      assert responses[1..] == [];
    }
  }

  lemma RepliesRecorded(n: Node, d: L.Datagram)
    requires Tied(n) && Inv(n.rt)
    ensures OnRecord(Received(n, d).wire, L.DoDeliver(Knowing(n, d), d))
  {
    hide Agrees, P.PeerInv, Configured, HelloInv, FromWire, P.Receive, Learned, ToWire;
    OpenInRange(n.rt.setup, d.bytes);
    var h' := L.DoDeliver(Knowing(n, d), d);
    forall b | b in Received(n, d).wire ensures Recorded(b, h') {
      if b in n.rt.wire {
        var e :| e in n.history.wire && e.bytes == b;
        assert e in h'.wire;
      } else {
        var m := FromWire(d.bytes).value;
        var q := Overhear(n.rt, m.avps);
        LearnedInRange(n.rt.peer.remoteCcid, m.avps);
        OverhearOk(n.rt.peer, q.peer.remoteCcid);
        var received := P.Receive(q.peer, m);
        RepliesEncode(q.peer, m);
        ReplyWire(q.(peer := received.peer), received.responses);
        var z := received.responses[0];
        assert z in received.responses;
        assert L.Datagram(P.Encoding(z), |n.history.sent|, h'.recv) in h'.wire;
      }
    }
  }

  lemma HearLinks(n: Node, o: Node, d: L.Datagram, now: real)
    requires Linked(n, o) && Inv(n.rt) && d in o.history.wire && L.Recent(n.history, d)
    requires |HearNode(n, d, now).rt.peer.queue| < L.HALF_TURN
    ensures Linked(HearNode(n, d, now), o)
  {
    hide L.Half, P.PeerInv, Configured, Agrees, HelloInv, Speaks, Record, FromWire, L.DoDeliver, Received, Arrived, Delivered, OnRecord;
    KnowingLinks(n, o, d);
    RecentStill(n, d);
    L.DeliverKeeps(Knowing(n, d), o.history, d);
    HandledInTwo(n, d, now);
    RepliesRecorded(n, d);
    DeliverKeepsSent(Knowing(n, d), d);
    var r := Received(n, d);
    DatagramKeeps(n.rt, d.bytes, now);
    if FromWire(d.bytes).Success? {
      ArrivedSpeaks(r, Delivered(n, d), now);
    } else {
      FailureKeeps(n, d);
      SpeaksNothing(r, n.rt);
    }
    SendsKeepLink(Node(r, L.DoDeliver(Knowing(n, d), d)), o, HearNode(n, d, now).rt);
  }

  lemma FailureKeeps(n: Node, d: L.Datagram)
    requires FromWire(d.bytes).Failure?
    ensures Received(n, d) == n.rt
  {
  }

  lemma DeliverKeepsSent(x: L.End, d: L.Datagram)
    ensures L.DoDeliver(x, d).sent == x.sent
  {
    hide FromWire, P.Receive;
  }

  lemma RecentStill(n: Node, d: L.Datagram)
    ensures L.Recent(n.history, d) ==> L.Recent(Knowing(n, d), d)
    ensures Knowing(n, d).sent == n.history.sent && Knowing(n, d).recv == n.history.recv && Knowing(n, d).acked == n.history.acked
  {
    hide FromWire;
  }

  // ---- a datagram is three acts ----------------------------------------------------------

  /** The messages of the other end that a datagram hands over. */
  function Batch(n: Node, o: Node, d: L.Datagram): seq<seq<Avp>> {
    var i, j := n.history.recv, L.DoDeliver(Knowing(n, d), d).recv;
    if i <= j <= |o.rt.sent| then o.rt.sent[i..j] else []
  }

  /** What a node hears is one of the other's messages in full, or a bare acknowledgement. */
  ghost predicate Heard(o: Node, d: L.Datagram) {
    && FromWire(d.bytes).Success?
    && (FromWire(d.bytes).value.avps == [] || (d.nsIdx < |o.rt.sent| && FromWire(d.bytes).value.avps == o.rt.sent[d.nsIdx]))
  }

  lemma GenuineHeard(n: Node, o: Node, d: L.Datagram)
    requires Linked(n, o) && Tied(o) && d in o.history.wire
    ensures Heard(o, d)
  {
    hide FromWire, L.SenderInv, L.ReceiverInv;
    assert L.Genuine(d, o.history.sent, o.history.recv);
  }

  /** The batch is what is delivered, and the next messages due. */
  lemma BatchDelivered(n: Node, o: Node, d: L.Datagram)
    requires Linked(n, o) && Tied(o) && d in o.history.wire && L.Recent(n.history, d)
    ensures Delivered(n, d) == Flatten(Batch(n, o, d))
    ensures var j := L.DoDeliver(Knowing(n, d), d).recv;
            n.history.recv <= j <= |o.rt.sent| && |Batch(n, o, d)| == j - n.history.recv
  {
    hide FromWire, L.Half, OnRecord, Flatten, P.PeerInv;
    KnowingLinks(n, o, d);
    RecentStill(n, d);
    L.BatchIsConsecutive(L.Sys(o.history, Knowing(n, d)), d);
  }

  /**
   Handling a datagram changes the tunnel as overhearing one of the other's messages does, then the delivery
   layer, then the taking of the batch that is due, if any.
   */
  lemma DatagramIsThreeActs(n: Node, o: Node, d: L.Datagram, now: real)
    requires Linked(n, o) && Tied(o) && Inv(n.rt) && d in o.history.wire && L.Recent(n.history, d)
    ensures Heard(o, d)
    ensures var avps := FromWire(d.bytes).value.avps;
            var heard := if avps == [] then n.rt else Q.Acts(n.rt, Q.Overhears(d.nsIdx, avps), now);
            var moved := Q.Acts(heard, Q.Transport(Received(n, d).peer, Received(n, d).wire), now);
            && Received(n, d) == moved
            && HandleDatagram(n.rt, d.bytes, now).rt == if Delivered(n, d) == [] then moved else Q.Acts(moved, Q.Takes(Batch(n, o, d)), now)
  {
    hide FromWire, L.Half, Inv, Arrived, Received, Delivered, Batch, Flatten, L.Recent, Tied;
    GenuineHeard(n, o, d);
    HandledInTwo(n, d, now);
    BatchDelivered(n, o, d);
    NothingArrives(Received(n, d), now);
    HearingNothing(n.rt);
  }

  lemma NothingArrives(r: Rt, now: real)
    ensures Arrived(r, [], now).rt == r
  {
  }

  lemma HearingNothing(r: Rt)
    ensures Overhear(r, []) == r
  {
  }

  // ---- both nodes --------------------------------------------------------------------------

  datatype Net = Net(a: Node, b: Node)

  datatype Act = Own(e: Event) | Hears(d: L.Datagram)

  datatype Step = Step(atA: bool, act: Act, now: real)

  function Acts(n: Node, act: Act, now: real): Node {
    match act
    case Own(e) => OwnNode(n, e, now)
    case Hears(d) => HearNode(n, d, now)
  }

  /** The batch, if any, keeps cookies apart. */
  ghost predicate BatchKept(n: Node, o: Node, d: L.Datagram) {
    var parts := Batch(n, o, d);
    parts != [] ==> Q.CookieKept(parts[0], Q.Behind(parts[0], parts))
  }

  /**
   Any datagram the other node has ever put on the wire may arrive, at any time and any number of times,
   unless it is more than half a turn old; at most 32767 messages are unacknowledged after the event.
   */
  ghost predicate Allowed(n: Node, o: Node, act: Act, now: real, kept: bool) {
    && |Acts(n, act, now).rt.peer.queue| < L.HALF_TURN
    && match act
       case Own(e) => !e.Datagram? && Possible(n.rt, e)
       case Hears(d) => d in o.history.wire && L.Recent(n.history, d) && (kept ==> BatchKept(n, o, d))
  }

  function Turn(p: Net, s: Step): Net {
    if s.atA then p.(a := Acts(p.a, s.act, s.now)) else p.(b := Acts(p.b, s.act, s.now))
  }

  function Run(p: Net, run: seq<Step>): Net
    decreases |run|
  {
    if run == [] then p else Run(Turn(p, run[0]), run[1..])
  }

  ghost predicate AllowedRun(p: Net, run: seq<Step>, kept: bool)
    decreases |run|
  {
    run == [] ||
    (&& (if run[0].atA then Allowed(p.a, p.b, run[0].act, run[0].now, kept) else Allowed(p.b, p.a, run[0].act, run[0].now, kept))
     && AllowedRun(Turn(p, run[0]), run[1..], kept))
  }

  lemma TakesBatch(r: Rt, n: Node, o: Node, d: L.Datagram, kept: bool)
    requires r.setup.auth.None? && Batch(n, o, d) != [] && (kept ==> BatchKept(n, o, d))
    ensures Q.Allowed(r, o.rt.sent, n.history.recv, Q.Takes(Batch(n, o, d)), kept)
  {
    hide L.DoDeliver, Knowing, Q.CookieKept, Q.Behind;
    var parts := Batch(n, o, d);
    assert forall i :: 0 <= i < |parts| ==> parts[i] == o.rt.sent[n.history.recv + i];
  }

  lemma NothingToTake(n: Node, o: Node, d: L.Datagram)
    requires Delivered(n, d) == Flatten(Batch(n, o, d)) && Delivered(n, d) != []
    ensures Batch(n, o, d) != []
  {
    hide Delivered, Batch;
  }

  lemma HearPaired(n: Node, o: Node, x: Q.End, y: Q.End, d: L.Datagram, now: real, kept: bool)
    requires Linked(n, o) && Tied(o) && d in o.history.wire && L.Recent(n.history, d) && (kept ==> BatchKept(n, o, d))
    requires Q.EndInv(n.rt, x, y, kept) && Q.WellConfigured(y) && Q.AllGenuine(y, x, o.rt.sent)
    ensures Q.EndInv(HearNode(n, d, now).rt, x, y, kept)
  {
    hide FromWire, L.Half, Inv, Q.Paired, Q.WellConfigured, Q.AllGenuine, Arrived, Received, Delivered, Batch, Flatten, L.Recent,
         L.DoDeliver, Record, OnRecord, Knowing, BatchKept, Q.Acts, HandleDatagram;
    DatagramIsThreeActs(n, o, d, now);
    BatchDelivered(n, o, d);
    HandledInTwo(n, d, now);
    var avps := FromWire(d.bytes).value.avps;
    var heard := if avps == [] then n.rt else Q.Acts(n.rt, Q.Overhears(d.nsIdx, avps), now);
    if avps != [] {
      Q.ActsPaired(n.rt, x, y, o.rt.sent, n.history.recv, Q.Overhears(d.nsIdx, avps), now, kept);
    }
    var transport := Q.Transport(Received(n, d).peer, Received(n, d).wire);
    var moved := Q.Acts(heard, transport, now);
    SamePeerOk(n, d, heard, now);
    Q.ActsPaired(heard, x, y, o.rt.sent, n.history.recv, transport, now, kept);
    if Delivered(n, d) != [] {
      NothingToTake(n, o, d);
      TakesBatch(moved, n, o, d, kept);
      Q.ActsPaired(moved, x, y, o.rt.sent, n.history.recv, Q.Takes(Batch(n, o, d)), now, kept);
    }
  }

  lemma SamePeerOk(n: Node, d: L.Datagram, heard: Rt, now: real)
    requires Tied(n) && Inv(n.rt) && FromWire(d.bytes).Success?
    requires var avps := FromWire(d.bytes).value.avps;
             heard == if avps == [] then n.rt else Q.Acts(n.rt, Q.Overhears(d.nsIdx, avps), now)
    ensures PeerOk(Received(n, d).peer) && Received(n, d).peer.remoteCcid == heard.peer.remoteCcid
  {
    hide Agrees, P.PeerInv, Configured, HelloInv, FromWire, Received, Learned, OnRecord, L.DoDeliver;
    HandledInTwo(n, d, now);
    HearingNothing(n.rt);
  }

  ghost predicate NodeInv(n: Node, o: Node, x: Q.End, y: Q.End, kept: bool) {
    Linked(n, o) && Q.EndInv(n.rt, x, y, kept)
  }

  ghost predicate NetInv(p: Net, x: Q.End, y: Q.End, kept: bool) {
    NodeInv(p.a, p.b, x, y, kept) && NodeInv(p.b, p.a, y, x, kept)
  }

  lemma StillLinked(n: Node, n': Node, o: Node)
    requires Linked(o, n) && Linked(n', o)
    ensures Linked(o, n')
  {
    hide L.Half, OnRecord;
  }

  lemma ActsKeep(n: Node, o: Node, x: Q.End, y: Q.End, act: Act, now: real, kept: bool)
    requires NodeInv(n, o, x, y, kept) && NodeInv(o, n, y, x, kept) && Q.WellConfigured(y) && Allowed(n, o, act, now, kept)
    ensures NodeInv(Acts(n, act, now), o, x, y, kept) && NodeInv(o, Acts(n, act, now), y, x, kept)
  {
    hide L.Half, Inv, Q.Paired, Q.WellConfigured, L.Recent, Record, OnRecord, BatchKept, OwnNode, HearNode, Possible;
    SaidGenuine(o.rt, y, x, kept);
    match act {
      case Own(e) =>
        OwnLinks(n, o, e, now);
        OwnNodePaired(n, x, y, e, now, kept);
      case Hears(d) =>
        HearLinks(n, o, d, now);
        HearPaired(n, o, x, y, d, now, kept);
    }
    StillLinked(n, Acts(n, act, now), o);
  }

  lemma SaidGenuine(r: Rt, x: Q.End, y: Q.End, kept: bool)
    requires Q.EndInv(r, x, y, kept)
    ensures Q.AllGenuine(x, y, r.sent)
  {
    hide Inv, Q.AllGenuine;
  }

  lemma OwnNodePaired(n: Node, x: Q.End, y: Q.End, e: Event, now: real, kept: bool)
    requires Q.EndInv(n.rt, x, y, kept) && Possible(n.rt, e) && !e.Datagram?
    ensures Q.EndInv(OwnNode(n, e, now).rt, x, y, kept)
  {
    hide Inv, Q.Paired, Possible, Next, Q.EntryNames, KE.EntryStep;
    NextKeeps(n.rt, e, now);
    Q.OwnPaired(n.rt, x, y, e, now, kept);
    KE.NextEntry(n.rt, e, now);
    Q.StepNames(n.rt, Next(n.rt, e, now).rt, x, y, kept);
  }

  lemma {:induction false} RunKeeps(p: Net, x: Q.End, y: Q.End, run: seq<Step>, kept: bool)
    requires NetInv(p, x, y, kept) && Q.WellConfigured(x) && Q.WellConfigured(y) && AllowedRun(p, run, kept)
    ensures NetInv(Run(p, run), x, y, kept)
    decreases |run|
  {
    hide NodeInv, Acts, Allowed, Q.WellConfigured;
    if run != [] {
      var s := run[0];
      if s.atA {
        ActsKeep(p.a, p.b, x, y, s.act, s.now, kept);
      } else {
        ActsKeep(p.b, p.a, y, x, s.act, s.now, kept);
      }
      RunKeeps(Turn(p, s), x, y, run[1..], kept);
    }
  }

  /** Two tunnels as constructed, without a password, and nothing on the wire yet. */
  ghost predicate Started(n: Node, x: Q.End) {
    && Q.Booted(n.rt, x) && n.rt.setup.auth.None?
    && n.history == L.End(n.rt.peer, [], [], 0, 0, {})
  }

  lemma StartedFacts(n: Node, x: Q.End)
    requires Started(n, x)
    ensures Tied(n) && L.Start(n.history)
  {
    hide Book, GoodConfig;
  }

  lemma StartLinks(n: Node, o: Node, x: Q.End, y: Q.End)
    requires Started(n, x) && Started(o, y)
    ensures Linked(n, o)
  {
    hide Started, Tied;
    StartedFacts(n, x);
    StartedFacts(o, y);
    L.StartInv(L.Sys(n.history, o.history));
  }

  /**
   Over any such network and any run: tunnels that are both ESTABLISHED know each other, no session is crossed,
   same-named sessions that are both ESTABLISHED match, and so do their kernel entries; and what
   each end was handed is what the other sent, in order and once.
   */
  lemma EndsAgree(p: Net, x: Q.End, y: Q.End, run: seq<Step>, kept: bool)
    requires Started(p.a, x) && Started(p.b, y) && Q.WellConfigured(x) && Q.WellConfigured(y) && AllowedRun(p, run, kept)
    ensures var a, b := Run(p, run).a, Run(p, run).b;
            && Q.Acquainted(a.rt, b.rt) && Q.Uncrossed(a.rt, b.rt)
            && (forall i, j :: Q.BothUp(a.rt, b.rt, i, j) ==>
                  Q.Matched(a.rt.sessions[i], b.rt.sessions[j], kept) && Q.Mirrored(a.rt, b.rt, i, j, kept))
            && Q.EntryNames(a.rt, x, y) && Q.EntryNames(b.rt, y, x)
            && b.history.recv <= |a.rt.sent| && b.history.got == Flatten(a.rt.sent[..b.history.recv])
            && a.history.recv <= |b.rt.sent| && a.history.got == Flatten(b.rt.sent[..a.history.recv])
  {
    hide Started, Linked, Q.EndInv, Run, AllowedRun, Q.WellConfigured, Q.Acquainted, Q.Uncrossed, Q.Matched, Q.Mirrored, Flatten, Q.EntryNames;
    StartLinks(p.a, p.b, x, y);
    StartLinks(p.b, p.a, y, x);
    StartPaired(p.a, x, y, kept);
    StartPaired(p.b, y, x, kept);
    RunKeeps(p, x, y, run, kept);
    var a, b := Run(p, run).a, Run(p, run).b;
    Q.PairedEndsAgree(a.rt, b.rt, x, y, kept);
    forall i, j | Q.BothUp(a.rt, b.rt, i, j) ensures Q.Mirrored(a.rt, b.rt, i, j, kept) {
      Q.PairedKernelsMirror(a.rt, b.rt, x, y, kept, i, j);
    }
    Q.EntriesNamed(a.rt, x, y, kept);
    Q.EntriesNamed(b.rt, y, x, kept);
    LinkDelivers(a, b);
    LinkDelivers(b, a);
  }

  lemma StartPaired(n: Node, x: Q.End, y: Q.End, kept: bool)
    requires Started(n, x)
    ensures Q.EndInv(n.rt, x, y, kept)
  {
    hide Q.EndInv, Q.Booted;
    Q.BootPaired(n.rt, x, y, kept);
  }

  lemma LinkDelivers(n: Node, o: Node)
    requires Linked(n, o)
    ensures o.history.recv <= |n.rt.sent| && o.history.got == Flatten(n.rt.sent[..o.history.recv])
  {
    hide L.SenderInv, L.WireInv, Flatten, L.Buffered, OnRecord;
  }
}
