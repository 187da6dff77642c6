/**
 Two Peers joined by a network that loses, duplicates, delays and reorders datagrams. The
 network carries octets; each datagram also remembers the unbounded positions behind its 16-bit
 Ns and Nr, and each end counts what it has sent, seen acknowledged and delivered. The
 pair refines two FIFO queues, across any number of wraps of the sequence numbers.
 */
module Delivery {
  import opened Prelude
  import opened AvpCodec
  import opened MessageCodec
  import opened Transport

  const HALF_TURN := 0x8000

  /** nsIdx and nrIdx are the positions whose low 16 bits the datagram carries. */
  datatype Datagram = Datagram(bytes: Bytes, nsIdx: nat, nrIdx: nat)

  /**
   sent: the AVP lists accepted by send, in order. acked: how many of them have left the
   queue. recv: how many messages of the other end have been delivered. got: all AVPs
   receive has returned. wire: every datagram ever handed to the transport.
   */
  datatype End = End(peer: PeerState, sent: seq<seq<Avp>>, got: seq<Avp>, acked: nat, recv: nat, wire: set<Datagram>)

  datatype Sys = Sys(a: End, b: End)

  datatype Side = A | B

  datatype Event =
    | Submit(at: Side, avps: seq<Avp>, now: real)
    | Timer(at: Side, now: real)
    | Learn(at: Side, ccid: int)
    | Deliver(at: Side, datagram: Datagram)

  // ---- what an event does at its end -------------------------------------------

  function DoSubmit(x: End, avps: seq<Avp>, now: real): End {
    match Send(x.peer, avps, now)
    case Failure => x
    case Success((p, m)) =>
      x.(peer := p, sent := x.sent + [avps], wire := x.wire + {Datagram(Encoding(m), |x.sent|, x.recv)})
  }

  function DoTimer(x: End, now: real): End {
    var (p, resend, dead) := Tick(x.peer, now);
    x.(peer := p,
       wire := x.wire + set k | 0 <= k < |p.queue| && p.queue[k].encoded in resend :: Datagram(p.queue[k].encoded, x.acked + k, x.recv))
  }

  function DoDeliver(x: End, d: Datagram): End {
    match FromWire(d.bytes)
    case Failure => x
    case Success(m) =>
      var r := Receive(x.peer, m);
      var recv := x.recv + Ahead(r.peer.nrExpect, x.peer.nrExpect);
      ReceiveShrinksQueue(x.peer, m);
      End(r.peer, x.sent, x.got + r.delivered, x.acked + |x.peer.queue| - |r.peer.queue|, recv,
          x.wire + set z | z in r.responses && ToWire(z).Success? :: Datagram(Encoding(z), |x.sent|, recv))
  }

  lemma ReceiveShrinksQueue(p: PeerState, m: ControlMessage)
    ensures |Receive(p, m).peer.queue| <= |p.queue|
  {
  }

  function Act(x: End, e: Event): End {
    match e
    case Submit(_, avps, now) => DoSubmit(x, avps, now)
    case Timer(_, now) => DoTimer(x, now)
    case Learn(_, ccid) => x.(peer := x.peer.(remoteCcid := ccid))
    case Deliver(_, d) => DoDeliver(x, d)
  }

  function Step(s: Sys, e: Event): Sys {
    if e.at == A then s.(a := Act(s.a, e)) else s.(b := Act(s.b, e))
  }

  function Run(s: Sys, events: seq<Event>): Sys
    decreases |events|
  {
    if events == [] then s else Run(Step(s, events[0]), events[1..])
  }

  // ---- the wrap guard ------------------------------------------------------------

  /** The datagram is at most half a turn of sequence numbers old. */
  ghost predicate Recent(x: End, d: Datagram) {
    FromWire(d.bytes).Success? && Accepts(x.peer, FromWire(d.bytes).value) ==>
      && x.acked - d.nrIdx <= HALF_TURN
      && (!FromWire(d.bytes).value.IsZlb() ==> x.recv - d.nsIdx <= HALF_TURN)
  }

  /** x acts and y is the other end: only y's datagrams arrive, and at most 32767 messages are unacknowledged. */
  ghost predicate Guard(x: End, y: End, e: Event) {
    match e
    case Submit(_, _, _) => |x.peer.queue| < HALF_TURN - 1
    case Deliver(_, d) => d in y.wire && Recent(x, d)
    case Timer(_, _) => true
    case Learn(_, _) => true
  }

  ghost predicate Allowed(s: Sys, events: seq<Event>)
    decreases |events|
  {
    events == [] ||
    (&& (if events[0].at == A then Guard(s.a, s.b, events[0]) else Guard(s.b, s.a, events[0]))
     && Allowed(Step(s, events[0]), events[1..]))
  }

  ghost predicate Start(x: End) {
    && x.peer.nsSend == 0 && x.peer.nrExpect == 0 && x.peer.queue == [] && x.peer.reorder == map[]
    && x.sent == [] && x.got == [] && x.acked == 0 && x.recv == 0 && x.wire == {}
  }

  // ---- the invariant ---------------------------------------------------------------

  ghost predicate SenderInv(x: End) {
    && PeerInv(x.peer)
    && x.peer.nsSend == Low16(|x.sent|)
    && x.acked + |x.peer.queue| == |x.sent|
    && |x.peer.queue| < HALF_TURN
    && forall i :: 0 <= i < |x.peer.queue| ==> x.peer.queue[i].msg.avps == x.sent[x.acked + i]
  }

  /** Buffered message n is the one its distance from nrExpect says. */
  ghost predicate Buffered(reorder: map<int, ControlMessage>, recv: nat, sent: seq<seq<Avp>>) {
    forall n :: n in reorder ==>
      recv + Ahead(n, Low16(recv)) < |sent| && reorder[n].avps == sent[recv + Ahead(n, Low16(recv))]
  }

  ghost predicate ReceiverInv(y: End, sent: seq<seq<Avp>>) {
    && y.peer.nrExpect == Low16(y.recv)
    && y.recv <= |sent|
    && y.got == Flatten(sent[..y.recv])
    && Buffered(y.peer.reorder, y.recv, sent)
  }

  ghost predicate Genuine(d: Datagram, sent: seq<seq<Avp>>, recv: nat) {
    && FromWire(d.bytes).Success?
    && var m := FromWire(d.bytes).value;
       && m.nr == Low16(d.nrIdx) && d.nrIdx <= recv
       && (!m.IsZlb() ==> d.nsIdx < |sent| && m.ns == Low16(d.nsIdx) && m.avps == sent[d.nsIdx])
  }

  ghost predicate WireInv(x: End) {
    forall d :: d in x.wire ==> Genuine(d, x.sent, x.recv)
  }

  /** x as sender towards y. */
  ghost predicate Half(x: End, y: End) {
    SenderInv(x) && WireInv(x) && ReceiverInv(y, x.sent) && x.acked <= y.recv
  }

  ghost predicate Inv(s: Sys) { Half(s.a, s.b) && Half(s.b, s.a) }

  // ---- sending and retransmitting keep it ---------------------------------------------

  lemma GenuineLater(x: End, sent: seq<seq<Avp>>, recv: nat)
    requires WireInv(x) && x.sent <= sent && x.recv <= recv
    ensures forall d :: d in x.wire ==> Genuine(d, sent, recv)
  {
    hide FromWire;
  }

  lemma SubmitKeepsSender(x: End, avps: seq<Avp>, now: real)
    requires SenderInv(x) && |x.peer.queue| < HALF_TURN - 1
    ensures SenderInv(DoSubmit(x, avps, now))
  {
    hide ToWire, PeerInv, Encoding;
    SendKeepsInv(x.peer, avps, now);
  }

  lemma SubmitKeepsWire(x: End, avps: seq<Avp>, now: real)
    requires SenderInv(x) && WireInv(x) && x.peer.nrExpect == Low16(x.recv)
    ensures WireInv(DoSubmit(x, avps, now))
  {
    hide ToWire, FromWire, PeerInv;
    var r := Send(x.peer, avps, now);
    if r.Success? {
      var m := r.value.1;
      GenuineLater(x, x.sent + [avps], x.recv);
      WireIsCanonical(m, Encoding(m));
      assert Genuine(Datagram(Encoding(m), |x.sent|, x.recv), x.sent + [avps], x.recv);
    }
  }

  lemma ReceiverLater(y: End, sent: seq<seq<Avp>>, more: seq<seq<Avp>>)
    requires ReceiverInv(y, sent) && sent <= more
    ensures ReceiverInv(y, more)
  {
    hide Flatten, Ahead;
    assert more[..y.recv] == sent[..y.recv];
  }

  lemma SubmitKeeps(x: End, y: End, avps: seq<Avp>, now: real)
    requires Half(x, y) && Half(y, x) && |x.peer.queue| < HALF_TURN - 1
    ensures Half(DoSubmit(x, avps, now), y) && Half(y, DoSubmit(x, avps, now))
  {
    hide SenderInv, WireInv, Buffered, Flatten, ToWire;
    SubmitKeepsSender(x, avps, now);
    SubmitKeepsWire(x, avps, now);
    ReceiverLater(y, x.sent, DoSubmit(x, avps, now).sent);
  }

  lemma TimerKeepsSender(x: End, now: real)
    requires SenderInv(x)
    ensures SenderInv(DoTimer(x, now))
  {
    hide ToWire, PeerInv, TickQueue;
    TickKeepsInv(x.peer, now);
    TickQueueEntries(x.peer.queue, now, x.peer.maxRetries, x.peer.nrExpect);
  }

  /** Place k of the queue holds message acked + k. */
  lemma QueueEntry(x: End, k: nat)
    requires SenderInv(x) && k < |x.peer.queue|
    ensures var e := x.peer.queue[k];
            && x.acked + k < |x.sent|
            && e.msg.ns == Low16(x.acked + k) && e.msg.avps == x.sent[x.acked + k] && e.msg.avps != []
            && FromWire(e.encoded) == Success(e.msg)
  {
    hide ToWire, FromWire, ReorderInv;
    WireIsCanonical(x.peer.queue[k].msg, x.peer.queue[k].encoded);
    assert Low16(x.peer.nsSend - |x.peer.queue| + k) == Low16(x.acked + k);
  }

  lemma TimerPeer(x: End, now: real)
    ensures var x' := DoTimer(x, now);
            x'.peer == Tick(x.peer, now).0 && x'.sent == x.sent && x'.acked == x.acked && x'.recv == x.recv && x'.got == x.got
  {
  }

  lemma ResentGenuine(x: End, now: real, k: nat)
    requires SenderInv(x) && x.peer.nrExpect == Low16(x.recv)
    requires var q := DoTimer(x, now).peer.queue; k < |q| && q[k].encoded in Tick(x.peer, now).1
    ensures Genuine(Datagram(DoTimer(x, now).peer.queue[k].encoded, x.acked + k, x.recv), x.sent, x.recv)
  {
    hide ToWire, FromWire, DoTimer, Tick, PeerInv, Low16;
    var x' := DoTimer(x, now);
    TimerKeepsSender(x, now);
    TimerPeer(x, now);
    QueueEntry(x', k);
    var b := x'.peer.queue[k].encoded;
    RetransmissionIsFaithful(x.peer, now, b);
    var i :| ResentFrom(x.peer, x'.peer, i, b);
    assert x'.peer.queue[k].msg == x'.peer.queue[i].msg;
  }

  lemma TimerKeeps(x: End, y: End, now: real)
    requires Half(x, y) && Half(y, x)
    ensures Half(DoTimer(x, now), y) && Half(y, DoTimer(x, now))
  {
    hide SenderInv, Genuine, TickQueue, Flatten, Buffered;
    TimerKeepsSender(x, now);
    var x' := DoTimer(x, now);
    forall d | d in x'.wire ensures Genuine(d, x.sent, x.recv) {
      if d !in x.wire {
        var k :| 0 <= k < |x'.peer.queue| && x'.peer.queue[k].encoded in Tick(x.peer, now).1
                 && d == Datagram(x'.peer.queue[k].encoded, x.acked + k, x.recv);
        ResentGenuine(x, now, k);
      }
    }
  }

  // ---- delivering keeps it ------------------------------------------------------------

  /** The pop loop against an Nr position: it stops at that position, or at the head if that is further on. */
  lemma {:induction false} AckLoop(queue: seq<Pending>, head: int, nrIdx: int)
    requires forall i :: 0 <= i < |queue| ==> queue[i].msg.ns == Low16(head + i)
    requires head - nrIdx <= HALF_TURN && nrIdx - head < HALF_TURN && nrIdx <= head + |queue|
    ensures |queue| - |ConsumeAcks(queue, Low16(nrIdx))| == if nrIdx > head then nrIdx - head else 0
  {
    hide Low16, SeqDelta;
    if queue != [] {
      assert queue[0].msg.ns == Low16(head + 0);
      SeqDeltaExact(nrIdx, head);
      if nrIdx > head {
        assert forall i :: 0 <= i < |queue| - 1 ==> queue[1..][i].msg.ns == queue[i + 1].msg.ns == Low16(head + (i + 1));
        AckLoop(queue[1..], head + 1, nrIdx);
      }
    }
  }

  /** Exactly the messages below the datagram's Nr position leave the queue. */
  lemma AcksExact(x: End, nrIdx: nat)
    requires SenderInv(x) && nrIdx <= |x.sent| && x.acked - nrIdx <= HALF_TURN
    ensures var left := ConsumeAcks(x.peer.queue, Low16(nrIdx));
            x.acked + |x.peer.queue| - |left| == if nrIdx > x.acked then nrIdx else x.acked
  {
    hide ConsumeAcks, PeerInv, Low16, ToWire, FromWire;
    forall i | 0 <= i < |x.peer.queue| ensures x.peer.queue[i].msg.ns == Low16(x.acked + i) {
      QueueEntry(x, i);
    }
    AckLoop(x.peer.queue, x.acked, nrIdx);
  }

  lemma FlattenSlice(sent: seq<seq<Avp>>, i: nat, j: nat)
    requires i <= j <= |sent|
    ensures Flatten(sent[..i]) + Flatten(sent[i..j]) == Flatten(sent[..j])
  {
    FlattenConcat(sent[..i], sent[i..j]);
    assert sent[..i] + sent[i..j] == sent[..j];
  }

  lemma AheadOfNext(n: int, recv: nat)
    ensures Ahead(n, Low16(recv)) > 0 ==>
              Ahead(n, Low16(recv + 1)) == Ahead(n, Low16(recv)) - 1
    ensures SeqAdvance(Low16(recv)) == Low16(recv + 1)
  {
    AheadShift(n, Low16(recv));
  }

  /** These AVPs are those of the messages at positions i up to j. */
  ghost predicate Carries(avps: seq<Avp>, sent: seq<seq<Avp>>, i: nat, j: nat) {
    i <= j <= |sent| && avps == Flatten(sent[i..j])
  }

  lemma CarriesNothing(sent: seq<seq<Avp>>, i: nat)
    requires i <= |sent|
    ensures Carries([], sent, i, i)
  {
    assert sent[i..i] == [];
  }

  lemma CarriesOneMore(first: seq<Avp>, rest: seq<Avp>, sent: seq<seq<Avp>>, i: nat, j: nat)
    requires i < |sent| && first == sent[i] && Carries(rest, sent, i + 1, j)
    ensures Carries(first + rest, sent, i, j)
  {
    assert sent[i..j][1..] == sent[i + 1..j];
  }

  ghost predicate Within(reorder: map<int, ControlMessage>, recv: nat, reach: int) {
    forall n :: n in reorder ==> 0 <= n < SEQ_MODULUS && Ahead(n, Low16(recv)) < reach
  }

  /** Once message recv has been taken out, the buffered messages are one closer to the next position. */
  lemma BufferAdvances(reorder: map<int, ControlMessage>, recv: nat, sent: seq<seq<Avp>>, reach: int)
    requires Buffered(reorder, recv, sent) && Within(reorder, recv, reach)
    ensures Buffered(reorder - {Low16(recv)}, recv + 1, sent) && Within(reorder - {Low16(recv)}, recv + 1, reach - 1)
    ensures Low16(recv) in reorder ==> reach > 0 && recv < |sent| && reorder[Low16(recv)].avps == sent[recv]
  {
    hide Ahead, Low16, SeqAdvance;
    forall n | n in reorder && n != Low16(recv)
      ensures Ahead(n, Low16(recv)) > 0 && Ahead(n, Low16(recv + 1)) == Ahead(n, Low16(recv)) - 1
    {
      AheadZero(n, Low16(recv));
      AheadOfNext(n, recv);
    }
    AheadZero(Low16(recv), Low16(recv));
  }

  /** Draining from position recv hands over the next c messages the other end sent. */
  lemma {:induction false} DrainDelivers(reorder: map<int, ControlMessage>, recv: nat, sent: seq<seq<Avp>>, reach: int) returns (c: nat)
    requires recv <= |sent| && Buffered(reorder, recv, sent) && Within(reorder, recv, reach)
    ensures c == 0 || c <= reach
    ensures c == 0 <==> Low16(recv) !in reorder
    ensures Drain(Low16(recv), reorder).nr == Low16(recv + c)
    ensures reach < SEQ_MODULUS ==> Low16(recv + c) !in reorder
    ensures Carries(Drain(Low16(recv), reorder).delivered, sent, recv, recv + c)
    ensures Buffered(Drain(Low16(recv), reorder).reorder, recv + c, sent)
    decreases |reorder|
  {
    hide Ahead, Low16, SeqAdvance, Buffered, Within, Carries;
    var nr := Low16(recv);
    if nr !in reorder {
      c := 0;
      CarriesNothing(sent, recv);
    } else {
      var left := reorder - {nr};
      assert left.Keys == reorder.Keys - {nr};
      BufferAdvances(reorder, recv, sent, reach);
      SeqAdvanceLow(recv);
      var c' := DrainDelivers(left, recv + 1, sent, reach - 1);
      c := c' + 1;
      if reach < SEQ_MODULUS {
        AheadBy(recv, c);
        AheadBy(recv, 0);
      }
      CarriesOneMore(reorder[nr].avps, Drain(Low16(recv + 1), left).delivered, sent, recv, recv + c);
    }
  }

  /** An in-order message is delivered as if it had been buffered first and then drained. */
  lemma InOrderReceive(p: PeerState, m: ControlMessage)
    requires Accepts(p, m) && !m.IsZlb() && m.ns == p.nrExpect && p.nrExpect !in p.reorder
    ensures var d := Drain(p.nrExpect, p.reorder[p.nrExpect := m]);
            var r := Receive(p, m);
            r.peer.nrExpect == d.nr && r.peer.reorder == d.reorder && r.delivered == d.delivered
  {
    hide ConsumeAcks, SeqAdvance;
    var withIt := p.reorder[p.nrExpect := m];
    assert withIt - {p.nrExpect} == p.reorder;
  }

  lemma BufferedWith(p: PeerState, recv: nat, sent: seq<seq<Avp>>, m: ControlMessage)
    requires PeerInv(p) && p.nrExpect == Low16(recv) && Buffered(p.reorder, recv, sent)
    requires recv < |sent| && m.avps == sent[recv]
    ensures p.nrExpect !in p.reorder
    ensures Buffered(p.reorder[p.nrExpect := m], recv, sent) && Within(p.reorder[p.nrExpect := m], recv, HALF_TURN)
  {
    hide Low16, QueueInv;
    AheadZero(p.nrExpect, p.nrExpect);
  }

  lemma InOrderDelivers(x: End, y: End, m: ControlMessage)
    requires PeerInv(x.peer) && x.peer.nrExpect == Low16(x.recv) && Buffered(x.peer.reorder, x.recv, y.sent)
    requires Accepts(x.peer, m) && !m.IsZlb() && x.recv < |y.sent| && m.ns == Low16(x.recv) && m.avps == y.sent[x.recv]
    ensures var r := Receive(x.peer, m);
            var recv := x.recv + Ahead(r.peer.nrExpect, x.peer.nrExpect);
            && x.recv < recv
            && r.peer.nrExpect == Low16(recv) && Low16(recv) !in x.peer.reorder
            && Carries(r.delivered, y.sent, x.recv, recv)
            && Buffered(r.peer.reorder, recv, y.sent)
  {
    hide Drain, Receive, Ahead, Accepts, Low16, SeqAdvance, Buffered, PeerInv, Within, Carries;
    BufferedWith(x.peer, x.recv, y.sent, m);
    InOrderReceive(x.peer, m);
    var c := DrainDelivers(x.peer.reorder[x.peer.nrExpect := m], x.recv, y.sent, HALF_TURN);
    AheadBy(x.recv, c);
  }

  lemma AheadBy(base: nat, steps: nat)
    requires steps < SEQ_MODULUS
    ensures Ahead(Low16(base + steps), Low16(base)) == steps
  {
    assert (Low16(base + steps) - Low16(base)) % SEQ_MODULUS == Low16(steps);
  }

  /** The batch of AVPs that receive returns for the datagram. */
  function DeliveredBy(x: End, d: Datagram): seq<Avp> {
    match FromWire(d.bytes) case Failure => [] case Success(m) => Receive(x.peer, m).delivered
  }

  /** What receive does to an end, in terms of the positions behind the numbers. */
  lemma ReceiveEffect(x: End, y: End, d: Datagram)
    requires Half(x, y) && Half(y, x) && d in y.wire && Recent(x, d)
    requires Accepts(x.peer, FromWire(d.bytes).value)
    ensures var x' := DoDeliver(x, d);
            && x'.acked == (if d.nrIdx > x.acked then d.nrIdx else x.acked)
            && x.recv <= x'.recv
            && Carries(DeliveredBy(x, d), y.sent, x.recv, x'.recv)
            && x'.peer.nrExpect == Low16(x'.recv)
            && Buffered(x'.peer.reorder, x'.recv, y.sent)
            && (x'.recv > x.recv <==> !FromWire(d.bytes).value.IsZlb() && d.nsIdx == x.recv)
  {
    hide ToWire, FromWire, Drain, ConsumeAcks, Carries;
    assert Genuine(d, y.sent, y.recv);
    var m := FromWire(d.bytes).value;
    AcksExact(x, d.nrIdx);
    AheadZero(x.peer.nrExpect, x.peer.nrExpect);
    CarriesNothing(y.sent, x.recv);
    if !m.IsZlb() {
      SeqDeltaExact(d.nsIdx, x.recv);
      AheadZero(m.ns, x.peer.nrExpect);
      if d.nsIdx == x.recv {
        InOrderDelivers(x, y, m);
      }
    }
  }

  lemma DeliverKeeps(x: End, y: End, d: Datagram)
    requires Half(x, y) && Half(y, x) && d in y.wire && Recent(x, d)
    ensures Half(DoDeliver(x, d), y) && Half(y, DoDeliver(x, d))
  {
    hide ToWire, FromWire, Drain, ConsumeAcks, Flatten;
    assert Genuine(d, y.sent, y.recv);
    var m := FromWire(d.bytes).value;
    var x' := DoDeliver(x, d);
    FromWireInRange(d.bytes);
    ReceiveKeepsInv(x.peer, m);
    if Accepts(x.peer, m) {
      ReceiveEffect(x, y, d);
      assert x'.got == x.got + DeliveredBy(x, d);
      FlattenSlice(y.sent, x.recv, x'.recv);
      GenuineLater(x, x.sent, x'.recv);
      var k := ConsumeAcksPopsFront(x.peer.queue, m.nr);
      RepliesGenuine(x, d);
      assert forall i :: 0 <= i < |x'.peer.queue| ==> x'.peer.queue[i] == x.peer.queue[k + i];
    } else {
      AheadZero(x.peer.nrExpect, x.peer.nrExpect);
      assert x'.got == x.got;
    }
  }

  lemma FromWireInRange(b: Bytes)
    requires FromWire(b).Success?
    ensures FromWire(b).value.FieldsInRange()
  {
    hide ToWire, FromWire;
    WireIsCanonical(FromWire(b).value, b);
    EncodedInRange(FromWire(b).value);
  }

  lemma EncodedInRange(m: ControlMessage)
    requires ToWire(m).Success?
    ensures m.FieldsInRange()
  {
  }

  lemma RepliesGenuine(x: End, d: Datagram)
    requires FromWire(d.bytes).Success?
    requires DoDeliver(x, d).peer.nrExpect == Low16(DoDeliver(x, d).recv)
    ensures forall z :: z in DoDeliver(x, d).wire && z !in x.wire ==> Genuine(z, x.sent, DoDeliver(x, d).recv)
  {
    hide ToWire, FromWire, Drain, ConsumeAcks;
    var x' := DoDeliver(x, d);
    var r := Receive(x.peer, FromWire(d.bytes).value);
    forall z | z in x'.wire && z !in x.wire ensures Genuine(z, x.sent, x'.recv) {
      var m :| m in r.responses && ToWire(m).Success? && z == Datagram(Encoding(m), |x.sent|, x'.recv);
      assert m == AckOnly(r.peer);
      WireIsCanonical(m, z.bytes);
    }
  }

  // ---- whole runs -----------------------------------------------------------------------

  lemma ActKeeps(x: End, y: End, e: Event)
    requires Half(x, y) && Half(y, x) && Guard(x, y, e)
    ensures Half(Act(x, e), y) && Half(y, Act(x, e))
  {
    hide DoSubmit, DoTimer, DoDeliver, Recent;
    match e {
      case Submit(_, avps, now) => SubmitKeeps(x, y, avps, now);
      case Timer(_, now) => TimerKeeps(x, y, now);
      case Learn(_, ccid) => RemoteKeepsInv(x.peer, ccid);
      case Deliver(_, d) => DeliverKeeps(x, y, d);
    }
  }

  lemma {:induction false} RunKeeps(s: Sys, events: seq<Event>)
    requires Inv(s) && Allowed(s, events)
    ensures Inv(Run(s, events))
    decreases |events|
  {
    hide Half, Act;
    if events != [] {
      if events[0].at == A {
        ActKeeps(s.a, s.b, events[0]);
      } else {
        ActKeeps(s.b, s.a, events[0]);
      }
      RunKeeps(Step(s, events[0]), events[1..]);
    }
  }

  lemma StartInv(s: Sys)
    requires Start(s.a) && Start(s.b)
    ensures Inv(s)
  {
  }

  /** After any allowed run of two fresh Peers. */
  lemma ReachableInv(s: Sys, events: seq<Event>)
    requires Start(s.a) && Start(s.b) && Allowed(s, events)
    ensures Inv(Run(s, events))
  {
    hide Half, Start;
    StartInv(s);
    RunKeeps(s, events);
  }

  /**
   Exactly once, in order: what an end has delivered is the concatenation of a prefix of
   the AVP lists the other end sent.
   */
  lemma ExactlyOnceInOrder(s: Sys, events: seq<Event>)
    requires Start(s.a) && Start(s.b) && Allowed(s, events)
    ensures var t := Run(s, events);
            && t.b.recv <= |t.a.sent| && t.b.got == Flatten(t.a.sent[..t.b.recv])
            && t.a.recv <= |t.b.sent| && t.a.got == Flatten(t.b.sent[..t.a.recv])
  {
    hide Flatten, SenderInv, WireInv, Buffered;
    ReachableInv(s, events);
  }

  /**
   No premature acknowledgement: the queue holds every sent message from position acked on,
   and the other end has delivered every message before it.
   */
  lemma NoPrematureAck(s: Sys, events: seq<Event>)
    requires Start(s.a) && Start(s.b) && Allowed(s, events)
    ensures var t := Run(s, events);
            && t.a.acked <= t.b.recv && t.b.acked <= t.a.recv
            && |t.a.peer.queue| == |t.a.sent| - t.a.acked && |t.b.peer.queue| == |t.b.sent| - t.b.acked
            && (forall i :: t.a.acked <= i < |t.a.sent| ==> t.a.peer.queue[i - t.a.acked].msg.avps == t.a.sent[i])
            && (forall i :: t.b.acked <= i < |t.b.sent| ==> t.b.peer.queue[i - t.b.acked].msg.avps == t.b.sent[i])
  {
    hide PeerInv, WireInv, ReceiverInv;
    ReachableInv(s, events);
  }

  /** Each batch receive returns carries consecutive messages of the other end, starting at the next one due. */
  lemma BatchIsConsecutive(s: Sys, d: Datagram)
    requires Inv(s) && d in s.a.wire && Recent(s.b, d)
    ensures Carries(DeliveredBy(s.b, d), s.a.sent, s.b.recv, DoDeliver(s.b, d).recv)
  {
    hide ToWire, FromWire, Carries, SenderInv, Buffered;
    assert Genuine(d, s.a.sent, s.a.recv);
    CarriesNothing(s.a.sent, s.b.recv);
    if Accepts(s.b.peer, FromWire(d.bytes).value) {
      ReceiveEffect(s.b, s.a, d);
    } else {
      AheadZero(s.b.peer.nrExpect, s.b.peer.nrExpect);
    }
  }
}
