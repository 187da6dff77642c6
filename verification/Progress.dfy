/**
 Progress of the reliable channel between two Peers without a password: delivering a copy
 of the oldest unacknowledged message and then the acknowledgement it provokes takes that
 message off the queue, and repeating this drains the queue.
 */
module Progress {
  import opened Prelude
  import opened AvpCodec
  import opened MessageCodec
  import opened Transport
  import opened Delivery

  /** d is a copy of message i of x that y will look at and whose Nr is at most half a turn old. */
  ghost predicate Copy(d: Datagram, i: nat, x: End, y: End) {
    && d in x.wire && d.nsIdx == i
    && FromWire(d.bytes).Success? && !FromWire(d.bytes).value.IsZlb() && Accepts(y.peer, FromWire(d.bytes).value)
    && x.recv - d.nrIdx <= HALF_TURN
  }

  /** What y sends to its remote CCID encodes, and x looks at it. */
  ghost predicate Addressed(y: End, x: End) {
    0 <= y.peer.remoteCcid <= 0xFFFF_FFFF && (y.peer.remoteCcid == 0 || y.peer.remoteCcid == x.peer.localCcid)
  }

  function Reply(y: End): Datagram { Datagram(Encoding(AckOnly(y.peer)), |y.sent|, y.recv) }

  lemma ZlbEncodes(p: PeerState)
    requires 0 <= p.remoteCcid <= 0xFFFF_FFFF
    ensures ToWire(AckOnly(p)).Success? && FromWire(Encoding(AckOnly(p))) == Success(AckOnly(p))
  {
    assert ToWire(AckOnly(p)).Success?;
    WireIsCanonical(AckOnly(p), Encoding(AckOnly(p)));
  }

  /** Receiving a message that is new or already delivered is answered with the state after it. */
  lemma AnsweredWhenDue(p: PeerState, m: ControlMessage)
    requires Accepts(p, m) && !m.IsZlb() && SeqDelta(m.ns, p.nrExpect) <= 0
    ensures Receive(p, m).responses == [AckOnly(Receive(p, m).peer)]
  {
    hide Drain, ConsumeAcks;
  }

  lemma ReceiveKeepsCcids(p: PeerState, m: ControlMessage)
    ensures Receive(p, m).peer.localCcid == p.localCcid && Receive(p, m).peer.remoteCcid == p.remoteCcid
  {
    hide Drain, ConsumeAcks;
  }

  lemma CopyIsRecent(x: End, y: End, d: Datagram)
    requires Half(x, y) && Half(y, x) && Copy(d, x.acked, x, y)
    ensures Recent(y, d)
  {
    hide FromWire, PeerInv, WireInv, Flatten, Buffered;
  }

  /** New or duplicate, the copy leaves y past it, with an acknowledgement saying so on the wire. */
  lemma CopyAnswered(x: End, y: End, d: Datagram)
    requires Half(x, y) && Half(y, x) && x.acked < |x.sent| && Copy(d, x.acked, x, y) && Addressed(y, x)
    ensures Recent(y, d)
    ensures var y' := DoDeliver(y, d);
            && y'.recv > x.acked && Reply(y') in y'.wire
            && y'.sent == y.sent && Addressed(y', x)
            && y'.peer.localCcid == y.peer.localCcid
  {
    hide ToWire, FromWire, Half, Receive, Ahead;
    CopyIsRecent(x, y, d);
    var m := FromWire(d.bytes).value;
    var y' := DoDeliver(y, d);
    ReceiveKeepsCcids(y.peer, m);
    assert x.acked <= y.recv && d.nsIdx - y.recv <= 0 && m.ns == Low16(d.nsIdx) && y.peer.nrExpect == Low16(y.recv)
           && d.nsIdx - y.recv >= -HALF_TURN by { CopyPositions(x, y, d); }
    SeqDeltaExact(d.nsIdx, y.recv);
    AnsweredWhenDue(y.peer, m);
    ReceiveEffect(y, x, d);
    ZlbEncodes(y'.peer);
    assert AckOnly(y'.peer) in Receive(y.peer, m).responses;
  }

  lemma CopyPositions(x: End, y: End, d: Datagram)
    requires Half(x, y) && Half(y, x) && Copy(d, x.acked, x, y)
    ensures x.acked <= y.recv && y.peer.nrExpect == Low16(y.recv) && y.recv - x.acked < HALF_TURN
    ensures FromWire(d.bytes).value.ns == Low16(d.nsIdx)
  {
    hide FromWire, PeerInv, Flatten, Buffered, Low16;
    assert Genuine(d, x.sent, x.recv);
  }

  /** The acknowledgement takes everything y has delivered off the queue of x, and changes nothing else. */
  lemma ReplyAcks(x: End, y: End)
    requires Half(x, y) && Half(y, x) && Addressed(y, x) && Reply(y) in y.wire && y.recv >= x.acked
    ensures Recent(x, Reply(y))
    ensures var x' := DoDeliver(x, Reply(y));
            && x'.acked == y.recv && x'.sent == x.sent && x'.recv == x.recv && x'.wire == x.wire
            && |x'.peer.queue| == |x.sent| - y.recv
            && x'.peer.localCcid == x.peer.localCcid && x'.peer.remoteCcid == x.peer.remoteCcid
  {
    hide ToWire, FromWire, ConsumeAcks, PeerInv, WireInv, Buffered, Flatten, Low16;
    ZlbEncodes(y.peer);
    var m := AckOnly(y.peer);
    AcksExact(x, y.recv);
    AheadZero(x.peer.nrExpect, x.peer.nrExpect);
    assert Receive(x.peer, m) == Received(x.peer.(queue := ConsumeAcks(x.peer.queue, m.nr)), [], []);
  }

  /** One round trip shortens the queue of A, whether B saw the head message as new or as a duplicate. */
  lemma RoundTripAdvances(s: Sys, d: Datagram)
    requires Inv(s) && s.a.peer.queue != [] && Copy(d, s.a.acked, s.a, s.b) && Addressed(s.b, s.a)
    ensures var y := DoDeliver(s.b, d);
            var round := [Deliver(B, d), Deliver(A, Reply(y))];
            var t := Run(s, round);
            && Allowed(s, round) && Inv(t)
            && t == Sys(DoDeliver(s.a, Reply(y)), y)
            && t.a.acked == y.recv > s.a.acked && |t.a.peer.queue| < |s.a.peer.queue|
            && t.a.sent == s.a.sent && t.a.recv == s.a.recv && t.a.wire == s.a.wire
            && Addressed(t.b, t.a) && t.b.peer.localCcid == s.b.peer.localCcid
  {
    hide ToWire, FromWire, Half, DoDeliver, Recent, Copy, Accepts;
    QueueNonEmpty(s);
    CopyAnswered(s.a, s.b, d);
    assert d in s.a.wire by { CopyOnWire(d, s.a.acked, s.a, s.b); }
    DeliverKeeps(s.b, s.a, d);
    var y := DoDeliver(s.b, d);
    var z := Reply(y);
    ReplyAcks(s.a, y);
    DeliverKeeps(s.a, y, z);
    var s1 := Step(s, Deliver(B, d));
    assert s1 == Sys(s.a, y);
    var s2 := Step(s1, Deliver(A, z));
    assert s2 == Sys(DoDeliver(s.a, z), y);
    var round := [Deliver(B, d), Deliver(A, z)];
    assert round[1..] == [Deliver(A, z)] && round[1..][1..] == [];
    assert Run(s2, []) == s2 && Run(s1, round[1..]) == s2;
    assert Allowed(s2, []) && Allowed(s1, round[1..]);
  }

  lemma CopyOnWire(d: Datagram, i: nat, x: End, y: End)
    requires Copy(d, i, x, y)
    ensures d in x.wire
  {
  }

  lemma QueueNonEmpty(s: Sys)
    requires Inv(s)
    ensures |s.a.peer.queue| == |s.a.sent| - s.a.acked && s.a.acked <= s.b.recv
  {
    hide PeerInv, WireInv, ReceiverInv;
  }

  ghost predicate HasCopy(i: nat, x: End, y: End) { exists d :: Copy(d, i, x, y) }

  /** Every queued message of x has a copy on the wire that y will take. */
  ghost predicate CopiesOnWire(x: End, y: End) {
    forall i :: x.acked <= i < |x.sent| ==> HasCopy(i, x, y)
  }

  lemma {:induction false} RunConcat(s: Sys, first: seq<Event>, second: seq<Event>)
    requires Allowed(s, first) && Allowed(Run(s, first), second)
    ensures Allowed(s, first + second) && Run(s, first + second) == Run(Run(s, first), second)
    decreases |first|
  {
    hide Act, Guard;
    if first == [] {
      assert first + second == second;
    } else {
      assert (first + second)[1..] == first[1..] + second;
      RunConcat(Step(s, first[0]), first[1..], second);
    }
  }

  /**
   From any state in which every queued message of A still has a usable copy in flight,
   at most two deliveries per message empty the queue of A; by then B has delivered everything
   A sent.
   */
  lemma {:induction false} QueueDrains(s: Sys) returns (events: seq<Event>)
    requires Inv(s) && CopiesOnWire(s.a, s.b) && Addressed(s.b, s.a)
    ensures Allowed(s, events) && |events| <= 2 * |s.a.peer.queue|
    ensures var t := Run(s, events);
            t.a.peer.queue == [] && t.a.sent == s.a.sent && t.b.got == Flatten(s.a.sent)
    decreases |s.a.peer.queue|
  {
    hide Half, Copy, DoDeliver, Addressed, Flatten;
    QueueNonEmpty(s);
    if s.a.peer.queue == [] {
      events := [];
      AllDelivered(s);
    } else {
      assert HasCopy(s.a.acked, s.a, s.b);
      var d :| Copy(d, s.a.acked, s.a, s.b);
      RoundTripAdvances(s, d);
      var round := [Deliver(B, d), Deliver(A, Reply(DoDeliver(s.b, d)))];
      var t := Run(s, round);
      forall i | t.a.acked <= i < |t.a.sent| ensures HasCopy(i, t.a, t.b) {
        assert HasCopy(i, s.a, s.b);
        var c :| Copy(c, i, s.a, s.b);
        CopyStays(c, i, s, t);
      }
      var rest := QueueDrains(t);
      RunConcat(s, round, rest);
      events := round + rest;
    }
  }

  lemma CopyStays(c: Datagram, i: nat, s: Sys, t: Sys)
    requires Copy(c, i, s.a, s.b) && t.a.wire == s.a.wire && t.a.recv == s.a.recv && t.b.peer.localCcid == s.b.peer.localCcid
    ensures Copy(c, i, t.a, t.b)
  {
    hide FromWire;
  }

  lemma AllDelivered(s: Sys)
    requires Inv(s) && s.a.peer.queue == []
    ensures s.b.got == Flatten(s.a.sent)
  {
    hide Flatten, Buffered, PeerInv, WireInv;
    assert s.a.sent[..s.b.recv] == s.a.sent;
  }

  // ---- a retransmission round provides the copies --------------------------------------

  lemma {:induction false} TickResendsExpired(queue: seq<Pending>, now: real, maxRetries: nat, nr: U16, k: nat)
    requires k < |queue| && Expired(queue[k], now) && !TickQueue(queue, now, maxRetries, nr).dead
    ensures var t := TickQueue(queue, now, maxRetries, nr);
            k < |t.queue| && t.queue[k] == Refire(queue[k], now, nr) && t.queue[k].encoded in t.resend
  {
    hide Refire, Expired;
    if k > 0 {
      TickResendsExpired(queue[1..], now, maxRetries, nr, k - 1);
    }
  }

  /** A tick on which every queued message has timed out, and none is out of retries, puts a usable copy of each on the wire. */
  lemma RetransmissionRefreshes(x: End, y: End, now: real)
    requires SenderInv(x) && x.peer.nrExpect == Low16(x.recv) && !x.peer.dead && !Tick(x.peer, now).2
    requires forall k :: 0 <= k < |x.peer.queue| ==> Expired(x.peer.queue[k], now) && Accepts(y.peer, x.peer.queue[k].msg)
    ensures CopiesOnWire(DoTimer(x, now), y)
  {
    hide ToWire, FromWire, TickQueue, PeerInv, Low16, Expired, Encoding;
    var x' := DoTimer(x, now);
    TimerKeepsSender(x, now);
    TickQueueEntries(x.peer.queue, now, x.peer.maxRetries, x.peer.nrExpect);
    forall i | x'.acked <= i < |x'.sent| ensures HasCopy(i, x', y) {
      var k := i - x.acked;
      TickResendsExpired(x.peer.queue, now, x.peer.maxRetries, x.peer.nrExpect, k);
      QueueEntry(x', k);
      var d := Datagram(x'.peer.queue[k].encoded, x.acked + k, x.recv);
      assert d in x'.wire;
      assert Copy(d, i, x', y);
    }
  }
}
