/**
 Beyond the wrap guard: what numbers more than half a turn apart do to either end, for any
 genuine datagram, however old or far ahead, and any number of unacknowledged messages.
 */
module Wrap {
  import opened Prelude
  import opened AvpCodec
  import opened MessageCodec
  import opened Transport
  import opened Delivery

  // ---- acknowledgements ----------------------------------------------------------

  /** The queued messages carry the numbers of the positions from acked on, however many they are. */
  ghost predicate Numbered(queue: seq<Pending>, acked: nat) {
    forall i :: 0 <= i < |queue| ==> queue[i].msg.ns == Low16(acked + i)
  }

  /** How far the Nr of position nrIdx is ahead of the queue's head, modulo a turn. */
  function AckDistance(acked: nat, nrIdx: nat): nat { (nrIdx - acked) % SEQ_MODULUS }

  /** How many messages it takes off the queue. */
  function Popped(length: nat, distance: nat): nat {
    if distance >= HALF_TURN then 0 else if distance <= length then distance else length
  }

  lemma AckDelta(nrIdx: nat, i: nat)
    ensures SeqDelta(Low16(nrIdx), Low16(i)) > 0 <==> 0 < AckDistance(i, nrIdx) < HALF_TURN
    ensures AckDistance(i, nrIdx) > 0 ==> AckDistance(i + 1, nrIdx) == AckDistance(i, nrIdx) - 1
  {
    assert (Low16(nrIdx) - Low16(i)) % SEQ_MODULUS == (nrIdx - i) % SEQ_MODULUS;
    var d := nrIdx - i;
    if d % SEQ_MODULUS > 0 {
      assert (d - 1) % SEQ_MODULUS == d % SEQ_MODULUS - 1;
    }
  }

  lemma {:induction false} AckPops(queue: seq<Pending>, acked: nat, nrIdx: nat)
    requires Numbered(queue, acked)
    ensures ConsumeAcks(queue, Low16(nrIdx)) == queue[Popped(|queue|, AckDistance(acked, nrIdx))..]
    decreases |queue|
  {
    hide SeqDelta, Low16, AckDistance;
    if queue != [] {
      AckDelta(nrIdx, acked);
      if SeqDelta(Low16(nrIdx), queue[0].msg.ns) > 0 {
        assert forall i :: 0 <= i < |queue| - 1 ==> queue[1..][i] == queue[i + 1];
        AckPops(queue[1..], acked + 1, nrIdx);
      }
    }
  }

  /**
   An acknowledgement that covers the first h queued messages removes exactly those when h is
   less than half a turn, and fewer otherwise: none of them if h is half a turn to a turn.
   */
  lemma AckAheadExactly(queue: seq<Pending>, acked: nat, nrIdx: nat)
    requires Numbered(queue, acked) && acked <= nrIdx <= acked + |queue|
    ensures ConsumeAcks(queue, Low16(nrIdx)) == queue[nrIdx - acked..] <==> nrIdx - acked < HALF_TURN
    ensures HALF_TURN <= nrIdx - acked < SEQ_MODULUS ==> ConsumeAcks(queue, Low16(nrIdx)) == queue
    ensures |ConsumeAcks(queue, Low16(nrIdx))| >= |queue| - (nrIdx - acked)
  {
    hide ConsumeAcks, Low16, Numbered;
    AckPops(queue, acked, nrIdx);
    var left := ConsumeAcks(queue, Low16(nrIdx));
    assert |left| == |queue| - Popped(|queue|, AckDistance(acked, nrIdx));
    assert |queue[nrIdx - acked..]| == |queue| - (nrIdx - acked);
  }

  /** So the acknowledgement of everything empties the queue exactly when it holds at most 32767 messages. */
  lemma FullAckExactly(queue: seq<Pending>, acked: nat)
    requires Numbered(queue, acked)
    ensures ConsumeAcks(queue, Low16(acked + |queue|)) == [] <==> |queue| < HALF_TURN
  {
    hide ConsumeAcks, Low16, Numbered;
    AckAheadExactly(queue, acked, acked + |queue|);
    if |queue| >= HALF_TURN {
      AckPops(queue, acked, acked + |queue|);
    }
  }

  /**
   An outdated Nr, one that covers no queued message, leaves the queue alone exactly when it is
   at most half a turn old, counted modulo a whole turn.
   */
  lemma OldAckHarmlessExactly(queue: seq<Pending>, acked: nat, nrIdx: nat)
    requires Numbered(queue, acked) && queue != [] && nrIdx <= acked
    ensures ConsumeAcks(queue, Low16(nrIdx)) == queue <==> (acked - nrIdx) % SEQ_MODULUS <= HALF_TURN
  {
    hide ConsumeAcks, Low16, Numbered;
    AckPops(queue, acked, nrIdx);
    var age := (acked - nrIdx) % SEQ_MODULUS;
    assert AckDistance(acked, nrIdx) == if age == 0 then 0 else SEQ_MODULUS - age;
    assert |ConsumeAcks(queue, Low16(nrIdx))| == |queue| - Popped(|queue|, AckDistance(acked, nrIdx));
  }

  // ---- messages ------------------------------------------------------------------

  /** How far ahead of the next position x takes the datagram's message to be. */
  function Lead(x: End, d: Datagram): (lead: nat)
    ensures lead < SEQ_MODULUS
  {
    (d.nsIdx - x.recv) % SEQ_MODULUS
  }

  /** x takes the message for the next one, or for one to come within the window. */
  ghost predicate TakenUp(x: End, d: Datagram) {
    Lead(x, d) == 0 || (Lead(x, d) < HALF_TURN && Lead(x, d) <= x.peer.receiveWindow)
  }

  /** The position x takes it for carries the same AVPs. */
  ghost predicate SameContent(x: End, sent: seq<seq<Avp>>, d: Datagram) {
    && x.recv + Lead(x, d) < |sent| && d.nsIdx < |sent| && sent[x.recv + Lead(x, d)] == sent[d.nsIdx]
  }

  ghost predicate Incoming(x: End, sent: seq<seq<Avp>>, d: Datagram) {
    && FromWire(d.bytes).Success? && Accepts(x.peer, FromWire(d.bytes).value) && !FromWire(d.bytes).value.IsZlb()
    && d.nsIdx < |sent| && FromWire(d.bytes).value.ns == Low16(d.nsIdx) && FromWire(d.bytes).value.avps == sent[d.nsIdx]
  }

  lemma LeadDelta(x: End, d: Datagram)
    ensures var delta := SeqDelta(Low16(d.nsIdx), Low16(x.recv));
            delta == if Lead(x, d) < HALF_TURN then Lead(x, d) else Lead(x, d) - SEQ_MODULUS
    ensures Ahead(Low16(d.nsIdx), Low16(x.recv)) == Lead(x, d)
    ensures Low16(d.nsIdx) == Low16(x.recv + Lead(x, d))
  {
    assert (Low16(d.nsIdx) - Low16(x.recv)) % SEQ_MODULUS == (d.nsIdx - x.recv) % SEQ_MODULUS;
  }

  /** What is left of an end that took nothing up. */
  ghost predicate Unmoved(x: End, x': End) {
    x'.peer.nrExpect == x.peer.nrExpect && x'.peer.reorder == x.peer.reorder && x'.got == x.got && x'.recv == x.recv
  }

  lemma NotTakenUp(x: End, y: End, d: Datagram)
    requires x.peer.nrExpect == Low16(x.recv) && Incoming(x, y.sent, d) && !TakenUp(x, d)
    ensures Unmoved(x, DoDeliver(x, d))
  {
    hide FromWire, ToWire, ConsumeAcks, Drain, Low16, SeqDelta, Lead;
    LeadDelta(x, d);
    AheadZero(x.peer.nrExpect, x.peer.nrExpect);
    assert x.got + [] == x.got;
  }

  lemma TakenAsLater(x: End, y: End, d: Datagram)
    requires x.peer.nrExpect == Low16(x.recv) && Incoming(x, y.sent, d) && TakenUp(x, d) && Lead(x, d) > 0
    ensures var m := FromWire(d.bytes).value;
            var x' := DoDeliver(x, d);
            x'.peer.nrExpect == x.peer.nrExpect && x'.got == x.got && x'.recv == x.recv
            && x'.peer.reorder == x.peer.reorder[Low16(x.recv + Lead(x, d)) := m]
  {
    hide FromWire, ToWire, ConsumeAcks, Drain, Low16, SeqDelta, Lead;
    LeadDelta(x, d);
    AheadZero(x.peer.nrExpect, x.peer.nrExpect);
    assert x.got + [] == x.got;
  }

  lemma AppendKept(front: seq<seq<Avp>>, sent: seq<seq<Avp>>, recv: nat, i: nat)
    requires recv <= i <= |sent| && front == sent[..recv]
    ensures Flatten(front) + Flatten(sent[recv..i]) == Flatten(sent[..i])
  {
    FlattenSlice(sent, recv, i);
  }

  lemma BufferedOtherwise(reorder: map<int, ControlMessage>, recv: nat, sent: seq<seq<Avp>>, later: seq<seq<Avp>>, content: seq<Avp>, window: nat)
    requires Buffered(reorder, recv, sent) && ReorderInv(reorder, Low16(recv), window) && sent <= later
    requires recv < |later|
    ensures Buffered(reorder, recv, later[recv := content])
  {
    hide Ahead, Low16;
  }

  lemma TakenAsNext(x: End, y: End, d: Datagram, later: seq<seq<Avp>>)
    requires PeerInv(x.peer) && ReceiverInv(x, y.sent) && Incoming(x, y.sent, d) && Lead(x, d) == 0
    requires y.sent <= later && x.recv < |later|
    ensures var x' := DoDeliver(x, d);
            ReceiverInv(x', later[x.recv := y.sent[d.nsIdx]]) && x'.recv > x.recv
  {
    hide PeerInv, Buffered, FromWire, ToWire, Low16, Flatten, ConsumeAcks, Drain, Receive, Ahead;
    var m := FromWire(d.bytes).value;
    var sent' := later[x.recv := m.avps];
    LeadDelta(x, d);
    PeerReorder(x.peer);
    BufferedOtherwise(x.peer.reorder, x.recv, y.sent, later, m.avps, x.peer.receiveWindow);
    InOrderDelivers(x, y.(sent := sent'), m);
    var x' := DoDeliver(x, d);
    AppendKept(y.sent[..x.recv], sent', x.recv, x'.recv);
  }

  lemma PeerReorder(p: PeerState)
    requires PeerInv(p)
    ensures ReorderInv(p.reorder, p.nrExpect, p.receiveWindow)
  {
  }

  lemma SlotsDiffer(n: int, recv: nat, lead: nat)
    requires 0 <= n < SEQ_MODULUS && Ahead(n, Low16(recv)) == lead
    ensures n == Low16(recv + lead)
  {
  }

  lemma TakenAsLaterActs(x: End, y: End, d: Datagram, later: seq<seq<Avp>>)
    requires PeerInv(x.peer) && ReceiverInv(x, y.sent) && Incoming(x, y.sent, d) && TakenUp(x, d) && Lead(x, d) > 0
    requires y.sent <= later && x.recv + Lead(x, d) < |later|
    ensures ReceiverInv(DoDeliver(x, d), later[x.recv + Lead(x, d) := y.sent[d.nsIdx]])
  {
    hide FromWire, ToWire, Low16, Ahead, ConsumeAcks, Drain, Receive, Lead, DoDeliver, Flatten, QueueInv, Incoming, TakenUp;
    TakenAsLater(x, y, d);
    LeadDelta(x, d);
    IncomingContent(x, y, d);
    var t := x.recv + Lead(x, d);
    var x' := DoDeliver(x, d);
    var sent' := later[t := y.sent[d.nsIdx]];
    assert sent'[..x.recv] == y.sent[..x.recv];
    forall n | n in x'.peer.reorder
      ensures x.recv + Ahead(n, Low16(x.recv)) < |sent'| && x'.peer.reorder[n].avps == sent'[x.recv + Ahead(n, Low16(x.recv))]
    {
      if n != Low16(t) && Ahead(n, Low16(x.recv)) == Lead(x, d) {
        SlotsDiffer(n, x.recv, Lead(x, d));
      }
    }
  }

  lemma IncomingContent(x: End, y: End, d: Datagram)
    requires Incoming(x, y.sent, d)
    ensures d.nsIdx < |y.sent| && FromWire(d.bytes).Success? && FromWire(d.bytes).value.avps == y.sent[d.nsIdx]
  {
    hide FromWire;
  }

  /**
   Once it takes a message up, the end goes on exactly as if the other end had sent these AVPs
   at the position it took the message for.
   */
  lemma ActsAsIfSentThere(x: End, y: End, d: Datagram, later: seq<seq<Avp>>)
    requires PeerInv(x.peer) && ReceiverInv(x, y.sent) && Incoming(x, y.sent, d) && TakenUp(x, d)
    requires y.sent <= later && x.recv + Lead(x, d) < |later|
    ensures ReceiverInv(DoDeliver(x, d), later[x.recv + Lead(x, d) := y.sent[d.nsIdx]])
  {
    hide PeerInv, ReceiverInv, Incoming, DoDeliver, Lead;
    if Lead(x, d) == 0 {
      TakenAsNext(x, y, d, later);
    } else {
      TakenAsLaterActs(x, y, d, later);
    }
  }

  lemma SameFlatten(sent: seq<seq<Avp>>, content: seq<Avp>, i: nat, j: nat)
    requires i < j <= |sent| && Flatten(sent[i := content][..j]) == Flatten(sent[..j])
    ensures content == sent[i]
  {
    var other := sent[i := content];
    FlattenSlice(sent, i, j);
    FlattenSlice(other, i, j);
    assert other[..i] == sent[..i];
    assert other[i..j][1..] == sent[i..j][1..] && other[i..j][0] == content && sent[i..j][0] == sent[i];
    var front, tail := Flatten(sent[..i]), Flatten(sent[i..j][1..]);
    assert front + (content + tail) == front + (sent[i] + tail);
    assert content + tail == (front + (content + tail))[|front|..];
    assert content == (content + tail)[..|content|] && sent[i] == (sent[i] + tail)[..|sent[i]|];
  }

  lemma KeptMeansSame(x: End, y: End, d: Datagram)
    requires PeerInv(x.peer) && ReceiverInv(x, y.sent) && Incoming(x, y.sent, d) && TakenUp(x, d)
    requires ReceiverInv(DoDeliver(x, d), y.sent)
    ensures SameContent(x, y.sent, d)
  {
    hide PeerInv, FromWire, ToWire, Low16, Flatten, Lead, DoDeliver, Incoming, Ahead, TakenUp;
    var x' := DoDeliver(x, d);
    var t := x.recv + Lead(x, d);
    LeadDelta(x, d);
    IncomingContent(x, y, d);
    if Lead(x, d) == 0 {
      var later := y.sent + [y.sent[d.nsIdx]];
      TakenAsNext(x, y, d, later);
      assert later[t := y.sent[d.nsIdx]][..x'.recv] == y.sent[t := y.sent[d.nsIdx]][..x'.recv];
      SameFlatten(y.sent, y.sent[d.nsIdx], t, x'.recv);
    } else {
      TakenAsLater(x, y, d);
    }
  }

  /**
   Any genuine datagram, however old or far ahead, leaves the end delivering exactly what was
   sent if and only if the end does not take its message up, or takes it for a position with the same
   AVPs. Within the guard the position taken is the message's own.
   */
  lemma OrderKeptExactly(x: End, y: End, d: Datagram)
    requires PeerInv(x.peer) && ReceiverInv(x, y.sent) && Incoming(x, y.sent, d)
    ensures ReceiverInv(DoDeliver(x, d), y.sent) <==> !TakenUp(x, d) || SameContent(x, y.sent, d)
  {
    hide PeerInv, DoDeliver, Incoming, Lead, TakenUp, Buffered, Flatten;
    if !TakenUp(x, d) {
      ReceiverNumbers(x, y.sent);
      NotTakenUp(x, y, d);
    } else if SameContent(x, y.sent, d) {
      ActsAsIfSentThere(x, y, d, y.sent);
      assert y.sent[x.recv + Lead(x, d) := y.sent[d.nsIdx]] == y.sent;
    } else if ReceiverInv(DoDeliver(x, d), y.sent) {
      KeptMeansSame(x, y, d);
    }
  }

  lemma ReceiverNumbers(x: End, sent: seq<seq<Avp>>)
    requires ReceiverInv(x, sent)
    ensures x.peer.nrExpect == Low16(x.recv)
  {
  }

  // ---- old messages ----------------------------------------------------------------

  /** How old the message is, modulo a turn. */
  function Age(x: End, d: Datagram): nat { (x.recv - d.nsIdx) % SEQ_MODULUS }

  ghost predicate SlotHolds(x: End, d: Datagram) {
    FromWire(d.bytes).Success? && Low16(d.nsIdx) in x.peer.reorder && x.peer.reorder[Low16(d.nsIdx)] == FromWire(d.bytes).value
  }

  /**
   A message delivered before is ignored when it comes again exactly when, modulo a turn, it is 1 to
   32768 numbers old, or older but still further than the window from the next turn; or its
   slot in the reorder buffer holds this very message already.
   */
  lemma OldMessageIgnoredExactly(x: End, y: End, d: Datagram)
    requires PeerInv(x.peer) && ReceiverInv(x, y.sent) && Incoming(x, y.sent, d) && d.nsIdx < x.recv
    ensures Unmoved(x, DoDeliver(x, d)) <==>
            || 1 <= Age(x, d) <= HALF_TURN
            || (Age(x, d) > HALF_TURN && (SEQ_MODULUS - Age(x, d) > x.peer.receiveWindow || SlotHolds(x, d)))
  {
    hide PeerInv, ReceiverInv, DoDeliver, Incoming, FromWire, Low16;
    ReceiverNumbers(x, y.sent);
    LeadDelta(x, d);
    AgeLead(x, d);
    if !TakenUp(x, d) {
      NotTakenUp(x, y, d);
    } else if Lead(x, d) == 0 {
      IncomingContent(x, y, d);
      TakenAsNext(x, y, d, y.sent + [y.sent[d.nsIdx]]) by { ReceivedSent(x, y.sent); }
    } else {
      IncomingContent(x, y, d);
      TakenAsLater(x, y, d);
      var n, m := Low16(d.nsIdx), FromWire(d.bytes).value;
      assert x.peer.reorder[n := m] == x.peer.reorder <==> n in x.peer.reorder && x.peer.reorder[n] == m;
    }
  }

  lemma ReceivedSent(x: End, sent: seq<seq<Avp>>)
    requires ReceiverInv(x, sent)
    ensures x.recv <= |sent|
  {
  }

  lemma AgeLead(x: End, d: Datagram)
    ensures Age(x, d) == 0 <==> Lead(x, d) == 0
    ensures Age(x, d) > 0 ==> Lead(x, d) == SEQ_MODULUS - Age(x, d)
  {
  }

  /** Every message after the one due next and before position t is in the buffer. */
  ghost predicate BufferedUpTo(x: End, t: nat) { forall i :: x.recv < i < t ==> Low16(i) in x.peer.reorder }

  /**
   Otherwise it is delivered again. Whole turns old, at once; buffered as the j-th message to come,
   as soon as the message due next arrives and those in between are in the buffer.
   */
  lemma OldMessageRedelivered(x: End, y: End, d: Datagram, e: Datagram)
    requires PeerInv(x.peer) && ReceiverInv(x, y.sent) && Incoming(x, y.sent, d) && TakenUp(x, d)
    ensures Lead(x, d) == 0 ==> y.sent[d.nsIdx] <= DeliveredBy(x, d)
    ensures Lead(x, d) > 0 && Incoming(x, y.sent, e) && e.nsIdx == x.recv && BufferedUpTo(x, x.recv + Lead(x, d)) ==>
              x.recv + Lead(x, d) <= |y.sent| && Flatten(y.sent[x.recv..x.recv + Lead(x, d)]) + y.sent[d.nsIdx] <= DeliveredBy(DoDeliver(x, d), e)
  {
    hide PeerInv, ReceiverInv, DoDeliver, FromWire, Low16, Lead, ToWire, Incoming, Flatten, TakenUp, Receive;
    if Lead(x, d) == 0 {
      RedeliveredNow(x, y, d);
    } else if Incoming(x, y.sent, e) && e.nsIdx == x.recv && BufferedUpTo(x, x.recv + Lead(x, d)) {
      IncomingContent(x, y, e);
      BufferedWereSent(x, y.sent, x.recv + Lead(x, d));
      RedeliveredLater(x, y, d, e);
    }
  }

  lemma BufferedWereSent(x: End, sent: seq<seq<Avp>>, t: nat)
    requires ReceiverInv(x, sent) && BufferedUpTo(x, t) && x.recv < |sent| && x.recv < t < x.recv + SEQ_MODULUS
    ensures t <= |sent|
  {
    hide Low16, Ahead, Flatten;
    if t - 1 > x.recv {
      assert Low16(t - 1) in x.peer.reorder;
      AheadBy(x.recv, t - 1 - x.recv);
    }
  }

  lemma RedeliveredNow(x: End, y: End, d: Datagram)
    requires ReceiverInv(x, y.sent) && Incoming(x, y.sent, d) && Lead(x, d) == 0
    ensures y.sent[d.nsIdx] <= DeliveredBy(x, d)
  {
    hide FromWire, ToWire, ConsumeAcks, Drain, Buffered, Flatten;
    LeadDelta(x, d);
  }

  lemma RedeliveredLater(x: End, y: End, d: Datagram, e: Datagram)
    requires PeerInv(x.peer) && ReceiverInv(x, y.sent) && Incoming(x, y.sent, d) && TakenUp(x, d) && Lead(x, d) > 0
    requires Incoming(x, y.sent, e) && e.nsIdx == x.recv && x.recv + Lead(x, d) <= |y.sent|
    requires BufferedUpTo(x, x.recv + Lead(x, d))
    ensures Flatten(y.sent[x.recv..x.recv + Lead(x, d)]) + y.sent[d.nsIdx] <= DeliveredBy(DoDeliver(x, d), e)
  {
    hide PeerInv, DoDeliver, FromWire, Low16, Lead, ToWire, Flatten, TakenUp, Receive, Buffered;
    var t := x.recv + Lead(x, d);
    var later := y.sent + [y.sent[d.nsIdx]];
    var sent' := later[t := y.sent[d.nsIdx]];
    ReceiverNumbers(x, y.sent);
    TakenAsLater(x, y, d);
    ActsAsIfSentThere(x, y, d, later);
    StaysValid(x, y, d);
    var x' := DoDeliver(x, d);
    InOrderDelivers(x', y.(sent := sent'), FromWire(e.bytes).value);
    var recv := x.recv + Ahead(Receive(x'.peer, FromWire(e.bytes).value).peer.nrExpect, x'.peer.nrExpect);
    assert Low16(recv) !in x'.peer.reorder;
    assert recv > t;
    FlattenSlice(sent'[x.recv..], t - x.recv, t + 1 - x.recv);
    FlattenSlice(sent'[x.recv..], t + 1 - x.recv, recv - x.recv);
    assert sent'[x.recv..][..t - x.recv] == y.sent[x.recv..t];
    assert sent'[x.recv..][t - x.recv..t + 1 - x.recv] == [y.sent[d.nsIdx]];
    assert sent'[x.recv..][..recv - x.recv] == sent'[x.recv..recv];
    FlattenOne(y.sent[d.nsIdx]);
  }

  lemma FlattenOne(part: seq<Avp>)
    ensures Flatten([part]) == part
  {
    assert [part][1..] == [];
    assert Flatten([part][1..]) == [];
    assert part + [] == part;
  }

  lemma StaysValid(x: End, y: End, d: Datagram)
    requires PeerInv(x.peer) && Incoming(x, y.sent, d)
    ensures PeerInv(DoDeliver(x, d).peer) && DoDeliver(x, d).peer.localCcid == x.peer.localCcid
  {
    hide PeerInv, FromWire, ToWire, Drain, ConsumeAcks;
    FromWireInRange(d.bytes);
    ReceiveKeepsInv(x.peer, FromWire(d.bytes).value);
  }

  /** Whatever calls have been made, the queue carries the numbers of some run of positions: no bound on its length is needed. */
  lemma NumberedAlways(p: PeerState) returns (acked: nat)
    requires PeerInv(p)
    ensures Numbered(p.queue, acked) && Low16(acked + |p.queue|) == p.nsSend
  {
    hide ToWire, ReorderInv;
    acked := p.nsSend + (SEQ_MODULUS - 1) * |p.queue|;
    forall i | 0 <= i < |p.queue| ensures p.queue[i].msg.ns == Low16(acked + i) {
      WholeTurns(p.nsSend - |p.queue| + i, |p.queue|);
    }
    WholeTurns(p.nsSend, |p.queue|);
  }

  lemma WholeTurns(i: int, turns: nat)
    ensures Low16(i + SEQ_MODULUS * turns) == Low16(i)
  {
  }
}
