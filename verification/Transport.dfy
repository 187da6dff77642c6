/**
 One end of the reliable control channel (section 4.2 of RFC 3931) as a value: what each
 call of the Peer does to its counters, send queue and reorder buffer. Time is real-valued.
 Class PeerObject.Peer updates the same state in place.
 */
module Transport {
  import opened Prelude
  import opened AvpCodec
  import opened MessageCodec

  const RETRANSMIT_MAX_INTERVAL: real := 16.0

  /** An unacknowledged message with its cached encoding and its retransmission timer. */
  datatype Pending = Pending(msg: ControlMessage, encoded: Bytes, sentAt: real, retries: nat, nextRto: real)

  datatype PeerState = PeerState(
    localCcid: int, remoteCcid: int, receiveWindow: nat, retransmitInterval: real, maxRetries: nat,
    nsSend: U16, nrExpect: U16, queue: seq<Pending>, reorder: map<int, ControlMessage>, dead: bool)

  function Fresh(localCcid: int, remoteCcid: int, receiveWindow: nat, retransmitInterval: real, maxRetries: nat): PeerState {
    PeerState(localCcid, remoteCcid, receiveWindow, retransmitInterval, maxRetries, 0, 0, [], map[], false)
  }

  // ---- sending -------------------------------------------------------------------

  function Stamp(p: PeerState, avps: seq<Avp>): ControlMessage {
    ControlMessage(p.remoteCcid, p.nsSend, p.nrExpect, avps)
  }

  /** Nothing changes when the AVPs are empty or the message cannot be encoded. */
  function Send(p: PeerState, avps: seq<Avp>, now: real): Result<(PeerState, ControlMessage)> {
    if avps == [] then Failure
    else
      var m := Stamp(p, avps);
      var encoded :- ToWire(m);
      Success((p.(queue := p.queue + [Pending(m, encoded, now, 0, p.retransmitInterval)], nsSend := SeqAdvance(p.nsSend)), m))
  }

  function AckOnly(p: PeerState): ControlMessage { Stamp(p, []) }

  // ---- receiving -----------------------------------------------------------------

  function ConsumeAcks(queue: seq<Pending>, peerNr: int): (left: seq<Pending>)
    ensures |left| <= |queue|
  {
    if queue != [] && SeqDelta(peerNr, queue[0].msg.ns) > 0 then ConsumeAcks(queue[1..], peerNr) else queue
  }

  datatype Drained = Drained(delivered: seq<Avp>, nr: U16, reorder: map<int, ControlMessage>)

  /** Hands over the buffered messages that are next in line. */
  function Drain(nr: U16, reorder: map<int, ControlMessage>): Drained
    decreases |reorder|
  {
    if nr !in reorder then Drained([], nr, reorder)
    else
      var left := reorder - {nr};
      assert left.Keys == reorder.Keys - {nr};
      var rest := Drain(SeqAdvance(nr), left);
      rest.(delivered := reorder[nr].avps + rest.delivered)
  }

  function Accepts(p: PeerState, m: ControlMessage): bool { m.ccid == 0 || m.ccid == p.localCcid }

  datatype Received = Received(peer: PeerState, delivered: seq<Avp>, responses: seq<ControlMessage>)

  function Receive(p: PeerState, m: ControlMessage): Received {
    if !Accepts(p, m) then Received(p, [], [])
    else
      var q := p.(queue := ConsumeAcks(p.queue, m.nr));
      var delta := SeqDelta(m.ns, p.nrExpect);
      if m.IsZlb() then Received(q, [], [])
      else if delta == 0 then
        var d := Drain(SeqAdvance(p.nrExpect), p.reorder);
        var r := q.(nrExpect := d.nr, reorder := d.reorder);
        Received(r, m.avps + d.delivered, [AckOnly(r)])
      else if delta < 0 then Received(q, [], [AckOnly(q)])
      else if delta <= p.receiveWindow then Received(q.(reorder := p.reorder[m.ns := m]), [], [])
      else Received(q, [], [])
  }

  // ---- retransmission ------------------------------------------------------------

  function Min(a: real, b: real): real { if a <= b then a else b }

  predicate Expired(e: Pending, now: real) { now - e.sentAt >= e.nextRto }

  /** The wire octets; queued messages always encode (PeerInv). */
  function Encoding(m: ControlMessage): Bytes {
    match ToWire(m) case Success(b) => b case Failure => []
  }

  function Refire(e: Pending, now: real, nr: U16): Pending {
    var m := e.msg.(nr := nr);
    Pending(m, Encoding(m), now, e.retries + 1, Min(e.nextRto * 2.0, RETRANSMIT_MAX_INTERVAL))
  }

  /** The retry that was one too many is still counted. */
  function Exhausted(e: Pending): Pending { e.(retries := e.retries + 1) }

  datatype Ticked = Ticked(queue: seq<Pending>, resend: seq<Bytes>, dead: bool)

  /** The loop over the queue; it stops at the first message out of retries. */
  function TickQueue(queue: seq<Pending>, now: real, maxRetries: nat, nr: U16): Ticked {
    if queue == [] then Ticked([], [], false)
    else
      var e := queue[0];
      if !Expired(e, now) then
        var rest := TickQueue(queue[1..], now, maxRetries, nr);
        rest.(queue := [e] + rest.queue)
      else if e.retries + 1 > maxRetries then Ticked([Exhausted(e)] + queue[1..], [], true)
      else
        var f := Refire(e, now, nr);
        var rest := TickQueue(queue[1..], now, maxRetries, nr);
        Ticked([f] + rest.queue, if rest.dead then [] else [f.encoded] + rest.resend, rest.dead)
  }

  function Tick(p: PeerState, now: real): (PeerState, seq<Bytes>, bool) {
    if p.dead then (p, [], true)
    else
      var t := TickQueue(p.queue, now, p.maxRetries, p.nrExpect);
      (p.(queue := t.queue, dead := t.dead), t.resend, t.dead)
  }

  // ---- representation invariant --------------------------------------------------

  /** How far ahead of `base` the 16-bit number n is. */
  function Ahead(n: int, base: int): nat { (n - base) % SEQ_MODULUS }

  ghost predicate QueueInv(queue: seq<Pending>, nsSend: int) {
    forall i :: 0 <= i < |queue| ==>
      && queue[i].msg.ns == Low16(nsSend - |queue| + i)
      && queue[i].msg.avps != []
      && ToWire(queue[i].msg) == Success(queue[i].encoded)
  }

  ghost predicate ReorderInv(reorder: map<int, ControlMessage>, nrExpect: int, window: nat) {
    forall n :: n in reorder ==> 0 <= n < SEQ_MODULUS && 1 <= Ahead(n, nrExpect) <= window && Ahead(n, nrExpect) < 0x8000
  }

  /**
   Queued Ns values are consecutive and end just before nsSend, each cached encoding is that
   of its message; every buffered number is 1..window ahead of nrExpect.
   */
  ghost predicate PeerInv(p: PeerState) {
    QueueInv(p.queue, p.nsSend) && ReorderInv(p.reorder, p.nrExpect, p.receiveWindow)
  }

  datatype Call =
    | CallSend(avps: seq<Avp>, now: real)
    | CallReceive(msg: ControlMessage)
    | CallTick(now: real)
    | CallSetRemote(ccid: int)

  function Apply(p: PeerState, call: Call): PeerState {
    match call
    case CallSend(avps, now) => (match Send(p, avps, now) case Success((q, _)) => q case Failure => p)
    case CallReceive(m) => Receive(p, m).peer
    case CallTick(now) => Tick(p, now).0
    case CallSetRemote(ccid) => p.(remoteCcid := ccid)
  }

  function ApplyAll(p: PeerState, calls: seq<Call>): PeerState
    decreases |calls|
  {
    if calls == [] then p else ApplyAll(Apply(p, calls[0]), calls[1..])
  }

  lemma {:induction false} ConsumeAcksPopsFront(queue: seq<Pending>, peerNr: int) returns (k: nat)
    ensures k <= |queue| && ConsumeAcks(queue, peerNr) == queue[k..]
    ensures forall i :: 0 <= i < k ==> SeqDelta(peerNr, queue[i].msg.ns) > 0
    ensures k < |queue| ==> SeqDelta(peerNr, queue[k].msg.ns) <= 0
  {
    if queue != [] && SeqDelta(peerNr, queue[0].msg.ns) > 0 {
      var j := ConsumeAcksPopsFront(queue[1..], peerNr);
      k := j + 1;
      assert queue[1..][j..] == queue[k..];
      assert forall i :: 1 <= i < k ==> queue[i] == queue[1..][i - 1];
    } else {
      k := 0;
    }
  }

  lemma AheadShift(n: int, base: int)
    ensures Ahead(n, base) > 0 ==> Ahead(n, SeqAdvance(base)) == Ahead(n, base) - 1
  {
    var d := n - base;
    assert (n - (base + 1) % SEQ_MODULUS) % SEQ_MODULUS == (d - 1) % SEQ_MODULUS;
    if d % SEQ_MODULUS > 0 {
      assert (d - 1) % SEQ_MODULUS == d % SEQ_MODULUS - 1;
    }
  }

  lemma AheadZero(n: int, base: int)
    requires 0 <= n < SEQ_MODULUS && 0 <= base < SEQ_MODULUS
    ensures Ahead(n, base) == 0 <==> n == base
    ensures SeqDelta(n, base) > 0 ==> Ahead(n, base) == SeqDelta(n, base)
  {
  }

  /** One step further in the sequence, the buffer is 0..window-1 ahead; draining it restores 1. */
  lemma {:induction false} DrainInv(nr: U16, reorder: map<int, ControlMessage>, window: nat)
    requires forall n :: n in reorder ==> 0 <= n < SEQ_MODULUS && Ahead(n, nr) <= window && Ahead(n, nr) < 0x8000
    ensures ReorderInv(Drain(nr, reorder).reorder, Drain(nr, reorder).nr, window)
    decreases |reorder|
  {
    forall n | n in reorder ensures Ahead(n, nr) == 0 ==> n == nr {
      AheadZero(n, nr);
    }
    if nr in reorder {
      var left := reorder - {nr};
      assert left.Keys == reorder.Keys - {nr};
      forall n | n in left ensures Ahead(n, SeqAdvance(nr)) <= window && Ahead(n, SeqAdvance(nr)) < 0x8000 {
        AheadShift(n, nr);
      }
      DrainInv(SeqAdvance(nr), left, window);
    }
  }

  lemma ReceiveKeepsInv(p: PeerState, m: ControlMessage)
    requires PeerInv(p) && 0 <= m.ns < SEQ_MODULUS
    ensures PeerInv(Receive(p, m).peer)
  {
    hide ToWire, Drain, ConsumeAcks;
    if Accepts(p, m) {
      var k := ConsumeAcksPopsFront(p.queue, m.nr);
      assert forall i :: k <= i < |p.queue| ==> p.queue[i] == p.queue[k..][i - k];
      AheadZero(m.ns, p.nrExpect);
      if !m.IsZlb() && SeqDelta(m.ns, p.nrExpect) == 0 {
        forall n | n in p.reorder ensures Ahead(n, SeqAdvance(p.nrExpect)) <= p.receiveWindow && Ahead(n, SeqAdvance(p.nrExpect)) < 0x8000 {
          AheadShift(n, p.nrExpect);
        }
        DrainInv(SeqAdvance(p.nrExpect), p.reorder, p.receiveWindow);
      }
    }
  }

  lemma SendKeepsInv(p: PeerState, avps: seq<Avp>, now: real)
    requires PeerInv(p)
    ensures PeerInv(Apply(p, CallSend(avps, now)))
  {
    hide ToWire;
    if Send(p, avps, now).Success? {
      var q := Send(p, avps, now).value.0;
      forall i | 0 <= i < |q.queue| ensures q.queue[i].msg.ns == Low16(q.nsSend - |q.queue| + i) {
        assert Low16(q.nsSend - |q.queue| + i) == Low16(p.nsSend - |p.queue| + i);
        if i < |p.queue| {
          assert q.queue[i] == p.queue[i];
        }
      }
    }
  }

  /** Position by position, what a tick leaves in the queue and what it puts on the wire. */
  ghost predicate TickEntry(e: Pending, f: Pending, now: real, nr: U16) {
    || f == e
    || f == Exhausted(e)
    || (Expired(e, now) && f == Refire(e, now, nr))
  }

  lemma FirstEntry(queue: seq<Pending>, now: real, maxRetries: nat, nr: U16)
    requires queue != []
    ensures var t := TickQueue(queue, now, maxRetries, nr);
            t.queue != [] && TickEntry(queue[0], t.queue[0], now, nr)
  {
    hide Refire, Expired, Exhausted;
  }

  lemma EntryUnchanged(e: Pending, now: real, nr: U16)
    ensures TickEntry(e, e, now, nr)
  {
  }

  lemma {:induction false} TickQueueEntries(queue: seq<Pending>, now: real, maxRetries: nat, nr: U16)
    ensures var t := TickQueue(queue, now, maxRetries, nr);
            && |t.queue| == |queue|
            && (forall i :: 0 <= i < |queue| ==> TickEntry(queue[i], t.queue[i], now, nr))
            && (forall b :: b in t.resend ==>
                  exists i :: 0 <= i < |queue| && Expired(queue[i], now) && t.queue[i] == Refire(queue[i], now, nr) && b == t.queue[i].encoded)
            && (t.dead ==> t.resend == [])
  {
    hide Refire, Expired, Exhausted, TickEntry;
    if queue != [] {
      TickQueueEntries(queue[1..], now, maxRetries, nr);
      var t := TickQueue(queue, now, maxRetries, nr);
      var rest := TickQueue(queue[1..], now, maxRetries, nr);
      FirstEntry(queue, now, maxRetries, nr);
      forall i | 0 <= i < |queue| ensures TickEntry(queue[i], t.queue[i], now, nr) {
        if i > 0 {
          assert queue[i] == queue[1..][i - 1];
          EntryUnchanged(queue[i], now, nr);
        }
      }
      forall b | b in t.resend
        ensures exists i :: 0 <= i < |queue| && Expired(queue[i], now) && t.queue[i] == Refire(queue[i], now, nr) && b == t.queue[i].encoded
      {
        if b in rest.resend {
          var j :| 0 <= j < |queue[1..]| && Expired(queue[1..][j], now) && rest.queue[j] == Refire(queue[1..][j], now, nr) && b == rest.queue[j].encoded;
          assert queue[j + 1] == queue[1..][j] && t.queue[j + 1] == rest.queue[j];
        } else {
          assert t.queue[0] == Refire(queue[0], now, nr);
        }
      }
    }
  }

  /** The retry that was one too many is counted. */
  lemma {:induction false} DeathIsCounted(queue: seq<Pending>, now: real, maxRetries: nat, nr: U16)
    requires TickQueue(queue, now, maxRetries, nr).dead
    ensures exists e :: e in TickQueue(queue, now, maxRetries, nr).queue && e.retries > maxRetries
  {
    hide Refire, Expired;
    if Expired(queue[0], now) && queue[0].retries + 1 > maxRetries {
      var t := TickQueue(queue, now, maxRetries, nr);
      assert t.queue[0].retries > maxRetries;
    } else {
      DeathIsCounted(queue[1..], now, maxRetries, nr);
      var e :| e in TickQueue(queue[1..], now, maxRetries, nr).queue && e.retries > maxRetries;
      assert e in TickQueue(queue, now, maxRetries, nr).queue;
    }
  }

  lemma TickKeepsInv(p: PeerState, now: real)
    requires PeerInv(p)
    ensures PeerInv(Tick(p, now).0)
  {
    hide ToWire, TickQueue;
    TickQueueEntries(p.queue, now, p.maxRetries, p.nrExpect);
    forall i | 0 <= i < |p.queue| ensures ToWire(p.queue[i].msg.(nr := p.nrExpect)).Success? {
      RestampedEncodes(p.queue[i].msg, p.nrExpect);
    }
  }

  /** The invariant holds after any calls, whatever arrives. */
  lemma {:induction false} PeerInvAlways(p: PeerState, calls: seq<Call>)
    requires PeerInv(p)
    requires forall i :: 0 <= i < |calls| && calls[i].CallReceive? ==> 0 <= calls[i].msg.ns < SEQ_MODULUS
    ensures PeerInv(ApplyAll(p, calls))
    decreases |calls|
  {
    hide Send, Receive, Tick, PeerInv;
    if calls != [] {
      match calls[0] {
        case CallSend(avps, now) => SendKeepsInv(p, avps, now);
        case CallReceive(m) => ReceiveKeepsInv(p, m);
        case CallTick(now) => TickKeepsInv(p, now);
        case CallSetRemote(ccid) => assert PeerInv(p.(remoteCcid := ccid)) by { RemoteKeepsInv(p, ccid); }
      }
      PeerInvAlways(Apply(p, calls[0]), calls[1..]);
    }
  }

  lemma RemoteKeepsInv(p: PeerState, ccid: int)
    requires PeerInv(p)
    ensures PeerInv(p.(remoteCcid := ccid))
  {
  }

  lemma {:induction false} CountAhead(keys: set<int>, base: int, window: nat)
    requires forall n :: n in keys ==> 0 <= n < SEQ_MODULUS && 1 <= Ahead(n, base) <= window
    ensures |keys| <= window
  {
    if window == 0 {
      assert forall n :: n !in keys;
      assert keys == {};
    } else {
      var last := (base + window) % SEQ_MODULUS;
      forall n | n in keys - {last} ensures Ahead(n, base) <= window - 1 {
        assert (Ahead(n, base) + base) % SEQ_MODULUS == n;
      }
      CountAhead(keys - {last}, base, window - 1);
      assert |keys| <= |keys - {last}| + 1;
    }
  }

  /** The reorder buffer never holds more than a window of messages, and never the one expected next. */
  lemma ReorderBounded(p: PeerState)
    requires PeerInv(p)
    ensures |p.reorder| <= p.receiveWindow && p.nrExpect !in p.reorder
  {
    CountAhead(p.reorder.Keys, p.nrExpect, p.receiveWindow);
    AheadZero(p.nrExpect, p.nrExpect);
  }

  /** b is the encoding, as restamped, of the message at place i of the queue before and after the tick. */
  ghost predicate ResentFrom(p: PeerState, q: PeerState, i: int, b: Bytes) {
    && 0 <= i < |p.queue| == |q.queue|
    && q.queue[i].msg == p.queue[i].msg.(nr := p.nrExpect)
    && q.queue[i].encoded == b
    && FromWire(b) == Success(q.queue[i].msg)
  }

  /**
   Every datagram a tick returns decodes to a message still in the queue, with its original
   Ns, CCID and AVPs and the current Nr.
   */
  lemma RetransmissionIsFaithful(p: PeerState, now: real, b: Bytes)
    requires PeerInv(p) && b in Tick(p, now).1
    ensures exists i :: ResentFrom(p, Tick(p, now).0, i, b)
  {
    hide ToWire, FromWire, TickQueue;
    TickQueueEntries(p.queue, now, p.maxRetries, p.nrExpect);
    var t := TickQueue(p.queue, now, p.maxRetries, p.nrExpect);
    var i :| 0 <= i < |p.queue| && Expired(p.queue[i], now) && t.queue[i] == Refire(p.queue[i], now, p.nrExpect) && b == t.queue[i].encoded;
    var m := p.queue[i].msg.(nr := p.nrExpect);
    RestampedEncodes(p.queue[i].msg, p.nrExpect);
    WireIsCanonical(m, b);
    assert ResentFrom(p, Tick(p, now).0, i, b);
  }

  // ---- what goes out, field by field ------------------------------------------------

  /**
   A send succeeds exactly when there is something to send and it encodes; the message is addressed to the
   remote CCID, numbered with the next Ns and the current Nr, and queued with a fresh timer.
   */
  lemma SendDoes(p: PeerState, avps: seq<Avp>, now: real)
    ensures var m := ControlMessage(p.remoteCcid, p.nsSend, p.nrExpect, avps);
            && (Send(p, avps, now).Success? <==> avps != [] && ToWire(m).Success?)
            && (Send(p, avps, now).Success? ==>
                  var (q, sent) := Send(p, avps, now).value;
                  && sent == m && q == p.(queue := q.queue, nsSend := q.nsSend) && q.nsSend == (p.nsSend + 1) % 0x1_0000
                  && |q.queue| == |p.queue| + 1 && q.queue[..|p.queue|] == p.queue
                  && var e := q.queue[|p.queue|];
                     e.msg == m && ToWire(m) == Success(e.encoded) && e.sentAt == now && e.retries == 0 && e.nextRto == p.retransmitInterval)
  {
    hide ToWire;
  }

  /** Once the remote CCID is set, everything sent and acknowledged is addressed to it. */
  lemma AddressedAsSet(p: PeerState, ccid: int, avps: seq<Avp>, now: real)
    ensures var q := Apply(p, CallSetRemote(ccid));
            AckOnly(q).ccid == ccid && (Send(q, avps, now).Success? ==> Send(q, avps, now).value.1.ccid == ccid)
  {
    hide ToWire;
  }

  /** An acknowledgement is a message without AVPs, addressed and numbered the same way. */
  lemma AckDoes(p: PeerState)
    ensures var z := AckOnly(p);
            z.ccid == p.remoteCcid && z.ns == p.nsSend && z.nr == p.nrExpect && z.avps == []
  {
  }

  /** A message for another CCID changes nothing; one for 0 or our own is heeded: its Nr acknowledges, and it is answered by an acknowledgement of the new state or not at all. */
  lemma ReceiveHeeds(p: PeerState, m: ControlMessage)
    ensures m.ccid != 0 && m.ccid != p.localCcid ==> Receive(p, m) == Received(p, [], [])
    ensures m.ccid == 0 || m.ccid == p.localCcid ==>
              var r := Receive(p, m);
              && r.peer.queue == ConsumeAcks(p.queue, m.nr)
              && r.responses == if m.avps != [] && SeqDelta(m.ns, p.nrExpect) <= 0
                                then [ControlMessage(p.remoteCcid, p.nsSend, r.peer.nrExpect, [])] else []
  {
    hide Drain, ConsumeAcks, SeqDelta;
  }

  /** The messages that the successful sends among the calls returned. */
  function SentBy(p: PeerState, calls: seq<Call>): seq<ControlMessage>
    decreases |calls|
  {
    if calls == [] then []
    else
      (if calls[0].CallSend? then
         match Send(p, calls[0].avps, calls[0].now) case Success((_, m)) => [m] case Failure => []
       else [])
      + SentBy(Apply(p, calls[0]), calls[1..])
  }

  function Queued(queue: seq<Pending>): seq<ControlMessage> { seq(|queue|, i requires 0 <= i < |queue| => queue[i].msg) }

  /** Addressed, numbered and filled alike; only Nr may differ. */
  ghost predicate SameMessage(m: ControlMessage, n: ControlMessage) { m.ccid == n.ccid && m.ns == n.ns && m.avps == n.avps }

  /** The messages are the last ones of the log. */
  ghost predicate LastOf(messages: seq<ControlMessage>, log: seq<ControlMessage>) {
    |messages| <= |log| && forall i :: 0 <= i < |messages| ==> SameMessage(messages[i], log[|log| - |messages| + i])
  }

  lemma LastOfTrans(a: seq<ControlMessage>, b: seq<ControlMessage>, c: seq<ControlMessage>, rest: seq<ControlMessage>)
    requires LastOf(a, b + rest) && LastOf(b, c)
    ensures LastOf(a, c + rest)
  {
    forall i | 0 <= i < |a| ensures SameMessage(a[i], (c + rest)[|c + rest| - |a| + i]) {
      var j := |b + rest| - |a| + i;
      if j < |b| {
        assert SameMessage(a[i], b[j]);
        assert SameMessage(b[j], c[|c| - |b| + j]);
      }
    }
  }

  /** Pointwise the same messages. */
  ghost predicate SameMessages(q: seq<Pending>, r: seq<Pending>) {
    |q| == |r| && forall i :: 0 <= i < |q| ==> SameMessage(q[i].msg, r[i].msg)
  }

  lemma SameAreLast(q: seq<Pending>, r: seq<Pending>)
    requires SameMessages(q, r)
    ensures LastOf(Queued(q), Queued(r) + [])
  {
  }

  lemma TailIsLast(queue: seq<Pending>, k: nat)
    requires k <= |queue|
    ensures LastOf(Queued(queue[k..]), Queued(queue) + [])
  {
  }

  lemma TickedAreSame(queue: seq<Pending>, now: real, maxRetries: nat, nr: U16)
    ensures SameMessages(TickQueue(queue, now, maxRetries, nr).queue, queue)
  {
    hide ToWire, TickQueue;
    TickQueueEntries(queue, now, maxRetries, nr);
  }

  lemma AppendedIsLast(queue: seq<Pending>, e: Pending)
    ensures LastOf(Queued(queue + [e]), Queued(queue) + [e.msg])
  {
    assert Queued(queue + [e]) == Queued(queue) + [e.msg];
  }

  lemma SentBySend(p: PeerState, avps: seq<Avp>, now: real)
    ensures var q := Apply(p, CallSend(avps, now));
            LastOf(Queued(q.queue), Queued(p.queue) + SentBy(p, [CallSend(avps, now)]))
  {
    hide ToWire, Send, Queued, LastOf, SentBy;
    SendDoes(p, avps, now);
    SentByOne(p, CallSend(avps, now));
    if Send(p, avps, now).Success? {
      var q := Send(p, avps, now).value.0;
      AppendedIsLast(p.queue, q.queue[|p.queue|]);
      assert q.queue == p.queue + [q.queue[|p.queue|]];
    } else {
      TailIsLast(p.queue, 0);
      assert p.queue[0..] == p.queue;
    }
  }

  lemma SentByOne(p: PeerState, call: Call)
    ensures SentBy(p, [call]) == if call.CallSend? then match Send(p, call.avps, call.now) case Success((_, m)) => [m] case Failure => []
                                 else []
  {
    hide Send, Apply;
    assert [call][1..] == [];
    assert SentBy(Apply(p, call), [call][1..]) == [];
  }

  lemma CallKeepsMessages(p: PeerState, call: Call)
    ensures LastOf(Queued(Apply(p, call).queue), Queued(p.queue) + SentBy(p, [call]))
  {
    hide LastOf, Send, SentBy, Queued, ConsumeAcks, TickQueue, Drain, SeqDelta;
    SentByOne(p, call);
    match call {
      case CallSend(avps, now) => SentBySend(p, avps, now);
      case CallReceive(m) =>
        var k := ConsumeAcksPopsFront(p.queue, m.nr);
        TailIsLast(p.queue, k);
        TailIsLast(p.queue, 0);
        assert p.queue[0..] == p.queue;
      case CallTick(now) =>
        TickedAreSame(p.queue, now, p.maxRetries, p.nrExpect);
        SameAreLast(Tick(p, now).0.queue, p.queue);
      case CallSetRemote(ccid) =>
        TailIsLast(p.queue, 0);
        assert p.queue[0..] == p.queue;
    }
  }

  lemma SentByFirst(p: PeerState, calls: seq<Call>)
    requires calls != []
    ensures SentBy(p, calls) == SentBy(p, [calls[0]]) + SentBy(Apply(p, calls[0]), calls[1..])
  {
    hide Send, Apply;
    assert [calls[0]][1..] == [];
    assert SentBy(Apply(p, calls[0]), []) == [];
  }

  /** After any calls the queue holds the last messages sent, each with the CCID, Ns and AVPs of its first send. */
  lemma {:induction false} QueueIsSentTail(p: PeerState, calls: seq<Call>)
    ensures LastOf(Queued(ApplyAll(p, calls).queue), Queued(p.queue) + SentBy(p, calls))
    decreases |calls|
  {
    hide Apply, SentBy, LastOf;
    if calls == [] {
      NothingSent(p);
      LastOfSelf(Queued(p.queue));
    } else {
      var next := Apply(p, calls[0]);
      CallKeepsMessages(p, calls[0]);
      QueueIsSentTail(next, calls[1..]);
      SentByFirst(p, calls);
      LastOfTrans(Queued(ApplyAll(p, calls).queue), Queued(next.queue), Queued(p.queue) + SentBy(p, [calls[0]]), SentBy(next, calls[1..]));
      assert Queued(p.queue) + SentBy(p, [calls[0]]) + SentBy(next, calls[1..]) == Queued(p.queue) + SentBy(p, calls);
    }
  }

  lemma NothingSent(p: PeerState)
    ensures SentBy(p, []) == []
  {
    hide Send, Apply;
  }

  lemma LastOfSelf(messages: seq<ControlMessage>)
    ensures LastOf(messages, messages + [])
  {
  }

  /** So whatever is resent, however often and late, decodes to a message once sent, with its CCID, Ns and AVPs, and the current Nr. */
  lemma ResentAsFirstSent(p: PeerState, calls: seq<Call>, now: real, b: Bytes)
    requires PeerInv(p) && p.queue == []
    requires forall i :: 0 <= i < |calls| && calls[i].CallReceive? ==> 0 <= calls[i].msg.ns < SEQ_MODULUS
    requires b in Tick(ApplyAll(p, calls), now).1
    ensures FromWire(b).Success? && FromWire(b).value.nr == ApplyAll(p, calls).nrExpect
    ensures exists k :: 0 <= k < |SentBy(p, calls)| && SameMessage(FromWire(b).value, SentBy(p, calls)[k])
  {
    hide PeerInv, Tick, FromWire, SentBy;
    PeerInvAlways(p, calls);
    QueueIsSentTail(p, calls);
    var q := ApplyAll(p, calls);
    RetransmissionIsFaithful(q, now, b);
    var i :| ResentFrom(q, Tick(q, now).0, i, b);
    var log := SentBy(p, calls);
    assert Queued(p.queue) + log == log;
    assert SameMessage(Queued(q.queue)[i], log[|log| - |q.queue| + i]);
  }
}
