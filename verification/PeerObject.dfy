/**
 The Peer as the daemon runs it: counters, send queue and reorder buffer updated in place.
 Each method is proved against its counterpart in module Transport. The message that Send
 returns is the object that stays in the queue, and Tick rewrites its Nr.
 */
module PeerObject {
  import opened Prelude
  import opened AvpCodec
  import opened MessageCodec
  import T = Transport

  class MessageObject {
    const ccid: int
    const ns: int
    const avps: seq<Avp>
    var nr: int

    function Value(): ControlMessage
      reads this
    {
      ControlMessage(ccid, ns, nr, avps)
    }

    constructor (m: ControlMessage)
      ensures Value() == m
    {
      ccid, ns, nr, avps := m.ccid, m.ns, m.nr, m.avps;
    }
  }

  class PendingSend {
    const msg: MessageObject
    var encoded: Bytes
    var sentAt: real
    var retries: nat
    var nextRto: real

    function Value(): T.Pending
      reads this, msg
    {
      T.Pending(msg.Value(), encoded, sentAt, retries, nextRto)
    }

    constructor (msg: MessageObject, encoded: Bytes, sentAt: real, nextRto: real)
      ensures this.msg == msg && Value() == T.Pending(msg.Value(), encoded, sentAt, 0, nextRto)
    {
      this.msg, this.encoded, this.sentAt, this.retries, this.nextRto := msg, encoded, sentAt, 0, nextRto;
    }

    /** One more retry: double the timer up to the cap, restamp the shared message and encode it again. */
    method Retransmit(now: real, nr: U16)
      modifies this, msg
      ensures Value() == T.Refire(old(Value()), now, nr)
    {
      hide ToWire;
      retries := retries + 1;
      nextRto := T.Min(nextRto * 2.0, T.RETRANSMIT_MAX_INTERVAL);
      sentAt := now;
      msg.nr := nr;
      encoded := T.Encoding(msg.Value());
    }
  }

  ghost function Messages(entries: seq<PendingSend>): set<MessageObject> { set e | e in entries :: e.msg }

  ghost function Values(entries: seq<PendingSend>): (q: seq<T.Pending>)
    reads entries, Messages(entries)
    ensures |q| == |entries|
    ensures forall i :: 0 <= i < |q| ==> q[i] == entries[i].Value()
  {
    seq(|entries|, i requires 0 <= i < |entries| reads entries, Messages(entries) => entries[i].Value())
  }

  class Peer {
    const localCcid: int
    const receiveWindow: nat
    const retransmitInterval: real
    const maxRetries: nat
    var remoteCcid: int
    var nsSend: U16
    var nrExpect: U16
    var sendQueue: seq<PendingSend>
    var reorder: map<int, ControlMessage>
    var dead: bool

    /** The queue entries are different objects with different messages. */
    ghost predicate Valid()
      reads this`sendQueue
    {
      forall i, j :: 0 <= i < j < |sendQueue| ==> sendQueue[i] != sendQueue[j] && sendQueue[i].msg != sendQueue[j].msg
    }

    ghost function State(): T.PeerState
      reads this, sendQueue, Messages(sendQueue)
    {
      T.PeerState(localCcid, remoteCcid, receiveWindow, retransmitInterval, maxRetries, nsSend, nrExpect, Values(sendQueue), reorder, dead)
    }

    constructor (localCcid: int, remoteCcid: int, receiveWindow: nat, retransmitInterval: real, maxRetries: nat)
      ensures Valid() && State() == T.Fresh(localCcid, remoteCcid, receiveWindow, retransmitInterval, maxRetries)
    {
      this.localCcid, this.remoteCcid := localCcid, remoteCcid;
      this.receiveWindow, this.retransmitInterval, this.maxRetries := receiveWindow, retransmitInterval, maxRetries;
      nsSend, nrExpect, sendQueue, reorder, dead := 0, 0, [], map[], false;
    }

    method SetRemoteCcid(ccid: int)
      requires Valid()
      modifies this`remoteCcid
      ensures Valid() && State() == old(State()).(remoteCcid := ccid)
    {
      remoteCcid := ccid;
    }

    method Send(avps: seq<Avp>, now: real) returns (r: Result<MessageObject>)
      requires Valid()
      modifies this`sendQueue, this`nsSend
      ensures Valid()
      ensures match T.Send(old(State()), avps, now)
              case Failure => r.Failure? && State() == old(State())
              case Success((p, m)) =>
                && State() == p && r.Success? && r.value.Value() == m
                && fresh(r.value) && sendQueue != [] && sendQueue[|sendQueue| - 1].msg == r.value
    {
      if avps == [] {
        return Failure;
      }
      var msg := new MessageObject(ControlMessage(remoteCcid, nsSend, nrExpect, avps));
      var encoded := ToWire(msg.Value());
      if encoded.Failure? {
        return Failure;
      }
      var pending := new PendingSend(msg, encoded.value, now, retransmitInterval);
      ghost var before := Values(sendQueue);
      sendQueue := sendQueue + [pending];
      nsSend := SeqAdvance(nsSend);
      assert Values(sendQueue) == before + [pending.Value()];
      r := Success(msg);
    }

    method AckOnly() returns (m: ControlMessage)
      ensures m == T.AckOnly(State())
    {
      m := ControlMessage(remoteCcid, nsSend, nrExpect, []);
    }

    method ConsumeAcks(peerNr: int)
      requires Valid()
      modifies this`sendQueue
      ensures Valid() && Values(sendQueue) == T.ConsumeAcks(old(Values(sendQueue)), peerNr)
      ensures Messages(sendQueue) <= old(Messages(sendQueue)) && (forall e :: e in sendQueue ==> e in old(sendQueue))
    {
      while sendQueue != []
        invariant Valid() && T.ConsumeAcks(Values(sendQueue), peerNr) == T.ConsumeAcks(old(Values(sendQueue)), peerNr)
        invariant Messages(sendQueue) <= old(Messages(sendQueue)) && (forall e :: e in sendQueue ==> e in old(sendQueue))
        decreases |sendQueue|
      {
        ghost var before := Values(sendQueue);
        if SeqDelta(peerNr, sendQueue[0].msg.ns) > 0 {
          sendQueue := sendQueue[1..];
          assert Values(sendQueue) == before[1..];
        } else {
          break;
        }
      }
    }

    /** The drain loop of receive: appends to `delivered` what is next in line. */
    method DrainReorder(before: seq<Avp>) returns (delivered: seq<Avp>)
      modifies this`nrExpect, this`reorder
      ensures var d := T.Drain(old(nrExpect), old(reorder));
              delivered == before + d.delivered && nrExpect == d.nr && reorder == d.reorder
    {
      delivered := before;
      ghost var whole := T.Drain(nrExpect, reorder);
      while nrExpect in reorder
        invariant var rest := T.Drain(nrExpect, reorder);
                  whole.nr == rest.nr && whole.reorder == rest.reorder
                  && before + whole.delivered == delivered + rest.delivered
        decreases |reorder|
      {
        var queued := reorder[nrExpect];
        var left := reorder - {nrExpect};
        assert left.Keys == reorder.Keys - {nrExpect};
        ghost var rest := T.Drain(SeqAdvance(nrExpect), left);
        assert delivered + (queued.avps + rest.delivered) == delivered + queued.avps + rest.delivered;
        reorder := left;
        delivered := delivered + queued.avps;
        nrExpect := SeqAdvance(nrExpect);
      }
    }

    method Receive(m: ControlMessage) returns (delivered: seq<Avp>, responses: seq<ControlMessage>)
      requires Valid()
      modifies this`sendQueue, this`nrExpect, this`reorder
      ensures Valid()
      ensures T.Received(State(), delivered, responses) == T.Receive(old(State()), m)
    {
      hide T.Drain, T.ConsumeAcks, SeqDelta, SeqAdvance;
      delivered, responses := [], [];
      if m.ccid != 0 && m.ccid != localCcid {
        return;
      }
      ConsumeAcks(m.nr);
      ghost var queue := Values(sendQueue);
      var delta := SeqDelta(m.ns, nrExpect);
      if m.IsZlb() {
        return;
      }
      if delta == 0 {
        nrExpect := SeqAdvance(nrExpect);
        delivered := DrainReorder(m.avps);
        assert Values(sendQueue) == queue;
        var ack := AckOnly();
        responses := [ack];
      } else if delta < 0 {
        var ack := AckOnly();
        responses := [ack];
      } else if delta <= receiveWindow {
        reorder := reorder[m.ns := m];
        assert Values(sendQueue) == queue;
      }
    }

    /** A ticked queue whose first entries have been dealt with. */
    static ghost function Joined(done: seq<T.Pending>, resent: seq<Bytes>, rest: T.Ticked): T.Ticked {
      T.Ticked(done + rest.queue, if rest.dead then [] else resent + rest.resend, rest.dead)
    }

    static lemma JoinedNothing(t: T.Ticked)
      requires t.dead ==> t.resend == []
      ensures Joined([], [], t) == t
    {
      assert [] + t.queue == t.queue && [] + t.resend == t.resend;
    }

    static lemma JoinedSkip(done: seq<T.Pending>, resent: seq<Bytes>, q: seq<T.Pending>, i: nat, now: real, maxRetries: nat, nr: U16)
      requires i < |q| && !T.Expired(q[i], now)
      ensures Joined(done, resent, T.TickQueue(q[i..], now, maxRetries, nr))
              == Joined(done + [q[i]], resent, T.TickQueue(q[i + 1..], now, maxRetries, nr))
    {
      hide T.Expired;
      var rest := T.TickQueue(q[i + 1..], now, maxRetries, nr);
      assert q[i..][1..] == q[i + 1..];
      assert done + ([q[i]] + rest.queue) == done + [q[i]] + rest.queue;
    }

    static lemma JoinedFire(done: seq<T.Pending>, resent: seq<Bytes>, q: seq<T.Pending>, i: nat, now: real, maxRetries: nat, nr: U16)
      requires i < |q| && T.Expired(q[i], now) && q[i].retries + 1 <= maxRetries
      ensures var f := T.Refire(q[i], now, nr);
              Joined(done, resent, T.TickQueue(q[i..], now, maxRetries, nr))
              == Joined(done + [f], resent + [f.encoded], T.TickQueue(q[i + 1..], now, maxRetries, nr))
    {
      hide T.Expired, T.Refire;
      var f := T.Refire(q[i], now, nr);
      var rest := T.TickQueue(q[i + 1..], now, maxRetries, nr);
      assert q[i..][1..] == q[i + 1..];
      assert done + ([f] + rest.queue) == done + [f] + rest.queue;
      assert resent + ([f.encoded] + rest.resend) == resent + [f.encoded] + rest.resend;
    }

    static lemma JoinedDead(done: seq<T.Pending>, resent: seq<Bytes>, q: seq<T.Pending>, i: nat, now: real, maxRetries: nat, nr: U16)
      requires i < |q| && T.Expired(q[i], now) && q[i].retries + 1 > maxRetries
      ensures Joined(done, resent, T.TickQueue(q[i..], now, maxRetries, nr))
              == T.Ticked(done + [T.Exhausted(q[i])] + q[i + 1..], [], true)
    {
      hide T.Expired, T.Refire;
      assert q[i..][1..] == q[i + 1..];
      var f := T.Exhausted(q[i]);
      assert done + ([f] + q[i + 1..]) == done + [f] + q[i + 1..];
    }

    static lemma JoinedEnd(done: seq<T.Pending>, resent: seq<Bytes>, q: seq<T.Pending>, now: real, maxRetries: nat, nr: U16)
      ensures Joined(done, resent, T.TickQueue(q[|q|..], now, maxRetries, nr)) == T.Ticked(done, resent, false)
    {
      assert q[|q|..] == [] && done + [] == done && resent + [] == resent;
    }

    static lemma NextEntry(done: seq<T.Pending>, q: seq<T.Pending>, i: nat)
      requires |done| == i < |q|
      ensures done + q[i..] == done + [q[i]] + q[i + 1..]
    {
    }

    /** Entry i has timed out: count the retry, and either that was one too many or send it again. */
    method Fire(i: nat, now: real, ghost done: seq<T.Pending>, ghost e: T.Pending, ghost rest: seq<T.Pending>)
      returns (resent: Option<Bytes>)
      requires Valid() && !dead && i == |done| < |sendQueue| && Values(sendQueue) == done + [e] + rest
      modifies this`dead, sendQueue[i], sendQueue[i].msg
      ensures dead <==> e.retries + 1 > maxRetries
      ensures dead ==> resent == None && Values(sendQueue) == done + [T.Exhausted(e)] + rest
      ensures !dead ==> resent == Some(T.Refire(e, now, nrExpect).encoded)
                        && Values(sendQueue) == done + [T.Refire(e, now, nrExpect)] + rest
    {
      hide T.Refire;
      var pending := sendQueue[i];
      assert pending.Value() == Values(sendQueue)[i] == e;
      ghost var before := Values(sendQueue);
      if pending.retries + 1 > maxRetries {
        dead := true;
        pending.retries := pending.retries + 1;
        resent := None;
      } else {
        pending.Retransmit(now, nrExpect);
        resent := Some(pending.encoded);
      }
      assert forall j :: 0 <= j < |sendQueue| && j != i ==> sendQueue[j].Value() == before[j];
      assert Values(sendQueue) == before[i := pending.Value()];
    }

    method Tick(now: real) returns (resend: seq<Bytes>, isDead: bool)
      requires Valid()
      modifies this`dead, sendQueue, Messages(sendQueue)
      ensures Valid() && sendQueue == old(sendQueue)
      ensures State() == T.Tick(old(State()), now).0
      ensures resend == T.Tick(old(State()), now).1 && isDead == T.Tick(old(State()), now).2
    {
      hide Values, Valid, T.TickQueue, Joined, ToWire, T.Refire, T.Exhausted;
      if dead {
        return [], true;
      }
      resend := [];
      ghost var q0 := Values(sendQueue);
      ghost var done: seq<T.Pending> := [];
      assert q0[0..] == q0 && done + q0 == q0;
      T.TickQueueEntries(q0, now, maxRetries, nrExpect);
      JoinedNothing(T.TickQueue(q0, now, maxRetries, nrExpect));
      var i := 0;
      while i < |sendQueue|
        invariant 0 <= i == |done| <= |sendQueue| == |q0| && !dead
        invariant Values(sendQueue) == done + q0[i..]
        invariant T.TickQueue(q0, now, maxRetries, nrExpect)
                  == Joined(done, resend, T.TickQueue(q0[i..], now, maxRetries, nrExpect))
      {
        NextEntry(done, q0, i);
        assert sendQueue[i].Value() == Values(sendQueue)[i] == q0[i];
        if now - sendQueue[i].sentAt < sendQueue[i].nextRto {
          JoinedSkip(done, resend, q0, i, now, maxRetries, nrExpect);
          done := done + [q0[i]];
        } else {
          var resent := Fire(i, now, done, q0[i], q0[i + 1..]);
          if dead {
            JoinedDead(done, resend, q0, i, now, maxRetries, nrExpect);
            return [], true;
          }
          JoinedFire(done, resend, q0, i, now, maxRetries, nrExpect);
          done := done + [T.Refire(q0[i], now, nrExpect)];
          resend := resend + [resent.value];
        }
        i := i + 1;
      }
      JoinedEnd(done, resend, q0, now, maxRetries, nrExpect);
      assert done + q0[i..] == done;
      isDead := false;
    }
  }
}
