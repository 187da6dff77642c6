/**
 When a silent peer is declared dead. A Peer is driven by sends, received messages and ticks
 on a clock that never runs backwards, with ticks at most `gap` apart; each queued message
 remembers when it was first sent.
 */
module Timing {
  import opened Prelude
  import opened AvpCodec
  import opened MessageCodec
  import opened Transport

  /** min(r * 2^k, 16): the timer before retransmission k + 1. */
  function Rto(r: real, k: nat): real {
    if k == 0 then r else Min(Rto(r, k - 1) * 2.0, RETRANSMIT_MAX_INTERVAL)
  }

  /** The sum of the first n timers. */
  function Wait(r: real, n: nat): real {
    if n == 0 then 0.0 else Wait(r, n - 1) + Rto(r, n - 1)
  }

  /** r * 2^k */
  function Doubled(r: real, k: nat): real { if k == 0 then r else 2.0 * Doubled(r, k - 1) }

  lemma {:induction false} RtoClosedForm(r: real, k: nat)
    requires 0.0 < r <= RETRANSMIT_MAX_INTERVAL
    ensures 0.0 < Rto(r, k) && Rto(r, k) == Min(Doubled(r, k), RETRANSMIT_MAX_INTERVAL)
  {
    if k > 0 {
      RtoClosedForm(r, k - 1);
    }
  }

  /** One tick gap for each of n retransmissions: a timer is noticed at most that late. */
  function Slack(n: nat, gap: real): real { n as real * gap }

  lemma SlackGrows(m: nat, n: nat, gap: real)
    requires m <= n && gap >= 0.0
    ensures Slack(m, gap) <= Slack(n, gap)
    ensures n == m + 1 ==> Slack(n, gap) == Slack(m, gap) + gap
    ensures Slack(0, gap) == 0.0
  {
    var more := (n - m) as real;
    assert more * gap >= 0.0;
    assert n as real == m as real + more;
    assert n as real * gap == m as real * gap + more * gap;
  }

  datatype Timed = Timed(peer: PeerState, born: seq<real>, lastTick: real, time: real)

  datatype TimedEvent =
    | Sends(avps: seq<Avp>, now: real)
    | Hears(msg: ControlMessage)
    | Ticks(now: real)

  function TimedStep(t: Timed, e: TimedEvent): Timed {
    match e
    case Sends(avps, now) =>
      (match Send(t.peer, avps, now)
       case Failure => t.(time := now)
       case Success((p, _)) => t.(peer := p, born := t.born + [now], time := now))
    case Hears(m) =>
      var p := Receive(t.peer, m).peer;
      t.(peer := p, born := if |p.queue| <= |t.born| then t.born[|t.born| - |p.queue|..] else [])
    case Ticks(now) => Timed(Tick(t.peer, now).0, t.born, now, now)
  }

  ghost predicate OnTime(t: Timed, e: TimedEvent, gap: real) {
    match e
    case Sends(_, now) => t.time <= now
    case Hears(_) => true
    case Ticks(now) => t.time <= now <= t.lastTick + gap
  }

  function TimedRun(t: Timed, events: seq<TimedEvent>): Timed
    decreases |events|
  {
    if events == [] then t else TimedRun(TimedStep(t, events[0]), events[1..])
  }

  ghost predicate AllOnTime(t: Timed, events: seq<TimedEvent>, gap: real)
    decreases |events|
  {
    events == [] || (OnTime(t, events[0], gap) && AllOnTime(TimedStep(t, events[0]), events[1..], gap))
  }

  /** A message first sent at b, so far: its timer, its retries, and when it was last sent. */
  ghost predicate OnSchedule(e: Pending, b: real, t: Timed, gap: real) {
    var r := t.peer.retransmitInterval;
    && e.retries <= t.peer.maxRetries
    && e.nextRto == Rto(r, e.retries)
    && b + Wait(r, e.retries) <= e.sentAt <= b + Wait(r, e.retries) + Slack(e.retries, gap)
    && e.sentAt <= t.time
    && t.lastTick < e.sentAt + e.nextRto
  }

  ghost predicate Scheduled(t: Timed, gap: real) {
    && |t.born| == |t.peer.queue|
    && 0.0 < t.peer.retransmitInterval <= RETRANSMIT_MAX_INTERVAL && gap >= 0.0 && t.lastTick <= t.time
    && (!t.peer.dead ==> forall i :: 0 <= i < |t.born| ==> OnSchedule(t.peer.queue[i], t.born[i], t, gap))
  }

  lemma {:induction false} TickQueueExactly(queue: seq<Pending>, now: real, maxRetries: nat, nr: U16)
    ensures var t := TickQueue(queue, now, maxRetries, nr);
            && |t.queue| == |queue|
            && (t.dead <==> exists i :: 0 <= i < |queue| && Expired(queue[i], now) && queue[i].retries + 1 > maxRetries)
            && (!t.dead ==> forall i :: 0 <= i < |queue| ==>
                              t.queue[i] == if Expired(queue[i], now) then Refire(queue[i], now, nr) else queue[i])
  {
    hide Refire, Expired;
    if queue != [] {
      TickQueueExactly(queue[1..], now, maxRetries, nr);
      var rest := TickQueue(queue[1..], now, maxRetries, nr);
      if rest.dead {
        var j :| 0 <= j < |queue[1..]| && Expired(queue[1..][j], now) && queue[1..][j].retries + 1 > maxRetries;
        assert queue[j + 1] == queue[1..][j];
      }
      assert forall i :: 1 <= i < |queue| ==> queue[i] == queue[1..][i - 1];
    }
  }

  lemma RefiresOnSchedule(e: Pending, b: real, t: Timed, t': Timed, gap: real, now: real, nr: U16)
    requires OnSchedule(e, b, t, gap) && Expired(e, now) && t.time <= now <= t.lastTick + gap
    requires 0.0 < t.peer.retransmitInterval <= RETRANSMIT_MAX_INTERVAL && e.retries + 1 <= t.peer.maxRetries
    requires t'.peer.retransmitInterval == t.peer.retransmitInterval && t'.peer.maxRetries == t.peer.maxRetries
    requires t'.time == t'.lastTick == now
    ensures OnSchedule(Refire(e, now, nr), b, t', gap)
  {
    hide Slack;
    var r := t.peer.retransmitInterval;
    RtoClosedForm(r, e.retries + 1);
    SlackGrows(e.retries, e.retries + 1, gap);
    assert Wait(r, e.retries + 1) == Wait(r, e.retries) + Rto(r, e.retries);
  }

  lemma TickKeepsSchedule(t: Timed, now: real, gap: real)
    requires Scheduled(t, gap) && OnTime(t, Ticks(now), gap)
    ensures Scheduled(TimedStep(t, Ticks(now)), gap)
  {
    hide OnSchedule, TickQueue, Expired, Refire;
    var t' := TimedStep(t, Ticks(now));
    TickQueueExactly(t.peer.queue, now, t.peer.maxRetries, t.peer.nrExpect);
    if !t'.peer.dead {
      forall i | 0 <= i < |t.born| ensures OnSchedule(t'.peer.queue[i], t.born[i], t', gap) {
        var e := t.peer.queue[i];
        if Expired(e, now) {
          RefiresOnSchedule(e, t.born[i], t, t', gap, now, t.peer.nrExpect);
        } else {
          StaysOnSchedule(e, t.born[i], t, t', gap);
        }
      }
    }
  }

  lemma StaysOnSchedule(e: Pending, b: real, t: Timed, t': Timed, gap: real)
    requires OnSchedule(e, b, t, gap) && t.time <= t'.time
    requires t'.lastTick == t.lastTick || !Expired(e, t'.lastTick)
    requires t'.peer.retransmitInterval == t.peer.retransmitInterval && t'.peer.maxRetries == t.peer.maxRetries
    ensures OnSchedule(e, b, t', gap)
  {
    hide Slack;
  }

  lemma SendKeepsSchedule(t: Timed, avps: seq<Avp>, now: real, gap: real)
    requires Scheduled(t, gap) && t.time <= now
    ensures Scheduled(TimedStep(t, Sends(avps, now)), gap)
  {
    hide OnSchedule, ToWire;
    var t' := TimedStep(t, Sends(avps, now));
    if !t'.peer.dead {
      forall i | 0 <= i < |t'.born| ensures OnSchedule(t'.peer.queue[i], t'.born[i], t', gap) {
        if i < |t.born| {
          StaysOnSchedule(t.peer.queue[i], t.born[i], t, t', gap);
        } else {
          FirstSendOnSchedule(t'.peer.queue[i], t', gap);
        }
      }
    }
  }

  lemma FirstSendOnSchedule(e: Pending, t: Timed, gap: real)
    requires e.retries == 0 && e.nextRto == t.peer.retransmitInterval && t.lastTick <= e.sentAt == t.time
    requires 0.0 < t.peer.retransmitInterval && gap >= 0.0
    ensures OnSchedule(e, t.time, t, gap)
  {
    hide Slack;
    SlackGrows(0, 0, gap);
  }

  lemma HearKeepsSchedule(t: Timed, m: ControlMessage, gap: real)
    requires Scheduled(t, gap)
    ensures Scheduled(TimedStep(t, Hears(m)), gap)
  {
    hide OnSchedule, Drain, ConsumeAcks;
    var t' := TimedStep(t, Hears(m));
    var k := ConsumeAcksPopsFront(t.peer.queue, m.nr);
    var shift := |t.born| - |t'.born|;
    assert t'.peer.queue == t.peer.queue[shift..];
    if !t'.peer.dead {
      forall i | 0 <= i < |t'.born| ensures OnSchedule(t'.peer.queue[i], t'.born[i], t', gap) {
        StaysOnSchedule(t.peer.queue[shift + i], t.born[shift + i], t, t', gap);
      }
    }
  }

  lemma {:induction false} RunKeepsSchedule(t: Timed, events: seq<TimedEvent>, gap: real)
    requires Scheduled(t, gap) && AllOnTime(t, events, gap)
    ensures Scheduled(TimedRun(t, events), gap)
    decreases |events|
  {
    hide Scheduled, TimedStep;
    if events != [] {
      match events[0] {
        case Sends(avps, now) => SendKeepsSchedule(t, avps, now, gap);
        case Hears(m) => HearKeepsSchedule(t, m, gap);
        case Ticks(now) => TickKeepsSchedule(t, now, gap);
      }
      RunKeepsSchedule(TimedStep(t, events[0]), events[1..], gap);
    }
  }

  /** The full schedule of timers of one message: the sum of min(r * 2^k, 16) for k up to max_retries. */
  function Budget(p: PeerState): real { Wait(p.retransmitInterval, p.maxRetries + 1) }

  ghost predicate FreshAt(t: Timed, gap: real) {
    && t.peer.queue == [] && t.born == [] && !t.peer.dead && t.lastTick <= t.time && gap >= 0.0
    && 0.0 < t.peer.retransmitInterval <= RETRANSMIT_MAX_INTERVAL
  }

  /** Until the peer is dead, no message is over its retries, and its timer is min(r * 2^retries, 16). */
  lemma RetriesAndTimers(t0: Timed, events: seq<TimedEvent>, gap: real, i: nat)
    requires FreshAt(t0, gap) && AllOnTime(t0, events, gap)
    requires var t := TimedRun(t0, events); !t.peer.dead && i < |t.peer.queue|
    ensures var t := TimedRun(t0, events);
            var e := t.peer.queue[i];
            e.retries <= t.peer.maxRetries
            && e.nextRto == Min(Doubled(t.peer.retransmitInterval, e.retries), 16.0)
  {
    hide TimedStep;
    RunKeepsSchedule(t0, events, gap);
    var t := TimedRun(t0, events);
    RtoClosedForm(t.peer.retransmitInterval, t.peer.queue[i].retries);
    assert OnSchedule(t.peer.queue[i], t.born[i], t, gap);
  }

  /** A peer is never declared dead before some unacknowledged message has waited for its whole budget. */
  lemma DeadNotTooEarly(t0: Timed, events: seq<TimedEvent>, gap: real, now: real)
    requires FreshAt(t0, gap) && AllOnTime(t0, events, gap)
    requires var t := TimedRun(t0, events); !t.peer.dead && OnTime(t, Ticks(now), gap) && Tick(t.peer, now).2
    ensures var t := TimedRun(t0, events);
            |t.born| == |t.peer.queue| && exists i :: 0 <= i < |t.born| && now >= t.born[i] + Budget(t.peer)
  {
    hide TimedStep, TickQueue, Expired;
    RunKeepsSchedule(t0, events, gap);
    var t := TimedRun(t0, events);
    TickQueueExactly(t.peer.queue, now, t.peer.maxRetries, t.peer.nrExpect);
    var i :| 0 <= i < |t.peer.queue| && Expired(t.peer.queue[i], now) && t.peer.queue[i].retries + 1 > t.peer.maxRetries;
    LastTimerRunsOut(t, i, gap, now);
  }

  lemma LastTimerRunsOut(t: Timed, i: nat, gap: real, now: real)
    requires i < |t.born| == |t.peer.queue| && OnSchedule(t.peer.queue[i], t.born[i], t, gap)
    requires Expired(t.peer.queue[i], now) && t.peer.queue[i].retries + 1 > t.peer.maxRetries
    ensures now >= t.born[i] + Budget(t.peer)
  {
    assert t.peer.queue[i].retries == t.peer.maxRetries;
  }

  /**
   While the peer is alive, no unacknowledged message is older, at the last tick, than its
   budget and one tick gap for each retry. So with ticks at most gap apart it is
   dead at the latest max_retries + 1 gaps after the budget.
   */
  lemma DeadNotTooLate(t0: Timed, events: seq<TimedEvent>, gap: real, i: nat)
    requires FreshAt(t0, gap) && AllOnTime(t0, events, gap)
    requires var t := TimedRun(t0, events); i < |t.born|
    ensures var t := TimedRun(t0, events);
            !t.peer.dead ==> t.lastTick < t.born[i] + Budget(t.peer) + Slack(t.peer.maxRetries, gap)
    ensures var t := TimedRun(t0, events);
            forall now :: OnTime(t, Ticks(now), gap) && now >= t.born[i] + Budget(t.peer) + Slack(t.peer.maxRetries, gap)
                          ==> Tick(t.peer, now).2
  {
    hide TimedStep, Tick;
    RunKeepsSchedule(t0, events, gap);
    var t := TimedRun(t0, events);
    if !t.peer.dead {
      YoungAtLastTick(t, i, gap);
    }
    forall now | OnTime(t, Ticks(now), gap) && now >= t.born[i] + Budget(t.peer) + Slack(t.peer.maxRetries, gap)
      ensures Tick(t.peer, now).2
    {
      TickKeepsSchedule(t, now, gap);
      OutlivedMeansDead(t, i, gap, now);
    }
  }

  lemma {:induction false} WaitGrows(r: real, m: nat, n: nat)
    requires 0.0 < r <= RETRANSMIT_MAX_INTERVAL && m <= n
    ensures Wait(r, m) <= Wait(r, n)
    decreases n
  {
    if m < n {
      RtoClosedForm(r, n - 1);
      WaitGrows(r, m, n - 1);
    }
  }

  lemma YoungAtLastTick(t: Timed, i: nat, gap: real)
    requires Scheduled(t, gap) && !t.peer.dead && i < |t.born|
    ensures t.lastTick < t.born[i] + Budget(t.peer) + Slack(t.peer.maxRetries, gap)
  {
    var e := t.peer.queue[i];
    assert OnSchedule(e, t.born[i], t, gap);
    YoungEntry(e, t.born[i], t, gap);
  }

  lemma YoungEntry(e: Pending, b: real, t: Timed, gap: real)
    requires OnSchedule(e, b, t, gap) && 0.0 < t.peer.retransmitInterval <= RETRANSMIT_MAX_INTERVAL && gap >= 0.0
    ensures t.lastTick < b + Budget(t.peer) + Slack(t.peer.maxRetries, gap)
  {
    hide Slack;
    var r := t.peer.retransmitInterval;
    WaitGrows(r, e.retries + 1, t.peer.maxRetries + 1);
    SlackGrows(e.retries, t.peer.maxRetries, gap);
    assert Wait(r, e.retries + 1) == Wait(r, e.retries) + Rto(r, e.retries);
  }

  lemma OutlivedMeansDead(t: Timed, i: nat, gap: real, now: real)
    requires Scheduled(t, gap) && i < |t.born| && Scheduled(TimedStep(t, Ticks(now)), gap)
    requires now >= t.born[i] + Budget(t.peer) + Slack(t.peer.maxRetries, gap)
    ensures Tick(t.peer, now).2
  {
    hide TickQueue, OnSchedule, Wait;
    if !Tick(t.peer, now).2 {
      YoungAtLastTick(TimedStep(t, Ticks(now)), i, gap);
    }
  }
}
