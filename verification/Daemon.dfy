/**
 All tunnels of one daemon over the one dataplane they share: datagrams are routed by the
 CCID in their header, a tunnel whose peer is dead is removed, and an exception ends both loops.
 */
module Daemon {
  import opened Prelude
  import opened AvpCodec
  import opened MessageCodec
  import opened Runtime
  import opened Safety
  import Exceptions
  import Speech
  import T = TunnelFsm
  import S = SessionFsm
  import D = Dataplane
  import P = Transport

  /**
   A tunnel's own record of the tables counts for nothing; `tables` is what the kernel holds.
   `running` until an exception ends the receive and tick loops.
   */
  datatype State = State(tables: Option<D.Tables>, tunnels: map<U32, Rt>, running: bool)

  function View(d: State, ccid: U32): Rt
    requires ccid in d.tunnels
  {
    d.tunnels[ccid].(dataplane := d.tables)
  }

  datatype Event =
    | Happens(ccid: U32, event: Runtime.Event)
    | Arrives(buf: Bytes)
    | Ticks(ccid: U32)

  function StepAt(d: State, ccid: U32, e: Runtime.Event, now: real): State {
    if ccid !in d.tunnels then d
    else
      var o := Next(View(d, ccid), e, now);
      State(o.rt.dataplane, d.tunnels[ccid := o.rt], d.running && !o.raised)
  }

  function DispatchDatagram(d: State, buf: Bytes, now: real): State {
    if |buf| < HEADER_LEN then d
    else
      WordSizes();
      PackUnpack(buf[4..8]);
      StepAt(d, Unpack(buf[4..8]), Datagram(buf), now)
  }

  function TickOne(d: State, ccid: U32, now: real): State {
    if ccid !in d.tunnels then d
    else
      var next := StepAt(d, ccid, Tick, now);
      if next.running && P.Tick(d.tunnels[ccid].peer, now).2 then next.(tunnels := next.tunnels - {ccid}) else next
  }

  function Step(d: State, e: Event, now: real): State {
    match e
    case Happens(ccid, event) => StepAt(d, ccid, event, now)
    case Arrives(buf) => if d.running then DispatchDatagram(d, buf, now) else d
    case Ticks(ccid) => if d.running then TickOne(d, ccid, now) else d
  }

  /**
   Nothing but the tunnels touches the tables, timers fire only while they are pending, and
   datagrams and ticks come through the loops.
   */
  ghost predicate Sensible(d: State, e: Event) {
    e.Happens? ==>
      && !e.event.Elsewhere? && !e.event.Datagram? && !e.event.Tick?
      && (e.ccid in d.tunnels ==> Possible(View(d, e.ccid), e.event))
  }

  datatype Timed = Timed(event: Event, now: real)

  function Run(d: State, run: seq<Timed>): State
    decreases |run|
  {
    if run == [] then d else Run(Step(d, run[0].event, run[0].now), run[1..])
  }

  ghost predicate SensibleRun(d: State, run: seq<Timed>)
    decreases |run|
  {
    run == [] || (Sensible(d, run[0].event) && SensibleRun(Step(d, run[0].event, run[0].now), run[1..]))
  }

  /** Every tunnel is consistent with the shared tables. */
  ghost predicate AllInv(d: State) {
    forall c :: c in d.tunnels ==>
      Ccid(d.tunnels[c]) == c && Inv(View(d, c)) && (d.tunnels[c].dataplane.Some? <==> d.tables.Some?)
  }

  lemma OutsideIsInside(d: D.Tables, e: D.Tables, mine: U32, other: U32)
    requires SameOutside(d, e, mine) && mine != other
    ensures SameInside(d, e, other)
  {
  }

  /** What one tunnel does to the shared tables leaves every other tunnel consistent with them. */
  lemma NeighbourUnharmed(r: Rt, e: Runtime.Event, now: real, other: Rt)
    requires Inv(r) && Possible(r, e) && !e.Elsewhere? && Inv(other) && Ccid(other) != Ccid(r)
    requires other.dataplane == r.dataplane
    ensures Inv(other.(dataplane := Next(r, e, now).rt.dataplane))
  {
    hide Configured, Agrees, PeerOk, HelloInv, Next, Possible, Clean;
    NextKeeps(r, e, now);
    var q := Next(r, e, now).rt;
    if r.dataplane.Some? {
      OutsideIsInside(r.dataplane.value, q.dataplane.value, Ccid(r), Ccid(other));
      ElsewhereKeeps(other, q.dataplane.value);
    } else {
      assert other.(dataplane := q.dataplane) == other;
    }
  }

  lemma StepAtKeeps(d: State, ccid: U32, e: Runtime.Event, now: real)
    requires AllInv(d) && (ccid in d.tunnels ==> Possible(View(d, ccid), e) && !e.Elsewhere?)
    ensures AllInv(StepAt(d, ccid, e, now))
  {
    hide Inv, Next, Possible, Clean;
    if ccid in d.tunnels {
      var r := View(d, ccid);
      NextKeeps(r, e, now);
      var next := StepAt(d, ccid, e, now);
      forall c | c in next.tunnels
        ensures Ccid(next.tunnels[c]) == c && Inv(View(next, c)) && (next.tunnels[c].dataplane.Some? <==> next.tables.Some?)
      {
        if c == ccid {
          assert View(next, c) == Next(r, e, now).rt;
        } else {
          NeighbourUnharmed(r, e, now, View(d, c));
          assert View(next, c) == View(d, c).(dataplane := next.tables);
        }
      }
    }
  }

  lemma StepKeeps(d: State, e: Event, now: real)
    requires AllInv(d) && Sensible(d, e)
    ensures AllInv(Step(d, e, now))
  {
    hide AllInv, StepAt, Unpack, Pack;
    match e {
      case Happens(ccid, event) => StepAtKeeps(d, ccid, event, now);
      case Arrives(buf) =>
        if |buf| >= HEADER_LEN {
          WordSizes();
          PackUnpack(buf[4..8]);
          StepAtKeeps(d, Unpack(buf[4..8]), Datagram(buf), now);
        }
      case Ticks(ccid) =>
        StepAtKeeps(d, ccid, Tick, now);
        Removal(StepAt(d, ccid, Tick, now), ccid);
    }
  }

  lemma Removal(d: State, ccid: U32)
    requires AllInv(d)
    ensures AllInv(d.(tunnels := d.tunnels - {ccid}))
  {
    hide Inv;
    forall c | c in d.tunnels - {ccid} ensures Inv(View(d.(tunnels := d.tunnels - {ccid}), c)) {
      assert View(d.(tunnels := d.tunnels - {ccid}), c) == View(d, c);
    }
  }

  /** Over any run, with any number of tunnels on distinct CCIDs, the shared tables agree with every tunnel's state machines. */
  lemma {:induction false} DaemonKeeps(d: State, run: seq<Timed>)
    requires AllInv(d) && SensibleRun(d, run)
    ensures AllInv(Run(d, run))
    decreases |run|
  {
    hide AllInv, Step, Sensible;
    if run != [] {
      StepKeeps(d, run[0].event, run[0].now);
      DaemonKeeps(Step(d, run[0].event, run[0].now), run[1..]);
    }
  }

  /** Each tunnel as constructed, under its own CCID, on tables that know nothing of it. */
  ghost predicate Started(d: State) {
    forall c :: c in d.tunnels ==> Ccid(d.tunnels[c]) == c && Constructed(d.tunnels[c], d.tables)
  }

  ghost predicate Constructed(r: Rt, tables: Option<D.Tables>) {
    exists setup: Setup, config: T.Config, configs: seq<S.Config>, remote: int, window: nat, interval: real, retries: nat ::
      ConstructedFrom(r, setup, config, configs, tables, remote, window, interval, retries)
  }

  lemma ConstructedInv(r: Rt, tables: Option<D.Tables>)
    requires Constructed(r, tables)
    ensures Inv(r) && r.dataplane == tables
  {
    hide Inv, GoodConfig;
    var setup: Setup, config: T.Config, configs: seq<S.Config>, remote: int, window: nat, interval: real, retries: nat :|
      ConstructedFrom(r, setup, config, configs, tables, remote, window, interval, retries);
    BootInv(setup, config, configs, tables, remote, window, interval, retries);
  }

  /**
   A daemon that has just started, and after any run: for each tunnel it still has, the shared
   tables hold exactly its ESTABLISHED sessions, and its tunnel entry as it has recorded.
   */
  lemma SharedTablesAgree(d: State, run: seq<Timed>, ccid: U32, sid: U32)
    requires Started(d) && SensibleRun(d, run)
    ensures var q := Run(d, run);
            AllInv(q) && (ccid in q.tunnels && q.tables.Some? ==>
              && ((ccid, sid) in q.tables.value.sessions <==> sid in q.tunnels[ccid].sessions && q.tunnels[ccid].sessions[sid].state.Established?)
              && (ccid in q.tables.value.tunnels <==> q.tunnels[ccid].dpAdded))
  {
    hide Inv, Run, SensibleRun, Constructed;
    forall c | c in d.tunnels ensures Inv(View(d, c)) && d.tunnels[c].dataplane == d.tables {
      ConstructedInv(d.tunnels[c], d.tables);
      assert View(d, c) == d.tunnels[c];
    }
    DaemonKeeps(d, run);
    var q := Run(d, run);
    if ccid in q.tunnels && q.tables.Some? {
      InvEntries(View(q, ccid), sid);
    }
  }

  lemma InvEntries(r: Rt, sid: U32)
    requires Inv(r) && r.dataplane.Some?
    ensures (Ccid(r), sid) in r.dataplane.value.sessions <==> sid in r.sessions && r.sessions[sid].state.Established?
    ensures Ccid(r) in r.dataplane.value.tunnels <==> r.dpAdded
  {
    hide Configured, PeerOk, HelloInv, S.Params;
    assert EntryAgrees(r.dataplane.value, Ccid(r), sid, r.sessions);
  }

  /**
   A well-formed datagram reaches the tunnel whose CCID it carries, and no other; one that
   carries 0, as everything does that is sent before the peer's CCID is known, reaches none.
   */
  lemma RoutedByCcid(d: State, m: ControlMessage, buf: Bytes, now: real)
    requires FromWire(buf) == Success(m)
    ensures 0 <= m.ccid <= 0xFFFF_FFFF && DispatchDatagram(d, buf, now) == StepAt(d, m.ccid, Datagram(buf), now)
    ensures m.ccid == 0 && 0 !in d.tunnels ==> DispatchDatagram(d, buf, now) == d
  {
    hide ToWire, FromWire, Next, Unpack;
    WireIsCanonical(m, buf);
    ToWireInRange(m);
    DestinationRead(m, buf);
  }

  lemma DestinationRead(m: ControlMessage, buf: Bytes)
    requires FromWire(buf) == Success(m)
    ensures |buf| >= HEADER_LEN && Unpack(buf[4..8]) == m.ccid
  {
    hide Unpack, DecodeFrom;
  }

  /** The tick loop never raises, so a tunnel whose peer is dead is always removed. */
  lemma DeadAreRemoved(d: State, ccid: U32, now: real)
    requires AllInv(d) && d.running && ccid in d.tunnels && P.Tick(d.tunnels[ccid].peer, now).2
    ensures TickOne(d, ccid, now).running && ccid !in TickOne(d, ccid, now).tunnels
  {
    hide Inv, Next, P.Tick;
    Exceptions.NextRaisesExactly(View(d, ccid), Tick, now);
  }

  /**
   A datagram ends the daemon's loops exactly when the tunnel it is for raises: what it delivers
   starts with a Message Type AVP that is not two octets, or the configured names are too long for the reply.
   */
  lemma StopsExactly(d: State, m: ControlMessage, buf: Bytes, now: real)
    requires AllInv(d) && d.running && FromWire(buf) == Success(m)
    ensures !Step(d, Arrives(buf), now).running <==> m.ccid in d.tunnels && Exceptions.DatagramRaises(View(d, m.ccid), buf)
  {
    hide Inv, Next, ToWire, FromWire, DispatchDatagram, Exceptions.DatagramRaises;
    RoutedByCcid(d, m, buf, now);
    if m.ccid in d.tunnels {
      Exceptions.NextRaisesExactly(View(d, m.ccid), Datagram(buf), now);
    }
  }

  /** Everything a tunnel says is addressed to its peer's CCID, so the peer's daemon hands it to the tunnel of that CCID. */
  lemma SpokenReachesPeer(d: State, r: Rt, q: Rt, i: nat, now: real)
    requires Speech.Speaks(r, q) && |r.wire| <= i < |q.wire|
    ensures 0 <= r.peer.remoteCcid <= 0xFFFF_FFFF
    ensures DispatchDatagram(d, q.wire[i], now) == StepAt(d, r.peer.remoteCcid, Datagram(q.wire[i]), now)
  {
    hide FromWire, Open, DispatchDatagram, StepAt;
    var k := i - |r.wire| + |r.sent|;
    assert Speech.Spoken(r.setup, r.peer, q.sent[k], q.peer.queue[k - |r.sent| + |r.peer.queue|], q.wire[k - |r.sent| + |r.wire|]);
    RoutedByCcid(d, FromWire(q.wire[i]).value, q.wire[i], now);
  }
}
