/**
 The kernel's entry for a tunnel: written once, when the first session comes up, with the peer's CCID as known
 then, and left as it is until the tunnel comes down.
 */
module KernelEntry {
  import opened Prelude
  import opened AvpCodec
  import opened MessageCodec
  import opened TypedMessages
  import opened Runtime
  import opened Safety
  import SE = SessionEvents
  import T = TunnelFsm
  import S = SessionFsm
  import D = Dataplane
  import P = Transport

  function Entry(r: Rt): Option<D.TunnelParams> {
    if r.dpAdded && r.dataplane.Some? && Ccid(r) in r.dataplane.value.tunnels then Some(r.dataplane.value.tunnels[Ccid(r)]) else None
  }

  /** The entry for a peer with this CCID. */
  ghost predicate Describes(e: D.TunnelParams, r: Rt, remoteCcid: int) {
    && e.localCcid == r.fsm.config.localCcid && e.remoteCcid == remoteCcid
    && e.localAddress == r.setup.localAddress && e.remoteAddress == r.setup.remoteAddress
  }

  /** An entry stays what it is; a new one names the peer as known now. */
  ghost predicate Adds(r: Rt, q: Rt) {
    && q.setup == r.setup && q.fsm.config == r.fsm.config && q.peer.remoteCcid == r.peer.remoteCcid
    && (Entry(r).Some? ==> Entry(q) == Entry(r))
    && (Entry(r).None? && Entry(q).Some? ==> Describes(Entry(q).value, r, r.peer.remoteCcid))
  }

  lemma AddsNothing(r: Rt, q: Rt)
    requires q.setup == r.setup && q.fsm.config == r.fsm.config && q.peer.remoteCcid == r.peer.remoteCcid
    requires q.dpAdded == r.dpAdded && q.dataplane == r.dataplane
    ensures Adds(r, q)
  {
  }

  lemma AddsTrans(r: Rt, q: Rt, p: Rt)
    requires Adds(r, q) && Adds(q, p)
    ensures Adds(r, p)
  {
  }

  ghost predicate Addressable(r: Rt) { 0 <= r.peer.remoteCcid <= 0xFFFF_FFFF }

  lemma DropAdds(r: Rt, ccid: U32, sid: U32)
    ensures Adds(r, DropSession(r, ccid, sid))
  {
  }

  lemma AddSessionAdds(r: Rt, params: D.SessionParams)
    requires Addressable(r)
    ensures Adds(r, AddSession(r, params))
  {
    var e := EnsureTunnel(r);
    assert Adds(r, e);
    InsertAdds(e, params);
    AddsTrans(r, e, AddSession(r, params));
  }

  lemma InsertAdds(r: Rt, params: D.SessionParams)
    ensures Adds(r, Insert(r, params))
  {
  }

  lemma TransmitAdds(r: Rt, avps: seq<Avp>, now: real)
    ensures Adds(r, Transmit(r, avps, now).rt)
  {
    hide Sealed, ToWire;
  }

  lemma {:induction false} ExecSessionAdds(r: Rt, actions: seq<S.Action>, now: real)
    requires Addressable(r)
    ensures Adds(r, ExecSession(r, actions, now).rt)
    decreases |actions|
  {
    hide Transmit, AddSession, DropSession, Entry;
    AddsNothing(r, r);
    if actions != [] {
      var o := match actions[0]
        case SendMessage(avps) => Transmit(r, avps, now)
        case DataplaneAddSession(params) => Outcome(AddSession(r, params), false)
        case DataplaneDelSession(ccid, sid) => Outcome(DropSession(r, ccid, sid), false)
        case _ => Outcome(r, false);
      match actions[0] {
        case SendMessage(avps) => TransmitAdds(r, avps, now);
        case DataplaneAddSession(params) => AddSessionAdds(r, params);
        case DataplaneDelSession(ccid, sid) => DropAdds(r, ccid, sid);
        case _ =>
      }
      if !o.raised {
        ExecSessionAdds(o.rt, actions[1..], now);
        AddsTrans(r, o.rt, ExecSession(o.rt, actions[1..], now).rt);
      }
    }
  }

  lemma SessionStepAdds(r: Rt, sid: U32, e: S.Event, now: real)
    requires Addressable(r)
    ensures Adds(r, SessionStep(r, sid, e, now).rt)
  {
    hide S.React, ExecSession, Entry;
    AddsNothing(r, r);
    if sid in r.sessions {
      var (t, actions) := S.React(r.sessions[sid], e);
      var moved := r.(sessions := r.sessions[sid := t]);
      SameEntry(r, moved);
      ExecSessionAdds(moved, actions, now);
      AddsNothing(r, moved);
      AddsTrans(r, moved, SessionStep(r, sid, e, now).rt);
    }
  }

  lemma SameEntry(r: Rt, q: Rt)
    requires q.dpAdded == r.dpAdded && q.dataplane == r.dataplane && q.fsm.config == r.fsm.config
    ensures Entry(q) == Entry(r)
  {
  }

  lemma {:induction false} CascadeAdds(r: Rt, sids: seq<U32>, e: S.Event, now: real)
    requires Addressable(r)
    ensures Adds(r, Cascade(r, sids, e, now).rt)
    decreases |sids|
  {
    hide SessionStep, Entry;
    AddsNothing(r, r);
    if sids != [] {
      SessionStepAdds(r, sids[0], e, now);
      var o := SessionStep(r, sids[0], e, now);
      if !o.raised {
        CascadeAdds(o.rt, sids[1..], e, now);
        AddsTrans(r, o.rt, Cascade(o.rt, sids[1..], e, now).rt);
      }
    }
  }

  /** Over an event that may also learn the peer's CCID or take the tunnel down. */
  ghost predicate EntryStep(r: Rt, q: Rt) {
    && q.setup == r.setup && q.fsm.config == r.fsm.config
    && (Entry(q).Some? ==> if Entry(r).Some? then Entry(q) == Entry(r) else Describes(Entry(q).value, q, q.peer.remoteCcid))
  }

  lemma AddsIsStep(r: Rt, q: Rt)
    requires Adds(r, q)
    ensures EntryStep(r, q)
  {
  }

  /** Effects other than going down. */
  lemma EffectAdds(r: Rt, action: T.Action, now: real)
    requires Addressable(r) && !action.TornDown?
    ensures Adds(r, Effect(r, action, now).rt)
  {
    hide Transmit, Cascade, Adds;
    match action {
      case SendMessage(avps) => TransmitAdds(r, avps, now);
      case SetHelloTimer(_) => AddsNothing(r, ArmHello(r));
      case ClearHelloTimer => AddsNothing(r, CancelHello(r));
      case WentUp => CascadeAdds(r, r.order, S.TunnelUp, now);
    }
  }

  lemma {:induction false} ExecTunnelAdds(r: Rt, actions: seq<T.Action>, now: real)
    requires Addressable(r) && forall i :: 0 <= i < |actions| ==> !actions[i].TornDown?
    ensures Adds(r, ExecTunnel(r, actions, now).rt)
    decreases |actions|
  {
    hide Effect, Entry;
    AddsNothing(r, r);
    if actions != [] {
      EffectAdds(r, actions[0], now);
      var o := Effect(r, actions[0], now);
      if !o.raised {
        ExecTunnelAdds(o.rt, actions[1..], now);
        AddsTrans(r, o.rt, ExecTunnel(o.rt, actions[1..], now).rt);
      }
    }
  }

  lemma TornDownOnly(f: T.Fsm, e: T.Event)
    ensures var (t, actions) := T.React(f, e);
            !(T.Up(f) && !T.Up(t)) ==> forall i :: 0 <= i < |actions| ==> !actions[i].TornDown?
  {
    hide BuildSccrx, BuildBare, BuildStopCcn, ParseSccrx, ParseStopCcn, GetMessageType;
  }

  lemma TunnelStepEntry(r: Rt, e: T.Event, now: real)
    requires Sound(r) && HelloInv(r, T.Up(r.fsm) && !e.HelloTimer?)
    ensures EntryStep(r, TunnelStep(r, e, now).rt)
  {
    hide T.React, Agrees, P.PeerInv, Configured, HelloInv, ExecTunnel;
    var (t, actions) := T.React(r.fsm, e);
    TunnelStepMoves(r, e, now);
    T.ReactDelta(r.fsm, e);
    TornDownOnly(r.fsm, e);
    if !(T.Up(r.fsm) && !T.Up(t)) {
      var moved := r.(fsm := t);
      ExecTunnelAdds(moved, actions, now);
      AddsNothing(r, moved);
      AddsTrans(r, moved, TunnelStep(r, e, now).rt);
    }
  }

  lemma ArrivedEntry(r: Rt, delivered: seq<Avp>, now: real)
    requires Inv(r)
    ensures EntryStep(r, Arrived(r, delivered, now).rt)
  {
    hide Agrees, P.PeerInv, Configured, HelloInv, GetMessageType, TunnelStep, ReadRoute, Target, SessionStep, S.OnMessage, Index, Entry;
    AddsNothing(r, r);
    if delivered != [] && GetMessageType(delivered).Success? {
      var mt := GetMessageType(delivered).value;
      if !IsSessionType(mt) {
        TunnelStepEntry(r, T.Message(delivered), now);
      } else if ReadRoute(delivered, mt.value).Success? {
        var target := Target(r, ReadRoute(delivered, mt.value).value, mt.value);
        if target.Some? && target.value in r.sessions {
          var sid := target.value;
          var indexed := r.(byRemote := Index(r.byRemote, S.OnMessage(r.sessions[sid], delivered).0.peerSid, sid));
          AddsNothing(r, indexed);
          SessionStepAdds(indexed, sid, S.Message(delivered), now);
          AddsTrans(r, indexed, SessionStep(indexed, sid, S.Message(delivered), now).rt);
        }
      }
    }
  }

  /** Learning the peer's CCID, and the delivery layer, do not touch the entry. */
  lemma EntryAfterPeer(r: Rt, q: Rt, p: Rt)
    requires q.setup == r.setup && q.fsm == r.fsm && q.dpAdded == r.dpAdded && q.dataplane == r.dataplane && EntryStep(q, p)
    ensures EntryStep(r, p)
  {
  }

  lemma DatagramEntry(r: Rt, buf: Bytes, now: real)
    requires Inv(r)
    ensures EntryStep(r, HandleDatagram(r, buf, now).rt)
  {
    hide Agrees, P.PeerInv, Configured, HelloInv, Open, Arrived, P.Receive, Learned, Reply, EntryStep;
    OpenInRange(r.setup, buf);
    StepNothing(r, r);
    if Open(r.setup, buf).Success? {
      var m := Open(r.setup, buf).value;
      var q := Overhear(r, m.avps);
      LearnedInRange(r.peer.remoteCcid, m.avps);
      LearnedOnce(r.peer.remoteCcid, m.avps);
      OverhearOk(r.peer, q.peer.remoteCcid);
      var received := P.Receive(q.peer, m);
      RepliesEncode(q.peer, m);
      var moved := q.(peer := received.peer);
      ReplyLogs(moved, received.responses);
      ReplyNeverRaises(moved, received.responses);
      var o := Reply(moved, received.responses);
      PeerMoves(r, o.rt);
      ArrivedEntry(o.rt, received.delivered, now);
      EntryAfterPeer(r, o.rt, Arrived(o.rt, received.delivered, now).rt);
    }
  }

  lemma StepNothing(r: Rt, q: Rt)
    requires q.setup == r.setup && q.fsm.config == r.fsm.config && q.dpAdded == r.dpAdded && q.dataplane == r.dataplane
    ensures EntryStep(r, q)
  {
  }

  /** No event rewrites an entry, and one that writes it names the peer as known at the end of that event. */
  lemma NextEntry(r: Rt, e: Event, now: real)
    requires Inv(r) && Possible(r, e)
    ensures EntryStep(r, Next(r, e, now).rt)
  {
    hide Agrees, P.PeerInv, Configured, HelloInv, TunnelStep, SessionStep, HandleDatagram, T.React, S.React, EntryStep, P.TickQueue;
    match e {
      case Start => TunnelStepEntry(r, T.Open, now);
      case Close =>
        TunnelStepEntry(r, T.Close(ADMIN_SHUTDOWN), now);
        var q := TunnelStep(r, T.Close(ADMIN_SHUTDOWN), now).rt;
        CancelledEntry(r, q);
      case Datagram(buf) => DatagramEntry(r, buf, now);
      case Tick =>
        P.TickKeepsInv(r.peer, now);
        var (peer, resend, dead) := P.Tick(r.peer, now);
        var q := r.(peer := peer, wire := r.wire + resend);
        PeerMoves(r, q);
        StepNothing(r, q);
        TunnelStepEntry(q, T.Dead, now);
        EntryAfterPeer(r, q, TunnelStep(q, T.Dead, now).rt);
      case Fires(handle) =>
        var q := r.(hello := None, timers := r.timers - {handle});
        SoundTimers(r, q);
        FiredQuiet(r, handle);
        TunnelStepEntry(q, T.HelloTimer, now);
        EntryAfterPeer(r, q, TunnelStep(q, T.HelloTimer, now).rt);
      case SessionClose(sid, code) =>
        SessionStepAdds(r, sid, S.Close(code), now);
        AddsIsStep(r, SessionStep(r, sid, S.Close(code), now).rt);
      case Elsewhere(tables) => ElsewhereEntry(r, tables, now);
    }
  }

  lemma FiredQuiet(r: Rt, handle: nat)
    requires Inv(r) && handle in r.timers
    ensures HelloInv(r.(hello := None, timers := r.timers - {handle}), false)
  {
    hide Agrees, P.PeerInv, Configured;
  }

  lemma CancelledEntry(r: Rt, q: Rt)
    requires EntryStep(r, q)
    ensures EntryStep(r, CancelHello(q))
  {
  }

  lemma ElsewhereEntry(r: Rt, tables: D.Tables, now: real)
    requires Inv(r) && Possible(r, Elsewhere(tables))
    ensures EntryStep(r, Next(r, Elsewhere(tables), now).rt)
  {
    hide P.PeerInv, Configured, HelloInv, EntryAgrees;
  }

  // ---- over whole runs ---------------------------------------------------------------

  lemma {:induction false} RunPrefix(r: Rt, run: seq<Timed>, n: nat)
    requires n < |run|
    ensures RunAll(r, run[..n + 1]) == Next(RunAll(r, run[..n]), run[n].event, run[n].now).rt
    decreases |run|
  {
    hide Next;
    if n == 0 {
      assert run[..1] == [run[0]] && run[..0] == [];
      RunOne(r, run[0]);
    } else {
      var next := Next(r, run[0].event, run[0].now).rt;
      assert run[..n + 1][1..] == run[1..][..n] && run[..n][1..] == run[1..][..n - 1];
      RunPrefix(next, run[1..], n - 1);
    }
  }

  lemma RunOne(r: Rt, step: Timed)
    ensures RunAll(r, [step]) == Next(r, step.event, step.now).rt && RunAll(r, []) == r
  {
    hide Next;
    assert [step][1..] == [];
    assert RunAll(Next(r, step.event, step.now).rt, [step][1..]) == Next(r, step.event, step.now).rt;
  }

  lemma {:induction false} PossibleAt(r: Rt, run: seq<Timed>, n: nat)
    requires Inv(r) && PossibleRun(r, run) && n < |run|
    ensures Inv(RunAll(r, run[..n])) && Possible(RunAll(r, run[..n]), run[n].event)
    decreases |run|
  {
    hide Inv, Next, Possible;
    if n == 0 {
      assert run[..0] == [];
    } else {
      NextKeeps(r, run[0].event, run[0].now);
      assert run[..n][1..] == run[1..][..n - 1];
      PossibleAt(Next(r, run[0].event, run[0].now).rt, run[1..], n - 1);
    }
  }

  /** The entry after n events was written by event k, with the peer's CCID as known then, and has stood since. */
  ghost predicate WrittenAt(r: Rt, run: seq<Timed>, n: nat, k: nat) {
    && k < n <= |run| && Entry(RunAll(r, run[..k])).None?
    && (forall j :: k < j <= n ==> Entry(RunAll(r, run[..j])) == Entry(RunAll(r, run[..n])))
    && Entry(RunAll(r, run[..n])).Some?
    && Describes(Entry(RunAll(r, run[..n])).value, r, RunAll(r, run[..k + 1]).peer.remoteCcid)
  }

  /**
   Whenever there is an entry, there was a moment when a session came up and it was written: our CCID and
   the two addresses as configured, the peer's CCID as it was known at that moment.
   */
  lemma {:induction false} EntryWasWritten(r: Rt, run: seq<Timed>, n: nat)
    requires Inv(r) && PossibleRun(r, run) && n <= |run| && Entry(r).None? && Entry(RunAll(r, run[..n])).Some?
    ensures exists k :: WrittenAt(r, run, n, k)
    ensures RunAll(r, run[..n]).setup == r.setup && RunAll(r, run[..n]).fsm.config == r.fsm.config
    decreases n
  {
    hide Inv, Next, Possible, Entry, PossibleRun, Describes, RunAll;
    RunOne(r, Timed(Start, 0.0));
    assert run[..0] == [];
    if n > 0 {
      var before, after := RunAll(r, run[..n - 1]), RunAll(r, run[..n]);
      RunPrefix(r, run, n - 1);
      PossibleAt(r, run, n - 1);
      NextEntry(before, run[n - 1].event, run[n - 1].now);
      SameSetup(r, run, n - 1);
      if Entry(before).Some? {
        EntryWasWritten(r, run, n - 1);
        var k :| WrittenAt(r, run, n - 1, k);
        assert WrittenAt(r, run, n, k);
      } else {
        DescribesSame(Entry(after).value, after, r, after.peer.remoteCcid);
        assert WrittenAt(r, run, n, n - 1);
      }
    }
  }

  lemma DescribesSame(e: D.TunnelParams, q: Rt, r: Rt, remoteCcid: int)
    requires Describes(e, q, remoteCcid) && q.setup == r.setup && q.fsm.config == r.fsm.config
    ensures Describes(e, r, remoteCcid)
  {
  }

  lemma {:induction false} SameSetup(r: Rt, run: seq<Timed>, n: nat)
    requires Inv(r) && PossibleRun(r, run) && n < |run|
    ensures RunAll(r, run[..n]).setup == r.setup && RunAll(r, run[..n]).fsm.config == r.fsm.config
    decreases n
  {
    hide Inv, Next, Possible, Entry, PossibleRun, Describes, RunAll;
    RunOne(r, run[0]);
    if n == 0 {
      assert run[..0] == [];
    } else {
      SameSetup(r, run, n - 1);
      RunPrefix(r, run, n - 1);
      PossibleAt(r, run, n - 1);
      NextEntry(RunAll(r, run[..n - 1]), run[n - 1].event, run[n - 1].now);
    }
  }

  /** Whenever a session is ESTABLISHED, the kernel has its entry, field by field as configured and learned, under a tunnel entry with the configured CCID and addresses. */
  lemma KernelDescribes(r: Rt, sid: U32)
    requires Inv(r) && r.dataplane.Some? && sid in r.sessions && S.Up(r.sessions[sid])
    ensures var d := r.dataplane.value;
            && (Ccid(r), sid) in d.sessions && SE.Describes(d.sessions[(Ccid(r), sid)], r.sessions[sid])
            && Ccid(r) in d.tunnels && EntryDescribes(d.tunnels[Ccid(r)], r)
  {
    hide P.PeerInv, Configured, HelloInv, S.Params, SE.Describes;
    assert EntryAgrees(r.dataplane.value, Ccid(r), sid, r.sessions);
    SE.ParamsDescribe(r.sessions[sid]);
  }
}
