/**
 What events of a running tunnel bring about: what leaves on the wire, what becomes of the sessions and of
 their kernel entries, and what is learned.
 */
module Effects {
  import opened Prelude
  import opened AvpCodec
  import opened MessageCodec
  import opened TypedMessages
  import opened Signing
  import opened Runtime
  import opened Safety
  import opened Speech
  import Exceptions
  import TE = TunnelEvents
  import SE = SessionEvents
  import T = TunnelFsm
  import S = SessionFsm
  import D = Dataplane
  import P = Transport

  // ---- the delivery layer's own datagrams ------------------------------------------

  /** These octets, in order, are these messages. */
  ghost predicate Octets(wire: seq<Bytes>, messages: seq<ControlMessage>) {
    |wire| == |messages| && forall i :: 0 <= i < |wire| ==> FromWire(wire[i]) == Success(messages[i])
  }

  /** Every response reaches the wire. */
  lemma {:induction false} ReplyDoes(r: Rt, responses: seq<ControlMessage>)
    requires !Reply(r, responses).raised
    ensures var q := Reply(r, responses).rt;
            r.wire <= q.wire && Octets(q.wire[|r.wire|..], responses)
    decreases |responses|
  {
    hide ToWire, FromWire;
    if responses != [] {
      var b := ToWire(responses[0]).value;
      WireIsCanonical(responses[0], b);
      var next := r.(wire := r.wire + [b]);
      var q := Reply(r, responses).rt;
      ReplyDoes(next, responses[1..]);
      assert q.wire[|r.wire|..] == [b] + q.wire[|next.wire|..];
    }
  }

  /** New or old, a message that reaches the tunnel is acknowledged: the first datagram out says what is expected now, to the peer's CCID. */
  lemma DatagramAcknowledged(r: Rt, buf: Bytes, now: real)
    requires Inv(r) && Open(r.setup, buf).Success?
    requires var m := Open(r.setup, buf).value;
             (m.ccid == 0 || m.ccid == r.peer.localCcid) && m.avps != [] && SeqDelta(m.ns, r.peer.nrExpect) <= 0
    ensures var q := HandleDatagram(r, buf, now).rt;
            && r.wire <= q.wire && |q.wire| > |r.wire|
            && FromWire(q.wire[|r.wire|]) == Success(ControlMessage(q.peer.remoteCcid, r.peer.nsSend, q.peer.nrExpect, []))
  {
    hide Agrees, P.PeerInv, HelloInv, Configured, Open, Arrived, P.Receive, Learned, Reply, ToWire, FromWire, SeqDelta, P.ConsumeAcks;
    OpenInRange(r.setup, buf);
    var m := Open(r.setup, buf).value;
    var p := Overhear(r, m.avps);
    LearnedInRange(r.peer.remoteCcid, m.avps);
    LearnedOnce(r.peer.remoteCcid, m.avps);
    OverhearOk(r.peer, p.peer.remoteCcid);
    var received := P.Receive(p.peer, m);
    RepliesEncode(p.peer, m);
    P.ReceiveHeeds(p.peer, m);
    ReceiveNumbers(p.peer, m);
    var moved := p.(peer := received.peer);
    ReplyLogs(moved, received.responses);
    ReplyNeverRaises(moved, received.responses);
    ReplyDoes(moved, received.responses);
    var o := Reply(moved, received.responses);
    PeerMoves(r, o.rt);
    InvConfigured(o.rt);
    ArrivedSpeaks(o.rt, received.delivered, now);
    SpeaksOn(o.rt, Arrived(o.rt, received.delivered, now).rt);
    assert o.rt.wire[|r.wire|] == o.rt.wire[|r.wire|..][0];
  }

  lemma ReceiveNumbers(p: P.PeerState, m: ControlMessage)
    ensures P.Receive(p, m).peer.nsSend == p.nsSend && P.Receive(p, m).peer.remoteCcid == p.remoteCcid
  {
    hide P.Drain, P.ConsumeAcks;
  }

  lemma InvConfigured(r: Rt)
    requires Inv(r)
    ensures Configured(r)
  {
  }

  lemma SpeaksOn(r: Rt, q: Rt)
    requires Speaks(r, q)
    ensures r.wire <= q.wire && q.peer.remoteCcid == r.peer.remoteCcid && q.peer.nrExpect == r.peer.nrExpect
  {
    hide Spoken;
  }

  /** Every datagram the delivery layer sends again reaches the wire, in order. */
  lemma TickResends(r: Rt, now: real)
    requires Inv(r)
    ensures r.wire + P.Tick(r.peer, now).1 <= TickTunnel(r, now).rt.wire
  {
    hide P.Tick, TunnelStep, Agrees, P.PeerInv, HelloInv, T.React, TunnelWords, Chorus;
    var (peer, resend, dead) := P.Tick(r.peer, now);
    var q := r.(peer := peer, wire := r.wire + resend);
    TunnelStepSpeaks(q, T.Dead, now);
    SpeaksOn(q, TunnelStep(q, T.Dead, now).rt);
  }

  // ---- the control connection --------------------------------------------------------

  /** Exactly this one message was sent. */
  ghost predicate SaidOne(r: Rt, o: Outcome, m: seq<Avp>) { !o.raised && Speaks(r, o.rt) && o.rt.sent == r.sent + [m] }

  lemma OneWord(actions: seq<T.Action>, m: seq<Avp>, rest: seq<T.Action>)
    requires TE.Sends(actions, m, rest) && (forall i :: 0 <= i < |rest| ==> !rest[i].SendMessage?)
    ensures TunnelWords(actions) == [m]
  {
    Wordless(rest);
  }

  lemma {:induction false} Wordless(actions: seq<T.Action>)
    requires forall i :: 0 <= i < |actions| ==> !actions[i].SendMessage?
    ensures TunnelWords(actions) == []
    decreases |actions|
  {
    if actions != [] {
      assert forall i :: 0 <= i < |actions| - 1 ==> actions[1..][i] == actions[i + 1];
      Wordless(actions[1..]);
    }
  }

  /** A start puts an SCCRQ with the configured identity on the wire, if its names fit. */
  lemma StartSends(r: Rt, now: real)
    requires Inv(r) && r.fsm.state.Idle? && !Exceptions.TooWide(r.fsm.config)
    ensures exists m :: SaidOne(r, Next(r, Start, now), m) && TE.Introduces(m, SCCRQ, r.fsm.config)
  {
    hide Agrees, P.PeerInv, HelloInv, T.React, TunnelStep, Speaks, TE.Introduces, Exceptions.TooWide, Chorus, TunnelWords;
    Exceptions.NextRaisesExactly(r, Start, now);
    TunnelStepSpeaks(r, T.Open, now);
    TE.OpenDoes(r.fsm);
    var m :| TE.Sends(T.React(r.fsm, T.Open).1, m, []) && TE.Introduces(m, SCCRQ, r.fsm.config);
    OneWord(T.React(r.fsm, T.Open).1, m, []);
    assert SaidOne(r, Next(r, Start, now), m);
  }

  /** Closing puts one StopCCN on the wire, administrative shutdown, except in IDLE and SEND_STOPCCN. */
  lemma CloseSends(r: Rt, now: real)
    requires Inv(r) && !r.fsm.state.Idle? && !r.fsm.state.SendStopCcn?
    ensures exists m :: SaidOne(r, Next(r, Close, now), m) && TE.Stops(m, r.fsm.config, 6)
  {
    hide Agrees, P.PeerInv, HelloInv, T.React, TunnelStep, Speaks, TE.Stops, Chorus, TunnelWords;
    var e := T.Close(ADMIN_SHUTDOWN);
    Exceptions.NextRaisesExactly(r, Close, now);
    TunnelStepSpeaks(r, e, now);
    TE.CloseDoes(r.fsm, ADMIN_SHUTDOWN);
    var m :| TE.Sends(T.React(r.fsm, e).1, m, TE.Down(r.fsm, T.LocalClose)) && TE.Stops(m, r.fsm.config, ADMIN_SHUTDOWN);
    OneWord(T.React(r.fsm, e).1, m, TE.Down(r.fsm, T.LocalClose));
    var q := TunnelStep(r, e, now).rt;
    SpeaksNothing(q, CancelHello(q));
    SpeaksTrans(r, q, CancelHello(q));
    assert SaidOne(r, Next(r, Close, now), m);
  }

  /** The keepalive: one HELLO on the wire, and one live handle, a new one. */
  lemma HelloFiresSends(r: Rt, handle: nat, now: real)
    requires Inv(r) && handle in r.timers
    ensures var o := Next(r, Fires(handle), now);
            && (exists m :: SaidOne(r, o, m) && TE.OfType(m, HELLO))
            && o.rt.hello.Some? && o.rt.timers == {o.rt.hello.value} && o.rt.hello.value !in r.timers
  {
    hide Agrees, P.PeerInv, T.React, Speaks, GetMessageType, Chorus, TunnelWords, Transmit, Configured, ExecTunnel;
    var quiet := r.(hello := None, timers := r.timers - {handle});
    Exceptions.NextRaisesExactly(r, Fires(handle), now);
    SoundTimers(r, quiet);
    TunnelStepSpeaks(quiet, T.HelloTimer, now);
    TE.HelloTimerDoes(r.fsm);
    var actions := T.React(r.fsm, T.HelloTimer).1;
    var m :| TE.Sends(actions, m, [T.SetHelloTimer(r.fsm.config.helloInterval)]) && TE.OfType(m, HELLO);
    OneWord(actions, m, [T.SetHelloTimer(r.fsm.config.helloInterval)]);
    SpeaksNothing(r, quiet);
    SpeaksTrans(r, quiet, TunnelStep(quiet, T.HelloTimer, now).rt);
    assert SaidOne(r, Next(r, Fires(handle), now), m);
    RearmedTimer(quiet.(fsm := T.React(r.fsm, T.HelloTimer).0), actions, now);
    NextKeeps(r, Fires(handle), now);
    TimerSet(r);
    TimerSet(Next(r, Fires(handle), now).rt);
  }

  /** Setting the timer cancels the handle there was, if any: one is live afterwards. */
  lemma SettingLeavesOne(r: Rt)
    requires r.timers == (if r.hello.Some? then {r.hello.value} else {})
    ensures var q := ArmHello(r);
            q.hello == Some(r.nextTimer) && q.timers == {r.nextTimer} && q.nextTimer == r.nextTimer + 1
  {
  }

  lemma TimerSet(r: Rt)
    requires Inv(r)
    ensures (r.hello.Some? ==> r.timers == {r.hello.value} && r.hello.value < r.nextTimer) && (r.hello.None? ==> r.timers == {})
  {
    hide Agrees, P.PeerInv, Configured;
  }

  lemma RearmedTimer(r: Rt, actions: seq<T.Action>, now: real)
    requires r.hello.None? && |actions| == 2 && actions[0].SendMessage? && actions[1].SetHelloTimer? && !ExecTunnel(r, actions, now).raised
    ensures ExecTunnel(r, actions, now).rt.hello == Some(r.nextTimer)
  {
    hide P.Send, Sealed;
    ExecTwo(r, actions, now);
  }

  /** When the tunnel comes up, every initiator waits for its reply and its announcement is on the wire; the others are as they were. */
  lemma ComingUpAnnounces(r: Rt, e: T.Event, now: real)
    requires Inv(r) && !T.Up(r.fsm) && T.Up(T.React(r.fsm, e).0) && !TunnelStep(r, e, now).raised
    ensures var q := TunnelStep(r, e, now).rt;
            && Speaks(r, q) && q.sent == r.sent + TunnelWords(T.React(r.fsm, e).1) + Chorus(r.sessions, r.order, S.TunnelUp)
            && Stepped(r.sessions, q.sessions, r.order, S.TunnelUp)
  {
    hide Agrees, P.PeerInv, HelloInv, T.React, Speaks, Chorus, TunnelWords, Transmit, Stepped, Cascade, ArmHello;
    TunnelStepSpeaks(r, e, now);
    var (t, actions) := T.React(r.fsm, e);
    T.ReactDelta(r.fsm, e);
    var moved := r.(fsm := t);
    var rest := T.Tail(actions);
    if actions != [] && actions[0].SendMessage? {
      ExecTunnelSend(moved, actions, now);
      TransmitOnly(moved, actions[0].avps, now);
      UpRest(Transmit(moved, actions[0].avps, now).rt, rest, now);
    } else {
      UpRest(moved, rest, now);
    }
  }

  lemma TransmitOnly(r: Rt, avps: seq<Avp>, now: real)
    ensures var q := Transmit(r, avps, now).rt;
            q == r.(peer := q.peer, sent := q.sent, wire := q.wire)
  {
    hide P.Send, Sealed;
  }

  lemma UpRest(r: Rt, rest: seq<T.Action>, now: real)
    requires |rest| == 2 && rest[0].SetHelloTimer? && rest[1].WentUp? && !ExecTunnel(r, rest, now).raised && Configured(r)
    ensures Stepped(r.sessions, ExecTunnel(r, rest, now).rt.sessions, r.order, S.TunnelUp)
  {
    hide Stepped, Cascade, Chorus;
    ExecTwo(r, rest, now);
    CascadeSays(ArmHello(r), r.order, S.TunnelUp, now);
  }

  /** The announcements, one after the other: of each idle initiator, as its peer reads it. */
  lemma {:induction false} ChorusAnnounces(sessions: map<U32, S.Fsm>, sids: seq<U32>, sid: U32)
    requires sid in sids && sid in sessions && sessions[sid].config.initiator && sessions[sid].state.Idle?
    ensures exists m :: m in Chorus(sessions, sids, S.TunnelUp) && SE.Shows(m, ICRQ, sessions[sid].config, 0)
    decreases |sids|
  {
    hide S.React, SE.Shows, SessionWords;
    var rest := Chorus(sessions, sids[1..], S.TunnelUp);
    if sids[0] == sid {
      SE.TunnelUpDoes(sessions[sid]);
      var actions := S.React(sessions[sid], S.TunnelUp).1;
      var m :| SE.Sends(actions, m, []) && SE.Shows(m, ICRQ, sessions[sid].config, 0);
      SessionWordsOf(actions, m);
      assert m in Chorus(sessions, sids, S.TunnelUp);
    } else {
      ChorusAnnounces(sessions, sids[1..], sid);
      var m :| m in rest && SE.Shows(m, ICRQ, sessions[sid].config, 0);
      assert m in Chorus(sessions, sids, S.TunnelUp);
    }
  }

  lemma SessionWordsOf(actions: seq<S.Action>, m: seq<Avp>)
    requires SE.Sends(actions, m, [])
    ensures SessionWords(actions) == [m]
  {
    assert SessionWords([]) == [];
  }

  // ---- sessions ----------------------------------------------------------------------

  /** Closing a session puts one CDN with both IDs and the given result on the wire, except in IDLE and SEND_CDN, and the session is out of the kernel. */
  lemma SessionCloseSends(r: Rt, sid: U32, code: U16, now: real)
    requires Inv(r) && sid in r.sessions && !r.sessions[sid].state.Idle? && !r.sessions[sid].state.SendCdn?
    ensures var o := Next(r, SessionClose(sid, code), now);
            && (exists m :: SaidOne(r, o, m) && SE.Clears(m, r.sessions[sid], code))
            && o.rt.sessions == r.sessions[sid := r.sessions[sid].(state := S.SendCdn)]
            && (o.rt.dataplane.Some? ==> (Ccid(o.rt), sid) !in o.rt.dataplane.value.sessions)
  {
    hide Agrees, P.PeerInv, HelloInv, Configured, S.React, SessionStep, Speaks, SE.Clears, SessionWords;
    var s, e := r.sessions[sid], S.Close(code);
    Exceptions.NextRaisesExactly(r, SessionClose(sid, code), now);
    SessionStepSpeaks(r, sid, e, now);
    NextKeeps(r, SessionClose(sid, code), now);
    SE.CloseDoes(s, code);
    var actions := S.React(s, e).1;
    var m :| SE.Sends(actions, m, SE.Down(s, S.LocalClose)) && SE.Clears(m, s, code);
    SaidThenDown(actions, m, s, S.LocalClose);
    assert SaidOne(r, Next(r, SessionClose(sid, code), now), m);
    var q := Next(r, SessionClose(sid, code), now).rt;
    if q.dataplane.Some? {
      KernelFollows(q, sid);
    }
  }

  lemma SaidThenDown(actions: seq<S.Action>, m: seq<Avp>, s: S.Fsm, reason: S.Reason)
    requires SE.Sends(actions, m, SE.Down(s, reason))
    ensures SessionWords(actions) == [m]
  {
    DownIsSilent(s, reason);
  }

  /** Every refusal of the dataplane is counted. */
  lemma RefusalsAreCounted(r: Rt, params: D.SessionParams)
    requires r.dataplane.Some?
    ensures !r.dpAdded && D.AddTunnel(r.dataplane.value, TunnelParams(r, Remote(r.peer))).Failure? ==> EnsureTunnel(r).faults == r.faults + 1
    ensures D.AddSession(r.dataplane.value, params).Failure? ==> Insert(r, params).faults == r.faults + 1
    ensures r.dpAdded && D.DelTunnel(r.dataplane.value, Ccid(r)).Failure? ==> DropTunnel(r).faults == r.faults + 1
  {
  }

  /** A CDN that is routed to a session takes it to IDLE and out of the kernel, says nothing, and leaves every other session and entry alone. */
  ghost predicate TakenDown(r: Rt, o: Outcome, sid: U32) {
    && !o.raised && Inv(o.rt) && o.rt.sent == r.sent && o.rt.fsm == r.fsm && sid in r.sessions
    && o.rt.sessions == r.sessions[sid := r.sessions[sid].(state := S.Idle)]
    && (o.rt.dataplane.Some? ==>
          && (Ccid(r), sid) !in o.rt.dataplane.value.sessions
          && forall k: U32 :: k != sid ==>
               ((Ccid(r), k) in o.rt.dataplane.value.sessions <==> k in r.sessions && S.Up(r.sessions[k])))
  }

  /** The tunnel with the session indexed by the peer's ID it will hold. */
  function Indexed(r: Rt, sid: U32, avps: seq<Avp>): Rt
    requires sid in r.sessions
  {
    r.(byRemote := Index(r.byRemote, S.OnMessage(r.sessions[sid], avps).0.peerSid, sid))
  }

  lemma RoutedStep(r: Rt, avps: seq<Avp>, messageType: U16, route: Route, sid: U32, now: real)
    requires GetMessageType(avps) == Success(Some(messageType)) && IsSessionType(Some(messageType))
    requires ReadRoute(avps, messageType) == Success(route) && Target(r, route, messageType) == Some(sid) && sid in r.sessions
    ensures Arrived(r, avps, now) == SessionStep(Indexed(r, sid, avps), sid, S.Message(avps), now)
  {
    hide SessionStep, S.OnMessage, Target, ReadRoute, Index, GetMessageType;
    TypedNotEmpty(avps);
  }

  lemma CdnRoute(local: U32, remote: U32, info: ResultInfo)
    ensures var avps := BuildCdn(local, remote, info);
            GetMessageType(avps) == Success(Some(CDN)) && ReadRoute(avps, CDN) == Success(Route(remote, local, None))
  {
    hide BuildCdn, GetMessageType, ParseCdn;
    CdnSurvives(local, remote, info);
  }

  lemma KernelFollows(r: Rt, sid: U32)
    requires Inv(r) && r.dataplane.Some?
    ensures (Ccid(r), sid) in r.dataplane.value.sessions <==> sid in r.sessions && S.Up(r.sessions[sid])
  {
    hide P.PeerInv, Configured, HelloInv, S.Params;
    assert EntryAgrees(r.dataplane.value, Ccid(r), sid, r.sessions);
  }

  lemma CdnRouted(r: Rt, local: U32, remote: U32, info: ResultInfo, sid: U32, now: real)
    requires Inv(r) && sid in r.sessions && Target(r, Route(remote, local, None), CDN) == Some(sid)
    ensures TakenDown(r, Arrived(r, BuildCdn(local, remote, info), now), sid)
  {
    hide Agrees, PeerOk, Configured, BuildCdn, SessionStep, S.React, S.OnMessage, Target, ReadRoute, Index, SessionWords, GetMessageType, Speaks, Frame, Arrived;
    var avps := BuildCdn(local, remote, info);
    CdnRoute(local, remote, info);
    RoutedStep(r, avps, CDN, Route(remote, local, None), sid, now);
    var s, indexed := r.sessions[sid], Indexed(r, sid, avps);
    SoundIndex(r, S.OnMessage(s, avps).0.peerSid, sid);
    SE.CdnTaken(s, local, remote, info);
    DownIsSilent(s, S.PeerCdn(Some(Fields(info))));
    Exceptions.SessionStepRaises(indexed, sid, S.Message(avps), now);
    SessionStepSpeaks(indexed, sid, S.Message(avps), now);
    SessionStepMoves(indexed, sid, S.Message(avps), now);
    var q := Arrived(r, avps, now).rt;
    if q.dataplane.Some? {
      forall k: U32 ensures (Ccid(r), k) in q.dataplane.value.sessions <==> k != sid && k in r.sessions && S.Up(r.sessions[k]) {
        KernelFollows(q, k);
      }
    }
  }

  lemma DownIsSilent(s: S.Fsm, reason: S.Reason)
    ensures SessionWords(SE.Down(s, reason)) == []
  {
    var actions := SE.Down(s, reason);
    if actions != [] {
      assert SessionWords(actions[1..][1..]) == [];
      assert SessionWords(actions[1..]) == [];
    }
  }

  /** So does a CDN that carries our session ID. */
  lemma CdnArrives(r: Rt, local: U32, sid: U32, info: ResultInfo, now: real)
    requires Inv(r) && sid != 0 && sid in r.sessions
    ensures TakenDown(r, Arrived(r, BuildCdn(local, sid, info), now), sid)
  {
    hide Inv, TakenDown, BuildCdn, Arrived;
    CdnRouted(r, local, sid, info, sid, now);
  }

  /** And one that carries only the peer's, by the session known to have that peer. */
  lemma CdnByPeerSid(r: Rt, peerSid: U32, info: ResultInfo, now: real)
    requires Inv(r) && peerSid != 0 && peerSid in r.byRemote
    ensures TakenDown(r, Arrived(r, BuildCdn(peerSid, 0, info), now), r.byRemote[peerSid])
  {
    hide PeerOk, HelloInv, Agrees, TakenDown, BuildCdn, Arrived;
    CdnRouted(r, peerSid, 0, info, r.byRemote[peerSid], now);
  }

  /** Which sessions are known by their peer's ID: the first that learned it keeps it. */
  lemma ArrivedIndexes(r: Rt, messageType: U16, args: SessionArgs, sid: U32, now: real)
    requires Inv(r) && sid in r.sessions
    requires messageType == ICRQ || messageType == ICRP || messageType == ICCN
    requires Target(r, Route(args.remoteSid, args.localSid, args.remoteEndId), messageType) == Some(sid)
    ensures var q := Arrived(r, BuildSession(messageType, args), now).rt;
            sid in q.sessions &&
            var p := q.sessions[sid].peerSid;
            && (p != 0 ==> p in q.byRemote && q.byRemote[p] == if p in r.byRemote then r.byRemote[p] else sid)
            && (forall k :: k != p ==> (k in q.byRemote <==> k in r.byRemote) && (k in r.byRemote ==> q.byRemote[k] == r.byRemote[k]))
  {
    hide Inv, BuildSession, S.OnMessage, Target, SessionStep, Arrived, GetMessageType, ReadRoute;
    var avps := BuildSession(messageType, args);
    SessionRoute(messageType, args);
    RoutedStep(r, avps, messageType, Route(args.remoteSid, args.localSid, args.remoteEndId), sid, now);
    ArrivedRouted(r, messageType, args, sid, now);
    IndexStays(Indexed(r, sid, avps), sid, S.Message(avps), now);
  }

  lemma SessionRoute(messageType: U16, args: SessionArgs)
    requires messageType == ICRQ || messageType == ICRP || messageType == ICCN
    ensures var avps := BuildSession(messageType, args);
            && GetMessageType(avps) == Success(Some(messageType))
            && ReadRoute(avps, messageType) == Success(Route(args.remoteSid, args.localSid, args.remoteEndId))
  {
    hide BuildSession, GetMessageType, ParseSession;
    SessionSurvives(messageType, args);
  }

  lemma IndexStays(r: Rt, sid: U32, e: S.Event, now: real)
    ensures SessionStep(r, sid, e, now).rt.byRemote == r.byRemote
  {
    hide S.React, ExecSession;
    if sid in r.sessions {
      var (t, actions) := S.React(r.sessions[sid], e);
      ExecIndexStays(r.(sessions := r.sessions[sid := t]), actions, now);
    }
  }

  lemma {:induction false} ExecIndexStays(r: Rt, actions: seq<S.Action>, now: real)
    ensures ExecSession(r, actions, now).rt.byRemote == r.byRemote
    decreases |actions|
  {
    hide Transmit, AddSession, DropSession;
    if actions != [] {
      TablesOnly(r, actions[0]);
      match actions[0] {
        case SendMessage(avps) =>
          TransmitOnly(r, avps, now);
          ExecIndexStays(Transmit(r, avps, now).rt, actions[1..], now);
        case DataplaneAddSession(params) => ExecIndexStays(AddSession(r, params), actions[1..], now);
        case DataplaneDelSession(ccid, sid) => ExecIndexStays(DropSession(r, ccid, sid), actions[1..], now);
        case _ => ExecIndexStays(r, actions[1..], now);
      }
    }
  }

  // ---- learning the peer's CCID ----------------------------------------------------------

  /**
   While the peer's CCID is unknown, any message that opens and assigns a CCID, delivered or not, in order or not,
   makes it the one everything is addressed to from then on.
   */
  lemma AssignedIsLearned(r: Rt, buf: Bytes, ccid: U32, now: real)
    requires Inv(r) && Open(r.setup, buf).Success? && ccid != 0
    requires TE.Carries(Open(r.setup, buf).value.avps, ASSIGNED_CONTROL_CONNECTION_ID, Some(Pack(ccid, 4)))
    ensures HandleDatagram(r, buf, now).rt.peer.remoteCcid == if r.peer.remoteCcid == 0 then ccid else r.peer.remoteCcid
  {
    hide Agrees, P.PeerInv, HelloInv, Configured, Open, Arrived, P.Receive, Reply, Find, Pack, Unpack;
    OpenInRange(r.setup, buf);
    var m := Open(r.setup, buf).value;
    WordSizes();
    UnpackPack(ccid, 4);
    var p := Overhear(r, m.avps);
    LearnedInRange(r.peer.remoteCcid, m.avps);
    OverhearOk(r.peer, p.peer.remoteCcid);
    var received := P.Receive(p.peer, m);
    RepliesEncode(p.peer, m);
    var moved := p.(peer := received.peer);
    ReplyLogs(moved, received.responses);
    ReplyNeverRaises(moved, received.responses);
    var o := Reply(moved, received.responses);
    PeerMoves(r, o.rt);
    InvConfigured(o.rt);
    ArrivedSpeaks(o.rt, received.delivered, now);
    SpeaksOn(o.rt, Arrived(o.rt, received.delivered, now).rt);
  }

  /** A CCID that is not four octets, or is 0, is not learned. */
  lemma NothingElseIsLearned(remote: int, avps: seq<Avp>)
    ensures var a := Find(avps, ASSIGNED_CONTROL_CONNECTION_ID);
            (a.None? || |a.value.value| != 4 || a.value.value == [0, 0, 0, 0]) && remote >= 0 ==> Learned(remote, avps) == remote
  {
    hide Find;
    assert Unpack([0, 0, 0, 0]) == 0 by {
      assert [0, 0, 0, 0][..3] == [0, 0, 0] && [0, 0, 0][..2] == [0, 0] && [0, 0][..1] == [0] && [0][..0] == [];
      assert Unpack([]) == 0 && Unpack([0]) == 0 && Unpack([0, 0]) == 0 && Unpack([0, 0, 0]) == 0;
    }
  }

  // ---- passwords -------------------------------------------------------------------------

  /** The digest octets in buf are the HMAC, under this password, of buf with zeros in their place. */
  ghost predicate Authentic(a: Auth, buf: Bytes, m: ControlMessage, k: nat) {
    && k <= |m.avps| && EncodeAll(m.avps[..k], NoSecret, None).Success?
    && var start, size := DigestOffset(m.avps, k), DigestSize(a.hash);
       start + size <= |buf| && buf[start..start + size] == a.hmac(a.hash, a.secret, [1] + Patched(buf, start, Zeros(size)))
  }

  /**
   With a password, a datagram without a digest changes nothing at all, and neither does one whose only digest, of
   the right type and size and with its M bit set, is not authentic; an authentic one is opened.
   */
  lemma OnlyAuthenticHandled(r: Rt, buf: Bytes, m: ControlMessage, k: nat, now: real)
    requires r.setup.auth.Some? && FromWire(buf) == Success(m)
    ensures NoDigest(m.avps) ==> HandleDatagram(r, buf, now) == Outcome(r, false)
    ensures var a := r.setup.auth.value;
            FirstDigest(m.avps, k, a.hash) && m.avps[k].mandatory && (forall j :: k < j < |m.avps| ==> !IsDigest(m.avps[j])) ==>
              && (Authentic(a, buf, m, k) ==> Open(r.setup, buf) == Success(m))
              && (!Authentic(a, buf, m, k) ==> HandleDatagram(r, buf, now) == Outcome(r, false))
  {
    hide ToWire, FromWire, DecodeAndVerify, Arrived, P.Receive, Reply, Overhear, EncodeAll, DigestOffset;
    var a := r.setup.auth.value;
    if NoDigest(m.avps) {
      WireIsCanonical(m, buf);
      UnsignedNeverVerifies(a.hmac, m, buf, a.hash, a.secret);
    }
    if FirstDigest(m.avps, k, a.hash) && m.avps[k].mandatory && (forall j :: k < j < |m.avps| ==> !IsDigest(m.avps[j])) {
      AcceptedExactlyWhenAuthentic(a.hmac, buf, m, k, a.hash, a.secret);
    }
  }
}
