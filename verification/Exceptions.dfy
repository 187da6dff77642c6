/**
 Which events of a tunnel raise. Nothing catches what HandleDatagram raises, so this is
 also when a datagram ends the daemon's receive loop.
 */
module Exceptions {
  import opened Prelude
  import opened AvpCodec
  import opened MessageCodec
  import opened TypedMessages
  import opened Runtime
  import opened Safety
  import T = TunnelFsm
  import S = SessionFsm
  import P = Transport

  /** Too long a host name, vendor name or capability list for an AVP. */
  ghost predicate TooWide(c: T.Config) {
    |c.hostName| > 1017 || |c.pwCapabilities| > 508 || (c.vendorName.Some? && |c.vendorName.value| > 1017)
  }

  /** The session will announce itself under a name that does not fit an AVP. */
  ghost predicate Unnameable(s: S.Fsm) { s.config.initiator && s.state.Idle? && |s.config.name| > 1017 }

  ghost predicate SomeUnnameable(sessions: map<U32, S.Fsm>) { exists sid :: sid in sessions && Unnameable(sessions[sid]) }

  lemma TransmitRaises(r: Rt, avps: seq<Avp>, slots: seq<Option<Avp>>, attrs: seq<int>, now: real)
    requires avps != [] && avps == Collect(slots) && Keyed(slots, attrs) && MESSAGE_DIGEST !in attrs && |slots| <= 11
    ensures Transmit(r, avps, now).raised <==> ToWire(P.Stamp(r.peer, avps)).Failure?
  {
    hide ToWire, Sealed, Collect, Keyed;
    if ToWire(P.Stamp(r.peer, avps)).Success? {
      SlotsSeal(r.setup, P.Stamp(r.peer, avps), slots, attrs);
    }
  }

  lemma SccrxRaises(r: Rt, messageType: U16, now: real)
    requires PeerOk(r.peer)
    ensures Transmit(r, BuildSccrx(messageType, T.Identity(r.fsm.config)), now).raised <==> TooWide(r.fsm.config)
  {
    hide ToWire, Transmit, Collect, GetMessageType, Pack, PackCapabilities, P.PeerInv;
    var args := T.Identity(r.fsm.config);
    var avps := BuildSccrx(messageType, args);
    SccrxSurvives(messageType, args);
    TypedNotEmpty(avps);
    SccrxEncodes(P.Stamp(r.peer, avps), messageType, args);
    TransmitRaises(r, avps, SccrxSlots(messageType, args), SCCRX_ATTRS, now);
  }

  ghost function Announcement(c: S.Config): SessionArgs {
    SessionArgs(c.localSid, 0, Some(c.pseudowireType), c.l2SpecificSublayer, c.dataSequencing,
                c.circuitStatus, Some(c.name), c.cookie, c.txConnectSpeed, c.rxConnectSpeed)
  }

  lemma IcrqRaises(r: Rt, c: S.Config, now: real)
    requires PeerOk(r.peer)
    ensures Transmit(r, S.IcrqAvps(c), now).raised <==> |c.name| > 1017
  {
    hide ToWire, Transmit, Collect, GetMessageType, Pack, P.PeerInv;
    var args := Announcement(c);
    var avps := BuildSession(ICRQ, args);
    SessionSurvives(ICRQ, args);
    TypedNotEmpty(avps);
    SessionEncodes(P.Stamp(r.peer, avps), ICRQ, args);
    TransmitRaises(r, avps, SessionSlots(ICRQ, args), SESSION_ATTRS, now);
  }

  // ---- sessions ------------------------------------------------------------------

  lemma IcrpSent(c: S.Config, peerSid: U32)
    ensures AlwaysSent(S.IcrpAvps(c, peerSid))
  {
    hide BuildSession;
  }

  /** Only the announcement on the tunnel's coming up may be too long. */
  lemma SessionSends(s: S.Fsm, e: S.Event)
    ensures var actions := S.React(s, e).1;
            actions != [] && actions[0].SendMessage? ==>
              if e.TunnelUp? then actions == [S.SendMessage(S.IcrqAvps(s.config))] && s.config.initiator && s.state.Idle?
              else AlwaysSent(actions[0].avps)
    ensures e.TunnelUp? && s.config.initiator && s.state.Idle? ==> S.React(s, e).1 == [S.SendMessage(S.IcrqAvps(s.config))]
    ensures e.TunnelUp? && !(s.config.initiator && s.state.Idle?) ==> S.React(s, e) == (s, [])
  {
    hide AlwaysSent, S.IcrqAvps, S.IcrpAvps, S.IccnAvps, S.CdnAvps, S.Params, ParseSession, ParseCdn, GetMessageType;
    CdnSent(s, if e.Close? then e.code else GENERAL_ERROR);
    if e.Message? && ParseSession(e.avps).Success? {
      var t := S.Learn(s, ParseSession(e.avps).value);
      IcrpSent(s.config, t.peerSid);
      IccnSent(s.config, t.peerSid);
    }
  }

  lemma SessionStepRaises(r: Rt, sid: U32, e: S.Event, now: real)
    requires PeerOk(r.peer) && sid in r.sessions
    ensures SessionStep(r, sid, e, now).raised <==> e.TunnelUp? && Unnameable(r.sessions[sid])
  {
    hide S.React, Transmit, PeerOk, AlwaysSent, S.Params, S.IcrqAvps, Executed;
    var s := r.sessions[sid];
    var (t, actions) := S.React(s, e);
    S.ReactDelta(s, e);
    SessionSends(s, e);
    var moved := r.(sessions := r.sessions[sid := t]);
    var rest := S.Tail(actions);
    if actions != [] && actions[0].SendMessage? {
      ExecSend(moved, actions, now);
      var o := Transmit(moved, actions[0].avps, now);
      ExecPair(o.rt, rest, now);
      if e.TunnelUp? {
        IcrqRaises(moved, s.config, now);
      } else {
        ShortTransmits(moved, actions[0].avps, now);
      }
    } else {
      ExecPair(moved, rest, now);
    }
  }

  ghost predicate Among(sids: seq<U32>, sessions: map<U32, S.Fsm>) {
    exists sid :: sid in sids && sid in sessions && Unnameable(sessions[sid])
  }

  lemma {:induction false} CascadeRaises(r: Rt, sids: seq<U32>, now: real)
    requires Sound(r) && (forall sid :: sid in sids ==> sid in r.sessions)
    ensures Cascade(r, sids, S.TunnelUp, now).raised <==> Among(sids, r.sessions)
    decreases |sids|
  {
    hide Agrees, P.PeerInv, Configured, SessionStep, S.React, Unnameable, Frame;
    if sids != [] {
      var sid := sids[0];
      var s := r.sessions[sid];
      SessionStepRaises(r, sid, S.TunnelUp, now);
      SessionStepMoves(r, sid, S.TunnelUp, now);
      var o := SessionStep(r, sid, S.TunnelUp, now);
      if !o.raised {
        CascadeRaises(o.rt, sids[1..], now);
        AnnouncedNotUnnameable(s);
        forall k | k in sids ensures Unnameable(o.rt.sessions[k]) <==> Unnameable(r.sessions[k]) {
        }
        assert Among(sids[1..], o.rt.sessions) <==> Among(sids, r.sessions);
      }
    }
  }

  lemma AnnouncedNotUnnameable(s: S.Fsm)
    ensures !Unnameable(s) ==> !Unnameable(S.React(s, S.TunnelUp).0)
  {
    hide S.IcrqAvps;
  }

  // ---- the control connection ----------------------------------------------------

  /** The event's first message, SCCRQ or SCCRP, is too long, or it brings the tunnel up and some announcement is. */
  ghost predicate Unsayable(r: Rt, e: T.Event) {
    var t := T.React(r.fsm, e).0;
    || (t.state != r.fsm.state && (t.state.WaitCtlReply? || t.state.WaitCtlConn?) && TooWide(r.fsm.config))
    || (!T.Up(r.fsm) && T.Up(t) && SomeUnnameable(r.sessions))
  }

  /** What a step sends first, and what follows. */
  lemma TunnelSends(f: T.Fsm, e: T.Event)
    ensures var (t, actions) := T.React(f, e);
            var opens := t.state != f.state && (t.state.WaitCtlReply? || t.state.WaitCtlConn?);
            && (opens ==> !T.Up(t) && (actions == [T.SendMessage(BuildSccrx(SCCRQ, T.Identity(f.config)))]
                                      || actions == [T.SendMessage(BuildSccrx(SCCRP, T.Identity(f.config)))]))
            && (!opens && actions != [] && actions[0].SendMessage? ==> T.Short(f.config, actions[0].avps))
  {
    hide BuildSccrx, BuildBare, BuildStopCcn, ParseSccrx, ParseStopCcn, GetMessageType;
  }

  lemma RestRaises(r: Rt, s: T.Fsm, e: T.Event, rest: seq<T.Action>, now: real)
    requires Sound(r) && T.Crossing(s, e, r.fsm, rest)
    ensures ExecTunnel(r, rest, now).raised <==> !T.Up(s) && T.Up(r.fsm) && SomeUnnameable(r.sessions)
  {
    hide Agrees, PeerOk, Cascade, GoDown, Unnameable, ArmHello, CancelHello;
    if |rest| == 1 {
      ExecLast(r, rest, now);
    } else if |rest| == 2 {
      ExecTwo(r, rest, now);
      TimersOnly(r);
      var q := Effect(r, rest[0], now).rt;
      SoundTimers(r, q);
      if rest[1].WentUp? {
        CascadeRaises(q, q.order, now);
      } else {
        GoDownCleans(q, now);
      }
    }
  }

  lemma TimersOnly(r: Rt)
    ensures ArmHello(r) == r.(hello := ArmHello(r).hello, timers := ArmHello(r).timers, nextTimer := ArmHello(r).nextTimer)
    ensures CancelHello(r) == r.(hello := CancelHello(r).hello, timers := CancelHello(r).timers, nextTimer := CancelHello(r).nextTimer)
  {
  }

  lemma TunnelStepRaises(r: Rt, e: T.Event, now: real)
    requires Sound(r)
    ensures TunnelStep(r, e, now).raised <==> Unsayable(r, e)
  {
    hide T.React, Transmit, Agrees, P.PeerInv, Configured, Frame, AlwaysSent, T.Short, T.Crossing, ExecTunnel, TooWide, SomeUnnameable, BuildSccrx;
    var (t, actions) := T.React(r.fsm, e);
    T.ReactDelta(r.fsm, e);
    TunnelSends(r.fsm, e);
    MoveFsm(r, t);
    var q := r.(fsm := t);
    if actions != [] && actions[0].SendMessage? {
      ExecTunnelSend(q, actions, now);
      var o := Transmit(q, actions[0].avps, now);
      TransmitChats(q, actions[0].avps, now);
      ChatKeeps(q, o.rt);
      RestRaises(o.rt, r.fsm, e, T.Tail(actions), now);
      if t.state != r.fsm.state && (t.state.WaitCtlReply? || t.state.WaitCtlConn?) {
        SccrxRaises(q, SCCRQ, now);
        SccrxRaises(q, SCCRP, now);
        NothingMore(o.rt, now);
      } else {
        TunnelShortSent(r.fsm.config, actions[0].avps);
        ShortTransmits(q, actions[0].avps, now);
      }
    } else {
      RestRaises(q, r.fsm, e, T.Tail(actions), now);
    }
  }

  lemma NothingMore(r: Rt, now: real)
    ensures ExecTunnel(r, [], now) == Outcome(r, false)
  {
  }

  // ---- every event ---------------------------------------------------------------

  /** The first Message Type AVP of what was delivered is not two octets. */
  ghost predicate Unreadable(delivered: seq<Avp>) { delivered != [] && GetMessageType(delivered).Failure? }

  lemma ArrivedRaises(r: Rt, delivered: seq<Avp>, now: real)
    requires Sound(r)
    ensures Arrived(r, delivered, now).raised <==>
            Unreadable(delivered)
            || (delivered != [] && !IsSessionType(GetMessageType(delivered).value) && Unsayable(r, T.Message(delivered)))
  {
    hide Agrees, P.PeerInv, Configured, GetMessageType, TunnelStep, Unsayable, ReadRoute, Target, SessionStep, S.OnMessage, Index;
    if delivered != [] && GetMessageType(delivered).Success? {
      var mt := GetMessageType(delivered).value;
      if IsSessionType(mt) {
        if ReadRoute(delivered, mt.value).Success? {
          var target := Target(r, ReadRoute(delivered, mt.value).value, mt.value);
          if target.Some? && target.value in r.sessions {
            var peerSid := S.OnMessage(r.sessions[target.value], delivered).0.peerSid;
            SessionStepRaises(r.(byRemote := Index(r.byRemote, peerSid, target.value)), target.value, S.Message(delivered), now);
          }
        }
      } else {
        TunnelStepRaises(r, T.Message(delivered), now);
      }
    }
  }

  /** What the delivery layer hands over for a datagram. */
  function Handed(r: Rt, buf: Bytes): seq<Avp> {
    match Open(r.setup, buf)
    case Failure => []
    case Success(m) => P.Receive(Overhear(r, m.avps).peer, m).delivered
  }

  ghost predicate DatagramRaises(r: Rt, buf: Bytes) {
    var delivered := Handed(r, buf);
    Unreadable(delivered)
    || (delivered != [] && !IsSessionType(GetMessageType(delivered).value) && Unsayable(r, T.Message(delivered)))
  }

  /**
   A datagram raises exactly when what it delivers starts with an unreadable Message Type, or is the
   SCCRQ or the message bringing the tunnel up to which the configured names are too long to reply.
   */
  lemma DatagramRaisesExactly(r: Rt, buf: Bytes, now: real)
    requires Inv(r)
    ensures HandleDatagram(r, buf, now).raised <==> DatagramRaises(r, buf)
  {
    hide Agrees, P.PeerInv, Configured, HelloInv, Open, Arrived, P.Receive, Learned, Reply, Unsayable, Unreadable, GetMessageType;
    OpenInRange(r.setup, buf);
    if Open(r.setup, buf).Success? {
      var m := Open(r.setup, buf).value;
      var q := Overhear(r, m.avps);
      LearnedInRange(r.peer.remoteCcid, m.avps);
      LearnedOnce(r.peer.remoteCcid, m.avps);
      OverhearOk(r.peer, q.peer.remoteCcid);
      var received := P.Receive(q.peer, m);
      RepliesEncode(q.peer, m);
      var q' := q.(peer := received.peer);
      ReplyLogs(q', received.responses);
      ReplyNeverRaises(q', received.responses);
      var o := Reply(q', received.responses);
      PeerMoves(r, o.rt);
      ArrivedRaises(o.rt, received.delivered, now);
      SameSaying(r, o.rt, T.Message(received.delivered));
    } else {
      NothingReadable();
    }
  }

  lemma NothingReadable()
    ensures !Unreadable([])
  {
  }

  lemma SameSaying(r: Rt, q: Rt, e: T.Event)
    requires q.fsm == r.fsm && q.sessions == r.sessions
    ensures Unsayable(q, e) <==> Unsayable(r, e)
  {
  }

  lemma QuietSayable(r: Rt, e: T.Event)
    requires e.Close? || e.HelloTimer? || e.Dead?
    ensures !Unsayable(r, e)
  {
    hide TooWide, SomeUnnameable;
  }

  /** Of all events only a start with too long a host name, and such datagrams, raise: closing, timers, ticks and session closes never do. */
  lemma NextRaisesExactly(r: Rt, e: Event, now: real)
    requires Inv(r) && Possible(r, e)
    ensures Next(r, e, now).raised <==>
            match e
            case Start => r.fsm.state.Idle? && TooWide(r.fsm.config)
            case Datagram(buf) => DatagramRaises(r, buf)
            case _ => false
  {
    hide Agrees, P.PeerInv, Configured, HelloInv, TunnelStep, SessionStep, HandleDatagram, T.React, S.React, TooWide, DatagramRaises, P.TickQueue, Unsayable;
    match e {
      case Start =>
        TunnelStepRaises(r, T.Open, now);
        StartSayable(r);
      case Close =>
        TunnelStepRaises(r, T.Close(ADMIN_SHUTDOWN), now);
        QuietSayable(r, T.Close(ADMIN_SHUTDOWN));
      case Datagram(buf) => DatagramRaisesExactly(r, buf, now);
      case Tick =>
        P.TickKeepsInv(r.peer, now);
        var (peer, resend, dead) := P.Tick(r.peer, now);
        var q := r.(peer := peer, wire := r.wire + resend);
        PeerMoves(r, q);
        TunnelStepRaises(q, T.Dead, now);
        QuietSayable(q, T.Dead);
      case Fires(handle) =>
        var q := r.(hello := None, timers := r.timers - {handle});
        SoundTimers(r, q);
        TunnelStepRaises(q, T.HelloTimer, now);
        QuietSayable(q, T.HelloTimer);
      case SessionClose(sid, code) =>
        if sid in r.sessions {
          SessionStepRaises(r, sid, S.Close(code), now);
        } else {
          UnknownSession(r, sid, S.Close(code), now);
        }
      case Elsewhere(tables) =>
    }
  }

  lemma UnknownSession(r: Rt, sid: U32, e: S.Event, now: real)
    requires sid !in r.sessions
    ensures SessionStep(r, sid, e, now) == Outcome(r, false)
  {
  }

  lemma StartSayable(r: Rt)
    ensures Unsayable(r, T.Open) <==> r.fsm.state.Idle? && TooWide(r.fsm.config)
  {
    hide TooWide, SomeUnnameable;
  }
}
