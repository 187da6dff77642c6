/**
 Two tunnels facing each other. Each takes what the other has sent, in order, in batches of any
 size, as the delivery layer hands it over; opens, closes, timers, dead peers and the other
 tunnels of both daemons interleave freely.
 */
module Pairing {
  import opened Prelude
  import opened AvpCodec
  import opened TypedMessages
  import opened Signing
  import opened Runtime
  import opened Safety
  import KE = KernelEntry
  import T = TunnelFsm
  import S = SessionFsm
  import D = Dataplane
  import P = Transport

  /** What one end is configured as, the peer's CCID included, which may be 0. */
  datatype End = End(config: T.Config, sessions: map<U32, S.Config>, remoteCcid: int)

  /** Session IDs are the keys and not zero; names are unique. */
  ghost predicate WellConfigured(x: End) {
    && (forall sid :: sid in x.sessions ==> sid != 0 && x.sessions[sid].localSid == sid)
    && (forall i, j :: i in x.sessions && j in x.sessions && x.sessions[i].name == x.sessions[j].name ==> i == j)
  }

  ghost predicate Runs(r: Rt, x: End) {
    && r.fsm.config == x.config && r.sessions.Keys == x.sessions.Keys
    && (forall sid :: sid in r.sessions ==> r.sessions[sid].config == x.sessions[sid])
  }

  // ---- what an end may say -------------------------------------------------------

  /** p is the ID of the session of y that bears the same name. */
  ghost predicate Partner(c: S.Config, p: U32, y: End) { p != 0 && p in y.sessions && y.sessions[p].name == c.name }

  ghost predicate Addressed(c: S.Config, m: seq<Avp>, p: U32, y: End) {
    Partner(c, p, y) && (m == S.IcrpAvps(c, p) || m == S.IccnAvps(c, p))
  }

  ghost predicate Closes(c: S.Config, m: seq<Avp>, p: U32, code: U16) { m == BuildCdn(c.localSid, p, Bare(code)) }

  ghost predicate OfSession(c: S.Config, m: seq<Avp>, y: End) {
    m == S.IcrqAvps(c) || (exists p: U32 :: Addressed(c, m, p, y)) || (exists p: U32, code: U16 :: Closes(c, m, p, code))
  }

  ghost predicate Stops(c: T.Config, m: seq<Avp>, code: U16) { m == T.StopCcnAvps(c, code) }

  ghost predicate OfTunnel(c: T.Config, m: seq<Avp>) {
    || m == T.SccrqAvps(c) || m == T.SccrpAvps(c) || m == BuildBare(SCCCN) || m == BuildBare(HELLO)
    || (exists code: U16 :: Stops(c, m, code))
  }

  /** x may send m to y. */
  ghost predicate Genuine(x: End, y: End, m: seq<Avp>) {
    OfTunnel(x.config, m) || exists sid :: sid in x.sessions && OfSession(x.sessions[sid], m, y)
  }

  // ---- what an end may hold ------------------------------------------------------

  /** The session's idea of its peer is the session of y with its name, if anything; where batches keep cookies apart, so is its idea of the cookie. */
  ghost predicate Bound(s: S.Fsm, y: End, kept: bool) {
    && (s.peerSid != 0 ==> Partner(s.config, s.peerSid, y))
    && (s.state.WaitSessionConnect? || s.state.Established? ==> s.peerSid != 0)
    && (kept ==>
          && (s.peerCookieLearned.Some? ==> s.peerSid != 0 && s.peerCookieLearned == y.sessions[s.peerSid].cookie)
          && (s.state.WaitSessionConnect? || s.state.Established? ==> s.peerCookieLearned == y.sessions[s.peerSid].cookie))
  }

  ghost predicate Knows(f: T.Fsm, y: End) {
    f.state.WaitCtlConn? || f.state.Established? ==>
      f.peerCcid == y.config.localCcid && f.peerHostName == y.config.hostName && f.peerRouterId == y.config.routerId
  }

  ghost predicate AllGenuine(x: End, y: End, sent: seq<seq<Avp>>) { forall i :: 0 <= i < |sent| ==> Genuine(x, y, sent[i]) }

  ghost predicate Paired(r: Rt, x: End, y: End, kept: bool) {
    && Runs(r, x) && Knows(r.fsm, y) && AllGenuine(x, y, r.sent)
    && (forall sid :: sid in r.sessions ==> Bound(r.sessions[sid], y, kept))
    && (r.peer.remoteCcid == x.remoteCcid || r.peer.remoteCcid == y.config.localCcid)
  }

  // ---- reading a batch by its first message ---------------------------------------

  lemma MergedSession(messageType: U16, args: SessionArgs, rest: seq<Avp>)
    ensures var avps := BuildSession(messageType, args) + rest;
            && GetMessageType(avps) == Success(Some(messageType))
            && (ParseSession(avps).Success? ==>
                  var f := ParseSession(avps).value;
                  && f.localSid == args.localSid && f.remoteSid == args.remoteSid
                  && (args.remoteEndId.Some? ==> f.remoteEndId == args.remoteEndId)
                  && (args.assignedCookie.Some? || Find(rest, ASSIGNED_COOKIE).None? ==> f.assignedCookie == args.assignedCookie))
  {
    hide Find, BuildSession, Number16, Number32, Number64;
    var m := BuildSession(messageType, args);
    SessionFound(messageType, args);
    FindConcat(m, rest, MESSAGE_TYPE);
    FindConcat(m, rest, LOCAL_SESSION_ID);
    FindConcat(m, rest, REMOTE_SESSION_ID);
    FindConcat(m, rest, REMOTE_END_ID);
    FindConcat(m, rest, ASSIGNED_COOKIE);
    NumbersSurvive16(MESSAGE_TYPE, messageType, true);
    NumbersSurvive32(LOCAL_SESSION_ID, args.localSid);
    NumbersSurvive32(REMOTE_SESSION_ID, args.remoteSid);
  }

  lemma MergedSccrx(messageType: U16, args: SccrxArgs, rest: seq<Avp>)
    ensures var avps := BuildSccrx(messageType, args) + rest;
            && GetMessageType(avps) == Success(Some(messageType))
            && (ParseSccrx(avps).Success? ==>
                  var f := ParseSccrx(avps).value;
                  f.routerId == args.routerId && f.assignedCcid == args.assignedCcid && f.hostName == args.hostName)
  {
    hide Find, BuildSccrx, Number16, Number32, DecodeCapabilities;
    var m := BuildSccrx(messageType, args);
    SccrxFound(messageType, args);
    FindConcat(m, rest, MESSAGE_TYPE);
    FindConcat(m, rest, ROUTER_ID);
    FindConcat(m, rest, ASSIGNED_CONTROL_CONNECTION_ID);
    FindConcat(m, rest, HOST_NAME);
    NumbersSurvive16(MESSAGE_TYPE, messageType, true);
    NumbersSurvive32(ROUTER_ID, args.routerId);
    NumbersSurvive32(ASSIGNED_CONTROL_CONNECTION_ID, args.assignedCcid);
  }

  lemma MergedType(m: seq<Avp>, rest: seq<Avp>)
    requires GetMessageType(m).Success? && GetMessageType(m).value.Some?
    ensures GetMessageType(m + rest) == GetMessageType(m)
  {
    hide Find, Number16;
    FindConcat(m, rest, MESSAGE_TYPE);
  }

  // ---- sessions ------------------------------------------------------------------

  ghost predicate SendsOf(c: S.Config, actions: seq<S.Action>, y: End) {
    actions != [] && actions[0].SendMessage? ==> OfSession(c, actions[0].avps, y)
  }

  lemma CdnIsOfSession(s: S.Fsm, code: U16, y: End)
    ensures OfSession(s.config, S.CdnAvps(s, code), y)
  {
    hide BuildCdn, S.IcrqAvps;
    assert Closes(s.config, S.CdnAvps(s, code), s.peerSid, code);
  }

  lemma OwnEventBinds(s: S.Fsm, e: S.Event, y: End, kept: bool)
    requires Bound(s, y, kept) && !e.Message?
    ensures var (t, actions) := S.React(s, e);
            Bound(t, y, kept) && SendsOf(s.config, actions, y)
  {
    hide S.IcrqAvps, S.CdnAvps;
    if e.Close? {
      CdnIsOfSession(s, e.code, y);
    }
  }

  /** The message names the partner, and its cookie if it has one. */
  ghost predicate Introduces(c: S.Config, avps: seq<Avp>, y: End, kept: bool) {
    ParseSession(avps).Success? ==>
      var f := ParseSession(avps).value;
      Partner(c, f.localSid, y) && (kept ==> f.assignedCookie == y.sessions[f.localSid].cookie)
  }

  lemma LearnBinds(s: S.Fsm, avps: seq<Avp>, y: End, kept: bool)
    requires WellConfigured(y) && Bound(s, y, kept) && Introduces(s.config, avps, y, kept) && ParseSession(avps).Success?
    ensures var t := S.Learn(s, ParseSession(avps).value);
            t.config == s.config && Partner(t.config, t.peerSid, y) && (kept ==> t.peerCookieLearned == y.sessions[t.peerSid].cookie)
  {
    hide ParseSession;
  }

  lemma MessageBinds(s: S.Fsm, avps: seq<Avp>, messageType: U16, y: End, kept: bool)
    requires WellConfigured(y) && Bound(s, y, kept) && GetMessageType(avps) == Success(Some(messageType))
    requires messageType == ICRQ || messageType == ICRP ==> Introduces(s.config, avps, y, kept)
    ensures var (t, actions) := S.OnMessage(s, avps);
            Bound(t, y, kept) && SendsOf(s.config, actions, y)
  {
    hide S.IcrpAvps, S.IccnAvps, S.CdnAvps, S.Params, ParseSession, ParseCdn, GetMessageType, Introduces, WellConfigured, S.IcrqAvps;
    CdnIsOfSession(s, GENERAL_ERROR, y);
    if (messageType == ICRQ || messageType == ICRP) && ParseSession(avps).Success? {
      LearnBinds(s, avps, y, kept);
      var t := S.Learn(s, ParseSession(avps).value);
      assert Addressed(s.config, S.IcrpAvps(s.config, t.peerSid), t.peerSid, y);
      assert Addressed(s.config, S.IccnAvps(s.config, t.peerSid), t.peerSid, y);
    }
  }

  // ---- which message it was --------------------------------------------------------

  lemma OfTunnelTyped(c: T.Config, m: seq<Avp>)
    requires OfTunnel(c, m)
    ensures GetMessageType(m).Success? && GetMessageType(m).value.Some?
    ensures !IsSessionType(GetMessageType(m).value)
    ensures GetMessageType(m).value == Some(SCCRQ) ==> m == T.SccrqAvps(c)
    ensures GetMessageType(m).value == Some(SCCRP) ==> m == T.SccrpAvps(c)
  {
    hide BuildSccrx, BuildBare, BuildStopCcn, GetMessageType;
    SccrxSurvives(SCCRQ, T.Identity(c));
    SccrxSurvives(SCCRP, T.Identity(c));
    BareSurvives(SCCCN);
    BareSurvives(HELLO);
    if code: U16 :| Stops(c, m, code) {
      StopCcnSurvives(c.localCcid, Bare(code));
    }
  }

  lemma OfSessionTyped(c: S.Config, m: seq<Avp>, y: End)
    requires OfSession(c, m, y)
    ensures GetMessageType(m).Success? && IsSessionType(GetMessageType(m).value)
    ensures GetMessageType(m).value == Some(ICRQ) ==> m == S.IcrqAvps(c)
    ensures GetMessageType(m).value == Some(ICRP) ==> exists p: U32 :: Partner(c, p, y) && m == S.IcrpAvps(c, p)
  {
    hide BuildSession, BuildCdn, GetMessageType, Partner;
    IcrqTyped(c);
    if p: U32 :| Addressed(c, m, p, y) {
      IcrpTyped(c, p);
      IccnTyped(c, p);
    } else if p: U32, code: U16 :| Closes(c, m, p, code) {
      CdnSurvives(c.localSid, p, Bare(code));
    }
  }

  ghost function IcrqArgs(c: S.Config): SessionArgs {
    SessionArgs(c.localSid, 0, Some(c.pseudowireType), c.l2SpecificSublayer, c.dataSequencing,
                c.circuitStatus, Some(c.name), c.cookie, c.txConnectSpeed, c.rxConnectSpeed)
  }

  ghost function IcrpArgs(c: S.Config, p: U32): SessionArgs {
    SessionArgs(c.localSid, p, None, c.l2SpecificSublayer, c.dataSequencing, c.circuitStatus, None, c.cookie,
                c.txConnectSpeed, c.rxConnectSpeed)
  }

  lemma IcrqTyped(c: S.Config)
    ensures S.IcrqAvps(c) == BuildSession(ICRQ, IcrqArgs(c)) && GetMessageType(S.IcrqAvps(c)) == Success(Some(ICRQ))
  {
    hide BuildSession, GetMessageType;
    SessionSurvives(ICRQ, IcrqArgs(c));
  }

  lemma IcrpTyped(c: S.Config, p: U32)
    ensures S.IcrpAvps(c, p) == BuildSession(ICRP, IcrpArgs(c, p)) && GetMessageType(S.IcrpAvps(c, p)) == Success(Some(ICRP))
  {
    hide BuildSession, GetMessageType;
    SessionSurvives(ICRP, IcrpArgs(c, p));
  }

  lemma IccnTyped(c: S.Config, p: U32)
    ensures GetMessageType(S.IccnAvps(c, p)) == Success(Some(ICCN))
  {
    hide BuildSession, GetMessageType;
    SessionSurvives(ICCN, IcrpArgs(c, p).(assignedCookie := None));
  }

  // ---- one end -------------------------------------------------------------------

  lemma TransmitSays(r: Rt, avps: seq<Avp>, now: real)
    ensures var q := Transmit(r, avps, now).rt;
            (q.sent == r.sent || q.sent == r.sent + [avps]) && q.sessions == r.sessions && q.fsm == r.fsm
  {
    hide P.Send, Sealed;
  }

  lemma SessionStepSays(r: Rt, sid: U32, e: S.Event, now: real)
    requires sid in r.sessions
    ensures var actions := S.React(r.sessions[sid], e).1;
            var q := SessionStep(r, sid, e, now).rt;
            q.sent == r.sent || (actions != [] && actions[0].SendMessage? && q.sent == r.sent + [actions[0].avps])
  {
    hide S.React, Transmit, S.Params, AddSession, DropSession;
    var (t, actions) := S.React(r.sessions[sid], e);
    S.ReactDelta(r.sessions[sid], e);
    var moved := r.(sessions := r.sessions[sid := t]);
    var rest := S.Tail(actions);
    ExecutedSays(moved, rest);
    if actions != [] && actions[0].SendMessage? {
      ExecSend(moved, actions, now);
      TransmitSays(moved, actions[0].avps, now);
      var q := Transmit(moved, actions[0].avps, now).rt;
      ExecPair(q, rest, now);
      ExecutedSays(q, rest);
    } else {
      ExecPair(moved, rest, now);
    }
  }

  lemma ExecutedSays(r: Rt, rest: seq<S.Action>)
    ensures Executed(r, rest).sent == r.sent
  {
    hide D.AddSession, D.AddTunnel, D.DelSession;
  }

  lemma SaysOne(x: End, y: End, sent: seq<seq<Avp>>, m: seq<Avp>)
    requires AllGenuine(x, y, sent) && Genuine(x, y, m)
    ensures AllGenuine(x, y, sent + [m])
  {
    hide Genuine;
  }

  lemma SessionGenuine(x: End, y: End, sid: U32, m: seq<Avp>)
    requires sid in x.sessions && OfSession(x.sessions[sid], m, y)
    ensures Genuine(x, y, m)
  {
    hide OfSession, OfTunnel;
  }

  lemma SessionStepPaired(r: Rt, x: End, y: End, sid: U32, e: S.Event, now: real, kept: bool)
    requires Sound(r) && Paired(r, x, y, kept) && sid in r.sessions
    requires var (t, actions) := S.React(r.sessions[sid], e);
             Bound(t, y, kept) && SendsOf(r.sessions[sid].config, actions, y)
    ensures Sound(SessionStep(r, sid, e, now).rt) && Paired(SessionStep(r, sid, e, now).rt, x, y, kept)
  {
    hide S.React, SessionStep, Genuine, OfSession, Bound, Sound, Knows, AllGenuine;
    var (t, actions) := S.React(r.sessions[sid], e);
    var q := SessionStep(r, sid, e, now).rt;
    SessionStepMoves(r, sid, e, now);
    SessionStepSays(r, sid, e, now);
    if q.sent != r.sent {
      SessionGenuine(x, y, sid, actions[0].avps);
      SaysOne(x, y, r.sent, actions[0].avps);
    }
  }

  lemma {:induction false} CascadePaired(r: Rt, x: End, y: End, sids: seq<U32>, e: S.Event, now: real, kept: bool)
    requires Sound(r) && Paired(r, x, y, kept) && !e.Message? && (forall sid :: sid in sids ==> sid in r.sessions)
    ensures Paired(Cascade(r, sids, e, now).rt, x, y, kept)
    decreases |sids|
  {
    hide Sound, SessionStep, AllGenuine, Bound, Knows, S.React, SendsOf;
    if sids != [] {
      OwnEventBinds(r.sessions[sids[0]], e, y, kept);
      SessionStepPaired(r, x, y, sids[0], e, now, kept);
      var o := SessionStep(r, sids[0], e, now);
      if !o.raised {
        CascadePaired(o.rt, x, y, sids[1..], e, now, kept);
      }
    }
  }

  ghost predicate TunnelSends(c: T.Config, action: T.Action) { action.SendMessage? ==> OfTunnel(c, action.avps) }

  lemma EffectPaired(r: Rt, x: End, y: End, action: T.Action, now: real, kept: bool)
    requires Sound(r) && Paired(r, x, y, kept) && TunnelSends(x.config, action)
    ensures var q := Effect(r, action, now).rt;
            Sound(q) && Paired(q, x, y, kept)
  {
    hide Agrees, PeerOk, AllGenuine, Bound, Knows, OfTunnel, Transmit, Cascade, DropTunnel;
    match action {
      case SendMessage(avps) =>
        TransmitChats(r, avps, now);
        ChatKeeps(r, Transmit(r, avps, now).rt);
        TransmitSays(r, avps, now);
        SaysOne(x, y, r.sent, avps);
      case SetHelloTimer(_) => SoundTimers(r, ArmHello(r));
      case ClearHelloTimer => SoundTimers(r, CancelHello(r));
      case WentUp =>
        CascadePaired(r, x, y, r.order, S.TunnelUp, now, kept);
        CascadeKeeps(r, r.order, S.TunnelUp, now);
      case TornDown(_) =>
        CascadePaired(r, x, y, r.order, S.TunnelGone, now, kept);
        GoDownCleans(r, now);
        DropTunnelSays(Cascade(r, r.order, S.TunnelGone, now).rt);
    }
  }

  lemma DropTunnelSays(r: Rt)
    ensures DropTunnel(r).sent == r.sent && DropTunnel(r).sessions == r.sessions && DropTunnel(r).fsm == r.fsm
  {
    hide D.DelTunnel;
  }

  lemma {:induction false} ExecTunnelPaired(r: Rt, x: End, y: End, actions: seq<T.Action>, now: real, kept: bool)
    requires Sound(r) && Paired(r, x, y, kept) && (forall i :: 0 <= i < |actions| ==> TunnelSends(x.config, actions[i]))
    ensures var q := ExecTunnel(r, actions, now).rt;
            Sound(q) && Paired(q, x, y, kept)
    decreases |actions|
  {
    hide Sound, Paired, Effect, TunnelSends;
    if actions != [] {
      EffectPaired(r, x, y, actions[0], now, kept);
      var o := Effect(r, actions[0], now);
      if !o.raised {
        ExecTunnelPaired(o.rt, x, y, actions[1..], now, kept);
      }
    }
  }

  /** A tunnel event whose captured identity, if it captures one, is the other end's. */
  lemma TunnelStepPaired(r: Rt, x: End, y: End, e: T.Event, now: real, kept: bool)
    requires Sound(r) && Paired(r, x, y, kept) && Knows(T.React(r.fsm, e).0, y)
    ensures var q := TunnelStep(r, e, now).rt;
            Sound(q) && Paired(q, x, y, kept)
  {
    hide Agrees, PeerOk, Configured, AllGenuine, Bound, Knows, T.React, ExecTunnel, TunnelSends;
    var (t, actions) := T.React(r.fsm, e);
    T.ReactDelta(r.fsm, e);
    MoveFsm(r, t);
    ReactSends(r.fsm, e);
    ExecTunnelPaired(r.(fsm := t), x, y, actions, now, kept);
  }

  lemma ReactSends(f: T.Fsm, e: T.Event)
    ensures var actions := T.React(f, e).1;
            forall i :: 0 <= i < |actions| ==> TunnelSends(f.config, actions[i])
  {
    hide BuildSccrx, BuildBare, GetMessageType, ParseSccrx, ParseStopCcn, BuildStopCcn;
    assert Stops(f.config, T.StopCcnAvps(f.config, GENERAL_ERROR), GENERAL_ERROR);
    if e.Close? {
      assert Stops(f.config, T.StopCcnAvps(f.config, e.code), e.code);
    }
  }

  lemma OwnTunnelKnows(f: T.Fsm, e: T.Event, y: End)
    requires Knows(f, y) && !e.Message?
    ensures Knows(T.React(f, e).0, y)
  {
  }

  lemma MessageKnows(f: T.Fsm, m: seq<Avp>, rest: seq<Avp>, y: End)
    requires Knows(f, y) && OfTunnel(y.config, m)
    ensures Knows(T.OnMessage(f, m + rest).0, y)
  {
    hide GetMessageType, BuildSccrx, ParseSccrx, ParseStopCcn, OfTunnel;
    OfTunnelTyped(y.config, m);
    MergedType(m, rest);
    MergedSccrx(SCCRQ, T.Identity(y.config), rest);
    MergedSccrx(SCCRP, T.Identity(y.config), rest);
  }

  /** Messages a session learns its peer's cookie from. */
  ghost predicate Introduction(m: seq<Avp>) { GetMessageType(m) == Success(Some(ICRQ)) || GetMessageType(m) == Success(Some(ICRP)) }

  ghost predicate HasCookie(m: seq<Avp>) { Find(m, ASSIGNED_COOKIE).Some? }

  /** Merged with what follows, an introduction keeps its own cookie or stays without one. */
  ghost predicate CookieKept(m: seq<Avp>, rest: seq<Avp>) { Introduction(m) ==> HasCookie(m) || !HasCookie(rest) }

  lemma SessionCookie(messageType: U16, args: SessionArgs)
    ensures HasCookie(BuildSession(messageType, args)) <==> args.assignedCookie.Some?
  {
    hide Find, BuildSession;
    SessionFound(messageType, args);
  }

  lemma IcrqIntroduces(r: Rt, x: End, y: End, c: S.Config, rest: seq<Avp>, sid: U32, kept: bool)
    requires Configured(r) && Runs(r, x) && c.localSid in y.sessions && y.sessions[c.localSid] == c && c.localSid != 0
    requires kept ==> CookieKept(S.IcrqAvps(c), rest)
    requires var avps := S.IcrqAvps(c) + rest;
             ReadRoute(avps, ICRQ).Success? && Target(r, ReadRoute(avps, ICRQ).value, ICRQ) == Some(sid)
    ensures sid in r.sessions && Introduces(r.sessions[sid].config, S.IcrqAvps(c) + rest, y, kept)
  {
    hide ParseSession, BuildSession, FirstIdle, GetMessageType, Find, ParseCdn;
    var args := IcrqArgs(c);
    IcrqTyped(c);
    SessionCookie(ICRQ, args);
    MergedSession(ICRQ, args, rest);
    FirstIdleFound(r.order, r.sessions, Some(c.name));
  }

  lemma IcrpIntroduces(r: Rt, x: End, y: End, c: S.Config, p: U32, rest: seq<Avp>, sid: U32, kept: bool)
    requires Runs(r, x) && c.localSid in y.sessions && y.sessions[c.localSid] == c && c.localSid != 0
    requires Partner(c, p, x) && (kept ==> CookieKept(S.IcrpAvps(c, p), rest))
    requires var avps := S.IcrpAvps(c, p) + rest;
             ReadRoute(avps, ICRP).Success? && Target(r, ReadRoute(avps, ICRP).value, ICRP) == Some(sid)
    ensures sid in r.sessions && Introduces(r.sessions[sid].config, S.IcrpAvps(c, p) + rest, y, kept)
  {
    hide ParseSession, BuildSession, FirstIdle, GetMessageType, Find, ParseCdn;
    var args := IcrpArgs(c, p);
    IcrpTyped(c, p);
    SessionCookie(ICRP, args);
    MergedSession(ICRP, args, rest);
  }

  lemma RouteIntroduces(r: Rt, x: End, y: End, m: seq<Avp>, rest: seq<Avp>, messageType: U16, sid: U32, kept: bool)
    requires Configured(r) && Runs(r, x) && WellConfigured(y) && Genuine(y, x, m) && (kept ==> CookieKept(m, rest))
    requires GetMessageType(m) == Success(Some(messageType)) && (messageType == ICRQ || messageType == ICRP)
    requires ReadRoute(m + rest, messageType).Success? && Target(r, ReadRoute(m + rest, messageType).value, messageType) == Some(sid)
    ensures sid in r.sessions && Introduces(r.sessions[sid].config, m + rest, y, kept)
  {
    hide Configured, Runs, Introduces, ReadRoute, Target, OfTunnel, OfSession, GetMessageType, S.IcrqAvps, S.IcrpAvps, Partner;
    if OfTunnel(y.config, m) {
      OfTunnelTyped(y.config, m);
      assert false;
    } else {
      var q :| q in y.sessions && OfSession(y.sessions[q], m, x);
      OfSessionTyped(y.sessions[q], m, x);
      if messageType == ICRQ {
        IcrqIntroduces(r, x, y, y.sessions[q], rest, sid, kept);
      } else {
        var p: U32 :| Partner(y.sessions[q], p, x) && m == S.IcrpAvps(y.sessions[q], p);
        IcrpIntroduces(r, x, y, y.sessions[q], p, rest, sid, kept);
      }
    }
  }

  lemma DispatchPaired(r: Rt, x: End, y: End, m: seq<Avp>, rest: seq<Avp>, messageType: U16, now: real, kept: bool)
    requires Sound(r) && Paired(r, x, y, kept) && WellConfigured(y) && Genuine(y, x, m) && (kept ==> CookieKept(m, rest))
    requires GetMessageType(m) == Success(Some(messageType)) && IsSessionType(Some(messageType))
    ensures Paired(DispatchSession(r, m + rest, messageType, now).rt, x, y, kept)
  {
    hide Agrees, PeerOk, Genuine, GetMessageType, ReadRoute, Target, S.OnMessage, SessionStep, Index, CookieKept, Bound, SendsOf, Introduces, WellConfigured, AllGenuine, Knows;
    var avps := m + rest;
    MergedType(m, rest);
    if ReadRoute(avps, messageType).Success? {
      var target := Target(r, ReadRoute(avps, messageType).value, messageType);
      if target.Some? && target.value in r.sessions {
        var sid := target.value;
        if messageType == ICRQ || messageType == ICRP {
          RouteIntroduces(r, x, y, m, rest, messageType, sid, kept);
        }
        MessageBinds(r.sessions[sid], avps, messageType, y, kept);
        var peerSid := S.OnMessage(r.sessions[sid], avps).0.peerSid;
        SoundIndex(r, peerSid, sid);
        SessionStepPaired(r.(byRemote := Index(r.byRemote, peerSid, sid)), x, y, sid, S.Message(avps), now, kept);
      }
    }
  }

  lemma GenuineTyped(x: End, y: End, m: seq<Avp>)
    requires Genuine(x, y, m)
    ensures m != [] && GetMessageType(m).Success? && GetMessageType(m).value.Some?
    ensures !IsSessionType(GetMessageType(m).value) ==> OfTunnel(x.config, m)
  {
    hide OfTunnel, OfSession, GetMessageType;
    if OfTunnel(x.config, m) {
      OfTunnelTyped(x.config, m);
    } else {
      var sid :| sid in x.sessions && OfSession(x.sessions[sid], m, y);
      OfSessionTyped(x.sessions[sid], m, y);
    }
    TypedNotEmpty(m);
  }

  /** A batch that starts with one of the other end's messages keeps the pairing. */
  lemma ArrivedPaired(r: Rt, x: End, y: End, m: seq<Avp>, rest: seq<Avp>, now: real, kept: bool)
    requires Sound(r) && Paired(r, x, y, kept) && WellConfigured(y) && Genuine(y, x, m) && (kept ==> CookieKept(m, rest))
    ensures Paired(Arrived(r, m + rest, now).rt, x, y, kept)
  {
    hide Sound, Genuine, GetMessageType, DispatchSession, TunnelStep, CookieKept, OfTunnel, Knows, T.OnMessage, WellConfigured, AllGenuine, Bound;
    GenuineTyped(y, x, m);
    MergedType(m, rest);
    var mt := GetMessageType(m).value;
    if IsSessionType(mt) {
      DispatchPaired(r, x, y, m, rest, mt.value, now, kept);
    } else {
      MessageKnows(r.fsm, m, rest, y);
      TunnelStepPaired(r, x, y, T.Message(m + rest), now, kept);
    }
  }

  ghost predicate Assigns(m: seq<Avp>, ccid: U32) {
    var a := Find(m, ASSIGNED_CONTROL_CONNECTION_ID);
    a.None? || a.value.value == Pack(ccid, 4)
  }

  lemma OfTunnelAssigns(c: T.Config, m: seq<Avp>)
    requires OfTunnel(c, m)
    ensures Assigns(m, c.localCcid)
  {
    hide Find, Collect, Pack, PackCapabilities;
    SccrxFound(SCCRQ, T.Identity(c));
    SccrxFound(SCCRP, T.Identity(c));
    FindMissing([RequiredNumber(MESSAGE_TYPE, SCCCN, 2)], [MESSAGE_TYPE], ASSIGNED_CONTROL_CONNECTION_ID);
    FindMissing([RequiredNumber(MESSAGE_TYPE, HELLO, 2)], [MESSAGE_TYPE], ASSIGNED_CONTROL_CONNECTION_ID);
    if code: U16 :| Stops(c, m, code) {
      FindCollected(StopCcnSlots(c.localCcid, Bare(code)), STOPCCN_ATTRS, 1);
    }
  }

  lemma OfSessionAssigns(c: S.Config, m: seq<Avp>, y: End)
    requires OfSession(c, m, y)
    ensures Find(m, ASSIGNED_CONTROL_CONNECTION_ID) == None
  {
    hide Find, BuildSession, BuildCdn, Partner;
    SessionFound(ICRQ, IcrqArgs(c));
    if p: U32 :| Addressed(c, m, p, y) {
      SessionFound(ICRP, IcrpArgs(c, p));
      SessionFound(ICCN, IcrpArgs(c, p).(assignedCookie := None));
    } else if p: U32, code: U16 :| Closes(c, m, p, code) {
      CdnSurvives(c.localSid, p, Bare(code));
    }
  }

  lemma LearnedFrom(remote: int, m: seq<Avp>, ccid: U32)
    requires Assigns(m, ccid)
    ensures Learned(remote, m) == remote || Learned(remote, m) == ccid
  {
    hide Find, Pack, Unpack;
    WordSizes();
    UnpackPack(ccid, 4);
  }

  lemma OverhearPaired(r: Rt, x: End, y: End, m: seq<Avp>, part: seq<Avp>, kept: bool)
    requires Inv(r) && Paired(r, x, y, kept) && Genuine(y, x, m) && ReadAs(r.setup, m, part)
    ensures Inv(Overhear(r, part)) && Paired(Overhear(r, part), x, y, kept)
  {
    hide Configured, Agrees, P.PeerInv, HelloInv, OfTunnel, OfSession, Learned, Runs, Knows, AllGenuine, Bound, Find;
    if OfTunnel(y.config, m) {
      OfTunnelAssigns(y.config, m);
    } else {
      var sid :| sid in y.sessions && OfSession(y.sessions[sid], m, x);
      OfSessionAssigns(y.sessions[sid], m, x);
    }
    DigestAdds(r.setup, m, part, ASSIGNED_CONTROL_CONNECTION_ID);
    LearnedFrom(r.peer.remoteCcid, part, y.config.localCcid);
    LearnedInRange(r.peer.remoteCcid, part);
    LearnedOnce(r.peer.remoteCcid, part);
    OverhearOk(r.peer, Learned(r.peer.remoteCcid, part));
    PeerMoves(r, Overhear(r, part));
    assert Runs(Overhear(r, part), x) by { SameRuns(r, Overhear(r, part), x); }
  }

  /** The digest is no other AVP. */
  lemma DigestAdds(setup: Setup, m: seq<Avp>, part: seq<Avp>, attr: int)
    requires ReadAs(setup, m, part) && attr != MESSAGE_DIGEST
    ensures Find(part, attr) == Find(m, attr)
  {
    hide Find;
    if setup.auth.Some? {
      assert part == m + [part[|m|]];
      FindConcat(m, [part[|m|]], attr);
      FindInOne(part[|m|], attr);
    }
  }

  lemma FindInOne(a: Avp, attr: int)
    ensures Find([a], attr) == if Matches(a, attr) then Some(a) else None
  {
    assert [a][1..] == [];
    assert Find([a][1..], attr) == None;
  }

  lemma SameRuns(r: Rt, q: Rt, x: End)
    requires Runs(r, x) && q.fsm.config == r.fsm.config && q.sessions == r.sessions
    ensures Runs(q, x)
  {
  }

  /** Nothing of the pairing is in the delivery layer's counters and queues, in the timers or in the kernel. */
  lemma ElsePaired(r: Rt, q: Rt, x: End, y: End, kept: bool)
    requires Paired(r, x, y, kept) && q.fsm == r.fsm && q.sessions == r.sessions && q.sent == r.sent && q.peer.remoteCcid == r.peer.remoteCcid
    ensures Paired(q, x, y, kept)
  {
    hide Knows, Bound, AllGenuine;
  }

  lemma OwnPaired(r: Rt, x: End, y: End, e: Event, now: real, kept: bool)
    requires Inv(r) && Paired(r, x, y, kept) && Possible(r, e) && !e.Datagram?
    ensures Paired(Next(r, e, now).rt, x, y, kept)
  {
    hide Configured, Agrees, P.PeerInv, Paired, Bound, Knows, TunnelStep, SessionStep, T.React, S.React, SendsOf, P.TickQueue, HelloInv;
    match e {
      case Start => TunnelOwnPaired(r, x, y, T.Open, now, kept);
      case Close =>
        TunnelOwnPaired(r, x, y, T.Close(ADMIN_SHUTDOWN), now, kept);
        var q := TunnelStep(r, T.Close(ADMIN_SHUTDOWN), now).rt;
        ElsePaired(q, CancelHello(q), x, y, kept);
      case Tick =>
        var (peer, resend, dead) := P.Tick(r.peer, now);
        P.TickKeepsInv(r.peer, now);
        var q := r.(peer := peer, wire := r.wire + resend);
        PeerMoves(r, q);
        ElsePaired(r, q, x, y, kept);
        TunnelOwnPaired(q, x, y, T.Dead, now, kept);
      case Fires(handle) =>
        var q := r.(hello := None, timers := r.timers - {handle});
        SoundTimers(r, q);
        ElsePaired(r, q, x, y, kept);
        TunnelOwnPaired(q, x, y, T.HelloTimer, now, kept);
      case SessionClose(sid, code) =>
        if sid in r.sessions {
          PairedBound(r, x, y, sid, kept);
          OwnEventBinds(r.sessions[sid], S.Close(code), y, kept);
          SessionStepPaired(r, x, y, sid, S.Close(code), now, kept);
        } else {
          SessionStepMoves(r, sid, S.Close(code), now);
        }
      case Elsewhere(tables) => ElsePaired(r, Next(r, e, now).rt, x, y, kept);
    }
  }

  lemma PairedBound(r: Rt, x: End, y: End, sid: U32, kept: bool)
    requires Paired(r, x, y, kept) && sid in r.sessions
    ensures Bound(r.sessions[sid], y, kept)
  {
  }

  lemma TunnelOwnPaired(r: Rt, x: End, y: End, e: T.Event, now: real, kept: bool)
    requires Sound(r) && Paired(r, x, y, kept) && !e.Message?
    ensures Paired(TunnelStep(r, e, now).rt, x, y, kept)
  {
    hide Sound, Runs, AllGenuine, Bound, T.React, TunnelStep, Knows;
    OwnTunnelKnows(r.fsm, e, y);
    TunnelStepPaired(r, x, y, e, now, kept);
  }

  // ---- both ends -------------------------------------------------------------------

  /** aRead counts how many of b's messages a has been handed, and bRead how many of a's. */
  datatype Pair = Pair(a: Rt, b: Rt, aRead: nat, bRead: nat)

  /**
   Own: an event that is no datagram. Overhears: any earlier or later message of the other
   end is decoded, again perhaps, and its CCID learned. Transport: the delivery layer's own work.
   Takes: the next messages, as read off the wire, are handed over at once.
   */
  datatype Act = Own(e: Event) | Overhears(i: nat, part: seq<Avp>) | Transport(peer: P.PeerState, wire: seq<Bytes>) | Takes(parts: seq<seq<Avp>>)

  /** What a batch holds behind its first message. */
  function Behind(m: seq<Avp>, parts: seq<seq<Avp>>): seq<Avp> {
    if |m| <= |Flatten(parts)| then Flatten(parts)[|m|..] else []
  }

  ghost predicate AllRead(setup: Setup, heard: seq<seq<Avp>>, read: nat, parts: seq<seq<Avp>>) {
    read + |parts| <= |heard| && forall i :: 0 <= i < |parts| ==> ReadAs(setup, heard[read + i], parts[i])
  }

  /** `kept` asks that batches keep cookies apart; nothing else is asked of them. */
  ghost predicate Allowed(r: Rt, heard: seq<seq<Avp>>, read: nat, act: Act, kept: bool) {
    match act
    case Own(e) => !e.Datagram? && Possible(r, e)
    case Overhears(i, part) => i < |heard| && ReadAs(r.setup, heard[i], part)
    case Transport(peer, wire) => PeerOk(peer) && peer.remoteCcid == r.peer.remoteCcid
    case Takes(parts) =>
      && parts != [] && AllRead(r.setup, heard, read, parts)
      && (kept ==> CookieKept(heard[read], Behind(heard[read], parts)))
  }

  function Acts(r: Rt, act: Act, now: real): Rt {
    match act
    case Own(e) => Next(r, e, now).rt
    case Overhears(_, part) => Overhear(r, part)
    case Transport(peer, wire) => r.(peer := peer, wire := wire)
    case Takes(parts) => Arrived(r, Flatten(parts), now).rt
  }

  function Reads(read: nat, act: Act): nat { if act.Takes? then read + |act.parts| else read }

  datatype Step = Step(atA: bool, act: Act, now: real)

  function Turn(p: Pair, s: Step): Pair {
    if s.atA then p.(a := Acts(p.a, s.act, s.now), aRead := Reads(p.aRead, s.act))
    else p.(b := Acts(p.b, s.act, s.now), bRead := Reads(p.bRead, s.act))
  }

  ghost predicate Fair(p: Pair, s: Step, kept: bool) {
    if s.atA then Allowed(p.a, p.b.sent, p.aRead, s.act, kept) else Allowed(p.b, p.a.sent, p.bRead, s.act, kept)
  }

  function Play(p: Pair, run: seq<Step>): Pair
    decreases |run|
  {
    if run == [] then p else Play(Turn(p, run[0]), run[1..])
  }

  ghost predicate FairRun(p: Pair, run: seq<Step>, kept: bool)
    decreases |run|
  {
    run == [] || (Fair(p, run[0], kept) && FairRun(Turn(p, run[0]), run[1..], kept))
  }

/** The kernel's tunnel entry, if any, has the configured CCID and addresses, and names the other end or what was configured for it. */
  ghost predicate EntryNames(r: Rt, x: End, y: End) {
    KE.Entry(r).Some? ==>
      KE.Describes(KE.Entry(r).value, r, x.remoteCcid) || KE.Describes(KE.Entry(r).value, r, y.config.localCcid)
  }

  ghost predicate EndInv(r: Rt, x: End, y: End, kept: bool) { Inv(r) && Paired(r, x, y, kept) && EntryNames(r, x, y) }

  ghost predicate PairInv(p: Pair, x: End, y: End, kept: bool) { EndInv(p.a, x, y, kept) && EndInv(p.b, y, x, kept) }

  /** An end in order, and what it hears is the other end's. */
  ghost predicate Facing(r: Rt, x: End, y: End, heard: seq<seq<Avp>>, kept: bool) {
    EndInv(r, x, y, kept) && WellConfigured(y) && AllGenuine(y, x, heard)
  }

  lemma StepNames(r: Rt, q: Rt, x: End, y: End, kept: bool)
    requires EntryNames(r, x, y) && KE.EntryStep(r, q) && Paired(q, x, y, kept)
    ensures EntryNames(q, x, y)
  {
    hide Runs, Knows, AllGenuine, Bound, KE.Entry;
  }

  /** A batch that starts with one of the other end's messages keeps everything. */
  lemma BatchPaired(r: Rt, x: End, y: End, m: seq<Avp>, rest: seq<Avp>, now: real, kept: bool)
    requires EndInv(r, x, y, kept) && WellConfigured(y) && Genuine(y, x, m) && (kept ==> CookieKept(m, rest))
    ensures EndInv(Arrived(r, m + rest, now).rt, x, y, kept)
  {
    hide Agrees, PeerOk, Configured, HelloInv, Paired, WellConfigured, Genuine, Arrived, CookieKept, EntryNames, KE.EntryStep;
    ArrivedKeeps(r, m + rest, now);
    ArrivedPaired(r, x, y, m, rest, now, kept);
    KE.ArrivedEntry(r, m + rest, now);
    StepNames(r, Arrived(r, m + rest, now).rt, x, y, kept);
  }

  lemma BatchSplits(setup: Setup, heard: seq<seq<Avp>>, read: nat, parts: seq<seq<Avp>>)
    requires parts != [] && AllRead(setup, heard, read, parts)
    ensures Flatten(parts) == heard[read] + Behind(heard[read], parts)
  {
    var m := heard[read];
    assert ReadAs(setup, heard[read + 0], parts[0]);
    assert m <= parts[0] <= Flatten(parts);
  }

  lemma ActsPaired(r: Rt, x: End, y: End, heard: seq<seq<Avp>>, read: nat, act: Act, now: real, kept: bool)
    requires Facing(r, x, y, heard, kept) && Allowed(r, heard, read, act, kept)
    ensures EndInv(Acts(r, act, now), x, y, kept)
  {
    hide Agrees, P.PeerInv, Configured, HelloInv, Paired, WellConfigured, Genuine, Arrived, Next, Possible, CookieKept, ReadAs, EntryNames, KE.EntryStep, Behind, Flatten;
    match act {
      case Own(e) =>
        NextKeeps(r, e, now);
        OwnPaired(r, x, y, e, now, kept);
        KE.NextEntry(r, e, now);
        StepNames(r, Next(r, e, now).rt, x, y, kept);
      case Overhears(i, part) =>
        OverhearPaired(r, x, y, heard[i], part, kept);
        KE.StepNothing(r, Overhear(r, part));
        StepNames(r, Overhear(r, part), x, y, kept);
      case Transport(peer, wire) =>
        PeerMoves(r, r.(peer := peer, wire := wire));
        ElsePaired(r, r.(peer := peer, wire := wire), x, y, kept);
        KE.StepNothing(r, r.(peer := peer, wire := wire));
        StepNames(r, r.(peer := peer, wire := wire), x, y, kept);
      case Takes(parts) =>
        BatchSplits(r.setup, heard, read, parts);
        BatchPaired(r, x, y, heard[read], Behind(heard[read], parts), now, kept);
    }
  }

  /** Both ends keep it in any interleaving. */
  lemma {:induction false} PlayKeeps(p: Pair, x: End, y: End, run: seq<Step>, kept: bool)
    requires PairInv(p, x, y, kept) && WellConfigured(x) && WellConfigured(y) && FairRun(p, run, kept)
    ensures PairInv(Play(p, run), x, y, kept)
    decreases |run|
  {
    hide Inv, Acts, Allowed, Runs, Knows, Bound, AllGenuine, WellConfigured;
    if run != [] {
      var s := run[0];
      if s.atA {
        ActsPaired(p.a, x, y, p.b.sent, p.aRead, s.act, s.now, kept);
      } else {
        ActsPaired(p.b, y, x, p.a.sent, p.bRead, s.act, s.now, kept);
      }
      PlayKeeps(Turn(p, s), x, y, run[1..], kept);
    }
  }

  /** As constructed, on any kernel that knows nothing of the tunnel yet. */
  ghost predicate Booted(r: Rt, x: End) {
    exists setup: Setup, configs: seq<S.Config>, tables: Option<D.Tables>, window: nat, interval: real, retries: nat ::
      BootedFrom(r, x, setup, configs, tables, window, interval, retries)
  }

  ghost predicate BootedFrom(r: Rt, x: End, setup: Setup, configs: seq<S.Config>, tables: Option<D.Tables>, window: nat, interval: real, retries: nat) {
    && ConstructedFrom(r, setup, x.config, configs, tables, x.remoteCcid, window, interval, retries)
    && (forall sid :: sid in x.sessions <==> sid in r.sessions)
    && (forall sid :: sid in x.sessions ==> x.sessions[sid] == r.sessions[sid].config)
  }

  lemma BootPaired(r: Rt, x: End, y: End, kept: bool)
    requires Booted(r, x)
    ensures EndInv(r, x, y, kept)
  {
    hide GoodConfig, Boot, Inv, Book;
    var setup: Setup, configs: seq<S.Config>, tables: Option<D.Tables>, window: nat, interval: real, retries: nat :|
      BootedFrom(r, x, setup, configs, tables, window, interval, retries);
    BootInv(setup, x.config, configs, tables, x.remoteCcid, window, interval, retries);
    BootQuiet(setup, x.config, configs, tables, x.remoteCcid, window, interval, retries);
    assert Paired(r, x, y, kept);
    assert KE.Entry(r).None?;
  }

  lemma BootQuiet(setup: Setup, config: T.Config, configs: seq<S.Config>, tables: Option<D.Tables>, remoteCcid: int, window: nat, interval: real, retries: nat)
    requires GoodConfig(config, configs, tables, remoteCcid)
    ensures var r := Boot(setup, config, configs, tables, P.Fresh(config.localCcid, remoteCcid, window, interval, retries));
            && r.fsm == T.Fresh(config) && r.sent == [] && r.peer.remoteCcid == remoteCcid && !r.dpAdded
            && (forall sid :: sid in r.sessions ==> r.sessions[sid] == S.Fresh(r.sessions[sid].config))
  {
    BookFresh(configs);
  }

  lemma {:induction false} BookFresh(configs: seq<S.Config>)
    ensures forall sid :: sid in Book(configs) ==> Book(configs)[sid] == S.Fresh(Book(configs)[sid].config)
  {
    if configs != [] {
      BookFresh(configs[..|configs| - 1]);
    }
  }

  // ---- what it means for the two ends ------------------------------------------------

  /** If both tunnels are ESTABLISHED, each holds the other's configured CCID, host name and router ID. */
  ghost predicate Acquainted(a: Rt, b: Rt) {
    T.Up(a.fsm) && T.Up(b.fsm) ==>
      var f, g := a.fsm, b.fsm;
      && f.peerCcid == g.config.localCcid && f.peerHostName == g.config.hostName && f.peerRouterId == g.config.routerId
      && g.peerCcid == f.config.localCcid && g.peerHostName == f.config.hostName && g.peerRouterId == f.config.routerId
  }

  /** No session holds the ID of a session with another name. */
  ghost predicate Uncrossed(a: Rt, b: Rt) {
    forall i, j :: i in a.sessions && j in b.sessions && a.sessions[i].config.name != b.sessions[j].config.name ==>
      a.sessions[i].peerSid != j && b.sessions[j].peerSid != i
  }

  /** Two sessions of the same name, one at each end, both ESTABLISHED. */
  ghost predicate BothUp(a: Rt, b: Rt, i: U32, j: U32) {
    && i in a.sessions && j in b.sessions && a.sessions[i].config.name == b.sessions[j].config.name
    && S.Up(a.sessions[i]) && S.Up(b.sessions[j])
  }

  /** They hold each other's session ID and, where batches keep cookies apart, exactly each other's configured cookie. */
  ghost predicate Matched(s: S.Fsm, t: S.Fsm, kept: bool) {
    && s.peerSid == t.config.localSid && t.peerSid == s.config.localSid
    && (kept ==> s.peerCookieLearned == t.config.cookie && t.peerCookieLearned == s.config.cookie)
  }

  /** Each kernel entry names the other as its far end and, likewise, expects the other's cookie. */
  ghost predicate Mirror(e: D.SessionParams, f: D.SessionParams, kept: bool) {
    && e.remoteSid == f.localSid && f.remoteSid == e.localSid
    && (kept && e.cookie.Some? && e.cookie.value != [] ==> f.peerCookie == e.cookie)
    && (kept && f.cookie.Some? && f.cookie.value != [] ==> e.peerCookie == f.cookie)
  }

  ghost predicate Mirrored(a: Rt, b: Rt, i: U32, j: U32, kept: bool) {
    a.dataplane.Some? && b.dataplane.Some? ==>
      var d, e := a.dataplane.value.sessions, b.dataplane.value.sessions;
      && (Ccid(a), i) in d && (Ccid(b), j) in e
      && Mirror(d[(Ccid(a), i)], e[(Ccid(b), j)], kept)
  }

  lemma EndFacts(r: Rt, x: End, y: End, kept: bool)
    requires EndInv(r, x, y, kept)
    ensures r.fsm.config == x.config && Knows(r.fsm, y) && r.sessions.Keys == x.sessions.Keys
    ensures forall sid :: sid in r.sessions ==> r.sessions[sid].config == x.sessions[sid] && Bound(r.sessions[sid], y, kept)
  {
    hide Inv, Bound, Knows, AllGenuine;
  }

  lemma PairedEndsAgree(a: Rt, b: Rt, x: End, y: End, kept: bool)
    requires EndInv(a, x, y, kept) && EndInv(b, y, x, kept) && WellConfigured(x) && WellConfigured(y)
    ensures Acquainted(a, b) && Uncrossed(a, b)
    ensures forall i, j :: BothUp(a, b, i, j) ==> Matched(a.sessions[i], b.sessions[j], kept)
  {
    hide EndInv;
    EndFacts(a, x, y, kept);
    EndFacts(b, y, x, kept);
  }

  lemma PairedKernelsMirror(a: Rt, b: Rt, x: End, y: End, kept: bool, i: U32, j: U32)
    requires EndInv(a, x, y, kept) && EndInv(b, y, x, kept) && WellConfigured(x) && WellConfigured(y) && BothUp(a, b, i, j)
    ensures Mirrored(a, b, i, j, kept) && EntryNames(a, x, y) && EntryNames(b, y, x)
  {
    hide EndInv, WellConfigured, EntryNames;
    EntriesNamed(a, x, y, kept);
    EntriesNamed(b, y, x, kept);
    PairedEndsAgree(a, b, x, y, kept);
    if a.dataplane.Some? && b.dataplane.Some? {
      Entry(a, x, y, i, kept);
      Entry(b, y, x, j, kept);
    }
  }

  lemma EntriesNamed(r: Rt, x: End, y: End, kept: bool)
    requires EndInv(r, x, y, kept)
    ensures EntryNames(r, x, y)
  {
    hide Inv, Paired, EntryNames;
  }

  lemma Entry(r: Rt, x: End, y: End, sid: U32, kept: bool)
    requires EndInv(r, x, y, kept) && r.dataplane.Some? && sid in r.sessions && S.Up(r.sessions[sid])
    ensures (Ccid(r), sid) in r.dataplane.value.sessions && r.dataplane.value.sessions[(Ccid(r), sid)] == S.Params(r.sessions[sid])
  {
    hide Paired, Configured, P.PeerInv, HelloInv, S.Params;
    assert EntryAgrees(r.dataplane.value, Ccid(r), sid, r.sessions);
  }

  // ---- over every run ----------------------------------------------------------------

  /** A run of two freshly constructed ends. */
  ghost predicate Encounter(p: Pair, x: End, y: End, run: seq<Step>, kept: bool) {
    Booted(p.a, x) && Booted(p.b, y) && WellConfigured(x) && WellConfigured(y) && FairRun(p, run, kept)
  }

  lemma PairingAlways(p: Pair, x: End, y: End, run: seq<Step>, kept: bool)
    requires Encounter(p, x, y, run, kept)
    ensures PairInv(Play(p, run), x, y, kept) && WellConfigured(x) && WellConfigured(y)
  {
    hide EndInv, Booted, FairRun, WellConfigured, Play;
    BootPaired(p.a, x, y, kept);
    BootPaired(p.b, y, x, kept);
    PlayKeeps(p, x, y, run, kept);
  }

  /** Whatever the batches, tunnels that are both ESTABLISHED know each other, and no session is crossed. */
  lemma TunnelsAgree(p: Pair, x: End, y: End, run: seq<Step>)
    requires Encounter(p, x, y, run, false)
    ensures Acquainted(Play(p, run).a, Play(p, run).b)
  {
    hide Encounter, Play, EndInv, WellConfigured, Acquainted;
    PairingAlways(p, x, y, run, false);
    PairedEndsAgree(Play(p, run).a, Play(p, run).b, x, y, false);
  }

  lemma NeverCrossed(p: Pair, x: End, y: End, run: seq<Step>)
    requires Encounter(p, x, y, run, false)
    ensures Uncrossed(Play(p, run).a, Play(p, run).b)
  {
    hide Encounter, Play, EndInv, WellConfigured, Uncrossed;
    PairingAlways(p, x, y, run, false);
    PairedEndsAgree(Play(p, run).a, Play(p, run).b, x, y, false);
  }

  /** Sessions of the same name that are both ESTABLISHED match, their cookies too where batches keep them apart. */
  lemma SessionsMatch(p: Pair, x: End, y: End, run: seq<Step>, kept: bool, i: U32, j: U32)
    requires Encounter(p, x, y, run, kept) && BothUp(Play(p, run).a, Play(p, run).b, i, j)
    ensures Matched(Play(p, run).a.sessions[i], Play(p, run).b.sessions[j], kept)
  {
    hide Encounter, Play, EndInv, WellConfigured, Matched;
    PairingAlways(p, x, y, run, kept);
    PairedEndsAgree(Play(p, run).a, Play(p, run).b, x, y, kept);
  }

  /** And the entries in the two kernels mirror each other, under tunnel entries that name the two ends. */
  lemma KernelsMirror(p: Pair, x: End, y: End, run: seq<Step>, kept: bool, i: U32, j: U32)
    requires Encounter(p, x, y, run, kept) && BothUp(Play(p, run).a, Play(p, run).b, i, j)
    ensures Mirrored(Play(p, run).a, Play(p, run).b, i, j, kept)
    ensures EntryNames(Play(p, run).a, x, y) && EntryNames(Play(p, run).b, y, x)
  {
    hide Encounter, Play, EndInv, WellConfigured, Mirrored, BothUp, EntryNames;
    PairingAlways(p, x, y, run, kept);
    PairedKernelsMirror(Play(p, run).a, Play(p, run).b, x, y, kept, i, j);
  }
}
