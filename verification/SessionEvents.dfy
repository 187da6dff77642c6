/**
 What each event of a session does: the new state, what is sent, as the peer will read it, and
 the other actions, in order, with what the kernel is told.
 */
module SessionEvents {
  import opened Prelude
  import opened AvpCodec
  import opened TypedMessages
  import opened SessionFsm
  import D = Dataplane

  // ---- messages as the peer reads them --------------------------------------------

  ghost predicate OfType(m: seq<Avp>, messageType: U16) { GetMessageType(m) == Success(Some(messageType)) }

  /** Session messages show our ID, the peer's, and the configured circuit; ICRQ the name and pseudowire type too; all but ICCN the cookie. */
  ghost predicate Shows(m: seq<Avp>, messageType: U16, c: Config, remoteSid: U32) {
    && OfType(m, messageType)
    && ParseSession(m) == Success(SessionFields(
         c.localSid, remoteSid, if messageType == ICRQ then Some(c.pseudowireType) else None,
         Some(c.l2SpecificSublayer), Some(c.dataSequencing), Some(c.circuitStatus),
         if messageType == ICCN then None else c.cookie, if messageType == ICRQ then Some(c.name) else None,
         c.txConnectSpeed, c.rxConnectSpeed))
  }

  /** A CDN for this session with this result. */
  ghost predicate Clears(m: seq<Avp>, s: Fsm, code: U16) {
    OfType(m, CDN) && ParseCdn(m) == Success(CdnFields(s.config.localSid, s.peerSid, ResultFields(code, None, [])))
  }

  /** The kernel's parameters, field by field. */
  ghost predicate Describes(p: D.SessionParams, s: Fsm) {
    var c := s.config;
    && p.localCcid == c.localCcid && p.localSid == c.localSid && p.remoteSid == s.peerSid
    && (if c.ifname.Some? && |c.ifname.value| > 0 then p.ifname == D.Named(c.ifname.value) else p.ifname == D.Derived(c.localCcid, c.localSid))
    && (match c.cookie case None => p.cookie.None? case Some(k) => p.cookie == Some(k))
    && (if s.peerCookieLearned.Some? && |s.peerCookieLearned.value| > 0 then p.peerCookie == Some(s.peerCookieLearned.value)
        else match c.peerCookie case None => p.peerCookie.None? case Some(k) => p.peerCookie == Some(k))
    && (p.l2spec.DefaultSublayer? <==> c.l2SpecificSublayer == 1)
    && (p.pseudowire.EthernetVlan? <==> c.pseudowireType == 4)
  }

  lemma ParamsDescribe(s: Fsm)
    ensures Describes(Params(s), s)
  {
  }

  lemma MessagesShow(c: Config, peerSid: U32)
    ensures Shows(IcrqAvps(c), ICRQ, c, 0) && Shows(IcrpAvps(c, peerSid), ICRP, c, peerSid) && Shows(IccnAvps(c, peerSid), ICCN, c, peerSid)
  {
    hide BuildSession, GetMessageType, ParseSession;
    SessionSurvives(ICRQ, SessionArgs(c.localSid, 0, Some(c.pseudowireType), c.l2SpecificSublayer, c.dataSequencing,
                                      c.circuitStatus, Some(c.name), c.cookie, c.txConnectSpeed, c.rxConnectSpeed));
    SessionSurvives(ICRP, SessionArgs(c.localSid, peerSid, None, c.l2SpecificSublayer, c.dataSequencing,
                                      c.circuitStatus, None, c.cookie, c.txConnectSpeed, c.rxConnectSpeed));
    SessionSurvives(ICCN, SessionArgs(c.localSid, peerSid, None, c.l2SpecificSublayer, c.dataSequencing,
                                      c.circuitStatus, None, None, c.txConnectSpeed, c.rxConnectSpeed));
  }

  lemma CdnClears(s: Fsm, code: U16)
    ensures Clears(CdnAvps(s, code), s, code)
  {
    hide BuildCdn, GetMessageType, ParseCdn;
    CdnSurvives(s.config.localSid, s.peerSid, Bare(code));
  }

  // ---- events ----------------------------------------------------------------------

  ghost predicate Sends(actions: seq<Action>, m: seq<Avp>, rest: seq<Action>) {
    actions != [] && actions[0] == SendMessage(m) && actions[1..] == rest
  }

  /** A session that was up leaves the kernel and is reported down. */
  function Down(s: Fsm, reason: Reason): seq<Action> {
    if s.state.Established? then [DataplaneDelSession(s.config.localCcid, s.config.localSid), SessionTornDown(reason)] else []
  }

  /** It enters the kernel and is reported up. */
  ghost predicate UpActions(rest: seq<Action>, t: Fsm) {
    |rest| == 2 && rest[0].DataplaneAddSession? && Describes(rest[0].params, t) && rest[1] == SessionEstablished
  }

  /** When the tunnel comes up, an idle initiator announces itself and waits. */
  lemma TunnelUpDoes(s: Fsm)
    ensures var (t, actions) := React(s, TunnelUp);
            if s.config.initiator && s.state.Idle?
            then t == s.(state := WaitSessionReply) && exists m :: Sends(actions, m, []) && Shows(m, ICRQ, s.config, 0)
            else t == s && actions == []
  {
    hide IcrqAvps, Shows;
    MessagesShow(s.config, 0);
    if s.config.initiator && s.state.Idle? {
      assert Sends(React(s, TunnelUp).1, IcrqAvps(s.config), []);
    }
  }

  lemma TunnelGoneDoes(s: Fsm)
    ensures React(s, TunnelGone) == (s.(state := Idle), Down(s, TunnelDown))
  {
  }

  lemma CloseDoes(s: Fsm, code: U16)
    ensures var (t, actions) := React(s, Close(code));
            if s.state.Idle? || s.state.SendCdn? then t == s && actions == []
            else t == s.(state := SendCdn) && exists m :: Sends(actions, m, Down(s, LocalClose)) && Clears(m, s, code)
  {
    hide CdnAvps, Clears;
    CdnClears(s, code);
    var actions := React(s, Close(code)).1;
    if actions != [] {
      assert actions[1..] == Down(s, LocalClose);
      assert Sends(actions, CdnAvps(s, code), Down(s, LocalClose));
    }
  }

  /** Refused with a CDN that says general error. */
  ghost predicate Refused(s: Fsm, t: Fsm, actions: seq<Action>, reason: Reason) {
    t == s.(state := SendCdn) && exists m :: Sends(actions, m, Down(s, reason)) && Clears(m, s, GENERAL_ERROR)
  }

  lemma TeardownRefuses(s: Fsm, reason: Reason)
    ensures Refused(s, TeardownCdn(s, reason).0, TeardownCdn(s, reason).1, reason)
  {
    hide CdnAvps, Clears;
    CdnClears(s, GENERAL_ERROR);
    var actions := TeardownCdn(s, reason).1;
    assert actions[1..] == Down(s, reason);
    assert Sends(actions, CdnAvps(s, GENERAL_ERROR), Down(s, reason));
  }

  /** The peer's ID replaces what was known; its cookie does if there is one. */
  function Told(s: Fsm, f: SessionFields): Fsm {
    match f.assignedCookie
    case None => s.(peerSid := f.localSid)
    case Some(k) => s.(peerSid := f.localSid, peerCookieLearned := Some(k))
  }

  /** An ICRQ: answered with ICRP by an idle session if it can be parsed, refused with a CDN in every other state. */
  lemma IcrqDoes(s: Fsm, avps: seq<Avp>)
    requires OfType(avps, ICRQ)
    ensures var (t, actions) := React(s, Message(avps));
            if !s.state.Idle? then Refused(s, t, actions, IcrqNotIdle)
            else
              match ParseSession(avps)
              case Failure => t == s && actions == []
              case Success(f) =>
                t == Told(s, f).(state := WaitSessionConnect)
                && exists m :: Sends(actions, m, []) && Shows(m, ICRP, s.config, f.localSid)
  {
    hide IcrpAvps, Shows, GetMessageType, ParseSession, Refused, CdnAvps;
    TeardownRefuses(s, IcrqNotIdle);
    if s.state.Idle? && ParseSession(avps).Success? {
      var f := ParseSession(avps).value;
      MessagesShow(s.config, f.localSid);
      assert Sends(React(s, Message(avps)).1, IcrpAvps(s.config, f.localSid), []);
    }
  }

  /** An ICRP brings a waiting initiator up, with an ICCN in reply; one that cannot be parsed is refused. */
  lemma IcrpDoes(s: Fsm, avps: seq<Avp>)
    requires OfType(avps, ICRP)
    ensures var (t, actions) := React(s, Message(avps));
            if !s.state.WaitSessionReply? then t == s && actions == []
            else
              match ParseSession(avps)
              case Failure => Refused(s, t, actions, MalformedIcrp)
              case Success(f) =>
                t == Told(s, f).(state := Established)
                && exists m :: Sends(actions, m, actions[1..]) && Shows(m, ICCN, s.config, f.localSid) && UpActions(actions[1..], t)
  {
    hide IccnAvps, Shows, GetMessageType, ParseSession, Refused, CdnAvps, Params, Describes;
    TeardownRefuses(s, MalformedIcrp);
    if s.state.WaitSessionReply? && ParseSession(avps).Success? {
      var f := ParseSession(avps).value;
      var (t, actions) := React(s, Message(avps));
      MessagesShow(s.config, f.localSid);
      ParamsDescribe(t);
      assert Sends(actions, IccnAvps(s.config, f.localSid), actions[1..]);
    }
  }

  /** An ICCN under the announced ID brings the answering session up; any other is refused. */
  lemma IccnDoes(s: Fsm, avps: seq<Avp>)
    requires OfType(avps, ICCN)
    ensures var (t, actions) := React(s, Message(avps));
            if !s.state.WaitSessionConnect? then t == s && actions == []
            else
              match ParseSession(avps)
              case Failure => Refused(s, t, actions, MalformedIccn)
              case Success(f) =>
                if f.localSid != s.peerSid then Refused(s, t, actions, SidMismatch)
                else t == s.(state := Established) && UpActions(actions, t)
  {
    hide GetMessageType, ParseSession, Refused, CdnAvps, Params, Describes;
    TeardownRefuses(s, MalformedIccn);
    TeardownRefuses(s, SidMismatch);
    ParamsDescribe(React(s, Message(avps)).0);
  }

  /** A CDN takes the session to IDLE in every state, whether or not it can be parsed, and out of the kernel if it was there. */
  lemma CdnDoes(s: Fsm, avps: seq<Avp>)
    requires OfType(avps, CDN)
    ensures var (t, actions) := React(s, Message(avps));
            t == s.(state := Idle) && exists info :: actions == Down(s, PeerCdn(info)) && Reason(avps, info)
  {
    hide GetMessageType, ParseCdn;
    var info := match ParseCdn(avps) case Success(f) => Some(f.info) case Failure => None;
    assert Reason(avps, info) && React(s, Message(avps)).1 == Down(s, PeerCdn(info));
  }

  /** The reason the peer gave, if it can be read. */
  ghost predicate Reason(avps: seq<Avp>, info: Option<ResultFields>) {
    match ParseCdn(avps)
    case Failure => info.None?
    case Success(f) => info == Some(f.info)
  }

  /** The CDN the other end builds, whatever result it gives. */
  lemma CdnTaken(s: Fsm, local: U32, remote: U32, info: ResultInfo)
    ensures React(s, Message(BuildCdn(local, remote, info))) == (s.(state := Idle), Down(s, PeerCdn(Some(Fields(info)))))
  {
    hide GetMessageType, ParseCdn, BuildCdn;
    CdnSurvives(local, remote, info);
    CdnDoes(s, BuildCdn(local, remote, info));
  }

  lemma OthersIgnored(s: Fsm, avps: seq<Avp>)
    requires GetMessageType(avps).Success?
    requires !OfType(avps, ICRQ) && !OfType(avps, ICRP) && !OfType(avps, ICCN) && !OfType(avps, CDN)
    ensures React(s, Message(avps)) == (s, [])
  {
    hide GetMessageType;
  }
}
