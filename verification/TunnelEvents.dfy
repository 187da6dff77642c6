/**
 What each event of the control connection does: the new state, what is sent, as the peer will read
 it, and the other actions, in order.
 */
module TunnelEvents {
  import opened Prelude
  import opened AvpCodec
  import opened TypedMessages
  import opened TunnelFsm

  // ---- messages as the peer reads them --------------------------------------------

  /** The AVP of this type, if any, carries this value. */
  ghost predicate Carries(m: seq<Avp>, attr: int, value: Option<Bytes>) {
    match Find(m, attr)
    case None => value.None?
    case Some(a) => value == Some(a.value)
  }

  /** An SCCRQ or SCCRP that gives the configured identity, capabilities, window, vendor and revision. */
  ghost predicate Introduces(m: seq<Avp>, messageType: U16, c: Config) {
    && GetMessageType(m) == Success(Some(messageType))
    && ParseSccrx(m) == Success(SccrxFields(c.routerId, c.localCcid, c.hostName, c.pwCapabilities, Some(c.receiveWindow), None))
    && Carries(m, VENDOR_NAME, c.vendorName)
    && Carries(m, FIRMWARE_REVISION, if c.firmwareRevision.None? then None else Some(Pack(c.firmwareRevision.value, 2)))
  }

  /** A StopCCN from this end with this result. */
  ghost predicate Stops(m: seq<Avp>, c: Config, code: U16) {
    && GetMessageType(m) == Success(Some(STOPCCN))
    && ParseStopCcn(m) == Success(StopCcnFields(c.localCcid, ResultFields(code, None, [])))
  }

  ghost predicate OfType(m: seq<Avp>, messageType: U16) { GetMessageType(m) == Success(Some(messageType)) }

  lemma SccrxIntroduces(c: Config, messageType: U16)
    ensures Introduces(BuildSccrx(messageType, Identity(c)), messageType, c)
  {
    hide Find, BuildSccrx, GetMessageType, ParseSccrx, Pack;
    SccrxSurvives(messageType, Identity(c));
    SccrxExtras(messageType, Identity(c));
  }

  lemma SccrxExtras(messageType: U16, args: SccrxArgs)
    ensures var m := BuildSccrx(messageType, args);
            && Carries(m, VENDOR_NAME, args.vendorName)
            && Carries(m, FIRMWARE_REVISION, if args.firmwareRevision.None? then None else Some(Pack(args.firmwareRevision.value, 2)))
  {
    hide Find, Collect, Pack;
    var slots := SccrxSlots(messageType, args);
    FindEach(slots, SCCRX_ATTRS);
    assert SCCRX_ATTRS[6] == VENDOR_NAME && SCCRX_ATTRS[7] == FIRMWARE_REVISION;
    assert Find(BuildSccrx(messageType, args), SCCRX_ATTRS[6]) == slots[6];
    assert Find(BuildSccrx(messageType, args), SCCRX_ATTRS[7]) == slots[7];
  }

  lemma StopCcnStops(c: Config, code: U16)
    ensures Stops(StopCcnAvps(c, code), c, code)
  {
    hide BuildStopCcn, GetMessageType, ParseStopCcn;
    StopCcnSurvives(c.localCcid, Bare(code));
  }

  // ---- events ----------------------------------------------------------------------

  /** A message goes out, then `rest`. */
  ghost predicate Sends(actions: seq<Action>, m: seq<Avp>, rest: seq<Action>) {
    actions != [] && actions[0] == SendMessage(m) && actions[1..] == rest
  }

  /** The timer is cleared, and a tunnel that was up is reported down. */
  function Down(s: Fsm, reason: Reason): seq<Action> {
    if s.state.Established? then [ClearHelloTimer, TornDown(reason)] else [ClearHelloTimer]
  }

  lemma OpenDoes(s: Fsm)
    ensures var (t, actions) := React(s, Open);
            if s.state.Idle?
            then t == s.(state := WaitCtlReply) && exists m :: Sends(actions, m, []) && Introduces(m, SCCRQ, s.config)
            else t == s && actions == []
  {
    hide BuildSccrx, Introduces;
    SccrxIntroduces(s.config, SCCRQ);
    assert s.state.Idle? ==> Sends(React(s, Open).1, SccrqAvps(s.config), []);
  }

  /** In every state but IDLE and SEND_STOPCCN, closing sends a StopCCN with the given result. */
  lemma CloseDoes(s: Fsm, code: U16)
    ensures var (t, actions) := React(s, Close(code));
            if s.state.Idle? || s.state.SendStopCcn? then t == s && actions == []
            else t == s.(state := SendStopCcn) && exists m :: Sends(actions, m, Down(s, LocalClose)) && Stops(m, s.config, code)
  {
    hide BuildStopCcn, Stops;
    StopCcnStops(s.config, code);
    var actions := React(s, Close(code)).1;
    if actions != [] {
      assert actions[1..] == Down(s, LocalClose);
      assert Sends(actions, StopCcnAvps(s.config, code), Down(s, LocalClose));
    }
  }

  /** The keepalive: a HELLO, and the timer again. */
  lemma HelloTimerDoes(s: Fsm)
    ensures var (t, actions) := React(s, HelloTimer);
            t == s && if s.state.Established?
                      then exists m :: Sends(actions, m, [SetHelloTimer(s.config.helloInterval)]) && OfType(m, HELLO)
                      else actions == []
  {
    hide BuildBare, GetMessageType;
    BareSurvives(HELLO);
    if s.state.Established? {
      assert Sends(React(s, HelloTimer).1, BuildBare(HELLO), [SetHelloTimer(s.config.helloInterval)]);
    }
  }

  lemma DeadDoes(s: Fsm)
    ensures var (t, actions) := React(s, Dead);
            t == s.(state := Idle) && actions == if s.state.Idle? then [] else Down(s, PeerDead)
  {
  }

  /** Refused with a StopCCN that says general error. */
  ghost predicate Refused(s: Fsm, t: Fsm, actions: seq<Action>, reason: Reason) {
    t == s.(state := SendStopCcn) && exists m :: Sends(actions, m, Down(s, reason)) && Stops(m, s.config, GENERAL_ERROR)
  }

  lemma TeardownRefuses(s: Fsm, reason: Reason)
    ensures Refused(s, TeardownAndNotify(s, reason).0, TeardownAndNotify(s, reason).1, reason)
  {
    hide BuildStopCcn, Stops;
    StopCcnStops(s.config, GENERAL_ERROR);
    var actions := TeardownAndNotify(s, reason).1;
    assert actions[1..] == Down(s, reason);
    assert Sends(actions, StopCcnAvps(s.config, GENERAL_ERROR), Down(s, reason));
  }

  function Learns(s: Fsm, f: SccrxFields): Fsm {
    s.(peerCcid := f.assignedCcid, peerHostName := f.hostName, peerRouterId := f.routerId)
  }

  /** An SCCRQ: answered with SCCRP in IDLE if it can be parsed, refused in every other state. */
  lemma SccrqDoes(s: Fsm, avps: seq<Avp>)
    requires OfType(avps, SCCRQ)
    ensures var (t, actions) := React(s, Message(avps));
            if !s.state.Idle? then Refused(s, t, actions, PeerRestart)
            else
              match ParseSccrx(avps)
              case Failure => t == s && actions == []
              case Success(f) => t == Learns(s, f).(state := WaitCtlConn) && exists m :: Sends(actions, m, []) && Introduces(m, SCCRP, s.config)
  {
    hide BuildSccrx, Introduces, GetMessageType, ParseSccrx, Refused, BuildStopCcn;
    SccrxIntroduces(s.config, SCCRP);
    TeardownRefuses(s, PeerRestart);
    if s.state.Idle? && ParseSccrx(avps).Success? {
      assert Sends(React(s, Message(avps)).1, SccrpAvps(s.config), []);
    }
  }

  /** An SCCRP brings a waiting tunnel up: SCCCN, the timer, and the word to the sessions. */
  lemma SccrpDoes(s: Fsm, avps: seq<Avp>)
    requires OfType(avps, SCCRP)
    ensures var (t, actions) := React(s, Message(avps));
            if !s.state.WaitCtlReply? then t == s && actions == []
            else
              match ParseSccrx(avps)
              case Failure => Refused(s, t, actions, MalformedSccrp)
              case Success(f) =>
                t == Learns(s, f).(state := Established)
                && exists m :: Sends(actions, m, [SetHelloTimer(s.config.helloInterval), WentUp]) && OfType(m, SCCCN)
  {
    hide BuildBare, GetMessageType, ParseSccrx, Refused, BuildStopCcn;
    BareSurvives(SCCCN);
    TeardownRefuses(s, MalformedSccrp);
    if s.state.WaitCtlReply? && ParseSccrx(avps).Success? {
      assert Sends(React(s, Message(avps)).1, BuildBare(SCCCN), [SetHelloTimer(s.config.helloInterval), WentUp]);
    }
  }

  /** An SCCCN brings the answering tunnel up; a StopCCN takes any tunnel to IDLE; all else is ignored. */
  lemma OthersDo(s: Fsm, avps: seq<Avp>)
    requires GetMessageType(avps).Success? && GetMessageType(avps).value != Some(SCCRQ) && GetMessageType(avps).value != Some(SCCRP)
    ensures var (t, actions) := React(s, Message(avps));
            if OfType(avps, SCCCN) && s.state.WaitCtlConn?
            then t == s.(state := Established) && actions == [SetHelloTimer(s.config.helloInterval), WentUp]
            else if OfType(avps, STOPCCN)
            then t == s.(state := Idle) && (if s.state.Idle? then actions == []
                                           else exists info :: actions == Down(s, PeerStopCcn(info)) && Told(avps, info))
            else t == s && actions == []
  {
    hide GetMessageType, ParseStopCcn;
    if OfType(avps, STOPCCN) && !s.state.Idle? {
      var info := match ParseStopCcn(avps) case Success(fields) => Some(fields.info) case Failure => None;
      assert Told(avps, info);
      assert React(s, Message(avps)).1 == Down(s, PeerStopCcn(info));
    }
  }

  /** The reason the peer gave, if it can be read. */
  ghost predicate Told(avps: seq<Avp>, info: Option<ResultFields>) {
    match ParseStopCcn(avps)
    case Failure => info.None?
    case Success(f) => info == Some(f.info)
  }
}
