/** The session state machine (section 3.4 of RFC 3931): ICRQ, ICRP, ICCN and CDN for one pseudowire. */
module SessionFsm {
  import opened Prelude
  import opened AvpCodec
  import opened TypedMessages
  import Dataplane

  datatype State = Idle | WaitSessionReply | WaitSessionConnect | Established | SendCdn

  datatype Reason = LocalClose | TunnelDown | PeerCdn(info: Option<ResultFields>) | IcrqNotIdle | MalformedIcrp | SidMismatch | MalformedIccn

  datatype Action =
    | SendMessage(avps: seq<Avp>)
    | DataplaneAddSession(params: Dataplane.SessionParams)
    | DataplaneDelSession(localCcid: U32, localSid: U32)
    | SessionEstablished
    | SessionTornDown(reason: Reason)

  datatype Config = Config(
    name: Bytes, localCcid: U32, localSid: U32, pseudowireType: U16, initiator: bool,
    l2SpecificSublayer: U16, dataSequencing: U16, circuitStatus: U16,
    cookie: Option<Cookie>, peerCookie: Option<Cookie>,
    txConnectSpeed: Option<U64>, rxConnectSpeed: Option<U64>, ifname: Option<Bytes>)

  datatype Fsm = Fsm(config: Config, state: State, peerSid: U32, peerCookieLearned: Option<Cookie>)

  function Fresh(config: Config): Fsm { Fsm(config, Idle, 0, None) }

  predicate Up(s: Fsm) { s.state == Established }

  // ---- messages ------------------------------------------------------------------

  function IcrqAvps(c: Config): seq<Avp> {
    BuildSession(ICRQ, SessionArgs(c.localSid, 0, Some(c.pseudowireType), c.l2SpecificSublayer, c.dataSequencing,
                                   c.circuitStatus, Some(c.name), c.cookie, c.txConnectSpeed, c.rxConnectSpeed))
  }

  function IcrpAvps(c: Config, peerSid: U32): seq<Avp> {
    BuildSession(ICRP, SessionArgs(c.localSid, peerSid, None, c.l2SpecificSublayer, c.dataSequencing,
                                   c.circuitStatus, None, c.cookie, c.txConnectSpeed, c.rxConnectSpeed))
  }

  function IccnAvps(c: Config, peerSid: U32): seq<Avp> {
    BuildSession(ICCN, SessionArgs(c.localSid, peerSid, None, c.l2SpecificSublayer, c.dataSequencing,
                                   c.circuitStatus, None, None, c.txConnectSpeed, c.rxConnectSpeed))
  }

  function CdnAvps(s: Fsm, code: U16): seq<Avp> { BuildCdn(s.config.localSid, s.peerSid, Bare(code)) }

  /** learned or configured: an empty learned cookie counts as none. */
  function PeerCookie(s: Fsm): Option<Bytes> {
    if s.peerCookieLearned.Some? && s.peerCookieLearned.value != [] then Some(s.peerCookieLearned.value)
    else if s.config.peerCookie.Some? then Some(s.config.peerCookie.value) else None
  }

  function OwnCookie(c: Config): Option<Bytes> { if c.cookie.Some? then Some(c.cookie.value) else None }

  function Params(s: Fsm): Dataplane.SessionParams {
    var c := s.config;
    Dataplane.SessionParams(
      c.localCcid, c.localSid, s.peerSid,
      if c.ifname.Some? && c.ifname.value != [] then Dataplane.Named(c.ifname.value) else Dataplane.Derived(c.localCcid, c.localSid),
      OwnCookie(c), PeerCookie(s),
      if c.l2SpecificSublayer == 1 then Dataplane.DefaultSublayer else Dataplane.NoSublayer,
      if c.pseudowireType == ETHERNET_VLAN then Dataplane.EthernetVlan else Dataplane.Ethernet)
  }

  // ---- events --------------------------------------------------------------------

  function Leave(s: Fsm, reason: Reason): seq<Action> {
    if Up(s) then [DataplaneDelSession(s.config.localCcid, s.config.localSid), SessionTornDown(reason)] else []
  }

  function OnTunnelEstablished(s: Fsm): (Fsm, seq<Action>) {
    if !s.config.initiator || s.state != Idle then (s, [])
    else (s.(state := WaitSessionReply), [SendMessage(IcrqAvps(s.config))])
  }

  function OnLocalClose(s: Fsm, code: U16): (Fsm, seq<Action>) {
    if s.state == Idle || s.state == SendCdn then (s, [])
    else (s.(state := SendCdn), [SendMessage(CdnAvps(s, code))] + Leave(s, LocalClose))
  }

  function OnTunnelDown(s: Fsm): (Fsm, seq<Action>) {
    if s.state == Idle then (s, []) else (s.(state := Idle), Leave(s, TunnelDown))
  }

  function TeardownCdn(s: Fsm, reason: Reason): (Fsm, seq<Action>) {
    (s.(state := SendCdn), [SendMessage(CdnAvps(s, GENERAL_ERROR))] + Leave(s, reason))
  }

  function Learn(s: Fsm, fields: SessionFields): Fsm {
    s.(peerSid := fields.localSid,
       peerCookieLearned := if fields.assignedCookie.Some? then fields.assignedCookie else s.peerCookieLearned)
  }

  function OnIcrq(s: Fsm, avps: seq<Avp>): (Fsm, seq<Action>) {
    if s.state != Idle then TeardownCdn(s, IcrqNotIdle)
    else
      match ParseSession(avps)
      case Failure => (s, [])
      case Success(fields) =>
        var t := Learn(s, fields).(state := WaitSessionConnect);
        (t, [SendMessage(IcrpAvps(t.config, t.peerSid))])
  }

  function OnIcrp(s: Fsm, avps: seq<Avp>): (Fsm, seq<Action>) {
    if s.state != WaitSessionReply then (s, [])
    else
      match ParseSession(avps)
      case Failure => TeardownCdn(s, MalformedIcrp)
      case Success(fields) =>
        var t := Learn(s, fields).(state := Established);
        (t, [SendMessage(IccnAvps(t.config, t.peerSid)), DataplaneAddSession(Params(t)), SessionEstablished])
  }

  function OnIccn(s: Fsm, avps: seq<Avp>): (Fsm, seq<Action>) {
    if s.state != WaitSessionConnect then (s, [])
    else
      match ParseSession(avps)
      case Failure => TeardownCdn(s, MalformedIccn)
      case Success(fields) =>
        if fields.localSid != s.peerSid then TeardownCdn(s, SidMismatch)
        else
          var t := s.(state := Established);
          (t, [DataplaneAddSession(Params(t)), SessionEstablished])
  }

  function OnCdn(s: Fsm, avps: seq<Avp>): (Fsm, seq<Action>) {
    if s.state == Idle then (s, [])
    else
      var info := match ParseCdn(avps) case Success(fields) => Some(fields.info) case Failure => None;
      (s.(state := Idle), Leave(s, PeerCdn(info)))
  }

  /** An unreadable Message Type raises; nothing has changed then. */
  function OnMessage(s: Fsm, avps: seq<Avp>): (Fsm, seq<Action>) {
    match GetMessageType(avps)
    case Failure => (s, [])
    case Success(mt) =>
      if mt == Some(ICRQ) then OnIcrq(s, avps)
      else if mt == Some(ICRP) then OnIcrp(s, avps)
      else if mt == Some(ICCN) then OnIccn(s, avps)
      else if mt == Some(CDN) then OnCdn(s, avps)
      else (s, [])
  }

  datatype Event = TunnelUp | TunnelGone | Close(code: U16) | Message(avps: seq<Avp>)

  function React(s: Fsm, e: Event): (Fsm, seq<Action>) {
    match e
    case TunnelUp => OnTunnelEstablished(s)
    case TunnelGone => OnTunnelDown(s)
    case Close(code) => OnLocalClose(s, code)
    case Message(avps) => OnMessage(s, avps)
  }

  // ---- crossing in and out of ESTABLISHED -------------------------------------------

  /** The non-message actions of a step: nothing, the pair that brings the session up, or the pair that takes it down. */
  ghost predicate Crossing(s: Fsm, t: Fsm, rest: seq<Action>) {
    && (Up(s) == Up(t) ==> rest == [])
    && (!Up(s) && Up(t) ==> rest == [DataplaneAddSession(Params(t)), SessionEstablished])
    && (Up(s) && !Up(t) ==> |rest| == 2 && rest[0] == DataplaneDelSession(s.config.localCcid, s.config.localSid) && rest[1].SessionTornDown?)
  }

  function Tail(actions: seq<Action>): seq<Action> {
    if actions != [] && actions[0].SendMessage? then actions[1..] else actions
  }

  /** ICCN and CDN: the messages whose encoding cannot fail. */
  ghost predicate Short(s: Fsm, t: Fsm, avps: seq<Avp>) {
    avps == IccnAvps(s.config, t.peerSid) || exists code: U16 :: avps == CdnAvps(s, code)
  }

  /** A step sends at most one message first, then crosses; a message that may be too long stands alone. */
  ghost predicate Delta(s: Fsm, t: Fsm, actions: seq<Action>) {
    && t.config == s.config
    && (Up(s) && Up(t) ==> t == s)
    && Crossing(s, t, Tail(actions))
    && (Tail(actions) != actions && Tail(actions) != [] ==> Short(s, t, actions[0].avps))
  }

  lemma ReactDelta(s: Fsm, e: Event)
    ensures Delta(s, React(s, e).0, React(s, e).1)
  {
    hide Params, IcrqAvps, IcrpAvps, IccnAvps, CdnAvps, ParseSession, ParseCdn, GetMessageType;
  }

  /** true for an action that brings up what `down` takes down. */
  function Signals(actions: seq<Action>, dataplane: bool): seq<bool> {
    if actions == [] then []
    else
      (match actions[0]
       case DataplaneAddSession(_) => if dataplane then [true] else []
       case DataplaneDelSession(_, _) => if dataplane then [false] else []
       case SessionEstablished => if dataplane then [] else [true]
       case SessionTornDown(_) => if dataplane then [] else [false]
       case SendMessage(_) => []) + Signals(actions[1..], dataplane)
  }

  function Trace(s: Fsm, events: seq<Event>): (Fsm, seq<Action>)
    decreases |events|
  {
    if events == [] then (s, [])
    else
      var (t, actions) := React(s, events[0]);
      var (u, more) := Trace(t, events[1..]);
      (u, actions + more)
  }

  lemma {:induction false} SignalsConcat(left: seq<Action>, right: seq<Action>, dataplane: bool)
    ensures Signals(left + right, dataplane) == Signals(left, dataplane) + Signals(right, dataplane)
  {
    if left == [] {
      assert left + right == right;
    } else {
      assert (left + right)[1..] == left[1..] + right;
      SignalsConcat(left[1..], right, dataplane);
    }
  }

  lemma StepSignals(s: Fsm, e: Event, dataplane: bool)
    ensures var (t, actions) := React(s, e);
            Signals(actions, dataplane) == if Up(s) == Up(t) then [] else [Up(t)]
  {
    hide React, Short, Params;
    ReactDelta(s, e);
    var (t, actions) := React(s, e);
    var rest := Tail(actions);
    assert Signals(actions, dataplane) == Signals(rest, dataplane);
    if |rest| == 2 {
      assert rest[1..][1..] == [];
      assert Signals(rest[1..], dataplane) == Signals([rest[1]], dataplane);
    }
  }

  /**
   Over any events, the dataplane signals and the session signals each alternate, starting
   with up when the session starts down, and the last one tells whether it is ESTABLISHED.
   */
  lemma {:induction false} TraceAlternates(s: Fsm, events: seq<Event>, dataplane: bool)
    ensures var (t, actions) := Trace(s, events);
            var signals := Signals(actions, dataplane);
            && Alternates(signals, !Up(s))
            && Up(t) == (if signals == [] then Up(s) else signals[|signals| - 1])
    decreases |events|
  {
    hide React, Signals;
    if events == [] {
      assert Signals([], dataplane) == [] by { NoSignals(dataplane); }
    } else {
      var (t, actions) := React(s, events[0]);
      StepSignals(s, events[0], dataplane);
      TraceAlternates(t, events[1..], dataplane);
      SignalsConcat(actions, Trace(t, events[1..]).1, dataplane);
      var more := Signals(Trace(t, events[1..]).1, dataplane);
      if Up(s) == Up(t) {
        assert [] + more == more;
      } else {
        assert ([Up(t)] + more)[1..] == more;
      }
    }
  }

  lemma NoSignals(dataplane: bool)
    ensures Signals([], dataplane) == []
  {
  }

  // ---- messages built by the other end ----------------------------------------------

  ghost function FieldsOf(args: SessionArgs): SessionFields {
    SessionFields(args.localSid, args.remoteSid, args.pseudowireType, Some(args.l2SpecificSublayer),
                  Some(args.dataSequencing), Some(args.circuitStatus), args.assignedCookie,
                  args.remoteEndId, args.txConnectSpeed, args.rxConnectSpeed)
  }

  lemma IcrqTaken(s: Fsm, args: SessionArgs)
    requires s.state.Idle?
    ensures OnMessage(s, BuildSession(ICRQ, args)).0 == Learn(s, FieldsOf(args)).(state := WaitSessionConnect)
  {
    hide BuildSession, ParseSession, GetMessageType, IcrpAvps;
    SessionSurvives(ICRQ, args);
  }

  lemma IcrpTaken(s: Fsm, args: SessionArgs)
    requires s.state.WaitSessionReply?
    ensures OnMessage(s, BuildSession(ICRP, args)).0 == Learn(s, FieldsOf(args)).(state := Established)
  {
    hide BuildSession, ParseSession, GetMessageType, IccnAvps, Params;
    SessionSurvives(ICRP, args);
  }

  /** An ICCN completes the session only under the session ID its ICRQ announced. */
  lemma IccnTaken(s: Fsm, args: SessionArgs)
    requires s.state.WaitSessionConnect?
    ensures OnMessage(s, BuildSession(ICCN, args)).0
            == s.(state := if args.localSid == s.peerSid then Established else SendCdn)
  {
    hide BuildSession, ParseSession, GetMessageType, CdnAvps, Params;
    SessionSurvives(ICCN, args);
  }

  // ---- the object --------------------------------------------------------------------

  class SessionFSM {
    const config: Config
    var state: State
    var peerSid: U32
    var peerCookieLearned: Option<Cookie>

    function Model(): Fsm
      reads this
    {
      Fsm(config, state, peerSid, peerCookieLearned)
    }

    constructor (config: Config)
      ensures this.config == config && Model() == Fresh(config)
    {
      this.config := config;
      state, peerSid, peerCookieLearned := Idle, 0, None;
    }

    method TunnelEstablished() returns (actions: seq<Action>)
      modifies this
      ensures (Model(), actions) == OnTunnelEstablished(old(Model()))
    {
      if !config.initiator || state != Idle {
        return [];
      }
      state := WaitSessionReply;
      actions := [SendMessage(IcrqAvps(config))];
    }

    method LocalCloses(code: U16) returns (actions: seq<Action>)
      modifies this
      ensures (Model(), actions) == OnLocalClose(old(Model()), code)
    {
      if state == Idle || state == SendCdn {
        return [];
      }
      actions := [SendMessage(CdnAvps(Model(), code))] + Leave(Model(), LocalClose);
      state := SendCdn;
    }

    method TunnelWentDown() returns (actions: seq<Action>)
      modifies this
      ensures (Model(), actions) == OnTunnelDown(old(Model()))
    {
      if state == Idle {
        return [];
      }
      actions := Leave(Model(), TunnelDown);
      state := Idle;
    }

    method Teardown(reason: Reason) returns (actions: seq<Action>)
      modifies this
      ensures (Model(), actions) == TeardownCdn(old(Model()), reason)
    {
      actions := [SendMessage(CdnAvps(Model(), GENERAL_ERROR))] + Leave(Model(), reason);
      state := SendCdn;
    }

    method Learns(fields: SessionFields)
      modifies this`peerSid, this`peerCookieLearned
      ensures Model() == Learn(old(Model()), fields)
    {
      peerSid := fields.localSid;
      if fields.assignedCookie.Some? {
        peerCookieLearned := fields.assignedCookie;
      }
    }

    /** Fails when the Message Type AVP cannot be read. */
    method Receive(avps: seq<Avp>) returns (r: Result<seq<Action>>)
      modifies this
      ensures r.Failure? <==> GetMessageType(avps).Failure?
      ensures Model() == OnMessage(old(Model()), avps).0
      ensures r.Success? ==> r.value == OnMessage(old(Model()), avps).1
    {
      hide ParseSession, ParseCdn, Params, IcrpAvps, IccnAvps, CdnAvps, GetMessageType;
      var mt := GetMessageType(avps);
      if mt.Failure? {
        return Failure;
      }
      var actions := [];
      if mt.value == Some(ICRQ) {
        if state != Idle {
          actions := Teardown(IcrqNotIdle);
        } else {
          var fields := ParseSession(avps);
          if fields.Success? {
            Learns(fields.value);
            state := WaitSessionConnect;
            actions := [SendMessage(IcrpAvps(config, peerSid))];
          }
        }
      } else if mt.value == Some(ICRP) {
        if state == WaitSessionReply {
          var fields := ParseSession(avps);
          if fields.Failure? {
            actions := Teardown(MalformedIcrp);
          } else {
            Learns(fields.value);
            state := Established;
            actions := [SendMessage(IccnAvps(config, peerSid)), DataplaneAddSession(Params(Model())), SessionEstablished];
          }
        }
      } else if mt.value == Some(ICCN) {
        if state == WaitSessionConnect {
          var fields := ParseSession(avps);
          if fields.Failure? {
            actions := Teardown(MalformedIccn);
          } else if fields.value.localSid != peerSid {
            actions := Teardown(SidMismatch);
          } else {
            state := Established;
            actions := [DataplaneAddSession(Params(Model())), SessionEstablished];
          }
        }
      } else if mt.value == Some(CDN) {
        if state != Idle {
          var fields := ParseCdn(avps);
          var info := if fields.Success? then Some(fields.value.info) else None;
          actions := Leave(Model(), PeerCdn(info));
          state := Idle;
        }
      }
      r := Success(actions);
    }

    /** Fails when the event is a message whose Message Type AVP cannot be read. */
    method Handle(e: Event) returns (r: Result<seq<Action>>)
      modifies this
      ensures r.Failure? <==> e.Message? && GetMessageType(e.avps).Failure?
      ensures Model() == React(old(Model()), e).0
      ensures r.Success? ==> r.value == React(old(Model()), e).1
    {
      var actions: seq<Action>;
      hide OnTunnelEstablished, OnTunnelDown, OnLocalClose, OnMessage, GetMessageType;
      match e {
        case TunnelUp => actions := TunnelEstablished();
        case TunnelGone => actions := TunnelWentDown();
        case Close(code) => actions := LocalCloses(code);
        case Message(avps) =>
          r := Receive(avps);
          return;
      }
      r := Success(actions);
    }
  }
}
