/** The control connection state machine (section 3.3 of RFC 3931): SCCRQ, SCCRP, SCCCN, HELLO and StopCCN. */
module TunnelFsm {
  import opened Prelude
  import opened AvpCodec
  import opened TypedMessages

  datatype State = Idle | WaitCtlReply | WaitCtlConn | Established | SendStopCcn

  datatype Reason = LocalClose | PeerDead | PeerRestart | MalformedSccrp | PeerStopCcn(info: Option<ResultFields>)

  datatype Action = SendMessage(avps: seq<Avp>) | SetHelloTimer(seconds: real) | ClearHelloTimer | WentUp | TornDown(reason: Reason)

  datatype Config = Config(
    hostName: Bytes, routerId: U32, localCcid: U32, pwCapabilities: Capabilities, receiveWindow: U16,
    helloInterval: real, vendorName: Option<Bytes>, firmwareRevision: Option<U16>)

  datatype Fsm = Fsm(config: Config, state: State, peerCcid: U32, peerHostName: Bytes, peerRouterId: U32)

  function Fresh(config: Config): Fsm { Fsm(config, Idle, 0, [], 0) }

  predicate Up(s: Fsm) { s.state == Established }

  // ---- messages ------------------------------------------------------------------

  function Identity(c: Config): SccrxArgs {
    SccrxArgs(c.routerId, c.localCcid, c.hostName, c.pwCapabilities, c.receiveWindow, c.vendorName, c.firmwareRevision, None)
  }

  function SccrqAvps(c: Config): seq<Avp> { BuildSccrx(SCCRQ, Identity(c)) }

  function SccrpAvps(c: Config): seq<Avp> { BuildSccrx(SCCRP, Identity(c)) }

  function StopCcnAvps(c: Config, code: U16): seq<Avp> { BuildStopCcn(c.localCcid, Bare(code)) }

  // ---- events --------------------------------------------------------------------

  function Leave(s: Fsm, reason: Reason): seq<Action> {
    [ClearHelloTimer] + if Up(s) then [TornDown(reason)] else []
  }

  function OnLocalOpen(s: Fsm): (Fsm, seq<Action>) {
    if s.state != Idle then (s, []) else (s.(state := WaitCtlReply), [SendMessage(SccrqAvps(s.config))])
  }

  function OnLocalClose(s: Fsm, code: U16): (Fsm, seq<Action>) {
    if s.state == Idle || s.state == SendStopCcn then (s, [])
    else (s.(state := SendStopCcn), [SendMessage(StopCcnAvps(s.config, code))] + Leave(s, LocalClose))
  }

  function OnHelloTimer(s: Fsm): (Fsm, seq<Action>) {
    (s, if Up(s) then [SendMessage(BuildBare(HELLO)), SetHelloTimer(s.config.helloInterval)] else [])
  }

  function OnPeerDead(s: Fsm): (Fsm, seq<Action>) {
    if s.state == Idle then (s, []) else (s.(state := Idle), Leave(s, PeerDead))
  }

  function TeardownAndNotify(s: Fsm, reason: Reason): (Fsm, seq<Action>) {
    (s.(state := SendStopCcn), [SendMessage(StopCcnAvps(s.config, GENERAL_ERROR))] + Leave(s, reason))
  }

  function Capture(s: Fsm, fields: SccrxFields): Fsm {
    s.(peerCcid := fields.assignedCcid, peerHostName := fields.hostName, peerRouterId := fields.routerId)
  }

  function OnSccrq(s: Fsm, avps: seq<Avp>): (Fsm, seq<Action>) {
    if s.state != Idle then TeardownAndNotify(s, PeerRestart)
    else
      match ParseSccrx(avps)
      case Failure => (s, [])
      case Success(fields) => (Capture(s, fields).(state := WaitCtlConn), [SendMessage(SccrpAvps(s.config))])
  }

  function OnSccrp(s: Fsm, avps: seq<Avp>): (Fsm, seq<Action>) {
    if s.state != WaitCtlReply then (s, [])
    else
      match ParseSccrx(avps)
      case Failure => TeardownAndNotify(s, MalformedSccrp)
      case Success(fields) =>
        (Capture(s, fields).(state := Established),
         [SendMessage(BuildBare(SCCCN)), SetHelloTimer(s.config.helloInterval), WentUp])
  }

  function OnScccn(s: Fsm): (Fsm, seq<Action>) {
    if s.state != WaitCtlConn then (s, [])
    else (s.(state := Established), [SetHelloTimer(s.config.helloInterval), WentUp])
  }

  function OnStopCcn(s: Fsm, avps: seq<Avp>): (Fsm, seq<Action>) {
    if s.state == Idle then (s, [])
    else
      var info := match ParseStopCcn(avps) case Success(fields) => Some(fields.info) case Failure => None;
      (s.(state := Idle), Leave(s, PeerStopCcn(info)))
  }

  /** An unreadable Message Type raises; nothing has changed then. */
  function OnMessage(s: Fsm, avps: seq<Avp>): (Fsm, seq<Action>) {
    match GetMessageType(avps)
    case Failure => (s, [])
    case Success(mt) =>
      if mt == Some(SCCRQ) then OnSccrq(s, avps)
      else if mt == Some(SCCRP) then OnSccrp(s, avps)
      else if mt == Some(SCCCN) then OnScccn(s)
      else if mt == Some(STOPCCN) then OnStopCcn(s, avps)
      else (s, [])
  }

  datatype Event = Open | Close(code: U16) | HelloTimer | Dead | Message(avps: seq<Avp>)

  function React(s: Fsm, e: Event): (Fsm, seq<Action>) {
    match e
    case Open => OnLocalOpen(s)
    case Close(code) => OnLocalClose(s, code)
    case HelloTimer => OnHelloTimer(s)
    case Dead => OnPeerDead(s)
    case Message(avps) => OnMessage(s, avps)
  }

  // ---- crossing in and out of ESTABLISHED -------------------------------------------

  /** SCCCN, HELLO and StopCCN: the messages whose encoding cannot fail. */
  ghost predicate Short(c: Config, avps: seq<Avp>) {
    avps == BuildBare(SCCCN) || avps == BuildBare(HELLO) || exists code: U16 :: avps == StopCcnAvps(c, code)
  }

  /** The other actions of a step: the HELLO timer is set when the tunnel comes up, or again when it fires, and cleared on the way down. */
  ghost predicate Crossing(s: Fsm, e: Event, t: Fsm, rest: seq<Action>) {
    && (Up(s) && Up(t) ==> rest == if e.HelloTimer? then [SetHelloTimer(s.config.helloInterval)] else [])
    && (!Up(s) && Up(t) ==> rest == [SetHelloTimer(s.config.helloInterval), WentUp])
    && (Up(s) && !Up(t) ==> |rest| == 2 && rest[0] == ClearHelloTimer && rest[1].TornDown?)
    && (!Up(s) && !Up(t) ==> rest == [] || rest == [ClearHelloTimer])
  }

  function Tail(actions: seq<Action>): seq<Action> {
    if actions != [] && actions[0].SendMessage? then actions[1..] else actions
  }

  /** A step sends at most one message first, then crosses; a message that may be too long stands alone. */
  ghost predicate Delta(s: Fsm, e: Event, t: Fsm, actions: seq<Action>) {
    && t.config == s.config
    && (Up(s) && Up(t) ==> t == s)
    && Crossing(s, e, t, Tail(actions))
    && (Tail(actions) != actions && Tail(actions) != [] ==> Short(s.config, actions[0].avps))
  }

  lemma ReactDelta(s: Fsm, e: Event)
    ensures Delta(s, e, React(s, e).0, React(s, e).1)
  {
    hide BuildSccrx, BuildBare, BuildStopCcn, ParseSccrx, ParseStopCcn, GetMessageType;
  }

  /** true for the signal that the tunnel came up, false for the one that it went down. */
  function Signals(actions: seq<Action>): seq<bool> {
    if actions == [] then []
    else
      (match actions[0]
       case WentUp => [true]
       case TornDown(_) => [false]
       case _ => []) + Signals(actions[1..])
  }

  function Trace(s: Fsm, events: seq<Event>): (Fsm, seq<Action>)
    decreases |events|
  {
    if events == [] then (s, [])
    else
      var (t, actions) := React(s, events[0]);
      var (u, more) := Trace(t, events[1..]);
      (u, actions + more)
  }

  lemma {:induction false} SignalsConcat(left: seq<Action>, right: seq<Action>)
    ensures Signals(left + right) == Signals(left) + Signals(right)
  {
    if left == [] {
      assert left + right == right;
    } else {
      assert (left + right)[1..] == left[1..] + right;
      SignalsConcat(left[1..], right);
    }
  }

  lemma StepSignals(s: Fsm, e: Event)
    ensures var (t, actions) := React(s, e);
            Signals(actions) == if Up(s) == Up(t) then [] else [Up(t)]
  {
    hide React, Short;
    ReactDelta(s, e);
    var (t, actions) := React(s, e);
    var rest := Tail(actions);
    assert Signals(actions) == Signals(rest);
    if |rest| == 2 {
      assert rest[1..][1..] == [];
      assert Signals(rest[1..]) == Signals([rest[1]]);
    }
  }

  lemma NoSignals()
    ensures Signals([]) == []
  {
  }

  /**
   Over any events the up and down signals alternate, starting with up when the tunnel
   starts down, and the last one tells whether it is ESTABLISHED.
   */
  lemma {:induction false} TraceAlternates(s: Fsm, events: seq<Event>)
    ensures var (t, actions) := Trace(s, events);
            var signals := Signals(actions);
            && Alternates(signals, !Up(s))
            && Up(t) == (if signals == [] then Up(s) else signals[|signals| - 1])
    decreases |events|
  {
    hide React, Signals;
    if events == [] {
      NoSignals();
    } else {
      var (t, actions) := React(s, events[0]);
      StepSignals(s, events[0]);
      TraceAlternates(t, events[1..]);
      SignalsConcat(actions, Trace(t, events[1..]).1);
      var more := Signals(Trace(t, events[1..]).1);
      if Up(s) == Up(t) {
        assert [] + more == more;
      } else {
        assert ([Up(t)] + more)[1..] == more;
      }
    }
  }

  // ---- the object --------------------------------------------------------------------

  class TunnelFSM {
    const config: Config
    var state: State
    var peerCcid: U32
    var peerHostName: Bytes
    var peerRouterId: U32

    function Model(): Fsm
      reads this
    {
      Fsm(config, state, peerCcid, peerHostName, peerRouterId)
    }

    constructor (config: Config)
      ensures this.config == config && Model() == Fresh(config)
    {
      this.config := config;
      state, peerCcid, peerHostName, peerRouterId := Idle, 0, [], 0;
    }

    method LocalOpens() returns (actions: seq<Action>)
      modifies this
      ensures (Model(), actions) == OnLocalOpen(old(Model()))
    {
      if state != Idle {
        return [];
      }
      state := WaitCtlReply;
      actions := [SendMessage(SccrqAvps(config))];
    }

    method LocalCloses(code: U16) returns (actions: seq<Action>)
      modifies this
      ensures (Model(), actions) == OnLocalClose(old(Model()), code)
    {
      if state == Idle || state == SendStopCcn {
        return [];
      }
      actions := [SendMessage(StopCcnAvps(config, code))] + Leave(Model(), LocalClose);
      state := SendStopCcn;
    }

    method HelloTimerFires() returns (actions: seq<Action>)
      ensures (Model(), actions) == OnHelloTimer(Model())
    {
      if state != Established {
        return [];
      }
      actions := [SendMessage(BuildBare(HELLO)), SetHelloTimer(config.helloInterval)];
    }

    method PeerDied() returns (actions: seq<Action>)
      modifies this
      ensures (Model(), actions) == OnPeerDead(old(Model()))
    {
      if state == Idle {
        return [];
      }
      actions := Leave(Model(), PeerDead);
      state := Idle;
    }

    method Teardown(reason: Reason) returns (actions: seq<Action>)
      modifies this
      ensures (Model(), actions) == TeardownAndNotify(old(Model()), reason)
    {
      actions := [SendMessage(StopCcnAvps(config, GENERAL_ERROR))] + Leave(Model(), reason);
      state := SendStopCcn;
    }

    method Captures(fields: SccrxFields)
      modifies this`peerCcid, this`peerHostName, this`peerRouterId
      ensures Model() == Capture(old(Model()), fields)
    {
      peerCcid, peerHostName, peerRouterId := fields.assignedCcid, fields.hostName, fields.routerId;
    }

    /** Fails when the Message Type AVP cannot be read. */
    method Receive(avps: seq<Avp>) returns (r: Result<seq<Action>>)
      modifies this
      ensures r.Failure? <==> GetMessageType(avps).Failure?
      ensures Model() == OnMessage(old(Model()), avps).0
      ensures r.Success? ==> r.value == OnMessage(old(Model()), avps).1
    {
      hide ParseSccrx, ParseStopCcn, BuildSccrx, BuildBare, BuildStopCcn, GetMessageType;
      var mt := GetMessageType(avps);
      if mt.Failure? {
        return Failure;
      }
      var actions := [];
      if mt.value == Some(SCCRQ) {
        if state != Idle {
          actions := Teardown(PeerRestart);
        } else {
          var fields := ParseSccrx(avps);
          if fields.Success? {
            Captures(fields.value);
            state := WaitCtlConn;
            actions := [SendMessage(SccrpAvps(config))];
          }
        }
      } else if mt.value == Some(SCCRP) {
        if state == WaitCtlReply {
          var fields := ParseSccrx(avps);
          if fields.Failure? {
            actions := Teardown(MalformedSccrp);
          } else {
            Captures(fields.value);
            state := Established;
            actions := [SendMessage(BuildBare(SCCCN)), SetHelloTimer(config.helloInterval), WentUp];
          }
        }
      } else if mt.value == Some(SCCCN) {
        if state == WaitCtlConn {
          state := Established;
          actions := [SetHelloTimer(config.helloInterval), WentUp];
        }
      } else if mt.value == Some(STOPCCN) {
        if state != Idle {
          var fields := ParseStopCcn(avps);
          var info := if fields.Success? then Some(fields.value.info) else None;
          actions := Leave(Model(), PeerStopCcn(info));
          state := Idle;
        }
      }
      r := Success(actions);
    }

    /** Fails when the event is a message whose Message Type AVP cannot be read. */
    method Handle(e: Event) returns (r: Result<seq<Action>>)
      modifies this
      ensures r.Failure? <==> e.Message? && GetMessageType(e.avps).Failure?
      ensures Model() == React(old(Model()), e).0
      ensures r.Success? ==> r.value == React(old(Model()), e).1
    {
      var actions: seq<Action>;
      hide OnLocalOpen, OnHelloTimer, OnPeerDead, OnLocalClose, OnMessage, GetMessageType;
      match e {
        case Open => actions := LocalOpens();
        case Close(code) => actions := LocalCloses(code);
        case HelloTimer => actions := HelloTimerFires();
        case Dead => actions := PeerDied();
        case Message(avps) =>
          r := Receive(avps);
          return;
      }
      r := Success(actions);
    }
  }
}
