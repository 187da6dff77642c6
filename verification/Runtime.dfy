/**
 One configured tunnel as a value: the state machines, the reliable-delivery layer, the HELLO
 timer and the dataplane, and the executor that carries the machines' actions out. Sends and
 calls that raise end the event there. Class TunnelObject.Tunnel updates the same state in place.
 */
module Runtime {
  import opened Prelude
  import opened AvpCodec
  import opened MessageCodec
  import opened TypedMessages
  import opened Signing
  import T = TunnelFsm
  import S = SessionFsm
  import D = Dataplane
  import P = Transport

  type Secret = b: Bytes | b != [] witness [0]

  datatype Auth = Auth(hmac: Hmac, hash: DigestHash, secret: Secret)

  datatype Setup = Setup(localAddress: Bytes, remoteAddress: Bytes, auth: Option<Auth>)

  /**
   `order` lists the session IDs as configured; `byRemote` maps a peer's session ID to ours;
   `timers` are the event loop's pending handles; `sent` and `wire` log the AVP lists handed to
   the delivery layer and the datagrams handed to the transport; `faults` counts dataplane errors.
   */
  datatype Rt = Rt(
    setup: Setup, fsm: T.Fsm, order: seq<U32>, sessions: map<U32, S.Fsm>, byRemote: map<U32, U32>,
    dpAdded: bool, dataplane: Option<D.Tables>, peer: P.PeerState,
    hello: Option<nat>, timers: set<nat>, nextTimer: nat,
    sent: seq<seq<Avp>>, wire: seq<Bytes>, faults: nat)

  datatype Outcome = Outcome(rt: Rt, raised: bool)

  function Ccid(r: Rt): U32 { r.fsm.config.localCcid }

  // ---- primitive effects ---------------------------------------------------------

  function Sealed(setup: Setup, m: ControlMessage): Result<Bytes> {
    match setup.auth
    case None => ToWire(m)
    case Some(a) => EncodeSigned(a.hmac, m, a.hash, a.secret)
  }

  function Transmit(r: Rt, avps: seq<Avp>, now: real): Outcome {
    match P.Send(r.peer, avps, now)
    case Failure => Outcome(r, true)
    case Success((peer, m)) =>
      var q := r.(peer := peer, sent := r.sent + [avps]);
      match Sealed(r.setup, m)
      case Failure => Outcome(q, true)
      case Success(b) => Outcome(q.(wire := q.wire + [b]), false)
  }

  function CancelHello(r: Rt): Rt {
    if r.hello.None? then r else r.(hello := None, timers := r.timers - {r.hello.value})
  }

  function ArmHello(r: Rt): Rt {
    var q := CancelHello(r);
    q.(hello := Some(q.nextTimer), timers := q.timers + {q.nextTimer}, nextTimer := q.nextTimer + 1)
  }

  function TunnelParams(r: Rt, remoteCcid: U32): D.TunnelParams {
    D.TunnelParams(Ccid(r), remoteCcid, r.setup.localAddress, r.setup.remoteAddress)
  }

  /** Peers hold 32-bit IDs (PeerOk). */
  function Remote(p: P.PeerState): U32 { if 0 <= p.remoteCcid <= 0xFFFF_FFFF then p.remoteCcid else 0 }

  function EnsureTunnel(r: Rt): Rt {
    if r.dpAdded || r.dataplane.None? then r
    else
      match D.AddTunnel(r.dataplane.value, TunnelParams(r, Remote(r.peer)))
      case Failure => r.(faults := r.faults + 1)
      case Success(d) => r.(dataplane := Some(d), dpAdded := true)
  }

  function Insert(r: Rt, params: D.SessionParams): Rt {
    if r.dataplane.None? then r
    else
      match D.AddSession(r.dataplane.value, params)
      case Failure => r.(faults := r.faults + 1)
      case Success(d) => r.(dataplane := Some(d))
  }

  function AddSession(r: Rt, params: D.SessionParams): Rt { Insert(EnsureTunnel(r), params) }

  function DropSession(r: Rt, ccid: U32, sid: U32): Rt {
    if r.dataplane.None? then r else r.(dataplane := Some(D.DelSession(r.dataplane.value, ccid, sid)))
  }

  function DropTunnel(r: Rt): Rt {
    if !r.dpAdded || r.dataplane.None? then r
    else
      match D.DelTunnel(r.dataplane.value, Ccid(r))
      case Failure => r.(faults := r.faults + 1, dpAdded := false)
      case Success(d) => r.(dataplane := Some(d), dpAdded := false)
  }

  // ---- the executor --------------------------------------------------------------

  function ExecSession(r: Rt, actions: seq<S.Action>, now: real): Outcome
    decreases |actions|
  {
    if actions == [] then Outcome(r, false)
    else
      match actions[0]
      case SendMessage(avps) =>
        var o := Transmit(r, avps, now);
        if o.raised then o else ExecSession(o.rt, actions[1..], now)
      case DataplaneAddSession(params) => ExecSession(AddSession(r, params), actions[1..], now)
      case DataplaneDelSession(ccid, sid) => ExecSession(DropSession(r, ccid, sid), actions[1..], now)
      case SessionEstablished => ExecSession(r, actions[1..], now)
      case SessionTornDown(_) => ExecSession(r, actions[1..], now)
  }

  /** An event for one session, its actions carried out. */
  function SessionStep(r: Rt, sid: U32, e: S.Event, now: real): Outcome {
    if sid !in r.sessions then Outcome(r, false)
    else
      var (t, actions) := S.React(r.sessions[sid], e);
      ExecSession(r.(sessions := r.sessions[sid := t]), actions, now)
  }

  /** The event for every session of `sids` in turn. */
  function Cascade(r: Rt, sids: seq<U32>, e: S.Event, now: real): Outcome
    decreases |sids|
  {
    if sids == [] then Outcome(r, false)
    else
      var o := SessionStep(r, sids[0], e, now);
      if o.raised then o else Cascade(o.rt, sids[1..], e, now)
  }

  /** The tunnel came down: every session first, then the kernel's tunnel. */
  function GoDown(r: Rt, now: real): Outcome {
    var down := Cascade(r, r.order, S.TunnelGone, now);
    if down.raised then down else Outcome(DropTunnel(down.rt), false)
  }

  function Effect(r: Rt, action: T.Action, now: real): Outcome {
    match action
    case SendMessage(avps) => Transmit(r, avps, now)
    case SetHelloTimer(_) => Outcome(ArmHello(r), false)
    case ClearHelloTimer => Outcome(CancelHello(r), false)
    case WentUp => Cascade(r, r.order, S.TunnelUp, now)
    case TornDown(_) => GoDown(r, now)
  }

  function ExecTunnel(r: Rt, actions: seq<T.Action>, now: real): Outcome
    decreases |actions|
  {
    if actions == [] then Outcome(r, false)
    else
      var o := Effect(r, actions[0], now);
      if o.raised then o else ExecTunnel(o.rt, actions[1..], now)
  }

  /** An event for the control connection, its actions and the cascades they set off carried out. */
  function TunnelStep(r: Rt, e: T.Event, now: real): Outcome {
    var (t, actions) := T.React(r.fsm, e);
    ExecTunnel(r.(fsm := t), actions, now)
  }

  // ---- routing -------------------------------------------------------------------

  /** The first idle session in configuration order, of the given name if there is one. */
  function FirstIdle(order: seq<U32>, sessions: map<U32, S.Fsm>, name: Option<Bytes>): Option<U32> {
    if order == [] then None
    else if order[0] in sessions && sessions[order[0]].state.Idle? && (name.None? || sessions[order[0]].config.name == name.value)
    then Some(order[0])
    else FirstIdle(order[1..], sessions, name)
  }

  datatype Route = Route(localTarget: U32, remoteKey: U32, name: Option<Bytes>)

  function ReadRoute(avps: seq<Avp>, messageType: U16): Result<Route> {
    if messageType == CDN then
      var fields :- ParseCdn(avps);
      Success(Route(fields.remoteSid, fields.localSid, None))
    else
      var fields :- ParseSession(avps);
      Success(Route(fields.remoteSid, fields.localSid, fields.remoteEndId))
  }

  function Target(r: Rt, route: Route, messageType: U16): Option<U32> {
    if route.localTarget != 0 && route.localTarget in r.sessions then Some(route.localTarget)
    else if messageType == ICRQ then FirstIdle(r.order, r.sessions, route.name)
    else if route.remoteKey != 0 && route.remoteKey in r.byRemote then Some(r.byRemote[route.remoteKey])
    else None
  }

  function Index(byRemote: map<U32, U32>, peerSid: U32, sid: U32): map<U32, U32> {
    if peerSid != 0 && peerSid !in byRemote then byRemote[peerSid := sid] else byRemote
  }

  function DispatchSession(r: Rt, avps: seq<Avp>, messageType: U16, now: real): Outcome {
    match ReadRoute(avps, messageType)
    case Failure => Outcome(r, false)
    case Success(route) =>
      match Target(r, route, messageType)
      case None => Outcome(r, false)
      case Some(sid) =>
        if sid !in r.sessions then Outcome(r, false)
        else
          var peerSid := S.OnMessage(r.sessions[sid], avps).0.peerSid;
          SessionStep(r.(byRemote := Index(r.byRemote, peerSid, sid)), sid, S.Message(avps), now)
  }

  predicate IsSessionType(mt: Option<U16>) { mt == Some(ICRQ) || mt == Some(ICRP) || mt == Some(ICCN) || mt == Some(CDN) }

  /** What the delivery layer hands over goes where its first Message Type says. */
  function Arrived(r: Rt, delivered: seq<Avp>, now: real): Outcome {
    if delivered == [] then Outcome(r, false)
    else
      match GetMessageType(delivered)
      case Failure => Outcome(r, true)
      case Success(mt) =>
        if IsSessionType(mt) then DispatchSession(r, delivered, mt.value, now)
        else TunnelStep(r, T.Message(delivered), now)
  }

  /** The CCID to address the peer with, learned from the first message that assigns one. */
  function Learned(remote: int, avps: seq<Avp>): int {
    if remote != 0 then remote
    else
      match Find(avps, ASSIGNED_CONTROL_CONNECTION_ID)
      case None => remote
      case Some(a) => if |a.value| == 4 then Unpack(a.value) else remote
  }

  function Overhear(r: Rt, avps: seq<Avp>): Rt {
    r.(peer := r.peer.(remoteCcid := Learned(r.peer.remoteCcid, avps)))
  }

  function Open(setup: Setup, buf: Bytes): Result<ControlMessage> {
    match setup.auth
    case None => FromWire(buf)
    case Some(a) => DecodeAndVerify(a.hmac, buf, a.hash, a.secret)
  }

  function Reply(r: Rt, responses: seq<ControlMessage>): Outcome
    decreases |responses|
  {
    if responses == [] then Outcome(r, false)
    else
      match ToWire(responses[0])
      case Failure => Outcome(r, true)
      case Success(b) => Reply(r.(wire := r.wire + [b]), responses[1..])
  }

  function HandleDatagram(r: Rt, buf: Bytes, now: real): Outcome {
    match Open(r.setup, buf)
    case Failure => Outcome(r, false)
    case Success(m) =>
      var q := Overhear(r, m.avps);
      var received := P.Receive(q.peer, m);
      var o := Reply(q.(peer := received.peer), received.responses);
      if o.raised then o else Arrived(o.rt, received.delivered, now)
  }

  function TickTunnel(r: Rt, now: real): Outcome {
    var (peer, resend, dead) := P.Tick(r.peer, now);
    var q := r.(peer := peer, wire := r.wire + resend);
    if dead then TunnelStep(q, T.Dead, now) else Outcome(q, false)
  }

  function CloseTunnel(r: Rt, now: real): Outcome {
    var o := TunnelStep(r, T.Close(ADMIN_SHUTDOWN), now);
    if o.raised then o else Outcome(CancelHello(o.rt), false)
  }

  /** The event loop runs a pending handle, which is pending no more. */
  function HelloFires(r: Rt, handle: nat, now: real): Outcome {
    TunnelStep(r.(hello := None, timers := r.timers - {handle}), T.HelloTimer, now)
  }

  datatype Event =
    | Start
    | Close
    | Datagram(buf: Bytes)
    | Tick
    | Fires(handle: nat)
    | SessionClose(sid: U32, code: U16)
    | Elsewhere(tables: D.Tables)

  function Next(r: Rt, e: Event, now: real): Outcome {
    match e
    case Start => TunnelStep(r, T.Open, now)
    case Close => CloseTunnel(r, now)
    case Datagram(buf) => HandleDatagram(r, buf, now)
    case Tick => TickTunnel(r, now)
    case Fires(handle) => HelloFires(r, handle, now)
    case SessionClose(sid, code) => SessionStep(r, sid, S.Close(code), now)
    case Elsewhere(tables) => Outcome(if r.dataplane.None? then r else r.(dataplane := Some(tables)), false)
  }

  // ---- construction --------------------------------------------------------------

  function Sids(configs: seq<S.Config>): seq<U32> { seq(|configs|, i requires 0 <= i < |configs| => configs[i].localSid) }

  function Book(configs: seq<S.Config>): map<U32, S.Fsm> {
    if configs == [] then map[]
    else
      var last := configs[|configs| - 1];
      Book(configs[..|configs| - 1])[last.localSid := S.Fresh(last)]
  }

  /** A tunnel as constructed: everything idle, nothing sent, no timer. */
  function Boot(setup: Setup, config: T.Config, configs: seq<S.Config>, dataplane: Option<D.Tables>, peer: P.PeerState): Rt {
    Rt(setup, T.Fresh(config), Sids(configs), Book(configs), map[], false, dataplane, peer, None, {}, 0, [], [], 0)
  }

  // ---- invariants ----------------------------------------------------------------

  ghost predicate NoRepeats(sids: seq<U32>) { forall i, j :: 0 <= i < j < |sids| ==> sids[i] != sids[j] }

  ghost predicate Configured(r: Rt) {
    && NoRepeats(r.order)
    && (forall sid :: sid in r.order <==> sid in r.sessions)
    && (forall sid :: sid in r.sessions ==> r.sessions[sid].config.localSid == sid && r.sessions[sid].config.localCcid == Ccid(r))
    && (forall k :: k in r.byRemote ==> r.byRemote[k] in r.sessions)
  }

  ghost predicate PeerOk(p: P.PeerState) { 0 <= p.remoteCcid <= 0xFFFF_FFFF && P.PeerInv(p) }

  /** The handle is live, it is the only one, and there is one exactly when the tunnel is up. */
  ghost predicate HelloInv(r: Rt, up: bool) {
    && r.timers == (if r.hello.Some? then {r.hello.value} else {})
    && r.hello.Some? == up
    && (r.hello.Some? ==> r.hello.value < r.nextTimer)
  }

  ghost predicate EntryAgrees(d: D.Tables, ccid: U32, sid: U32, sessions: map<U32, S.Fsm>) {
    && ((ccid, sid) in d.sessions <==> sid in sessions && S.Up(sessions[sid]))
    && ((ccid, sid) in d.sessions ==> d.sessions[(ccid, sid)] == S.Params(sessions[sid]))
  }

  /** The kernel's tunnel, field by field: our CCID, both configured addresses the right way round, and the peer's CCID unless it was not known yet. */
  ghost predicate EntryDescribes(e: D.TunnelParams, r: Rt) {
    && e.localCcid == r.fsm.config.localCcid && e.localAddress == r.setup.localAddress && e.remoteAddress == r.setup.remoteAddress
    && (e.remoteCcid == 0 || e.remoteCcid == r.peer.remoteCcid)
  }

  /**
   The kernel's sessions under this CCID are the ESTABLISHED ones, with their parameters; its
   tunnel entry is there exactly when dpAdded says so, and under every session entry.
   */
  ghost predicate Agrees(r: Rt) {
    && r.faults == 0
    && (r.dataplane.None? ==> !r.dpAdded)
    && (r.dataplane.Some? ==>
          var d := r.dataplane.value;
          && (forall sid :: EntryAgrees(d, Ccid(r), sid, r.sessions))
          && (Ccid(r) in d.tunnels <==> r.dpAdded)
          && (forall sid: U32 :: (Ccid(r), sid) in d.sessions ==> r.dpAdded)
          && (r.dpAdded ==> EntryDescribes(d.tunnels[Ccid(r)], r)))
  }

  ghost predicate Inv(r: Rt) {
    Configured(r) && PeerOk(r.peer) && HelloInv(r, T.Up(r.fsm)) && Agrees(r)
  }

  /** No entry of another tunnel differs. */
  ghost predicate SameOutside(d: D.Tables, e: D.Tables, ccid: U32) {
    && (forall c :: c != ccid ==> (c in d.tunnels <==> c in e.tunnels) && (c in d.tunnels ==> d.tunnels[c] == e.tunnels[c]))
    && (forall k: (U32, U32) :: k.0 != ccid ==> (k in d.sessions <==> k in e.sessions) && (k in d.sessions ==> d.sessions[k] == e.sessions[k]))
  }

  ghost predicate SameInside(d: D.Tables, e: D.Tables, ccid: U32) {
    && (ccid in d.tunnels <==> ccid in e.tunnels) && (ccid in d.tunnels ==> d.tunnels[ccid] == e.tunnels[ccid])
    && (forall sid :: ((ccid, sid) in d.sessions <==> (ccid, sid) in e.sessions)
                   && ((ccid, sid) in d.sessions ==> d.sessions[(ccid, sid)] == e.sessions[(ccid, sid)]))
  }

  /** The event loop fires only pending handles; other tunnels only touch their own entries. */
  ghost predicate Possible(r: Rt, e: Event) {
    && (e.Fires? ==> e.handle in r.timers)
    && (e.Elsewhere? && r.dataplane.Some? ==> SameInside(r.dataplane.value, e.tables, Ccid(r)))
  }

  /** What no event changes. */
  ghost predicate Frame(r: Rt, q: Rt) {
    && q.setup == r.setup && q.order == r.order && q.fsm.config == r.fsm.config
    && q.sessions.Keys == r.sessions.Keys
    && (forall sid :: sid in r.sessions ==> q.sessions[sid].config == r.sessions[sid].config)
    && q.dataplane.Some? == r.dataplane.Some?
    && (r.dataplane.Some? ==> SameOutside(r.dataplane.value, q.dataplane.value, Ccid(r)))
  }
}
