/**
 The Tunnel as the daemon runs it: a TunnelFSM, the SessionFSMs, a Peer and a shared
 dataplane, all updated in place. Each method is proved against its counterpart in module Runtime.
 */
module TunnelObject {
  import opened Prelude
  import opened AvpCodec
  import opened MessageCodec
  import opened TypedMessages
  import T = TunnelFsm
  import S = SessionFsm
  import D = Dataplane
  import P = Transport
  import PeerObject
  import R = Runtime

  ghost function Models(sessions: map<U32, S.SessionFSM>): (m: map<U32, S.Fsm>)
    reads sessions.Values
    ensures m.Keys == sessions.Keys
  {
    map sid | sid in sessions :: sessions[sid].Model()
  }

  function OwnSids(byRemote: map<U32, S.SessionFSM>): map<U32, U32> {
    map k | k in byRemote :: byRemote[k].config.localSid
  }

  class Tunnel {
    const setup: R.Setup
    const fsm: T.TunnelFSM
    const peer: PeerObject.Peer
    const dataplane: D.MockDataplane?
    const order: seq<U32>
    const sessions: map<U32, S.SessionFSM>
    var byRemote: map<U32, S.SessionFSM>
    var dpAdded: bool
    var hello: Option<nat>
    var timers: set<nat>
    var nextTimer: nat
    ghost var sent: seq<seq<Avp>>
    var wire: seq<Bytes>
    var faults: nat

    ghost predicate Valid()
      reads this, peer
    {
      && peer.Valid()
      && (forall sid :: sid in order ==> sid in sessions)
      && (forall sid :: sid in sessions ==> sessions[sid].config.localSid == sid)
      && (forall k :: k in byRemote ==> byRemote[k].config.localSid in sessions && sessions[byRemote[k].config.localSid] == byRemote[k])
    }

    ghost function Tables(): Option<D.Tables>
      reads dataplane
    {
      if dataplane == null then None else Some(dataplane.State())
    }

    ghost function Model(): R.Rt
      reads this, fsm, sessions.Values, dataplane, peer, peer.sendQueue, PeerObject.Messages(peer.sendQueue)
    {
      R.Rt(setup, fsm.Model(), order, Models(sessions), OwnSids(byRemote), dpAdded, Tables(), peer.State(),
           hello, timers, nextTimer, sent, wire, faults)
    }

    constructor (setup: R.Setup, config: T.Config, configs: seq<S.Config>, dataplane: D.MockDataplane?,
                 remoteCcid: int, retransmitInterval: real, maxRetries: nat)
      requires forall i, j :: 0 <= i < j < |configs| ==> configs[i].localSid != configs[j].localSid
      ensures Valid()
      ensures Model() == R.Boot(setup, config, configs, Tables(),
                                P.Fresh(config.localCcid, remoteCcid, config.receiveWindow, retransmitInterval, maxRetries))
    {
      hide R.Book, PeerObject.Values, PeerObject.Peer.Valid;
      this.setup, this.dataplane, order := setup, dataplane, R.Sids(configs);
      fsm := new T.TunnelFSM(config);
      peer := new PeerObject.Peer(config.localCcid, remoteCcid, config.receiveWindow, retransmitInterval, maxRetries);
      var book := BuildSessions(configs);
      sessions, byRemote := book, map[];
      dpAdded, hello, timers, nextTimer, sent, wire, faults := false, None, {}, 0, [], [], 0;
      new;
      assert Models(sessions) == R.Book(configs) && OwnSids(byRemote) == map[];
    }

    static method BuildSessions(configs: seq<S.Config>) returns (book: map<U32, S.SessionFSM>)
      ensures forall sid :: sid in book ==> fresh(book[sid]) && book[sid].config.localSid == sid
      ensures forall i :: 0 <= i < |configs| ==> configs[i].localSid in book
      ensures Models(book) == R.Book(configs)
    {
      book := map[];
      for i := 0 to |configs|
        invariant forall sid :: sid in book ==> fresh(book[sid]) && book[sid].config.localSid == sid
        invariant forall j :: 0 <= j < i ==> configs[j].localSid in book
        invariant Models(book) == R.Book(configs[..i])
      {
        var session := new S.SessionFSM(configs[i]);
        ghost var before := book;
        book := book[configs[i].localSid := session];
        assert configs[..i + 1][..i] == configs[..i];
        assert Models(book) == Models(before)[configs[i].localSid := session.Model()];
      }
      assert configs[..|configs|] == configs;
    }

    // ---- primitive effects -------------------------------------------------------

    /** Hands the AVPs to the delivery layer. */
    method Enqueue(avps: seq<Avp>, now: real) returns (msg: Result<PeerObject.MessageObject>)
      requires Valid()
      modifies this`sent, peer`sendQueue, peer`nsSend
      ensures Valid()
      ensures match P.Send(old(peer.State()), avps, now)
              case Failure => msg.Failure? && Model() == old(Model())
              case Success((p, m)) =>
                && msg.Success? && msg.value.Value() == m
                && Model() == old(Model()).(peer := p, sent := old(sent) + [avps])
    {
      hide P.Send, ToWire, PeerObject.Values, PeerObject.Peer.Valid, OwnSids, Models;
      ghost var before := Model();
      msg := peer.Send(avps, now);
      assert Models(sessions) == before.sessions && Tables() == before.dataplane && fsm.Model() == before.fsm;
      if msg.Success? {
        sent := sent + [avps];
        assert Model() == before.(peer := peer.State(), sent := sent);
      }
    }

    method Transmit(avps: seq<Avp>, now: real) returns (raised: bool)
      requires Valid()
      modifies this`sent, this`wire, peer`sendQueue, peer`nsSend
      ensures Valid()
      ensures R.Outcome(Model(), raised) == R.Transmit(old(Model()), avps, now)
    {
      hide P.Send, R.Sealed, ToWire, PeerObject.Values, PeerObject.Peer.Valid, OwnSids, Models;
      var msg := Enqueue(avps, now);
      if msg.Failure? {
        return true;
      }
      ghost var queued := Model();
      var datagram := R.Sealed(setup, msg.value.Value());
      if datagram.Failure? {
        return true;
      }
      wire := wire + [datagram.value];
      assert Model() == queued.(wire := wire);
      raised := false;
    }

    method CancelHello()
      requires Valid()
      modifies this`hello, this`timers
      ensures Valid() && Model() == R.CancelHello(old(Model()))
    {
      hide PeerObject.Values, PeerObject.Peer.Valid, Models, OwnSids;
      if hello.Some? {
        timers := timers - {hello.value};
        hello := None;
      }
    }

    method ArmHello()
      requires Valid()
      modifies this`hello, this`timers, this`nextTimer
      ensures Valid() && Model() == R.ArmHello(old(Model()))
    {
      hide PeerObject.Values, PeerObject.Peer.Valid, Models, OwnSids;
      if hello.Some? {
        timers := timers - {hello.value};
      }
      hello := Some(nextTimer);
      timers := timers + {nextTimer};
      nextTimer := nextTimer + 1;
    }

    method EnsureTunnelDataplane()
      requires Valid()
      modifies this`dpAdded, this`faults, dataplane
      ensures Valid() && Model() == R.EnsureTunnel(old(Model()))
    {
      hide D.AddTunnel, PeerObject.Values, PeerObject.Peer.Valid, OwnSids;
      if dpAdded || dataplane == null {
        return;
      }
      ghost var before := Model();
      var remote: U32 := if 0 <= peer.remoteCcid <= 0xFFFF_FFFF then peer.remoteCcid else 0;
      var ok := dataplane.Add(D.TunnelParams(fsm.config.localCcid, remote, setup.localAddress, setup.remoteAddress));
      if ok {
        dpAdded := true;
      } else {
        faults := faults + 1;
      }
      assert Models(sessions) == before.sessions && peer.State() == before.peer && fsm.Model() == before.fsm;
    }

    method Insert(params: D.SessionParams)
      requires Valid()
      modifies this`faults, dataplane
      ensures Valid() && Model() == R.Insert(old(Model()), params)
    {
      hide D.AddSession, PeerObject.Values, PeerObject.Peer.Valid, OwnSids;
      if dataplane == null {
        return;
      }
      ghost var before := Model();
      var ok := dataplane.AddNetdev(params);
      if !ok {
        faults := faults + 1;
      }
      assert Models(sessions) == before.sessions && peer.State() == before.peer && fsm.Model() == before.fsm;
    }

    method AddSession(params: D.SessionParams)
      requires Valid()
      modifies this`dpAdded, this`faults, dataplane
      ensures Valid() && Model() == R.AddSession(old(Model()), params)
    {
      EnsureTunnelDataplane();
      Insert(params);
    }

    method DropSession(ccid: U32, sid: U32)
      requires Valid()
      modifies dataplane
      ensures Valid() && Model() == R.DropSession(old(Model()), ccid, sid)
    {
      hide D.DelSession, PeerObject.Values, PeerObject.Peer.Valid;
      if dataplane == null {
        return;
      }
      ghost var models := Models(sessions);
      dataplane.Delete(ccid, sid);
      assert Models(sessions) == models;
    }

    method DropTunnel()
      requires Valid()
      modifies this`dpAdded, this`faults, dataplane
      ensures Valid() && Model() == R.DropTunnel(old(Model()))
    {
      hide D.DelTunnel, PeerObject.Values, PeerObject.Peer.Valid;
      if dpAdded && dataplane != null {
        ghost var models := Models(sessions);
        var ok := dataplane.DeleteTunnel(fsm.config.localCcid);
        if !ok {
          faults := faults + 1;
        }
        dpAdded := false;
        assert Models(sessions) == models;
      }
    }

    // ---- the executor ------------------------------------------------------------

    method ExecuteSession(actions: seq<S.Action>, now: real) returns (raised: bool)
      requires Valid()
      modifies this, peer`sendQueue, peer`nsSend, dataplane
      ensures Valid()
      ensures R.Outcome(Model(), raised) == R.ExecSession(old(Model()), actions, now)
    {
      hide R.Transmit, R.AddSession, R.DropSession;
      for i := 0 to |actions|
        invariant Valid()
        invariant R.ExecSession(Model(), actions[i..], now) == R.ExecSession(old(Model()), actions, now)
      {
        assert actions[i..][1..] == actions[i + 1..];
        match actions[i] {
          case SendMessage(avps) =>
            var failed := Transmit(avps, now);
            if failed {
              return true;
            }
          case DataplaneAddSession(params) => AddSession(params);
          case DataplaneDelSession(ccid, sid) => DropSession(ccid, sid);
          case SessionEstablished =>
          case SessionTornDown(_) =>
        }
      }
      raised := false;
    }

    /** The event reaches the session it is for; its actions are carried out. */
    method SessionHandles(session: S.SessionFSM, e: S.Event, now: real) returns (raised: bool)
      requires Valid() && session.config.localSid in sessions && sessions[session.config.localSid] == session
      requires e.Message? ==> GetMessageType(e.avps).Success?
      modifies this, session, peer`sendQueue, peer`nsSend, dataplane
      ensures Valid()
      ensures R.Outcome(Model(), raised) == R.SessionStep(old(Model()), session.config.localSid, e, now)
    {
      hide S.React, R.ExecSession, GetMessageType, PeerObject.Values, PeerObject.Peer.Valid, S.SessionFSM.Model;
      ghost var sid := session.config.localSid;
      ghost var before := Model();
      var r := session.Handle(e);
      assert Models(sessions) == before.sessions[sid := session.Model()];
      assert peer.State() == before.peer;
      assert Model() == before.(sessions := Models(sessions));
      raised := ExecuteSession(r.value, now);
    }

    method Cascade(e: S.Event, now: real) returns (raised: bool)
      requires Valid() && !e.Message?
      modifies this, sessions.Values, peer`sendQueue, peer`nsSend, dataplane
      ensures Valid()
      ensures R.Outcome(Model(), raised) == R.Cascade(old(Model()), order, e, now)
    {
      hide R.SessionStep;
      assert order[0..] == order;
      for i := 0 to |order|
        invariant Valid()
        invariant R.Cascade(Model(), order[i..], e, now) == R.Cascade(old(Model()), order, e, now)
      {
        assert order[i..][1..] == order[i + 1..];
        var failed := SessionHandles(sessions[order[i]], e, now);
        if failed {
          return true;
        }
      }
      raised := false;
    }

    method ExecuteTunnel(actions: seq<T.Action>, now: real) returns (raised: bool)
      requires Valid()
      modifies this, sessions.Values, peer`sendQueue, peer`nsSend, dataplane
      ensures Valid()
      ensures R.Outcome(Model(), raised) == R.ExecTunnel(old(Model()), actions, now)
    {
      hide R.Transmit, R.ArmHello, R.CancelHello, R.Cascade, R.DropTunnel;
      assert actions[0..] == actions;
      for i := 0 to |actions|
        invariant Valid()
        invariant R.ExecTunnel(Model(), actions[i..], now) == R.ExecTunnel(old(Model()), actions, now)
      {
        assert actions[i..][1..] == actions[i + 1..];
        var failed := false;
        match actions[i] {
          case SendMessage(avps) => failed := Transmit(avps, now);
          case SetHelloTimer(_) => ArmHello();
          case ClearHelloTimer => CancelHello();
          case WentUp => failed := Cascade(S.TunnelUp, now);
          case TornDown(_) =>
            failed := Cascade(S.TunnelGone, now);
            if !failed {
              DropTunnel();
            }
        }
        if failed {
          return true;
        }
      }
      raised := false;
    }

    // ---- events --------------------------------------------------------------------

    method Start(now: real) returns (raised: bool)
      requires Valid()
      modifies this, fsm, sessions.Values, peer`sendQueue, peer`nsSend, dataplane
      ensures Valid()
      ensures R.Outcome(Model(), raised) == R.TunnelStep(old(Model()), T.Open, now)
    {
      raised := TunnelHandles(T.Open, now);
    }

    method TunnelHandles(e: T.Event, now: real) returns (raised: bool)
      requires Valid() && (e.Message? ==> GetMessageType(e.avps).Success?)
      modifies this, fsm, sessions.Values, peer`sendQueue, peer`nsSend, dataplane
      ensures Valid()
      ensures R.Outcome(Model(), raised) == R.TunnelStep(old(Model()), e, now)
    {
      hide T.React, R.ExecTunnel, GetMessageType, PeerObject.Values, PeerObject.Peer.Valid, T.TunnelFSM.Model, Models, OwnSids;
      ghost var before := Model();
      var r := fsm.Handle(e);
      assert Models(sessions) == before.sessions && Tables() == before.dataplane && peer.State() == before.peer;
      assert Model() == before.(fsm := fsm.Model());
      raised := ExecuteTunnel(r.value, now);
    }

    method Close(now: real) returns (raised: bool)
      requires Valid()
      modifies this, fsm, sessions.Values, peer`sendQueue, peer`nsSend, dataplane
      ensures Valid()
      ensures R.Outcome(Model(), raised) == R.CloseTunnel(old(Model()), now)
    {
      hide R.TunnelStep, R.CancelHello;
      raised := TunnelHandles(T.Close(ADMIN_SHUTDOWN), now);
      if !raised {
        CancelHello();
      }
    }

    method HelloTimerFires(handle: nat, now: real) returns (raised: bool)
      requires Valid()
      modifies this, fsm, sessions.Values, peer`sendQueue, peer`nsSend, dataplane
      ensures Valid()
      ensures R.Outcome(Model(), raised) == R.HelloFires(old(Model()), handle, now)
    {
      hide R.TunnelStep, PeerObject.Values, PeerObject.Peer.Valid, Models, OwnSids;
      ghost var before := Model();
      hello, timers := None, timers - {handle};
      assert peer.State() == before.peer && Models(sessions) == before.sessions;
      assert Model() == before.(hello := None, timers := timers);
      raised := TunnelHandles(T.HelloTimer, now);
    }

    method FindIdle(name: Option<Bytes>) returns (found: S.SessionFSM?)
      requires Valid()
      ensures match R.FirstIdle(order, Models(sessions), name)
              case None => found == null
              case Some(sid) => sid in sessions && found == sessions[sid]
    {
      assert order[0..] == order;
      for i := 0 to |order|
        invariant R.FirstIdle(order[i..], Models(sessions), name) == R.FirstIdle(order, Models(sessions), name)
      {
        var candidate := sessions[order[i]];
        assert order[i..][1..] == order[i + 1..] && Models(sessions)[order[i]] == candidate.Model();
        if candidate.state == S.Idle && (name.None? || candidate.config.name == name.value) {
          return candidate;
        }
      }
      found := null;
    }

    method FindSession(route: R.Route, messageType: U16) returns (found: S.SessionFSM?)
      requires Valid()
      ensures match R.Target(Model(), route, messageType)
              case None => found == null
              case Some(sid) => sid in sessions && found == sessions[sid]
    {
      hide R.FirstIdle, PeerObject.Values, PeerObject.Peer.Valid;
      if route.localTarget != 0 && route.localTarget in sessions {
        found := sessions[route.localTarget];
      } else if messageType == ICRQ {
        found := FindIdle(route.name);
      } else if route.remoteKey != 0 && route.remoteKey in byRemote {
        found := byRemote[route.remoteKey];
      } else {
        found := null;
      }
    }

    /** Indexes the session by its peer's session ID, unless that ID is taken. */
    method Remember(session: S.SessionFSM)
      requires Valid() && session.config.localSid in sessions && sessions[session.config.localSid] == session
      modifies this`byRemote
      ensures Valid()
      ensures Model() == old(Model()).(byRemote := R.Index(old(Model()).byRemote, session.peerSid, session.config.localSid))
    {
      hide PeerObject.Values, PeerObject.Peer.Valid, Models;
      ghost var before := Model();
      if session.peerSid != 0 && session.peerSid !in byRemote {
        byRemote := byRemote[session.peerSid := session];
      }
      assert Models(sessions) == before.sessions && peer.State() == before.peer;
      assert OwnSids(byRemote) == R.Index(before.byRemote, session.peerSid, session.config.localSid);
    }

    /** The session takes the message, is indexed, and then its actions are carried out. */
    method Deliver(session: S.SessionFSM, avps: seq<Avp>, now: real) returns (raised: bool)
      requires Valid() && session.config.localSid in sessions && sessions[session.config.localSid] == session
      requires GetMessageType(avps).Success?
      modifies this, session, peer`sendQueue, peer`nsSend, dataplane
      ensures Valid()
      ensures var r := old(Model());
              var sid := session.config.localSid;
              var indexed := r.(byRemote := R.Index(r.byRemote, S.OnMessage(r.sessions[sid], avps).0.peerSid, sid));
              R.Outcome(Model(), raised) == R.SessionStep(indexed, sid, S.Message(avps), now)
    {
      hide R.ExecSession, S.OnMessage, PeerObject.Values, PeerObject.Peer.Valid, GetMessageType, R.Index;
      ghost var before := Model();
      ghost var sid := session.config.localSid;
      var r := session.Handle(S.Message(avps));
      assert Models(sessions) == before.sessions[sid := session.Model()];
      assert peer.State() == before.peer && Model() == before.(sessions := Models(sessions));
      Remember(session);
      raised := ExecuteSession(r.value, now);
    }

    method DispatchSessionMessage(avps: seq<Avp>, messageType: U16, now: real) returns (raised: bool)
      requires Valid() && GetMessageType(avps).Success?
      modifies this, sessions.Values, peer`sendQueue, peer`nsSend, dataplane
      ensures Valid()
      ensures R.Outcome(Model(), raised) == R.DispatchSession(old(Model()), avps, messageType, now)
    {
      hide R.ReadRoute, R.Target, R.SessionStep, S.OnMessage, PeerObject.Values, PeerObject.Peer.Valid, GetMessageType, R.Index;
      var route := R.ReadRoute(avps, messageType);
      if route.Failure? {
        return false;
      }
      ghost var before := Model();
      var session := FindSession(route.value, messageType);
      assert Model() == before;
      if session == null {
        return false;
      }
      raised := Deliver(session, avps, now);
    }

    method Arrived(delivered: seq<Avp>, now: real) returns (raised: bool)
      requires Valid()
      modifies this, fsm, sessions.Values, peer`sendQueue, peer`nsSend, dataplane
      ensures Valid()
      ensures R.Outcome(Model(), raised) == R.Arrived(old(Model()), delivered, now)
    {
      hide R.DispatchSession, R.TunnelStep, GetMessageType;
      if delivered == [] {
        return false;
      }
      var mt := GetMessageType(delivered);
      if mt.Failure? {
        return true;
      }
      if R.IsSessionType(mt.value) {
        raised := DispatchSessionMessage(delivered, mt.value.value, now);
      } else {
        raised := TunnelHandles(T.Message(delivered), now);
      }
    }

    method Overhear(avps: seq<Avp>)
      requires Valid()
      modifies peer`remoteCcid
      ensures Valid() && Model() == R.Overhear(old(Model()), avps)
    {
      hide PeerObject.Peer.Valid, Find, Unpack;
      ghost var before := Model();
      if peer.remoteCcid == 0 {
        var a := Find(avps, ASSIGNED_CONTROL_CONNECTION_ID);
        if a.Some? && |a.value.value| == 4 {
          var ccid := Unpack(a.value.value);
          if ccid != 0 {
            peer.SetRemoteCcid(ccid);
          }
        }
      }
      assert Models(sessions) == before.sessions && Tables() == before.dataplane && fsm.Model() == before.fsm;
    }

    method Reply(responses: seq<ControlMessage>) returns (raised: bool)
      requires Valid()
      modifies this`wire
      ensures Valid()
      ensures R.Outcome(Model(), raised) == R.Reply(old(Model()), responses)
    {
      hide ToWire, PeerObject.Values, PeerObject.Peer.Valid, Models, OwnSids;
      assert responses[0..] == responses;
      for i := 0 to |responses|
        invariant Valid()
        invariant R.Reply(Model(), responses[i..]) == R.Reply(old(Model()), responses)
      {
        assert responses[i..][1..] == responses[i + 1..];
        var datagram := ToWire(responses[i]);
        if datagram.Failure? {
          return true;
        }
        ghost var before := Model();
        wire := wire + [datagram.value];
        assert Model() == before.(wire := wire);
      }
      raised := false;
    }

    method HandleDatagram(buf: Bytes, now: real) returns (raised: bool)
      requires Valid()
      modifies this, fsm, sessions.Values, dataplane, peer
      ensures Valid()
      ensures R.Outcome(Model(), raised) == R.HandleDatagram(old(Model()), buf, now)
    {
      hide R.Open, R.Overhear, R.Reply, R.Arrived, P.Receive, PeerObject.Values, PeerObject.Peer.Valid;
      var m := R.Open(setup, buf);
      if m.Failure? {
        return false;
      }
      Overhear(m.value.avps);
      ghost var before := Model();
      var delivered, responses := peer.Receive(m.value);
      assert Models(sessions) == before.sessions && Tables() == before.dataplane && fsm.Model() == before.fsm;
      assert Model() == before.(peer := peer.State());
      raised := Reply(responses);
      if !raised {
        raised := Arrived(delivered, now);
      }
    }

    method Retransmit(now: real) returns (dead: bool)
      requires Valid()
      modifies this`wire, peer`dead, peer.sendQueue, PeerObject.Messages(peer.sendQueue)
      ensures Valid()
      ensures var (state, resend, isDead) := P.Tick(old(peer.State()), now);
              Model() == old(Model()).(peer := state, wire := old(wire) + resend) && dead == isDead
    {
      hide P.Tick, PeerObject.Values, PeerObject.Peer.Valid, Models, OwnSids;
      ghost var before := Model();
      var resend;
      resend, dead := peer.Tick(now);
      ghost var ticked := peer.State();
      assert Models(sessions) == before.sessions;
      assert Tables() == before.dataplane;
      assert fsm.Model() == before.fsm;
      assert Model() == before.(peer := ticked);
      wire := wire + resend;
      assert Model() == before.(peer := ticked, wire := wire);
    }

    method Tick(now: real) returns (raised: bool, remove: bool)
      requires Valid()
      modifies this, fsm, sessions.Values, dataplane, peer, peer.sendQueue, PeerObject.Messages(peer.sendQueue)
      ensures Valid()
      ensures R.Outcome(Model(), raised) == R.TickTunnel(old(Model()), now)
      ensures remove == P.Tick(old(peer.State()), now).2
    {
      hide R.TunnelStep, P.Tick, PeerObject.Peer.Valid;
      var dead := Retransmit(now);
      raised, remove := false, dead;
      if dead {
        raised := TunnelHandles(T.Dead, now);
      }
    }
  }
}
