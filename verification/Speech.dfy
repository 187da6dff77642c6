/**
 What a tunnel puts on the wire: every message its machines send is queued and leaves at once, as
 octets that an end with the same settings reads back; acknowledgements and retransmissions leave too.
 */
module Speech {
  import opened Prelude
  import opened AvpCodec
  import opened MessageCodec
  import opened TypedMessages
  import opened Signing
  import opened Runtime
  import opened Safety
  import Exceptions
  import T = TunnelFsm
  import S = SessionFsm
  import P = Transport

  // ---- messages that can be sealed ------------------------------------------------

  /** Built from few enough slots, with no digest of its own. */
  ghost predicate BuiltFrom(avps: seq<Avp>, slots: seq<Option<Avp>>, attrs: seq<int>) {
    avps != [] && avps == Collect(slots) && Keyed(slots, attrs) && MESSAGE_DIGEST !in attrs && |slots| <= 11
  }

  ghost predicate Built(avps: seq<Avp>) {
    exists slots: seq<Option<Avp>>, attrs: seq<int> :: BuiltFrom(avps, slots, attrs)
  }

  lemma SccrxBuilt(messageType: U16, args: SccrxArgs)
    ensures Built(BuildSccrx(messageType, args))
  {
    hide Find, Collect, Pack, PackCapabilities, GetMessageType;
    SccrxSurvives(messageType, args);
    TypedNotEmpty(BuildSccrx(messageType, args));
    assert BuiltFrom(BuildSccrx(messageType, args), SccrxSlots(messageType, args), SCCRX_ATTRS);
  }

  lemma SessionBuilt(messageType: U16, args: SessionArgs)
    ensures Built(BuildSession(messageType, args))
  {
    hide Find, Collect, Pack, GetMessageType;
    SessionSurvives(messageType, args);
    TypedNotEmpty(BuildSession(messageType, args));
    assert BuiltFrom(BuildSession(messageType, args), SessionSlots(messageType, args), SESSION_ATTRS);
  }

  lemma OthersBuilt(ccid: U32, local: U32, remote: U32, info: ResultInfo, messageType: U16)
    ensures Built(BuildStopCcn(ccid, info)) && Built(BuildCdn(local, remote, info)) && Built(BuildBare(messageType))
  {
    hide Find, Collect, Pack, GetMessageType;
    StopCcnSurvives(ccid, info);
    CdnSurvives(local, remote, info);
    BareSurvives(messageType);
    TypedNotEmpty(BuildStopCcn(ccid, info));
    TypedNotEmpty(BuildCdn(local, remote, info));
    TypedNotEmpty(BuildBare(messageType));
    assert BuiltFrom(BuildStopCcn(ccid, info), StopCcnSlots(ccid, info), STOPCCN_ATTRS);
    assert BuiltFrom(BuildCdn(local, remote, info), CdnSlots(local, remote, info), CDN_ATTRS);
    assert BuiltFrom(BuildBare(messageType), [RequiredNumber(MESSAGE_TYPE, messageType, 2)], [MESSAGE_TYPE]);
  }

  ghost predicate SessionBuilds(action: S.Action) { action.SendMessage? ==> Built(action.avps) }

  ghost predicate TunnelBuilds(action: T.Action) { action.SendMessage? ==> Built(action.avps) }

  lemma SessionActionsBuilt(s: S.Fsm, e: S.Event)
    ensures forall i :: 0 <= i < |S.React(s, e).1| ==> SessionBuilds(S.React(s, e).1[i])
  {
    hide BuildSession, BuildCdn, Built, ParseSession, ParseCdn, GetMessageType, S.Params;
    var c := s.config;
    var t := S.React(s, e).0;
    SessionBuilt(ICRQ, Exceptions.Announcement(c));
    SessionBuilt(ICRP, SessionArgs(c.localSid, t.peerSid, None, c.l2SpecificSublayer, c.dataSequencing,
                                   c.circuitStatus, None, c.cookie, c.txConnectSpeed, c.rxConnectSpeed));
    SessionBuilt(ICCN, SessionArgs(c.localSid, t.peerSid, None, c.l2SpecificSublayer, c.dataSequencing,
                                   c.circuitStatus, None, None, c.txConnectSpeed, c.rxConnectSpeed));
    OthersBuilt(0, c.localSid, s.peerSid, Bare(if e.Close? then e.code else GENERAL_ERROR), HELLO);
  }

  lemma TunnelActionsBuilt(f: T.Fsm, e: T.Event)
    ensures forall i :: 0 <= i < |T.React(f, e).1| ==> TunnelBuilds(T.React(f, e).1[i])
  {
    hide BuildSccrx, BuildBare, BuildStopCcn, Built, ParseSccrx, ParseStopCcn, GetMessageType;
    SccrxBuilt(SCCRQ, T.Identity(f.config));
    SccrxBuilt(SCCRP, T.Identity(f.config));
    OthersBuilt(f.config.localCcid, 0, 0, Bare(if e.Close? then e.code else GENERAL_ERROR), HELLO);
    OthersBuilt(f.config.localCcid, 0, 0, Bare(GENERAL_ERROR), SCCCN);
  }

  lemma BuiltNoDigest(avps: seq<Avp>)
    requires Built(avps)
    ensures NoDigest(avps)
  {
    hide Find, Collect, Keyed;
    var slots: seq<Option<Avp>>, attrs: seq<int> :| BuiltFrom(avps, slots, attrs);
    FindMissing(slots, attrs, MESSAGE_DIGEST);
    var k := FindFirst(avps, MESSAGE_DIGEST);
  }

  // ---- speaking ------------------------------------------------------------------

  /** An end with the same settings reads these octets as this message, with the digest last if there is a password. */
  ghost predicate ReadsBack(setup: Setup, b: Bytes, m: ControlMessage) {
    && FromWire(b).Success? && FromWire(b).value.ccid == m.ccid
    && var o := Open(setup, b);
       o.Success? && o.value.ccid == m.ccid && o.value.ns == m.ns && o.value.nr == m.nr && ReadAs(setup, m.avps, o.value.avps)
  }

  /** Said, queued and on the wire: addressed to the peer, numbered, with the current Nr. */
  ghost predicate Spoken(setup: Setup, p: P.PeerState, avps: seq<Avp>, e: P.Pending, b: Bytes) {
    && e.msg.avps == avps && e.msg.ccid == p.remoteCcid && e.msg.nr == p.nrExpect
    && ReadsBack(setup, b, e.msg) && (setup.auth.None? ==> e.encoded == b)
  }

  /**
   From r to q some messages were sent: each is in `sent`, at the end of the queue and at the end of the wire,
   in the same order; the delivery layer did nothing else.
   */
  ghost predicate Speaks(r: Rt, q: Rt) {
    var n := |q.sent| - |r.sent|;
    && q.setup == r.setup && q.peer == r.peer.(queue := q.peer.queue, nsSend := q.peer.nsSend)
    && r.sent <= q.sent && r.peer.queue <= q.peer.queue && r.wire <= q.wire
    && |q.peer.queue| == |r.peer.queue| + n && |q.wire| == |r.wire| + n
    && q.peer.nsSend == Low16(r.peer.nsSend + n)
    && forall i :: |r.sent| <= i < |q.sent| ==>
         Spoken(r.setup, r.peer, q.sent[i], q.peer.queue[i - |r.sent| + |r.peer.queue|], q.wire[i - |r.sent| + |r.wire|])
  }

  lemma SpeaksNothing(r: Rt, q: Rt)
    requires q.setup == r.setup && q.peer == r.peer && q.sent == r.sent && q.wire == r.wire
    ensures Speaks(r, q)
  {
  }

  lemma SpeaksTrans(r: Rt, q: Rt, p: Rt)
    requires Speaks(r, q) && Speaks(q, p)
    ensures Speaks(r, p)
  {
    hide Low16, ReadsBack, Spoken;
    LowSum(r.peer.nsSend, |q.sent| - |r.sent|, |p.sent| - |q.sent|);
    forall i | |r.sent| <= i < |p.sent|
      ensures Spoken(r.setup, r.peer, p.sent[i], p.peer.queue[i - |r.sent| + |r.peer.queue|], p.wire[i - |r.sent| + |r.wire|])
    {
      if i < |q.sent| {
        assert p.sent[i] == q.sent[i];
        assert p.peer.queue[i - |r.sent| + |r.peer.queue|] == q.peer.queue[i - |r.sent| + |r.peer.queue|];
        assert p.wire[i - |r.sent| + |r.wire|] == q.wire[i - |r.sent| + |r.wire|];
      } else {
        SamePeer(r.setup, r.peer, q.peer, p.sent[i], p.peer.queue[i - |q.sent| + |q.peer.queue|], p.wire[i - |q.sent| + |q.wire|]);
      }
    }
  }

  lemma SamePeer(setup: Setup, p: P.PeerState, q: P.PeerState, avps: seq<Avp>, e: P.Pending, b: Bytes)
    requires Spoken(setup, q, avps, e, b) && q.remoteCcid == p.remoteCcid && q.nrExpect == p.nrExpect
    ensures Spoken(setup, p, avps, e, b)
  {
    hide ReadsBack;
  }

  lemma LowSum(n: int, i: int, j: int)
    ensures Low16(Low16(n + i) + j) == Low16(n + (i + j))
  {
  }

  lemma SealedReadsBack(setup: Setup, m: ControlMessage)
    requires Sealed(setup, m).Success? && NoDigest(m.avps)
    ensures ReadsBack(setup, Sealed(setup, m).value, m)
  {
    hide ToWire, FromWire, EncodeSigned, VerifyMessageDigest, Rebuilt;
    SealedOpens(setup, m);
    if setup.auth.None? {
      WireIsCanonical(m, Sealed(setup, m).value);
    }
  }

  /** A transmit that does not raise puts exactly the message on the wire; one that raises changes nothing. */
  lemma TransmitSpeaks(r: Rt, avps: seq<Avp>, now: real)
    requires Built(avps)
    ensures var o := Transmit(r, avps, now);
            && Speaks(r, o.rt) && o.rt.sent == (if o.raised then r.sent else r.sent + [avps])
            && o.rt == r.(peer := o.rt.peer, sent := o.rt.sent, wire := o.rt.wire)
  {
    hide ToWire, Sealed, P.Send, ReadsBack, BuiltFrom, Low16;
    var o := Transmit(r, avps, now);
    var m := P.Stamp(r.peer, avps);
    P.SendDoes(r.peer, avps, now);
    LowOne(r.peer.nsSend);
    BuiltNoDigest(avps);
    if P.Send(r.peer, avps, now).Success? {
      BuiltSeals(r.setup, m);
      SealedReadsBack(r.setup, m);
      PlainSeal(r.setup, m);
      var q := o.rt;
      assert Spoken(r.setup, r.peer, avps, q.peer.queue[|r.peer.queue|], q.wire[|r.wire|]);
      assert r.peer.queue <= q.peer.queue;
    } else {
      SpeaksNothing(r, o.rt);
    }
  }

  lemma LowOne(n: int)
    ensures Low16(n + 1) == (n + 1) % 0x1_0000
  {
  }

  lemma BuiltSeals(setup: Setup, m: ControlMessage)
    requires Built(m.avps) && ToWire(m).Success?
    ensures Sealed(setup, m).Success?
  {
    hide ToWire, Sealed, Collect, Keyed;
    var slots: seq<Option<Avp>>, attrs: seq<int> :| BuiltFrom(m.avps, slots, attrs);
    SlotsSeal(setup, m, slots, attrs);
  }

  lemma PlainSeal(setup: Setup, m: ControlMessage)
    ensures setup.auth.None? ==> Sealed(setup, m) == ToWire(m)
  {
  }

  // ---- the executor says what the machines ask ---------------------------------------

  function SessionWords(actions: seq<S.Action>): seq<seq<Avp>>
    decreases |actions|
  {
    if actions == [] then [] else (if actions[0].SendMessage? then [actions[0].avps] else []) + SessionWords(actions[1..])
  }

  function TunnelWords(actions: seq<T.Action>): seq<seq<Avp>>
    decreases |actions|
  {
    if actions == [] then [] else (if actions[0].SendMessage? then [actions[0].avps] else []) + TunnelWords(actions[1..])
  }

  lemma TablesOnly(r: Rt, action: S.Action)
    ensures action.DataplaneAddSession? ==>
              var q := AddSession(r, action.params);
              q == r.(dataplane := q.dataplane, dpAdded := q.dpAdded, faults := q.faults)
    ensures action.DataplaneDelSession? ==>
              var q := DropSession(r, action.localCcid, action.localSid);
              q == r.(dataplane := q.dataplane)
  {
  }

  function SessionEffect(r: Rt, action: S.Action, now: real): Outcome {
    match action
    case SendMessage(avps) => Transmit(r, avps, now)
    case DataplaneAddSession(params) => Outcome(AddSession(r, params), false)
    case DataplaneDelSession(ccid, sid) => Outcome(DropSession(r, ccid, sid), false)
    case _ => Outcome(r, false)
  }

  lemma SessionEffectSpeaks(r: Rt, action: S.Action, now: real)
    requires SessionBuilds(action)
    ensures var o := SessionEffect(r, action, now);
            && Speaks(r, o.rt) && o.rt.sessions == r.sessions && o.rt.order == r.order
            && (!o.raised ==> o.rt.sent == r.sent + if action.SendMessage? then [action.avps] else [])
  {
    hide Transmit, AddSession, DropSession, Built, Speaks;
    TablesOnly(r, action);
    if action.SendMessage? {
      TransmitSpeaks(r, action.avps, now);
    } else {
      SpeaksNothing(r, SessionEffect(r, action, now).rt);
    }
  }

  lemma ExecSessionFirst(r: Rt, actions: seq<S.Action>, now: real)
    requires actions != []
    ensures var o := SessionEffect(r, actions[0], now);
            ExecSession(r, actions, now) == if o.raised then o else ExecSession(o.rt, actions[1..], now)
    ensures SessionWords(actions) == (if actions[0].SendMessage? then [actions[0].avps] else []) + SessionWords(actions[1..])
  {
    hide Transmit, AddSession, DropSession;
  }

  lemma {:induction false} ExecSessionSpeaks(r: Rt, actions: seq<S.Action>, now: real)
    requires forall i :: 0 <= i < |actions| ==> SessionBuilds(actions[i])
    ensures var o := ExecSession(r, actions, now);
            && Speaks(r, o.rt) && (!o.raised ==> o.rt.sent == r.sent + SessionWords(actions))
            && o.rt.sessions == r.sessions && o.rt.order == r.order
    decreases |actions|
  {
    hide SessionEffect, SessionBuilds, Speaks;
    SpeaksNothing(r, r);
    if actions != [] {
      hide ExecSession, SessionWords;
      ExecSessionFirst(r, actions, now);
      SessionEffectSpeaks(r, actions[0], now);
      var o := SessionEffect(r, actions[0], now);
      if !o.raised {
        var rest := actions[1..];
        assert forall i :: 0 <= i < |rest| ==> rest[i] == actions[i + 1];
        ExecSessionSpeaks(o.rt, rest, now);
        SpeaksTrans(r, o.rt, ExecSession(o.rt, rest, now).rt);
      }
    }
  }

  /** A session event puts on the wire what the session's machine sends, and nothing else. */
  lemma SessionStepSpeaks(r: Rt, sid: U32, e: S.Event, now: real)
    ensures var o := SessionStep(r, sid, e, now);
            && Speaks(r, o.rt) && o.rt.order == r.order
            && (sid in r.sessions ==>
                  var (t, actions) := S.React(r.sessions[sid], e);
                  o.rt.sessions == r.sessions[sid := t] && (!o.raised ==> o.rt.sent == r.sent + SessionWords(actions)))
            && (sid !in r.sessions ==> o.rt == r)
  {
    hide S.React, ExecSession, Speaks, SessionBuilds;
    SpeaksNothing(r, r);
    if sid in r.sessions {
      var (t, actions) := S.React(r.sessions[sid], e);
      var moved := r.(sessions := r.sessions[sid := t]);
      SessionActionsBuilt(r.sessions[sid], e);
      ExecSessionSpeaks(moved, actions, now);
      SpeaksNothing(r, moved);
      SpeaksTrans(r, moved, SessionStep(r, sid, e, now).rt);
    }
  }

  /** What the sessions say in turn on the event. */
  function Chorus(sessions: map<U32, S.Fsm>, sids: seq<U32>, e: S.Event): seq<seq<Avp>>
    decreases |sids|
  {
    if sids == [] then []
    else (if sids[0] in sessions then SessionWords(S.React(sessions[sids[0]], e).1) else []) + Chorus(sessions, sids[1..], e)
  }

  lemma {:induction false} ChorusElsewhere(sessions: map<U32, S.Fsm>, sids: seq<U32>, e: S.Event, sid: U32, t: S.Fsm)
    requires sid !in sids
    ensures Chorus(sessions[sid := t], sids, e) == Chorus(sessions, sids, e)
    decreases |sids|
  {
    hide S.React, SessionWords;
    if sids != [] {
      ChorusElsewhere(sessions, sids[1..], e, sid, t);
    }
  }

  lemma {:induction false} CascadeSpeaks(r: Rt, sids: seq<U32>, e: S.Event, now: real)
    ensures Speaks(r, Cascade(r, sids, e, now).rt) && Cascade(r, sids, e, now).rt.order == r.order
    decreases |sids|
  {
    hide S.React, SessionStep, Speaks, SessionWords;
    SpeaksNothing(r, r);
    if sids != [] {
      SessionStepSpeaks(r, sids[0], e, now);
      var o := SessionStep(r, sids[0], e, now);
      if !o.raised {
        CascadeSpeaks(o.rt, sids[1..], e, now);
        SpeaksTrans(r, o.rt, Cascade(o.rt, sids[1..], e, now).rt);
      }
    }
  }

  /** Each of these sessions has had the event, and no other. */
  ghost predicate Stepped(before: map<U32, S.Fsm>, after: map<U32, S.Fsm>, sids: seq<U32>, e: S.Event) {
    && after.Keys == before.Keys
    && forall sid :: sid in before ==> after[sid] == if sid in sids then S.React(before[sid], e).0 else before[sid]
  }

  lemma SteppedMore(before: map<U32, S.Fsm>, after: map<U32, S.Fsm>, last: map<U32, S.Fsm>, sids: seq<U32>, e: S.Event)
    requires sids != [] && sids[0] !in sids[1..]
    requires if sids[0] in before then after == before[sids[0] := S.React(before[sids[0]], e).0] else after == before
    requires Stepped(after, last, sids[1..], e)
    ensures Stepped(before, last, sids, e)
  {
    hide S.React;
    assert forall k :: k in sids <==> k == sids[0] || k in sids[1..];
  }

  /** Every session of the list gets the event, and says its words in turn. */
  lemma {:induction false} CascadeSays(r: Rt, sids: seq<U32>, e: S.Event, now: real)
    requires (forall i, j :: 0 <= i < j < |sids| ==> sids[i] != sids[j]) && !Cascade(r, sids, e, now).raised
    ensures var q := Cascade(r, sids, e, now).rt;
            q.sent == r.sent + Chorus(r.sessions, sids, e) && Stepped(r.sessions, q.sessions, sids, e)
    decreases |sids|
  {
    hide S.React, SessionStep, Speaks, SessionWords, Stepped;
    if sids != [] {
      var sid, rest := sids[0], sids[1..];
      SessionStepSpeaks(r, sid, e, now);
      var o := SessionStep(r, sid, e, now);
      assert sid !in rest;
      CascadeSays(o.rt, rest, e, now);
      SteppedMore(r.sessions, o.rt.sessions, Cascade(o.rt, rest, e, now).rt.sessions, sids, e);
      if sid in r.sessions {
        ChorusElsewhere(r.sessions, rest, e, sid, S.React(r.sessions[sid], e).0);
      }
    } else {
      SteppedNone(r.sessions, e);
    }
  }

  lemma SteppedNone(sessions: map<U32, S.Fsm>, e: S.Event)
    ensures Stepped(sessions, sessions, [], e)
  {
    hide S.React;
  }

  lemma {:induction false} GoneIsSilent(sessions: map<U32, S.Fsm>, sids: seq<U32>)
    ensures Chorus(sessions, sids, S.TunnelGone) == []
    decreases |sids|
  {
    if sids != [] {
      GoneIsSilent(sessions, sids[1..]);
      if sids[0] in sessions {
        NoWords(sessions[sids[0]]);
      }
    }
  }

  lemma NoWords(s: S.Fsm)
    ensures SessionWords(S.React(s, S.TunnelGone).1) == []
  {
    var actions := S.React(s, S.TunnelGone).1;
    if actions != [] {
      assert SessionWords(actions[1..][1..]) == [];
      assert SessionWords(actions[1..]) == [];
    }
  }

  /** What an action of the control connection leads to being said. */
  function Said(r: Rt, action: T.Action): seq<seq<Avp>> {
    match action
    case SendMessage(avps) => [avps]
    case WentUp => Chorus(r.sessions, r.order, S.TunnelUp)
    case _ => []
  }

  lemma EffectSpeaks(r: Rt, action: T.Action, now: real)
    requires TunnelBuilds(action) && (forall i, j :: 0 <= i < j < |r.order| ==> r.order[i] != r.order[j])
    ensures var o := Effect(r, action, now);
            && Speaks(r, o.rt) && o.rt.order == r.order && (!o.raised ==> o.rt.sent == r.sent + Said(r, action))
            && (action.SendMessage? || action.SetHelloTimer? || action.ClearHelloTimer? ==> o.rt.sessions == r.sessions)
  {
    hide Transmit, Cascade, DropTunnel, Speaks, Built, Chorus, Stepped;
    var o := Effect(r, action, now);
    match action {
      case SendMessage(avps) => TransmitSpeaks(r, avps, now);
      case SetHelloTimer(_) => SpeaksNothing(r, ArmHello(r));
      case ClearHelloTimer => SpeaksNothing(r, CancelHello(r));
      case WentUp =>
        CascadeSpeaks(r, r.order, S.TunnelUp, now);
        if !o.raised {
          CascadeSays(r, r.order, S.TunnelUp, now);
        }
      case TornDown(_) =>
        CascadeSpeaks(r, r.order, S.TunnelGone, now);
        GoneIsSilent(r.sessions, r.order);
        if !o.raised {
          CascadeSays(r, r.order, S.TunnelGone, now);
        }
        var down := Cascade(r, r.order, S.TunnelGone, now).rt;
        DropTunnelOnly(down);
        SpeaksNothing(down, DropTunnel(down));
        SpeaksTrans(r, down, DropTunnel(down));
    }
  }

  lemma DropTunnelOnly(r: Rt)
    ensures var q := DropTunnel(r);
            q == r.(dataplane := q.dataplane, dpAdded := q.dpAdded, faults := q.faults)
  {
  }

  lemma {:induction false} ExecTunnelSpeaks(r: Rt, actions: seq<T.Action>, now: real)
    requires (forall i :: 0 <= i < |actions| ==> TunnelBuilds(actions[i])) && (forall i, j :: 0 <= i < j < |r.order| ==> r.order[i] != r.order[j])
    ensures Speaks(r, ExecTunnel(r, actions, now).rt) && ExecTunnel(r, actions, now).rt.order == r.order
    decreases |actions|
  {
    hide Effect, Speaks, TunnelBuilds;
    SpeaksNothing(r, r);
    if actions != [] {
      EffectSpeaks(r, actions[0], now);
      var o := Effect(r, actions[0], now);
      if !o.raised {
        assert forall i :: 0 <= i < |actions| - 1 ==> actions[1..][i] == actions[i + 1];
        ExecTunnelSpeaks(o.rt, actions[1..], now);
        SpeaksTrans(r, o.rt, ExecTunnel(o.rt, actions[1..], now).rt);
      }
    }
  }

  /** Up and down signals come last. */
  ghost predicate SignalLast(actions: seq<T.Action>) {
    forall i :: 0 <= i < |actions| - 1 ==> !actions[i].WentUp? && !actions[i].TornDown?
  }

  /** What the sessions say if the actions end with the word that the tunnel is up. */
  function Finale(r: Rt, actions: seq<T.Action>): seq<seq<Avp>> {
    if actions != [] && actions[|actions| - 1].WentUp? then Chorus(r.sessions, r.order, S.TunnelUp) else []
  }

  lemma FirstOfMany(r: Rt, actions: seq<T.Action>)
    requires SignalLast(actions) && |actions| > 1
    ensures SignalLast(actions[1..]) && Finale(r, actions[1..]) == Finale(r, actions)
    ensures !actions[0].WentUp? && !actions[0].TornDown?
  {
    hide Chorus;
    assert actions[1..][|actions| - 2] == actions[|actions| - 1];
  }

  lemma OnlyOne(r: Rt, action: T.Action)
    ensures Said(r, action) == TunnelWords([action]) + Finale(r, [action])
  {
    hide Chorus;
    assert [action][1..] == [];
    assert TunnelWords([action][1..]) == [];
    assert TunnelWords([action]) == if action.SendMessage? then [action.avps] else [];
  }

  lemma ExecTunnelFirst(r: Rt, actions: seq<T.Action>, now: real)
    requires actions != []
    ensures var o := Effect(r, actions[0], now);
            ExecTunnel(r, actions, now) == if o.raised then o else ExecTunnel(o.rt, actions[1..], now)
    ensures TunnelWords(actions) == (if actions[0].SendMessage? then [actions[0].avps] else []) + TunnelWords(actions[1..])
  {
    hide Effect;
  }

  lemma Regroup<X>(a: seq<X>, b: seq<X>, c: seq<X>, d: seq<X>)
    ensures a + b + c + d == a + (b + c) + d
  {
  }

  lemma {:induction false} ExecTunnelSays(r: Rt, actions: seq<T.Action>, now: real)
    requires (forall i :: 0 <= i < |actions| ==> TunnelBuilds(actions[i])) && (forall i, j :: 0 <= i < j < |r.order| ==> r.order[i] != r.order[j])
    requires SignalLast(actions) && !ExecTunnel(r, actions, now).raised
    ensures ExecTunnel(r, actions, now).rt.sent == r.sent + TunnelWords(actions) + Finale(r, actions)
    decreases |actions|
  {
    hide Effect, Speaks, TunnelBuilds, SignalLast, Finale, Said, ExecTunnel, TunnelWords;
    if |actions| == 0 {
      NoFinale(r, now);
    } else {
      EffectSpeaks(r, actions[0], now);
      if |actions| == 1 {
        ExecLast(r, actions, now);
        OnlyOne(r, actions[0]);
        assert actions == [actions[0]];
      } else {
        FirstOfMany(r, actions);
        ExecTunnelFirst(r, actions, now);
        var q := Effect(r, actions[0], now).rt;
        var rest := actions[1..];
        assert forall i :: 0 <= i < |rest| ==> rest[i] == actions[i + 1];
        ExecTunnelSays(q, rest, now);
        SameFinale(r, q, rest);
        PlainSaid(r, actions[0]);
        Regroup(r.sent, Said(r, actions[0]), TunnelWords(rest), Finale(r, actions));
      }
    }
  }

  lemma SameFinale(r: Rt, q: Rt, actions: seq<T.Action>)
    requires q.sessions == r.sessions && q.order == r.order
    ensures Finale(q, actions) == Finale(r, actions)
  {
    hide Chorus;
  }

  lemma PlainSaid(r: Rt, action: T.Action)
    requires !action.WentUp?
    ensures Said(r, action) == if action.SendMessage? then [action.avps] else []
  {
  }

  lemma NoFinale(r: Rt, now: real)
    ensures Finale(r, []) == [] && TunnelWords([]) == [] && ExecTunnel(r, [], now) == Outcome(r, false)
  {
  }

  lemma LastSignal(f: T.Fsm, e: T.Event)
    ensures var (t, actions) := T.React(f, e);
            SignalLast(actions) && (actions != [] && actions[|actions| - 1].WentUp? <==> !T.Up(f) && T.Up(t))
  {
    hide BuildSccrx, BuildBare, BuildStopCcn, ParseSccrx, ParseStopCcn, GetMessageType;
  }

  /**
   A tunnel event puts on the wire what the tunnel's machine sends and then, if the tunnel came up, what each session
   in turn sends on hearing of it; nothing else.
   */
  lemma TunnelStepSpeaks(r: Rt, e: T.Event, now: real)
    requires Configured(r)
    ensures var (t, actions) := T.React(r.fsm, e);
            var o := TunnelStep(r, e, now);
            && Speaks(r, o.rt)
            && (!o.raised ==>
                  o.rt.sent == r.sent + TunnelWords(actions)
                               + if !T.Up(r.fsm) && T.Up(t) then Chorus(r.sessions, r.order, S.TunnelUp) else [])
  {
    hide T.React, ExecTunnel, Speaks, TunnelBuilds, Chorus, TunnelWords, SignalLast;
    var (t, actions) := T.React(r.fsm, e);
    TunnelActionsBuilt(r.fsm, e);
    LastSignal(r.fsm, e);
    var moved := r.(fsm := t);
    ExecTunnelSpeaks(moved, actions, now);
    SpeaksNothing(r, moved);
    SpeaksTrans(r, moved, TunnelStep(r, e, now).rt);
    if !TunnelStep(r, e, now).raised {
      ExecTunnelSays(moved, actions, now);
      assert Finale(moved, actions) == if !T.Up(r.fsm) && T.Up(t) then Chorus(r.sessions, r.order, S.TunnelUp) else [];
    }
  }

  lemma ArrivedSpeaks(r: Rt, delivered: seq<Avp>, now: real)
    requires Configured(r)
    ensures Speaks(r, Arrived(r, delivered, now).rt)
  {
    hide GetMessageType, TunnelStep, ReadRoute, Target, SessionStep, S.OnMessage, Index, Speaks, T.React, TunnelWords, Chorus;
    SpeaksNothing(r, r);
    if delivered != [] && GetMessageType(delivered).Success? {
      var mt := GetMessageType(delivered).value;
      if !IsSessionType(mt) {
        TunnelStepSpeaks(r, T.Message(delivered), now);
      } else if ReadRoute(delivered, mt.value).Success? {
        var target := Target(r, ReadRoute(delivered, mt.value).value, mt.value);
        if target.Some? && target.value in r.sessions {
          var sid := target.value;
          var indexed := r.(byRemote := Index(r.byRemote, S.OnMessage(r.sessions[sid], delivered).0.peerSid, sid));
          SpeaksNothing(r, indexed);
          SessionStepSpeaks(indexed, sid, S.Message(delivered), now);
          SpeaksTrans(r, indexed, SessionStep(indexed, sid, S.Message(delivered), now).rt);
        }
      }
    }
  }

  /** Own events other than a tick only speak. */
  lemma OwnSpeaks(r: Rt, e: Event, now: real)
    requires Configured(r) && !e.Datagram? && !e.Tick?
    ensures Speaks(r, Next(r, e, now).rt)
  {
    hide TunnelStep, SessionStep, Speaks, T.React, S.React, TunnelWords, Chorus;
    SpeaksNothing(r, r);
    match e {
      case Start => TunnelStepSpeaks(r, T.Open, now);
      case Close =>
        TunnelStepSpeaks(r, T.Close(ADMIN_SHUTDOWN), now);
        var q := TunnelStep(r, T.Close(ADMIN_SHUTDOWN), now).rt;
        SpeaksNothing(q, CancelHello(q));
        SpeaksTrans(r, q, CancelHello(q));
      case Fires(handle) =>
        var q := r.(hello := None, timers := r.timers - {handle});
        SpeaksNothing(r, q);
        TunnelStepSpeaks(q, T.HelloTimer, now);
        SpeaksTrans(r, q, TunnelStep(q, T.HelloTimer, now).rt);
      case SessionClose(sid, code) => SessionStepSpeaks(r, sid, S.Close(code), now);
      case Elsewhere(tables) => SpeaksNothing(r, Next(r, e, now).rt);
    }
  }
}
