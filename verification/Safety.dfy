/**
 What every event of a tunnel keeps, over whole runs: kernel and state machines agree, the
 HELLO timer follows the control connection, coming down cleans up, and other tunnels are left alone.
 */
module Safety {
  import opened Prelude
  import opened AvpCodec
  import opened MessageCodec
  import opened TypedMessages
  import opened Signing
  import opened Runtime
  import T = TunnelFsm
  import S = SessionFsm
  import D = Dataplane
  import P = Transport

  // ---- which sends succeed -------------------------------------------------------

  /** Built from few enough slots, none of them a Message Digest, a message that encodes can be signed. */
  lemma SlotsSeal(setup: Setup, m: ControlMessage, slots: seq<Option<Avp>>, attrs: seq<int>)
    requires m.avps == Collect(slots) && Keyed(slots, attrs) && MESSAGE_DIGEST !in attrs && |slots| <= 11
    requires ToWire(m).Success?
    ensures Sealed(setup, m).Success?
  {
    hide EncodeAll, EncodeSigned, Find, Collect;
    if setup.auth.Some? {
      CollectedEncode(slots);
      FindMissing(slots, attrs, MESSAGE_DIGEST);
      var k := FindFirst(m.avps, MESSAGE_DIGEST);
      SignVerifyRoundTrip(setup.auth.value.hmac, m, setup.auth.value.hash, setup.auth.value.secret);
    }
  }

  /** A message as it is read off the wire: with a password its digest comes last. */
  ghost predicate ReadAs(setup: Setup, m: seq<Avp>, part: seq<Avp>) {
    if setup.auth.None? then part == m else |part| == |m| + 1 && m <= part && IsDigest(part[|m|])
  }

  /**
   What one end seals, an end with the same settings opens: the same header and the same AVPs,
   followed by the digest if there is a password.
   */
  lemma SealedOpens(setup: Setup, m: ControlMessage)
    requires Sealed(setup, m).Success? && NoDigest(m.avps)
    ensures var o := Open(setup, Sealed(setup, m).value);
            && o.Success? && o.value.ccid == m.ccid && o.value.ns == m.ns && o.value.nr == m.nr
            && (setup.auth.None? ==> o.value.avps == m.avps)
            && (setup.auth.Some? ==> |o.value.avps| == |m.avps| + 1 && m.avps <= o.value.avps && IsDigest(o.value.avps[|m.avps|]))
  {
    hide ToWire, FromWire, EncodeSigned, DecodeAndVerify;
    if setup.auth.Some? {
      SignVerifyRoundTrip(setup.auth.value.hmac, m, setup.auth.value.hash, setup.auth.value.secret);
    } else {
      WireIsCanonical(m, Sealed(setup, m).value);
    }
  }

  /** SCCCN, HELLO, StopCCN, CDN and ICCN are sent whatever the configuration. */
  ghost predicate AlwaysSent(avps: seq<Avp>) {
    || avps == BuildBare(SCCCN) || avps == BuildBare(HELLO)
    || (exists ccid: U32, code: U16 :: avps == BuildStopCcn(ccid, Bare(code)))
    || (exists local: U32, remote: U32, code: U16 :: avps == BuildCdn(local, remote, Bare(code)))
    || (exists mt: U16, args: SessionArgs :: args.remoteEndId.None? && avps == BuildSession(mt, args))
  }

  lemma TypedNotEmpty(avps: seq<Avp>)
    requires GetMessageType(avps).Success? && GetMessageType(avps).value.Some?
    ensures avps != []
  {
  }

  lemma ShortSeals(setup: Setup, m: ControlMessage)
    requires m.FieldsInRange() && AlwaysSent(m.avps)
    ensures m.avps != [] && ToWire(m).Success? && Sealed(setup, m).Success?
  {
    hide ToWire, Sealed, Collect, Find, Pack, GetMessageType;
    if m.avps == BuildBare(SCCCN) {
      BareEncodes(m, SCCCN);
      BareSurvives(SCCCN);
      SlotsSeal(setup, m, [RequiredNumber(MESSAGE_TYPE, SCCCN, 2)], [MESSAGE_TYPE]);
    } else if m.avps == BuildBare(HELLO) {
      BareEncodes(m, HELLO);
      BareSurvives(HELLO);
      SlotsSeal(setup, m, [RequiredNumber(MESSAGE_TYPE, HELLO, 2)], [MESSAGE_TYPE]);
    } else if ccid: U32, code: U16 :| m.avps == BuildStopCcn(ccid, Bare(code)) {
      TeardownEncodes(m, ccid, 0, 0, Bare(code));
      StopCcnSurvives(ccid, Bare(code));
      SlotsSeal(setup, m, StopCcnSlots(ccid, Bare(code)), STOPCCN_ATTRS);
    } else if local: U32, remote: U32, code: U16 :| m.avps == BuildCdn(local, remote, Bare(code)) {
      TeardownEncodes(m, 0, local, remote, Bare(code));
      CdnSurvives(local, remote, Bare(code));
      SlotsSeal(setup, m, CdnSlots(local, remote, Bare(code)), CDN_ATTRS);
    } else {
      var mt: U16, args: SessionArgs :| args.remoteEndId.None? && m.avps == BuildSession(mt, args);
      SessionEncodes(m, mt, args);
      SessionSurvives(mt, args);
      SlotsSeal(setup, m, SessionSlots(mt, args), SESSION_ATTRS);
    }
    TypedNotEmpty(m.avps);
  }

  lemma ShortTransmits(r: Rt, avps: seq<Avp>, now: real)
    requires PeerOk(r.peer) && AlwaysSent(avps)
    ensures !Transmit(r, avps, now).raised
  {
    hide ToWire, Sealed, AlwaysSent;
    ShortSeals(r.setup, P.Stamp(r.peer, avps));
  }

  /** Only the delivery layer and the logs differ. */
  ghost predicate Chat(r: Rt, q: Rt) {
    q == r.(peer := q.peer, sent := q.sent, wire := q.wire) && PeerOk(q.peer) && q.peer.remoteCcid == r.peer.remoteCcid
  }

  lemma TransmitChats(r: Rt, avps: seq<Avp>, now: real)
    requires PeerOk(r.peer)
    ensures Chat(r, Transmit(r, avps, now).rt)
  {
    hide ToWire, Sealed, P.PeerInv;
    P.SendKeepsInv(r.peer, avps, now);
  }

  // ---- sessions ------------------------------------------------------------------

  /** The invariant without the timer: it also holds between the actions of one event. */
  ghost predicate Sound(r: Rt) { Configured(r) && PeerOk(r.peer) && Agrees(r) }

  /** What no session event changes. */
  ghost predicate Quiet(r: Rt, q: Rt) {
    && Frame(r, q) && q.fsm == r.fsm && q.hello == r.hello && q.timers == r.timers && q.nextTimer == r.nextTimer
    && q.peer.remoteCcid == r.peer.remoteCcid
  }

  lemma ChatKeeps(r: Rt, q: Rt)
    requires Sound(r) && Chat(r, q)
    ensures Sound(q) && Quiet(r, q)
  {
    hide P.PeerInv;
  }

  lemma QuietTrans(r: Rt, q: Rt, p: Rt)
    requires Quiet(r, q) && Quiet(q, p)
    ensures Quiet(r, p)
  {
  }

  ghost predicate SessionMoved(r: Rt, sid: U32, t: S.Fsm, q: Rt) {
    Sound(q) && Quiet(r, q) && q.sessions == r.sessions[sid := t]
  }

  lemma EnsureKeeps(r: Rt)
    requires Sound(r)
    ensures Sound(EnsureTunnel(r)) && Quiet(r, EnsureTunnel(r)) && EnsureTunnel(r).sessions == r.sessions
    ensures r.dataplane.Some? ==> EnsureTunnel(r).dpAdded
  {
    hide P.PeerInv, NoRepeats, S.Params;
    var q := EnsureTunnel(r);
    if r.dataplane.Some? {
      assert q.dataplane.value.sessions == r.dataplane.value.sessions;
      forall id: U32 ensures EntryAgrees(q.dataplane.value, Ccid(r), id, q.sessions) {
        assert EntryAgrees(r.dataplane.value, Ccid(r), id, r.sessions);
      }
    }
  }

  lemma InsertedRow(d: D.Tables, p: D.SessionParams, e: D.Tables)
    requires D.AddSession(d, p) == Success(e)
    ensures e.tunnels == d.tunnels && SameOutside(d, e, p.localCcid)
    ensures forall sid: U32 :: (p.localCcid, sid) in e.sessions <==> (p.localCcid, sid) in d.sessions || sid == p.localSid
    ensures forall sid: U32 :: (p.localCcid, sid) in e.sessions ==>
              e.sessions[(p.localCcid, sid)] == if sid == p.localSid then p else d.sessions[(p.localCcid, sid)]
  {
  }

  lemma InsertKeeps(r: Rt, sid: U32, t: S.Fsm)
    requires Sound(r) && (r.dataplane.Some? ==> r.dpAdded)
    requires sid in r.sessions && t.config == r.sessions[sid].config && !S.Up(r.sessions[sid]) && S.Up(t)
    ensures SessionMoved(r, sid, t, Insert(r.(sessions := r.sessions[sid := t]), S.Params(t)))
  {
    hide P.PeerInv, NoRepeats;
    var q := r.(sessions := r.sessions[sid := t]);
    if r.dataplane.Some? {
      var d := r.dataplane.value;
      var ccid := Ccid(r);
      assert EntryAgrees(d, ccid, sid, r.sessions);
      var p := S.Params(t);
      assert p.localCcid == ccid && p.localSid == sid;
      hide S.Params;
      assert D.AddSession(d, p).Success?;
      hide D.AddSession, SameOutside;
      var e := D.AddSession(d, p).value;
      InsertedRow(d, p, e);
      var f := Insert(q, p);
      assert f == q.(dataplane := Some(e));
      forall id: U32 ensures EntryAgrees(e, ccid, id, q.sessions) {
        assert EntryAgrees(d, ccid, id, r.sessions);
      }
    }
  }

  lemma BringUp(r: Rt, sid: U32, t: S.Fsm)
    requires Sound(r) && sid in r.sessions && t.config == r.sessions[sid].config && !S.Up(r.sessions[sid]) && S.Up(t)
    ensures SessionMoved(r, sid, t, AddSession(r.(sessions := r.sessions[sid := t]), S.Params(t)))
  {
    hide Sound, Frame, S.Params;
    var q := r.(sessions := r.sessions[sid := t]);
    EnsureKeeps(r);
    var e := EnsureTunnel(r);
    InsertKeeps(e, sid, t);
    assert EnsureTunnel(q) == e.(sessions := q.sessions);
    assert AddSession(q, S.Params(t)) == Insert(EnsureTunnel(q), S.Params(t));
    QuietTrans(r, e, AddSession(q, S.Params(t)));
  }

  lemma TakeDown(r: Rt, sid: U32, t: S.Fsm)
    requires Sound(r) && sid in r.sessions && t.config == r.sessions[sid].config && S.Up(r.sessions[sid]) && !S.Up(t)
    ensures SessionMoved(r, sid, t, DropSession(r.(sessions := r.sessions[sid := t]), t.config.localCcid, t.config.localSid))
  {
    hide P.PeerInv, NoRepeats, S.Params;
    var q := r.(sessions := r.sessions[sid := t]);
    if q.dataplane.Some? {
      var ccid := Ccid(r);
      assert EntryAgrees(r.dataplane.value, ccid, sid, r.sessions);
      var f := DropSession(q, ccid, sid);
      forall id: U32 ensures EntryAgrees(f.dataplane.value, ccid, id, q.sessions) {
        assert EntryAgrees(r.dataplane.value, ccid, id, r.sessions);
      }
    }
  }

  lemma Stay(r: Rt, sid: U32, t: S.Fsm)
    requires Sound(r) && sid in r.sessions && t.config == r.sessions[sid].config
    requires if S.Up(r.sessions[sid]) then t == r.sessions[sid] else !S.Up(t)
    ensures SessionMoved(r, sid, t, r.(sessions := r.sessions[sid := t]))
  {
    hide P.PeerInv, NoRepeats, S.Params;
    var q := r.(sessions := r.sessions[sid := t]);
    if q.dataplane.Some? {
      forall id: U32 ensures EntryAgrees(q.dataplane.value, Ccid(r), id, q.sessions) {
        assert EntryAgrees(r.dataplane.value, Ccid(r), id, r.sessions);
      }
    }
  }

  ghost function Executed(r: Rt, rest: seq<S.Action>): Rt {
    if rest == [] then r
    else if rest[0].DataplaneAddSession? then AddSession(r, rest[0].params)
    else if rest[0].DataplaneDelSession? then DropSession(r, rest[0].localCcid, rest[0].localSid)
    else r
  }

  lemma ExecPair(r: Rt, rest: seq<S.Action>, now: real)
    requires rest == [] || (|rest| == 2 && (rest[0].DataplaneAddSession? || rest[0].DataplaneDelSession?)
                            && (rest[1].SessionEstablished? || rest[1].SessionTornDown?))
    ensures ExecSession(r, rest, now) == Outcome(Executed(r, rest), false)
  {
    hide AddSession, DropSession;
    if rest != [] {
      assert rest[1..][1..] == [] && rest[1..][0] == rest[1];
      var q := Executed(r, rest);
      assert ExecSession(r, rest, now) == ExecSession(q, rest[1..], now);
      assert ExecSession(q, rest[1..], now) == ExecSession(q, rest[1..][1..], now);
    }
  }

  lemma RestKeeps(r: Rt, sid: U32, e: S.Event, now: real)
    requires Sound(r) && sid in r.sessions
    ensures var (t, actions) := S.React(r.sessions[sid], e);
            var o := ExecSession(r.(sessions := r.sessions[sid := t]), S.Tail(actions), now);
            !o.raised && SessionMoved(r, sid, t, o.rt)
  {
    hide S.React, S.Params, AddSession, DropSession, Sound, Quiet;
    var s := r.sessions[sid];
    var (t, actions) := S.React(s, e);
    S.ReactDelta(s, e);
    var rest := S.Tail(actions);
    ExecPair(r.(sessions := r.sessions[sid := t]), rest, now);
    SoundConfigured(r, sid);
    if S.Up(s) == S.Up(t) {
      Stay(r, sid, t);
    } else if S.Up(t) {
      BringUp(r, sid, t);
    } else {
      TakeDown(r, sid, t);
    }
  }

  lemma SoundConfigured(r: Rt, sid: U32)
    requires Sound(r) && sid in r.sessions
    ensures r.sessions[sid].config.localSid == sid && r.sessions[sid].config.localCcid == Ccid(r) && PeerOk(r.peer)
  {
  }

  lemma IccnSent(c: S.Config, peerSid: U32)
    ensures AlwaysSent(S.IccnAvps(c, peerSid))
  {
    hide BuildSession;
  }

  lemma CdnSent(s: S.Fsm, code: U16)
    ensures AlwaysSent(S.CdnAvps(s, code))
  {
    hide BuildCdn;
  }

  lemma SessionShortSent(s: S.Fsm, t: S.Fsm, avps: seq<Avp>)
    requires S.Short(s, t, avps)
    ensures AlwaysSent(avps)
  {
    hide AlwaysSent, S.IccnAvps, S.CdnAvps;
    if avps == S.IccnAvps(s.config, t.peerSid) {
      IccnSent(s.config, t.peerSid);
    } else {
      var code: U16 :| avps == S.CdnAvps(s, code);
      CdnSent(s, code);
    }
  }

  lemma ExecSend(r: Rt, actions: seq<S.Action>, now: real)
    requires actions != [] && actions[0].SendMessage?
    ensures ExecSession(r, actions, now)
            == var o := Transmit(r, actions[0].avps, now);
               if o.raised then o else ExecSession(o.rt, actions[1..], now)
  {
    hide Transmit;
  }

  /** Whatever a session does, the tables follow it, and a failed send leaves nothing half done. */
  lemma SessionStepMoves(r: Rt, sid: U32, e: S.Event, now: real)
    requires Sound(r)
    ensures sid in r.sessions ==> SessionMoved(r, sid, S.React(r.sessions[sid], e).0, SessionStep(r, sid, e, now).rt)
    ensures sid !in r.sessions ==> SessionStep(r, sid, e, now).rt == r
  {
    hide S.React, S.Params, Transmit, Sound, Frame, AlwaysSent, S.Short, S.Crossing, PeerOk, Ccid;
    if sid in r.sessions {
      var s := r.sessions[sid];
      var (t, actions) := S.React(s, e);
      S.ReactDelta(s, e);
      SoundConfigured(r, sid);
      var moved := r.(sessions := r.sessions[sid := t]);
      if actions != [] && actions[0].SendMessage? {
        var o := Transmit(r, actions[0].avps, now);
        TransmitChats(r, actions[0].avps, now);
        ChatKeeps(r, o.rt);
        TransmitElsewhere(r, moved, actions[0].avps, now);
        ExecSend(moved, actions, now);
        RestKeeps(o.rt, sid, e, now);
        if o.raised {
          if S.Tail(actions) != [] {
            SessionShortSent(s, t, actions[0].avps);
            ShortTransmits(r, actions[0].avps, now);
          }
          assert SessionStep(r, sid, e, now).rt == o.rt.(sessions := o.rt.sessions[sid := t]);
        }
        QuietTrans(r, o.rt, SessionStep(r, sid, e, now).rt);
      } else {
        RestKeeps(r, sid, e, now);
      }
    }
  }

  lemma TransmitElsewhere(r: Rt, q: Rt, avps: seq<Avp>, now: real)
    requires q == r.(sessions := q.sessions)
    ensures Transmit(q, avps, now).raised == Transmit(r, avps, now).raised
    ensures Transmit(q, avps, now).rt == Transmit(r, avps, now).rt.(sessions := q.sessions)
  {
    hide Sealed, P.Send;
  }

  // ---- cascades ------------------------------------------------------------------

  lemma {:induction false} CascadeKeeps(r: Rt, sids: seq<U32>, e: S.Event, now: real)
    requires Sound(r)
    ensures Sound(Cascade(r, sids, e, now).rt) && Quiet(r, Cascade(r, sids, e, now).rt)
    decreases |sids|
  {
    hide Sound, Quiet, SessionStep;
    QuietSelf(r);
    if sids != [] {
      SessionStepMoves(r, sids[0], e, now);
      var o := SessionStep(r, sids[0], e, now);
      if !o.raised {
        CascadeKeeps(o.rt, sids[1..], e, now);
        QuietTrans(r, o.rt, Cascade(r, sids, e, now).rt);
      }
    }
  }

  lemma QuietSelf(r: Rt)
    ensures Quiet(r, r)
  {
  }

  /** Sessions that hear of the tunnel's end drop their entries without a word to the peer. */
  lemma SessionGoes(r: Rt, sid: U32, now: real)
    requires Sound(r) && sid in r.sessions
    ensures var o := SessionStep(r, sid, S.TunnelGone, now);
            !o.raised && SessionMoved(r, sid, r.sessions[sid].(state := S.Idle), o.rt)
  {
    hide Sound, Quiet, ExecSession;
    RestKeeps(r, sid, S.TunnelGone, now);
  }

  lemma {:induction false} CascadeDown(r: Rt, sids: seq<U32>, now: real)
    requires Sound(r) && (forall sid :: sid in sids ==> sid in r.sessions)
    ensures var o := Cascade(r, sids, S.TunnelGone, now);
            && !o.raised && o.rt.sessions.Keys == r.sessions.Keys
            && (forall sid :: sid in r.sessions ==>
                  o.rt.sessions[sid] == if sid in sids then r.sessions[sid].(state := S.Idle) else r.sessions[sid])
    decreases |sids|
  {
    hide Sound, Quiet, SessionStep;
    if sids != [] {
      SessionGoes(r, sids[0], now);
      var o := SessionStep(r, sids[0], S.TunnelGone, now);
      CascadeDown(o.rt, sids[1..], now);
    }
  }

  /** Every session is idle and the kernel holds nothing under this CCID. */
  ghost predicate Clean(r: Rt) {
    && (forall sid :: sid in r.sessions ==> r.sessions[sid].state.Idle?)
    && !r.dpAdded
    && (r.dataplane.Some? ==> Ccid(r) !in r.dataplane.value.tunnels && forall sid: U32 :: (Ccid(r), sid) !in r.dataplane.value.sessions)
  }

  lemma DropTunnelKeeps(r: Rt)
    requires Sound(r) && (forall sid :: sid in r.sessions ==> r.sessions[sid].state.Idle?)
    ensures Sound(DropTunnel(r)) && Quiet(r, DropTunnel(r)) && Clean(DropTunnel(r))
  {
    hide P.PeerInv, NoRepeats, S.Params;
    var q := DropTunnel(r);
    if r.dataplane.Some? {
      assert forall sid :: EntryAgrees(r.dataplane.value, Ccid(r), sid, r.sessions);
      forall k: (U32, U32) | k in r.dataplane.value.sessions ensures k.0 != Ccid(r) {
        assert EntryAgrees(r.dataplane.value, Ccid(r), k.1, r.sessions);
      }
      assert !D.Live(r.dataplane.value, Ccid(r));
      assert q.dataplane.value.sessions == r.dataplane.value.sessions;
      forall id: U32 ensures EntryAgrees(q.dataplane.value, Ccid(r), id, q.sessions) && (Ccid(r), id) !in q.dataplane.value.sessions {
        assert EntryAgrees(r.dataplane.value, Ccid(r), id, r.sessions);
      }
    }
  }

  lemma GoDownCleans(r: Rt, now: real)
    requires Sound(r)
    ensures var o := GoDown(r, now);
            !o.raised && Sound(o.rt) && Quiet(r, o.rt) && Clean(o.rt)
  {
    hide Agrees, PeerOk, Cascade, DropTunnel, Clean;
    CascadeKeeps(r, r.order, S.TunnelGone, now);
    CascadeDown(r, r.order, now);
    var down := Cascade(r, r.order, S.TunnelGone, now).rt;
    DropTunnelKeeps(down);
    QuietTrans(r, down, DropTunnel(down));
  }

  // ---- the control connection ----------------------------------------------------

  lemma TunnelShortSent(c: T.Config, avps: seq<Avp>)
    requires T.Short(c, avps)
    ensures AlwaysSent(avps)
  {
    hide BuildBare, BuildStopCcn, BuildCdn, BuildSession;
  }

  /** The last action of an event. */
  lemma ExecLast(r: Rt, actions: seq<T.Action>, now: real)
    requires |actions| == 1
    ensures ExecTunnel(r, actions, now) == Effect(r, actions[0], now)
  {
    hide Effect;
    var o := Effect(r, actions[0], now);
    assert actions[1..] == [];
    assert ExecTunnel(o.rt, actions[1..], now) == Outcome(o.rt, false);
  }

  /** Only the HELLO handle differs. */
  lemma SoundTimers(r: Rt, q: Rt)
    requires Sound(r) && q == r.(hello := q.hello, timers := q.timers, nextTimer := q.nextTimer)
    ensures Sound(q) && Frame(r, q)
  {
    hide P.PeerInv;
  }

  lemma FrameTrans(r: Rt, q: Rt, p: Rt)
    requires Frame(r, q) && Frame(q, p)
    ensures Frame(r, p)
  {
  }

  lemma ExecTwo(r: Rt, actions: seq<T.Action>, now: real)
    requires |actions| == 2
    ensures ExecTunnel(r, actions, now)
            == var o := Effect(r, actions[0], now);
               if o.raised then o else Effect(o.rt, actions[1], now)
  {
    hide Effect;
    var o := Effect(r, actions[0], now);
    ExecLast(o.rt, actions[1..], now);
  }

  /** Actions after the message, if any: the timer follows the state, and going down cleans up. */
  lemma RestOfTunnel(r: Rt, s: T.Fsm, e: T.Event, rest: seq<T.Action>, now: real)
    requires Sound(r) && HelloInv(r, T.Up(s) && !e.HelloTimer?) && T.Crossing(s, e, r.fsm, rest)
    ensures var o := ExecTunnel(r, rest, now);
            && Sound(o.rt) && Frame(r, o.rt) && o.rt.fsm == r.fsm && HelloInv(o.rt, T.Up(r.fsm))
            && o.rt.peer.remoteCcid == r.peer.remoteCcid
            && (T.Up(s) && !T.Up(r.fsm) ==> !o.raised && Clean(o.rt))
  {
    hide Sound, Frame, Cascade, GoDown, Clean;
    FrameSelf(r);
    var o := ExecTunnel(r, rest, now);
    if |rest| == 1 {
      ExecLast(r, rest, now);
      SoundTimers(r, o.rt);
    } else if |rest| == 2 {
      ExecTwo(r, rest, now);
      var q := Effect(r, rest[0], now).rt;
      SoundTimers(r, q);
      if rest[1].WentUp? {
        CascadeKeeps(q, q.order, S.TunnelUp, now);
      } else {
        GoDownCleans(q, now);
      }
      FrameTrans(r, q, o.rt);
    }
  }

  lemma FrameSelf(r: Rt)
    ensures Frame(r, r)
  {
  }

  lemma MoveFsm(r: Rt, t: T.Fsm)
    requires Sound(r) && t.config == r.fsm.config
    ensures Sound(r.(fsm := t)) && Frame(r, r.(fsm := t))
  {
    hide P.PeerInv, NoRepeats, S.Params;
    var q := r.(fsm := t);
    if r.dataplane.Some? {
      forall sid: U32 ensures EntryAgrees(q.dataplane.value, Ccid(q), sid, q.sessions) {
        assert EntryAgrees(r.dataplane.value, Ccid(r), sid, r.sessions);
      }
    }
  }

  lemma ExecTunnelSend(r: Rt, actions: seq<T.Action>, now: real)
    requires actions != [] && actions[0].SendMessage?
    ensures ExecTunnel(r, actions, now)
            == var o := Transmit(r, actions[0].avps, now);
               if o.raised then o else ExecTunnel(o.rt, actions[1..], now)
  {
    hide Transmit;
  }

  /** The outcome of an event of the control connection. */
  ghost predicate TunnelMoved(r: Rt, t: T.Fsm, o: Outcome) {
    && Inv(o.rt) && Frame(r, o.rt) && o.rt.fsm == t
    && (T.Up(r.fsm) && !T.Up(t) ==> !o.raised && Clean(o.rt))
  }

  lemma TunnelStepMoves(r: Rt, e: T.Event, now: real)
    requires Sound(r) && HelloInv(r, T.Up(r.fsm) && !e.HelloTimer?)
    ensures TunnelMoved(r, T.React(r.fsm, e).0, TunnelStep(r, e, now))
  {
    hide T.React, Transmit, Agrees, PeerOk, Configured, Frame, AlwaysSent, T.Short, T.Crossing, Clean, ExecTunnel;
    var s := r.fsm;
    var (t, actions) := T.React(s, e);
    T.ReactDelta(s, e);
    MoveFsm(r, t);
    var q := r.(fsm := t);
    if actions != [] && actions[0].SendMessage? {
      var o := Transmit(q, actions[0].avps, now);
      TransmitChats(q, actions[0].avps, now);
      ChatKeeps(q, o.rt);
      ExecTunnelSend(q, actions, now);
      FrameTrans(r, q, o.rt);
      if o.raised {
        if T.Tail(actions) != [] {
          TunnelShortSent(s.config, actions[0].avps);
          ShortTransmits(q, actions[0].avps, now);
        }
        NoRest(s, e, t, o.rt);
      } else {
        RestOfTunnel(o.rt, s, e, T.Tail(actions), now);
        FrameTrans(r, o.rt, TunnelStep(r, e, now).rt);
      }
    } else {
      RestOfTunnel(q, s, e, T.Tail(actions), now);
      FrameTrans(r, q, TunnelStep(r, e, now).rt);
    }
  }

  lemma NoRest(s: T.Fsm, e: T.Event, t: T.Fsm, r: Rt)
    requires T.Crossing(s, e, t, []) && HelloInv(r, T.Up(s) && !e.HelloTimer?)
    ensures HelloInv(r, T.Up(t)) && !(T.Up(s) && !T.Up(t))
  {
  }

  // ---- every event ---------------------------------------------------------------

  /** The invariant is kept, nothing fixed changes, and a tunnel that came down has cleaned up. */
  ghost predicate Moved(r: Rt, o: Outcome) {
    && Inv(o.rt) && Frame(r, o.rt)
    && (T.Up(r.fsm) && !T.Up(o.rt.fsm) ==> !o.raised && Clean(o.rt))
  }

  /** A session the ICRQ may go to: idle, and of the name it carries, if it carries one. */
  ghost predicate Suits(sessions: map<U32, S.Fsm>, sid: U32, name: Option<Bytes>) {
    sid in sessions && sessions[sid].state.Idle? && (name.None? || sessions[sid].config.name == name.value)
  }

  /** The first suitable session in configuration order. */
  lemma {:induction false} FirstIdleFound(order: seq<U32>, sessions: map<U32, S.Fsm>, name: Option<Bytes>)
    ensures var sid := FirstIdle(order, sessions, name);
            && (sid.Some? ==> exists k :: 0 <= k < |order| && order[k] == sid.value && Suits(sessions, order[k], name)
                                          && forall j :: 0 <= j < k ==> !Suits(sessions, order[j], name))
            && (sid.None? ==> forall k :: 0 <= k < |order| ==> !Suits(sessions, order[k], name))
  {
    if order != [] && !Suits(sessions, order[0], name) {
      FirstIdleFound(order[1..], sessions, name);
      assert forall k :: 1 <= k < |order| ==> order[k] == order[1..][k - 1];
      if FirstIdle(order[1..], sessions, name).Some? {
        var k :| 0 <= k < |order[1..]| && order[1..][k] == FirstIdle(order[1..], sessions, name).value && Suits(sessions, order[1..][k], name)
                 && forall j :: 0 <= j < k ==> !Suits(sessions, order[1..][j], name);
        assert order[k + 1] == FirstIdle(order, sessions, name).value;
      }
    }
  }

  lemma SoundIndex(r: Rt, peerSid: U32, sid: U32)
    requires Sound(r) && sid in r.sessions
    ensures var q := r.(byRemote := Index(r.byRemote, peerSid, sid));
            Sound(q) && Frame(r, q)
  {
    hide P.PeerInv;
  }

  lemma DispatchKeeps(r: Rt, avps: seq<Avp>, messageType: U16, now: real)
    requires Inv(r)
    ensures var o := DispatchSession(r, avps, messageType, now);
            Inv(o.rt) && Frame(r, o.rt) && o.rt.fsm == r.fsm
  {
    hide Agrees, PeerOk, Configured, Frame, S.React, S.OnMessage, SessionStep, ReadRoute, Target, Index;
    FrameSelf(r);
    if ReadRoute(avps, messageType).Success? {
      var route := ReadRoute(avps, messageType).value;
      var target := Target(r, route, messageType);
      if target.Some? && target.value in r.sessions {
        var sid := target.value;
        var peerSid := S.OnMessage(r.sessions[sid], avps).0.peerSid;
        var q := r.(byRemote := Index(r.byRemote, peerSid, sid));
        SoundIndex(r, peerSid, sid);
        SessionStepMoves(q, sid, S.Message(avps), now);
        FrameTrans(r, q, SessionStep(q, sid, S.Message(avps), now).rt);
      }
    }
  }

  lemma ArrivedKeeps(r: Rt, delivered: seq<Avp>, now: real)
    requires Inv(r)
    ensures Moved(r, Arrived(r, delivered, now))
  {
    hide Agrees, PeerOk, Configured, Frame, T.React, TunnelStep, DispatchSession, GetMessageType, HelloInv;
    FrameSelf(r);
    if delivered != [] && GetMessageType(delivered).Success? {
      var mt := GetMessageType(delivered).value;
      if IsSessionType(mt) {
        DispatchKeeps(r, delivered, mt.value, now);
      } else {
        TunnelStepMoves(r, T.Message(delivered), now);
      }
    }
  }

  lemma LearnedInRange(remote: int, avps: seq<Avp>)
    requires 0 <= remote <= 0xFFFF_FFFF
    ensures 0 <= Learned(remote, avps) <= 0xFFFF_FFFF
  {
    hide Find;
    var a := Find(avps, ASSIGNED_CONTROL_CONNECTION_ID);
    if a.Some? && |a.value.value| == 4 {
      WordSizes();
      PackUnpack(a.value.value);
    }
  }

  lemma PeerMoves(r: Rt, q: Rt)
    requires Inv(r) && PeerOk(q.peer) && q == r.(peer := q.peer, wire := q.wire)
    requires q.peer.remoteCcid == r.peer.remoteCcid || r.peer.remoteCcid == 0
    ensures Inv(q) && Frame(r, q)
  {
    hide P.PeerInv, S.Params;
  }

  lemma {:induction false} ReplyLogs(r: Rt, responses: seq<ControlMessage>)
    ensures var o := Reply(r, responses);
            o.rt == r.(wire := o.rt.wire)
    decreases |responses|
  {
    hide ToWire;
    if responses != [] && ToWire(responses[0]).Success? {
      ReplyLogs(r.(wire := r.wire + [ToWire(responses[0]).value]), responses[1..]);
    }
  }

  lemma RepliesEncode(p: P.PeerState, m: ControlMessage)
    requires PeerOk(p) && 0 <= m.ns < SEQ_MODULUS
    ensures var received := P.Receive(p, m);
            PeerOk(received.peer) && received.peer.remoteCcid == p.remoteCcid
            && |received.responses| <= 1 && (received.responses != [] ==> ToWire(received.responses[0]).Success?)
  {
    hide P.PeerInv, P.Drain, P.ConsumeAcks;
    P.ReceiveKeepsInv(p, m);
  }

  lemma ReplyNeverRaises(r: Rt, responses: seq<ControlMessage>)
    requires |responses| <= 1 && (responses != [] ==> ToWire(responses[0]).Success?)
    ensures !Reply(r, responses).raised
  {
    hide ToWire;
    if responses != [] {
      assert responses[1..] == [];
    }
  }

  lemma OpenInRange(setup: Setup, buf: Bytes)
    ensures Open(setup, buf).Success? ==> Open(setup, buf).value.FieldsInRange()
  {
    hide FromWire, ToWire, VerifyMessageDigest, Rebuilt, Find;
    if Open(setup, buf).Success? {
      var m := Open(setup, buf).value;
      WireIsCanonical(m, buf);
      ToWireInRange(m);
    }
  }

  lemma ToWireInRange(m: ControlMessage)
    requires ToWire(m).Success?
    ensures m.FieldsInRange()
  {
  }

  lemma DatagramKeeps(r: Rt, buf: Bytes, now: real)
    requires Inv(r)
    ensures Moved(r, HandleDatagram(r, buf, now))
  {
    hide Agrees, P.PeerInv, Configured, Frame, HelloInv, Open, Arrived, P.Receive, Learned, Reply;
    FrameSelf(r);
    OpenInRange(r.setup, buf);
    if Open(r.setup, buf).Success? {
      var m := Open(r.setup, buf).value;
      var q := Overhear(r, m.avps);
      LearnedInRange(r.peer.remoteCcid, m.avps);
      LearnedOnce(r.peer.remoteCcid, m.avps);
      OverhearOk(r.peer, q.peer.remoteCcid);
      var received := P.Receive(q.peer, m);
      RepliesEncode(q.peer, m);
      var q' := q.(peer := received.peer);
      ReplyLogs(q', received.responses);
      ReplyNeverRaises(q', received.responses);
      var o := Reply(q', received.responses);
      PeerMoves(r, o.rt);
      ArrivedKeeps(o.rt, received.delivered, now);
      FrameTrans(r, o.rt, Arrived(o.rt, received.delivered, now).rt);
    }
  }

  lemma OverhearOk(p: P.PeerState, remote: U32)
    requires PeerOk(p)
    ensures PeerOk(p.(remoteCcid := remote))
  {
    hide P.PeerInv;
    P.RemoteKeepsInv(p, remote);
  }

  /** Once known, the peer's CCID is never overwritten. */
  lemma LearnedOnce(remote: int, avps: seq<Avp>)
    ensures remote != 0 ==> Learned(remote, avps) == remote
  {
  }

  lemma TickKeeps(r: Rt, now: real)
    requires Inv(r)
    ensures Moved(r, TickTunnel(r, now))
  {
    hide Agrees, P.PeerInv, Configured, Frame, T.React, TunnelStep, HelloInv, P.TickQueue;
    P.TickKeepsInv(r.peer, now);
    var (peer, resend, dead) := P.Tick(r.peer, now);
    var q := r.(peer := peer, wire := r.wire + resend);
    PeerMoves(r, q);
    if dead {
      TunnelStepMoves(q, T.Dead, now);
      FrameTrans(r, q, TunnelStep(q, T.Dead, now).rt);
    }
  }

  lemma CloseKeeps(r: Rt, now: real)
    requires Inv(r)
    ensures Moved(r, CloseTunnel(r, now)) && CloseTunnel(r, now).rt.fsm == T.OnLocalClose(r.fsm, ADMIN_SHUTDOWN).0
  {
    hide Agrees, PeerOk, Configured, Frame, TunnelStep;
    TunnelStepMoves(r, T.Close(ADMIN_SHUTDOWN), now);
    var o := TunnelStep(r, T.Close(ADMIN_SHUTDOWN), now);
    assert o.rt.hello.None?;
    assert CloseTunnel(r, now) == o;
  }

  lemma ElsewhereKeeps(r: Rt, tables: D.Tables)
    requires Inv(r) && r.dataplane.Some? && SameInside(r.dataplane.value, tables, Ccid(r))
    ensures Inv(r.(dataplane := Some(tables)))
  {
    hide P.PeerInv, NoRepeats, S.Params;
    var q := r.(dataplane := Some(tables));
    forall sid: U32 ensures EntryAgrees(tables, Ccid(r), sid, r.sessions) {
      assert EntryAgrees(r.dataplane.value, Ccid(r), sid, r.sessions);
    }
  }

  /** Everything that can happen to a tunnel keeps the invariant; coming down cleans up; other tunnels' entries stay. */
  lemma NextKeeps(r: Rt, e: Event, now: real)
    requires Inv(r) && Possible(r, e)
    ensures Inv(Next(r, e, now).rt)
    ensures !e.Elsewhere? ==> Moved(r, Next(r, e, now))
  {
    hide Agrees, PeerOk, Configured, Frame, TunnelStep, SessionStep, HandleDatagram, TickTunnel, CloseTunnel, T.React, S.React, Clean;
    match e {
      case Start => TunnelStepMoves(r, T.Open, now);
      case Close => CloseKeeps(r, now);
      case Datagram(buf) => DatagramKeeps(r, buf, now);
      case Tick => TickKeeps(r, now);
      case Fires(handle) =>
        var q := r.(hello := None, timers := r.timers - {handle});
        SoundTimers(r, q);
        TunnelStepMoves(q, T.HelloTimer, now);
        FrameTrans(r, q, TunnelStep(q, T.HelloTimer, now).rt);
      case SessionClose(sid, code) =>
        FrameSelf(r);
        SessionStepMoves(r, sid, S.Close(code), now);
      case Elsewhere(tables) =>
        if r.dataplane.Some? {
          ElsewhereKeeps(r, tables);
        }
    }
  }

  // ---- whole runs ----------------------------------------------------------------

  datatype Timed = Timed(event: Event, now: real)

  function RunAll(r: Rt, run: seq<Timed>): Rt
    decreases |run|
  {
    if run == [] then r else RunAll(Next(r, run[0].event, run[0].now).rt, run[1..])
  }

  ghost predicate PossibleRun(r: Rt, run: seq<Timed>)
    decreases |run|
  {
    run == [] || (Possible(r, run[0].event) && PossibleRun(Next(r, run[0].event, run[0].now).rt, run[1..]))
  }

  /** The kernel knows nothing of this CCID yet; session IDs are distinct. */
  ghost predicate GoodConfig(config: T.Config, configs: seq<S.Config>, dataplane: Option<D.Tables>, remoteCcid: int) {
    && (forall i, j :: 0 <= i < j < |configs| ==> configs[i].localSid != configs[j].localSid)
    && (forall i :: 0 <= i < |configs| ==> configs[i].localCcid == config.localCcid)
    && (dataplane.Some? ==> config.localCcid !in dataplane.value.tunnels
                            && forall sid: U32 :: (config.localCcid, sid) !in dataplane.value.sessions)
    && 0 <= remoteCcid <= 0xFFFF_FFFF
  }

  /** As the daemon constructs it at start. */
  ghost predicate ConstructedFrom(r: Rt, setup: Setup, config: T.Config, configs: seq<S.Config>, tables: Option<D.Tables>,
                                  remoteCcid: int, window: nat, interval: real, retries: nat)
  {
    && GoodConfig(config, configs, tables, remoteCcid)
    && r == Boot(setup, config, configs, tables, P.Fresh(config.localCcid, remoteCcid, window, interval, retries))
  }

  lemma {:induction false} BookHolds(configs: seq<S.Config>, ccid: U32)
    requires forall i :: 0 <= i < |configs| ==> configs[i].localCcid == ccid
    ensures forall sid :: sid in Sids(configs) <==> sid in Book(configs)
    ensures forall sid :: sid in Book(configs) ==>
              Book(configs)[sid].state.Idle? && Book(configs)[sid].config.localSid == sid && Book(configs)[sid].config.localCcid == ccid
  {
    if configs != [] {
      var front := configs[..|configs| - 1];
      BookHolds(front, ccid);
      assert Sids(configs) == Sids(front) + [configs[|configs| - 1].localSid];
    }
  }

  lemma BootInv(setup: Setup, config: T.Config, configs: seq<S.Config>, dataplane: Option<D.Tables>,
                remoteCcid: int, window: nat, interval: real, maxRetries: nat)
    requires GoodConfig(config, configs, dataplane, remoteCcid)
    ensures Inv(Boot(setup, config, configs, dataplane, P.Fresh(config.localCcid, remoteCcid, window, interval, maxRetries)))
  {
    hide Book;
    BookHolds(configs, config.localCcid);
    assert forall i, j :: 0 <= i < j < |configs| ==> Sids(configs)[i] != Sids(configs)[j];
  }

  /**
   From construction on, whatever arrives and whenever: kernel and state machines agree,
   the HELLO timer follows the tunnel's state, and no dataplane call was refused.
   */
  lemma {:induction false} RunKeeps(r: Rt, run: seq<Timed>)
    requires Inv(r) && PossibleRun(r, run)
    ensures Inv(RunAll(r, run))
    decreases |run|
  {
    hide Inv, Next, Possible;
    if run != [] {
      NextKeeps(r, run[0].event, run[0].now);
      RunKeeps(Next(r, run[0].event, run[0].now).rt, run[1..]);
    }
  }

  // ---- what is not cleaned up ----------------------------------------------------

  /**
   Closing leaves the kernel clean and every session idle exactly when the tunnel was up
   or everything was clean before: sessions of a tunnel that is not up are not told.
   */
  lemma CloseCleansExactly(r: Rt, now: real)
    requires Inv(r)
    ensures Clean(CloseTunnel(r, now).rt) <==> T.Up(r.fsm) || Clean(r)
  {
    hide Inv, T.OnLocalClose, CloseTunnel;
    CloseKeeps(r, now);
    DownIsDown(r.fsm);
    if !T.Up(r.fsm) {
      CloseQuietly(r, now);
    }
  }

  lemma DownIsDown(s: T.Fsm)
    ensures !T.Up(T.OnLocalClose(s, ADMIN_SHUTDOWN).0)
  {
  }

  /** No session and no table is touched while the tunnel is not up. */
  lemma CloseQuietly(r: Rt, now: real)
    requires Inv(r) && !T.Up(r.fsm)
    ensures Clean(CloseTunnel(r, now).rt) <==> Clean(r)
  {
    hide Agrees, P.PeerInv, Configured, Transmit, BuildStopCcn;
    var (t, actions) := T.OnLocalClose(r.fsm, ADMIN_SHUTDOWN);
    var q := r.(fsm := t);
    if actions != [] {
      assert |actions| == 2;
      TransmitChats(q, actions[0].avps, now);
      ExecTwo(q, actions, now);
    }
  }

  /** The same holds of a peer found dead, after which the daemon forgets the tunnel. */
  lemma DeathCleansExactly(r: Rt, now: real)
    requires Inv(r) && P.Tick(r.peer, now).2
    ensures Clean(TickTunnel(r, now).rt) <==> T.Up(r.fsm) || Clean(r)
  {
    hide Agrees, P.PeerInv, Configured, Frame, HelloInv, P.Tick;
    TickKeeps(r, now);
    var (peer, resend, dead) := P.Tick(r.peer, now);
    var q := r.(peer := peer, wire := r.wire + resend);
    var (t, actions) := T.OnPeerDead(q.fsm);
    var moved := q.(fsm := t);
    assert TickTunnel(r, now) == ExecTunnel(moved, actions, now);
    if T.Up(r.fsm) {
      TickTunnelDown(r, now);
    } else if actions != [] {
      assert |actions| == 1;
      ExecLast(moved, actions, now);
    }
  }

  lemma TickTunnelDown(r: Rt, now: real)
    requires Inv(r) && P.Tick(r.peer, now).2
    ensures !T.Up(TickTunnel(r, now).rt.fsm)
  {
    hide Agrees, P.PeerInv, Configured, Frame, HelloInv, P.TickQueue, ExecTunnel, Clean;
    P.TickKeepsInv(r.peer, now);
    var (peer, resend, dead) := P.Tick(r.peer, now);
    var q := r.(peer := peer, wire := r.wire + resend);
    PeerMoves(r, q);
    TunnelStepMoves(q, T.Dead, now);
  }

  /** A session message that is routed to a session reaches that session, and no other. */
  lemma ArrivedRouted(r: Rt, messageType: U16, args: SessionArgs, sid: U32, now: real)
    requires Inv(r) && sid in r.sessions
    requires messageType == ICRQ || messageType == ICRP || messageType == ICCN
    requires Target(r, Route(args.remoteSid, args.localSid, args.remoteEndId), messageType) == Some(sid)
    ensures var avps := BuildSession(messageType, args);
            var q := Arrived(r, avps, now).rt;
            && Inv(q) && q.fsm == r.fsm && q.order == r.order
            && q.sessions == r.sessions[sid := S.OnMessage(r.sessions[sid], avps).0]
  {
    hide Agrees, PeerOk, HelloInv, Configured, BuildSession, Find, SessionStep, S.OnMessage, Frame, Index, Target;
    var avps := BuildSession(messageType, args);
    SessionSurvives(messageType, args);
    TypedNotEmpty(avps);
    DispatchKeeps(r, avps, messageType, now);
    SameOrder(r, Arrived(r, avps, now).rt);
    var peerSid := S.OnMessage(r.sessions[sid], avps).0.peerSid;
    SoundIndex(r, peerSid, sid);
    SessionStepMoves(r.(byRemote := Index(r.byRemote, peerSid, sid)), sid, S.Message(avps), now);
  }

  lemma SameOrder(r: Rt, q: Rt)
    requires Frame(r, q)
    ensures q.order == r.order
  {
  }

  /** A session message that carries our session ID reaches that session, and no other. */
  lemma ArrivedAddressed(r: Rt, messageType: U16, args: SessionArgs, now: real)
    requires Inv(r) && args.remoteSid != 0 && args.remoteSid in r.sessions
    requires messageType == ICRQ || messageType == ICRP || messageType == ICCN
    ensures var avps := BuildSession(messageType, args);
            var q := Arrived(r, avps, now).rt;
            && Inv(q) && q.fsm == r.fsm
            && q.sessions == r.sessions[args.remoteSid := S.OnMessage(r.sessions[args.remoteSid], avps).0]
  {
    hide Inv, BuildSession, Arrived, S.OnMessage;
    ArrivedRouted(r, messageType, args, args.remoteSid, now);
  }

  /** An ICRP or ICCN without an ID of ours reaches the session indexed by the peer's. */
  lemma ArrivedByPeerSid(r: Rt, messageType: U16, args: SessionArgs, now: real)
    requires Inv(r) && (messageType == ICRP || messageType == ICCN)
    requires (args.remoteSid == 0 || args.remoteSid !in r.sessions) && args.localSid != 0 && args.localSid in r.byRemote
    ensures var avps := BuildSession(messageType, args);
            var sid := r.byRemote[args.localSid];
            var q := Arrived(r, avps, now).rt;
            && Inv(q) && q.fsm == r.fsm && sid in r.sessions
            && q.sessions == r.sessions[sid := S.OnMessage(r.sessions[sid], avps).0]
  {
    hide PeerOk, HelloInv, Agrees, BuildSession, Arrived, S.OnMessage;
    ArrivedRouted(r, messageType, args, r.byRemote[args.localSid], now);
  }

  /** A session message that cannot be parsed, or that no session is found for, changes nothing. */
  lemma UnroutableDropped(r: Rt, avps: seq<Avp>, messageType: U16, now: real)
    requires GetMessageType(avps) == Success(Some(messageType)) && IsSessionType(Some(messageType))
    requires ReadRoute(avps, messageType).Success? ==> Target(r, ReadRoute(avps, messageType).value, messageType).None?
    ensures Arrived(r, avps, now) == Outcome(r, false)
  {
    hide GetMessageType, ReadRoute, Target, SessionStep, S.OnMessage;
  }

  /** No session is found exactly when our ID is not there or not known and, for an ICRQ, none suits; for the others, the peer's ID is not indexed. */
  lemma NoTargetExactly(r: Rt, route: Route, messageType: U16)
    ensures Target(r, route, messageType).None? <==>
            && (route.localTarget == 0 || route.localTarget !in r.sessions)
            && if messageType == ICRQ then forall k :: 0 <= k < |r.order| ==> !Suits(r.sessions, r.order[k], route.name)
               else route.remoteKey == 0 || route.remoteKey !in r.byRemote
  {
    hide Suits;
    FirstIdleFound(r.order, r.sessions, route.name);
  }

  /** The session is up with the peer's ID, and the control connection is where it was. */
  ghost predicate CameUp(r: Rt, p: Rt, sid: U32, peerSid: U32) {
    Inv(p) && p.fsm == r.fsm && sid in p.sessions && S.Up(p.sessions[sid]) && p.sessions[sid].peerSid == peerSid
  }

  lemma RoutedOpens(r: Rt, sid: U32, icrq: SessionArgs, iccn: SessionArgs, now: real)
    requires Inv(r) && sid != 0 && sid in r.sessions && r.sessions[sid].state.Idle?
    requires Target(r, Route(icrq.remoteSid, icrq.localSid, icrq.remoteEndId), ICRQ) == Some(sid)
    requires iccn.remoteSid == sid && iccn.localSid == icrq.localSid
    ensures var q := Arrived(r, BuildSession(ICRQ, icrq), now).rt;
            CameUp(r, Arrived(q, BuildSession(ICCN, iccn), now).rt, sid, icrq.localSid)
  {
    hide Inv, BuildSession, Arrived, S.OnMessage, Target;
    ArrivedRouted(r, ICRQ, icrq, sid, now);
    S.IcrqTaken(r.sessions[sid], icrq);
    var q := Arrived(r, BuildSession(ICRQ, icrq), now).rt;
    ArrivedAddressed(q, ICCN, iccn, now);
    S.IccnTaken(q.sessions[sid], iccn);
  }

  /**
   Session messages are acted on in any tunnel state. An ICRQ as this daemon builds it, with
   Remote Session ID 0 and the name of an idle session k, finds the first idle session of that name, and the
   ICCN that answers it brings that session up with the tunnel's machine where it was.
   */
  lemma SessionsIgnoreTunnelState(r: Rt, k: U32, icrq: SessionArgs, iccn: SessionArgs, now: real)
    requires Inv(r) && 0 !in r.sessions && k in r.sessions && r.sessions[k].state.Idle?
    requires icrq.remoteSid == 0 && icrq.remoteEndId == Some(r.sessions[k].config.name) && iccn.localSid == icrq.localSid
    ensures var sid := FirstIdle(r.order, r.sessions, icrq.remoteEndId);
            && sid.Some? && sid.value in r.sessions && r.sessions[sid.value].config.name == r.sessions[k].config.name
            && (iccn.remoteSid == sid.value ==>
                  var q := Arrived(r, BuildSession(ICRQ, icrq), now).rt;
                  CameUp(r, Arrived(q, BuildSession(ICCN, iccn), now).rt, sid.value, icrq.localSid))
  {
    hide PeerOk, HelloInv, Agrees, BuildSession, Arrived, FirstIdle, CameUp;
    FirstIdleFound(r.order, r.sessions, icrq.remoteEndId);
    var sid := FirstIdle(r.order, r.sessions, icrq.remoteEndId);
    if iccn.remoteSid == sid.value {
      RoutedOpens(r, sid.value, icrq, iccn, now);
    }
  }

  /** So does an ICRQ that carries the ID of an idle session. */
  lemma AddressedSessionsIgnoreTunnelState(r: Rt, sid: U32, icrq: SessionArgs, iccn: SessionArgs, now: real)
    requires Inv(r) && sid != 0 && sid in r.sessions && r.sessions[sid].state.Idle?
    requires icrq.remoteSid == sid && iccn.remoteSid == sid && iccn.localSid == icrq.localSid
    ensures var q := Arrived(r, BuildSession(ICRQ, icrq), now).rt;
            CameUp(r, Arrived(q, BuildSession(ICCN, iccn), now).rt, sid, icrq.localSid)
  {
    hide Inv, BuildSession, Arrived, CameUp;
    RoutedOpens(r, sid, icrq, iccn, now);
  }
}
