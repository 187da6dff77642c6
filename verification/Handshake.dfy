/**
 Exchanges from start to finish: what one-sided and simultaneous opens lead to, a session set
 up between two kernels, and when a merged batch hands a session the wrong cookie.
 */
module Handshake {
  import opened Prelude
  import opened AvpCodec
  import opened TypedMessages
  import opened Pairing
  import R = Runtime
  import Safety
  import T = TunnelFsm
  import S = SessionFsm
  import D = Dataplane

  // ---- cookies in merged batches --------------------------------------------------

  lemma OfTunnelPlain(c: T.Config, m: seq<Avp>)
    requires OfTunnel(c, m)
    ensures !HasCookie(m)
  {
    hide Find, Collect, Pack, PackCapabilities;
    var id := T.Identity(c);
    FindMissing(SccrxSlots(SCCRQ, id), SCCRX_ATTRS, ASSIGNED_COOKIE);
    FindMissing(SccrxSlots(SCCRP, id), SCCRX_ATTRS, ASSIGNED_COOKIE);
    FindMissing([RequiredNumber(MESSAGE_TYPE, SCCCN, 2)], [MESSAGE_TYPE], ASSIGNED_COOKIE);
    FindMissing([RequiredNumber(MESSAGE_TYPE, HELLO, 2)], [MESSAGE_TYPE], ASSIGNED_COOKIE);
    if code: U16 :| Stops(c, m, code) {
      FindMissing(StopCcnSlots(c.localCcid, Bare(code)), STOPCCN_ATTRS, ASSIGNED_COOKIE);
    }
  }

  lemma OfSessionCookie(c: S.Config, m: seq<Avp>, y: End)
    requires OfSession(c, m, y)
    ensures c.cookie.None? ==> !HasCookie(m)
    ensures c.cookie.Some? && Introduction(m) ==> HasCookie(m)
  {
    hide HasCookie, BuildSession, BuildCdn, Partner, GetMessageType;
    IcrqTyped(c);
    SessionCookie(ICRQ, IcrqArgs(c));
    if p: U32 :| Addressed(c, m, p, y) {
      IcrpTyped(c, p);
      IccnTyped(c, p);
      SessionCookie(ICRP, IcrpArgs(c, p));
      SessionCookie(ICCN, IcrpArgs(c, p).(assignedCookie := None));
    } else if p: U32, code: U16 :| Closes(c, m, p, code) {
      CdnPlain(c.localSid, p, code);
    }
  }

  lemma CdnPlain(local: U32, remote: U32, code: U16)
    ensures !HasCookie(BuildCdn(local, remote, Bare(code)))
    ensures !Introduction(BuildCdn(local, remote, Bare(code)))
  {
    hide Find, BuildCdn, GetMessageType;
    CdnSurvives(local, remote, Bare(code));
  }

  lemma {:induction false} NoCookieMerged(parts: seq<seq<Avp>>)
    requires forall i :: 0 <= i < |parts| ==> !HasCookie(parts[i])
    ensures !HasCookie(Flatten(parts))
  {
    hide Find;
    if parts == [] {
      NothingHasNoCookie();
    } else {
      NoCookieMerged(parts[1..]);
      FindConcat(parts[0], Flatten(parts[1..]), ASSIGNED_COOKIE);
    }
  }

  lemma NothingHasNoCookie()
    ensures !HasCookie([])
  {
  }

  /** Every session of the end is configured with a cookie, or none is. */
  ghost predicate Uniform(x: End) {
    || (forall sid :: sid in x.sessions ==> x.sessions[sid].cookie.Some?)
    || (forall sid :: sid in x.sessions ==> x.sessions[sid].cookie.None?)
  }

  lemma GenuineCookie(x: End, y: End, m: seq<Avp>)
    requires Genuine(x, y, m) && Uniform(x)
    ensures (forall sid :: sid in x.sessions ==> x.sessions[sid].cookie.None?) ==> !HasCookie(m)
    ensures (forall sid :: sid in x.sessions ==> x.sessions[sid].cookie.Some?) && Introduction(m) ==> HasCookie(m)
  {
    hide HasCookie, OfTunnel, OfSession, Introduction;
    if OfTunnel(x.config, m) {
      TunnelNoIntroduction(x.config, m);
      OfTunnelPlain(x.config, m);
    } else {
      var sid :| sid in x.sessions && OfSession(x.sessions[sid], m, y);
      OfSessionCookie(x.sessions[sid], m, y);
    }
  }

  /** Where cookies are configured for all sessions or for none, every batch keeps them apart. */
  lemma UniformCookiesKept(x: End, y: End, setup: R.Setup, heard: seq<seq<Avp>>, read: nat, parts: seq<seq<Avp>>)
    requires Uniform(x) && AllGenuine(x, y, heard) && parts != [] && AllRead(setup, heard, read, parts)
    ensures CookieKept(heard[read], Behind(heard[read], parts))
  {
    hide Find, Genuine, Introduction;
    var m := heard[read];
    GenuineCookie(x, y, m);
    if forall sid :: sid in x.sessions ==> x.sessions[sid].cookie.None? {
      forall i | 0 <= i < |parts| ensures !HasCookie(parts[i]) {
        GenuineCookie(x, y, heard[read + i]);
        DigestAdds(setup, heard[read + i], parts[i], ASSIGNED_COOKIE);
      }
      NoCookieMerged(parts);
      assert Safety.ReadAs(setup, heard[read + 0], parts[0]);
      assert m <= parts[0] <= Flatten(parts);
      assert Flatten(parts) == m + Behind(m, parts);
      FindConcat(m, Behind(m, parts), ASSIGNED_COOKIE);
    }
  }

  lemma TunnelNoIntroduction(c: T.Config, m: seq<Avp>)
    requires OfTunnel(c, m)
    ensures !Introduction(m)
  {
    hide GetMessageType, OfTunnel;
    OfTunnelTyped(c, m);
  }

  /** Nothing but the message's own cookie can be the session's: it has one, or neither the batch nor an earlier exchange left another. */
  ghost predicate OwnCookieOnly(s: S.Fsm, c: S.Config, rest: seq<Avp>) {
    c.cookie.Some? || (!HasCookie(rest) && s.peerCookieLearned.None?)
  }

  /**
   An ICRQ or ICRP read at the head of a batch leaves the session with the cookie of the
   session that sent it, or with none if that has none, exactly when it has one, or nothing
   later in the batch has one and the session had learned none before.
   */
  lemma CookieLearnedExactly(s: S.Fsm, c: S.Config, p: U32, rest: seq<Avp>)
    ensures var t := S.OnMessage(s, S.IcrqAvps(c) + rest).0;
            s.state.Idle? && t.state.WaitSessionConnect? ==> (t.peerCookieLearned == c.cookie <==> OwnCookieOnly(s, c, rest))
    ensures var t := S.OnMessage(s, S.IcrpAvps(c, p) + rest).0;
            s.state.WaitSessionReply? && t.state.Established? ==> (t.peerCookieLearned == c.cookie <==> OwnCookieOnly(s, c, rest))
  {
    hide BuildSession, GetMessageType, ParseSession, S.IcrqAvps, S.IcrpAvps, S.IccnAvps, S.Params;
    IcrqTyped(c);
    IcrpTyped(c, p);
    MergedSession(ICRQ, IcrqArgs(c), rest);
    MergedSession(ICRP, IcrpArgs(c, p), rest);
    LentCookie(ICRQ, IcrqArgs(c), rest);
    LentCookie(ICRP, IcrpArgs(c, p), rest);
  }

  /** A message without a cookie is read with the first one behind it. */
  lemma LentCookie(messageType: U16, args: SessionArgs, rest: seq<Avp>)
    ensures var avps := BuildSession(messageType, args) + rest;
            args.assignedCookie.None? && HasCookie(rest) && ParseSession(avps).Success? ==> ParseSession(avps).value.assignedCookie.Some?
  {
    hide Find, BuildSession, Number16, Number32, Number64;
    SessionFound(messageType, args);
    FindConcat(BuildSession(messageType, args), rest, ASSIGNED_COOKIE);
  }

  ghost function OrElse<X>(a: Option<X>, b: Option<X>): Option<X> { if a.Some? then a else b }

  /** The one ICRQ that two merged ones look like: what the first leaves out comes from the second. */
  ghost function Mixed(c: S.Config, d: S.Config): SessionArgs {
    IcrqArgs(c).(assignedCookie := OrElse(c.cookie, d.cookie), txConnectSpeed := OrElse(c.txConnectSpeed, d.txConnectSpeed),
                 rxConnectSpeed := OrElse(c.rxConnectSpeed, d.rxConnectSpeed))
  }

  ghost predicate SameFinds(left: seq<Avp>, right: seq<Avp>) {
    && Find(left, LOCAL_SESSION_ID) == Find(right, LOCAL_SESSION_ID) && Find(left, REMOTE_SESSION_ID) == Find(right, REMOTE_SESSION_ID)
    && Find(left, PSEUDOWIRE_TYPE) == Find(right, PSEUDOWIRE_TYPE) && Find(left, L2_SPECIFIC_SUBLAYER) == Find(right, L2_SPECIFIC_SUBLAYER)
    && Find(left, DATA_SEQUENCING) == Find(right, DATA_SEQUENCING) && Find(left, CIRCUIT_STATUS) == Find(right, CIRCUIT_STATUS)
    && Find(left, ASSIGNED_COOKIE) == Find(right, ASSIGNED_COOKIE) && Find(left, REMOTE_END_ID) == Find(right, REMOTE_END_ID)
    && Find(left, TX_CONNECT_SPEED) == Find(right, TX_CONNECT_SPEED) && Find(left, RX_CONNECT_SPEED) == Find(right, RX_CONNECT_SPEED)
    && Find(left, MESSAGE_TYPE) == Find(right, MESSAGE_TYPE)
  }

  lemma ParseByFinds(left: seq<Avp>, right: seq<Avp>)
    requires SameFinds(left, right)
    ensures ParseSession(left) == ParseSession(right) && GetMessageType(left) == GetMessageType(right)
  {
    hide Find, Number16, Number32, Number64, DecodeCookie;
  }

  lemma MixedFinds(c: S.Config, d: S.Config)
    ensures SameFinds(S.IcrqAvps(c) + S.IcrqAvps(d), BuildSession(ICRQ, Mixed(c, d)))
  {
    hide Find, BuildSession, Pack;
    var left, right := S.IcrqAvps(c), S.IcrqAvps(d);
    IcrqTyped(c);
    IcrqTyped(d);
    SessionFound(ICRQ, IcrqArgs(c));
    SessionFound(ICRQ, IcrqArgs(d));
    SessionFound(ICRQ, Mixed(c, d));
    FindConcat(left, right, MESSAGE_TYPE);
    FindConcat(left, right, LOCAL_SESSION_ID);
    FindConcat(left, right, REMOTE_SESSION_ID);
    FindConcat(left, right, PSEUDOWIRE_TYPE);
    FindConcat(left, right, L2_SPECIFIC_SUBLAYER);
    FindConcat(left, right, DATA_SEQUENCING);
    FindConcat(left, right, CIRCUIT_STATUS);
    FindConcat(left, right, ASSIGNED_COOKIE);
    FindConcat(left, right, REMOTE_END_ID);
    FindConcat(left, right, TX_CONNECT_SPEED);
    FindConcat(left, right, RX_CONNECT_SPEED);
  }

  /**
   Two ICRQs handed over together act as one that mixes them: a session without a cookie
   of its own is given the cookie of the session behind it, which is never set up.
   */
  lemma MergedIcrqsMix(s: S.Fsm, c: S.Config, d: S.Config)
    requires s.state.Idle?
    ensures var avps := S.IcrqAvps(c) + S.IcrqAvps(d);
            && S.OnMessage(s, avps).0 == S.Learn(s, S.FieldsOf(Mixed(c, d))).(state := S.WaitSessionConnect)
            && (c.cookie.None? && d.cookie.Some? ==> S.OnMessage(s, avps).0.peerCookieLearned == d.cookie)
  {
    hide ParseSession, GetMessageType, BuildSession, S.IcrpAvps, S.IcrqAvps;
    MixedFinds(c, d);
    var avps, mixed := S.IcrqAvps(c) + S.IcrqAvps(d), BuildSession(ICRQ, Mixed(c, d));
    ParseByFinds(avps, mixed);
    S.IcrqTaken(s, Mixed(c, d));
    assert S.OnIcrq(s, avps) == S.OnIcrq(s, mixed);
  }

  // ---- opening the tunnel ----------------------------------------------------------

  /** What f sends first in reaction to an event, and f afterwards. */
  ghost predicate Says(f: T.Fsm, e: T.Event, g: T.Fsm, m: seq<Avp>) {
    var (t, actions) := T.React(f, e);
    t == g && actions != [] && actions[0] == T.SendMessage(m)
  }

  ghost predicate Silent(f: T.Fsm, e: T.Event, g: T.Fsm) {
    var (t, actions) := T.React(f, e);
    t == g && forall i :: 0 <= i < |actions| ==> !actions[i].SendMessage?
  }

  ghost function Met(f: T.Fsm, c: T.Config): T.Fsm {
    f.(peerCcid := c.localCcid, peerHostName := c.hostName, peerRouterId := c.routerId)
  }

  lemma SccrxRead(f: T.Fsm, c: T.Config)
    ensures f.state.Idle? ==> Says(f, T.Message(T.SccrqAvps(c)), Met(f, c).(state := T.WaitCtlConn), T.SccrpAvps(f.config))
    ensures !f.state.Idle? ==> Says(f, T.Message(T.SccrqAvps(c)), f.(state := T.SendStopCcn), T.StopCcnAvps(f.config, GENERAL_ERROR))
    ensures f.state.WaitCtlReply? ==> Says(f, T.Message(T.SccrpAvps(c)), Met(f, c).(state := T.Established), BuildBare(SCCCN))
  {
    hide BuildSccrx, GetMessageType, ParseSccrx, BuildStopCcn, BuildBare;
    SccrxSurvives(SCCRQ, T.Identity(c));
    SccrxSurvives(SCCRP, T.Identity(c));
  }

  /** An SCCRQ is answered with SCCRP exactly when the receiver is IDLE. */
  lemma SccrqAnsweredExactly(f: T.Fsm, c: T.Config, g: T.Fsm)
    ensures Says(f, T.Message(T.SccrqAvps(c)), g, T.SccrpAvps(f.config))
            <==> f.state.Idle? && g == Met(f, c).(state := T.WaitCtlConn)
  {
    hide BuildSccrx, GetMessageType, BuildStopCcn, T.OnMessage;
    SccrxRead(f, c);
    SccrxSurvives(SCCRP, T.Identity(f.config));
    StopCcnSurvives(f.config.localCcid, Bare(GENERAL_ERROR));
  }

  lemma BareRead(f: T.Fsm, c: T.Config, code: U16)
    ensures f.state.WaitCtlConn? ==> Silent(f, T.Message(BuildBare(SCCCN)), f.(state := T.Established))
    ensures Silent(f, T.Message(T.StopCcnAvps(c, code)), f.(state := T.Idle))
  {
    hide BuildBare, GetMessageType, BuildStopCcn, ParseStopCcn;
    BareSurvives(SCCCN);
    StopCcnSurvives(c.localCcid, Bare(code));
  }

  /** Opened from one side only, SCCRQ, SCCRP and SCCCN bring both tunnels up, each knowing the other. */
  lemma OneSidedOpenConnects(f: T.Fsm, g: T.Fsm)
    requires f.state.Idle? && g.state.Idle?
    ensures var f1 := f.(state := T.WaitCtlReply);
            var g1 := Met(g, f.config).(state := T.WaitCtlConn);
            && Says(f, T.Open, f1, T.SccrqAvps(f.config))
            && Says(g, T.Message(T.SccrqAvps(f.config)), g1, T.SccrpAvps(g.config))
            && Says(f1, T.Message(T.SccrpAvps(g.config)), Met(f1, g.config).(state := T.Established), BuildBare(SCCCN))
            && Silent(g1, T.Message(BuildBare(SCCCN)), g1.(state := T.Established))
  {
    hide Met, Silent, BuildSccrx, BuildBare, T.OnMessage;
    SccrxRead(g, f.config);
    SccrxRead(f.(state := T.WaitCtlReply), g.config);
    BareRead(Met(g, f.config).(state := T.WaitCtlConn), f.config, 0);
  }

  /**
   Opened from both sides at once, each refuses the other's SCCRQ, and the two StopCCNs
   take both back to IDLE with nothing further to say.
   */
  lemma SimultaneousOpenCollapses(f: T.Fsm, g: T.Fsm)
    requires f.state.Idle? && g.state.Idle?
    ensures var f1, g1 := f.(state := T.WaitCtlReply), g.(state := T.WaitCtlReply);
            var f2, g2 := f.(state := T.SendStopCcn), g.(state := T.SendStopCcn);
            && Says(f, T.Open, f1, T.SccrqAvps(f.config)) && Says(g, T.Open, g1, T.SccrqAvps(g.config))
            && Says(f1, T.Message(T.SccrqAvps(g.config)), f2, T.StopCcnAvps(f.config, GENERAL_ERROR))
            && Says(g1, T.Message(T.SccrqAvps(f.config)), g2, T.StopCcnAvps(g.config, GENERAL_ERROR))
            && Silent(f2, T.Message(T.StopCcnAvps(g.config, GENERAL_ERROR)), f)
            && Silent(g2, T.Message(T.StopCcnAvps(f.config, GENERAL_ERROR)), g)
  {
    hide Silent, BuildSccrx, BuildStopCcn, T.OnMessage;
    SccrxRead(f.(state := T.WaitCtlReply), g.config);
    SccrxRead(g.(state := T.WaitCtlReply), f.config);
    BareRead(f.(state := T.SendStopCcn), g.config, GENERAL_ERROR);
    BareRead(g.(state := T.SendStopCcn), f.config, GENERAL_ERROR);
  }

  // ---- opening a session -----------------------------------------------------------

  /** ICRQ, ICRP and ICCN between two idle sessions set up kernel entries that mirror each other. */
  lemma SessionOpens(s: S.Fsm, t: S.Fsm)
    requires s.state.WaitSessionReply? && t.state.Idle?
    ensures var t1 := S.OnMessage(t, S.IcrqAvps(s.config)).0;
            var s1 := S.OnMessage(s, S.IcrpAvps(t.config, t1.peerSid)).0;
            var t2 := S.OnMessage(t1, S.IccnAvps(s.config, s1.peerSid)).0;
            S.Up(s1) && S.Up(t2) && Mirror(S.Params(s1), S.Params(t2), true)
  {
    hide BuildSession, S.OnMessage;
    IcrqTyped(s.config);
    S.IcrqTaken(t, IcrqArgs(s.config));
    var t1 := S.OnMessage(t, S.IcrqAvps(s.config)).0;
    IcrpTyped(t.config, t1.peerSid);
    S.IcrpTaken(s, IcrpArgs(t.config, t1.peerSid));
    var s1 := S.OnMessage(s, S.IcrpAvps(t.config, t1.peerSid)).0;
    S.IccnTaken(t1, IcrpArgs(s.config, s1.peerSid).(assignedCookie := None));
  }
}
