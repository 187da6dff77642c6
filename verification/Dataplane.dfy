/** The in-memory dataplane: the kernel's tunnel and session tables and the calls that changed them. */
module Dataplane {
  import opened Prelude

  datatype TunnelParams = TunnelParams(localCcid: U32, remoteCcid: U32, localAddress: Bytes, remoteAddress: Bytes)

  /** A configured interface name, or the one derived from the IDs. */
  datatype IfName = Named(name: Bytes) | Derived(ccid: U32, sid: U32)

  datatype L2Spec = DefaultSublayer | NoSublayer

  datatype Wire = Ethernet | EthernetVlan

  datatype SessionParams = SessionParams(
    localCcid: U32, localSid: U32, remoteSid: U32, ifname: IfName,
    cookie: Option<Bytes>, peerCookie: Option<Bytes>, l2spec: L2Spec, pseudowire: Wire)

  datatype Call = AddedTunnel(t: TunnelParams) | AddedSession(s: SessionParams) | DeletedSession(ccid: U32, sid: U32) | DeletedTunnel(ccid: U32)

  datatype Tables = Tables(calls: seq<Call>, tunnels: map<U32, TunnelParams>, sessions: map<(U32, U32), SessionParams>)

  function AddTunnel(d: Tables, p: TunnelParams): Result<Tables> {
    if p.localCcid in d.tunnels then
      if d.tunnels[p.localCcid] != p then Failure else Success(d)
    else Success(d.(calls := d.calls + [AddedTunnel(p)], tunnels := d.tunnels[p.localCcid := p]))
  }

  function AddSession(d: Tables, p: SessionParams): Result<Tables> {
    var key := (p.localCcid, p.localSid);
    if key in d.sessions then Failure
    else if p.localCcid !in d.tunnels then Failure
    else Success(d.(calls := d.calls + [AddedSession(p)], sessions := d.sessions[key := p]))
  }

  function DelSession(d: Tables, ccid: U32, sid: U32): Tables {
    if (ccid, sid) !in d.sessions then d
    else d.(calls := d.calls + [DeletedSession(ccid, sid)], sessions := d.sessions - {(ccid, sid)})
  }

  predicate Live(d: Tables, ccid: U32) { exists k :: k in d.sessions && k.0 == ccid }

  function DelTunnel(d: Tables, ccid: U32): Result<Tables> {
    if ccid !in d.tunnels then Success(d)
    else if Live(d, ccid) then Failure
    else Success(d.(calls := d.calls + [DeletedTunnel(ccid)], tunnels := d.tunnels - {ccid}))
  }

  /** No session without its tunnel. */
  ghost predicate Rooted(d: Tables) { forall k :: k in d.sessions ==> k.0 in d.tunnels }

  /** Whatever the order of calls, a session entry never stands without its tunnel entry. */
  lemma CallsKeepRooted(d: Tables, t: TunnelParams, s: SessionParams, ccid: U32, sid: U32)
    requires Rooted(d)
    ensures AddTunnel(d, t).Success? ==> Rooted(AddTunnel(d, t).value)
    ensures AddSession(d, s).Success? ==> Rooted(AddSession(d, s).value)
    ensures Rooted(DelSession(d, ccid, sid))
    ensures DelTunnel(d, ccid).Success? ==> Rooted(DelTunnel(d, ccid).value)
  {
    if DelTunnel(d, ccid).Success? && ccid in d.tunnels {
      var e := DelTunnel(d, ccid).value;
      forall k | k in e.sessions ensures k.0 in e.tunnels {
        assert k in d.sessions && k.0 != ccid;
      }
    }
  }

  /** What each call does to the two tables, and exactly when it is refused. */
  lemma CallsDo(d: Tables, t: TunnelParams, s: SessionParams, ccid: U32, sid: U32)
    ensures AddTunnel(d, t).Failure? <==> t.localCcid in d.tunnels && d.tunnels[t.localCcid] != t
    ensures AddTunnel(d, t).Success? ==>
              AddTunnel(d, t).value.sessions == d.sessions && AddTunnel(d, t).value.tunnels == d.tunnels[t.localCcid := t]
    ensures AddSession(d, s).Failure? <==> (s.localCcid, s.localSid) in d.sessions || s.localCcid !in d.tunnels
    ensures AddSession(d, s).Success? ==>
              AddSession(d, s).value.tunnels == d.tunnels && AddSession(d, s).value.sessions == d.sessions[(s.localCcid, s.localSid) := s]
    ensures DelSession(d, ccid, sid).tunnels == d.tunnels && DelSession(d, ccid, sid).sessions == d.sessions - {(ccid, sid)}
    ensures DelTunnel(d, ccid).Failure? <==> ccid in d.tunnels && exists k :: k in d.sessions && k.0 == ccid
    ensures DelTunnel(d, ccid).Success? ==> DelTunnel(d, ccid).value.sessions == d.sessions && DelTunnel(d, ccid).value.tunnels == d.tunnels - {ccid}
  {
    assert t.localCcid in d.tunnels && d.tunnels[t.localCcid] == t ==> d.tunnels[t.localCcid := t] == d.tunnels;
    assert (ccid, sid) !in d.sessions ==> d.sessions - {(ccid, sid)} == d.sessions;
    assert ccid !in d.tunnels ==> d.tunnels - {ccid} == d.tunnels;
  }

  /** The tables that a list of recorded calls leads to. */
  function Replay(calls: seq<Call>): Tables {
    if calls == [] then Tables([], map[], map[])
    else
      var d := Replay(calls[..|calls| - 1]);
      match calls[|calls| - 1]
      case AddedTunnel(t) => Tables(calls, d.tunnels[t.localCcid := t], d.sessions)
      case AddedSession(s) => Tables(calls, d.tunnels, d.sessions[(s.localCcid, s.localSid) := s])
      case DeletedSession(ccid, sid) => Tables(calls, d.tunnels, d.sessions - {(ccid, sid)})
      case DeletedTunnel(ccid) => Tables(calls, d.tunnels - {ccid}, d.sessions)
  }

  /** The record of calls is complete: replayed, it gives the tables. */
  lemma CallsAreRecorded(d: Tables, t: TunnelParams, s: SessionParams, ccid: U32, sid: U32)
    requires d == Replay(d.calls)
    ensures AddTunnel(d, t).Success? ==> AddTunnel(d, t).value == Replay(AddTunnel(d, t).value.calls)
    ensures AddSession(d, s).Success? ==> AddSession(d, s).value == Replay(AddSession(d, s).value.calls)
    ensures DelSession(d, ccid, sid) == Replay(DelSession(d, ccid, sid).calls)
    ensures DelTunnel(d, ccid).Success? ==> DelTunnel(d, ccid).value == Replay(DelTunnel(d, ccid).value.calls)
  {
    ReplayOne(d.calls, AddedTunnel(t));
    ReplayOne(d.calls, AddedSession(s));
    ReplayOne(d.calls, DeletedSession(ccid, sid));
    ReplayOne(d.calls, DeletedTunnel(ccid));
  }

  lemma ReplayOne(calls: seq<Call>, call: Call)
    ensures var d, e := Replay(calls), Replay(calls + [call]);
            e == match call
                 case AddedTunnel(t) => Tables(calls + [call], d.tunnels[t.localCcid := t], d.sessions)
                 case AddedSession(s) => Tables(calls + [call], d.tunnels, d.sessions[(s.localCcid, s.localSid) := s])
                 case DeletedSession(ccid, sid) => Tables(calls + [call], d.tunnels, d.sessions - {(ccid, sid)})
                 case DeletedTunnel(ccid) => Tables(calls + [call], d.tunnels - {ccid}, d.sessions)
  {
    assert (calls + [call])[..|calls + [call]| - 1] == calls;
  }

  class MockDataplane {
    var calls: seq<Call>
    var tunnels: map<U32, TunnelParams>
    var sessions: map<(U32, U32), SessionParams>

    function State(): Tables
      reads this
    {
      Tables(calls, tunnels, sessions)
    }

    constructor ()
      ensures State() == Tables([], map[], map[])
    {
      calls, tunnels, sessions := [], map[], map[];
    }

    method Add(p: TunnelParams) returns (ok: bool)
      modifies this
      ensures ok == AddTunnel(old(State()), p).Success?
      ensures State() == if ok then AddTunnel(old(State()), p).value else old(State())
    {
      if p.localCcid in tunnels {
        return tunnels[p.localCcid] == p;
      }
      calls := calls + [AddedTunnel(p)];
      tunnels := tunnels[p.localCcid := p];
      ok := true;
    }

    method AddNetdev(p: SessionParams) returns (ok: bool)
      modifies this
      ensures ok == AddSession(old(State()), p).Success?
      ensures State() == if ok then AddSession(old(State()), p).value else old(State())
    {
      var key := (p.localCcid, p.localSid);
      if key in sessions || p.localCcid !in tunnels {
        return false;
      }
      calls := calls + [AddedSession(p)];
      sessions := sessions[key := p];
      ok := true;
    }

    method Delete(ccid: U32, sid: U32)
      modifies this
      ensures State() == DelSession(old(State()), ccid, sid)
    {
      if (ccid, sid) in sessions {
        calls := calls + [DeletedSession(ccid, sid)];
        sessions := sessions - {(ccid, sid)};
      }
    }

    method DeleteTunnel(ccid: U32) returns (ok: bool)
      modifies this
      ensures ok == DelTunnel(old(State()), ccid).Success?
      ensures State() == if ok then DelTunnel(old(State()), ccid).value else old(State())
    {
      if ccid !in tunnels {
        return true;
      }
      if exists k :: k in sessions && k.0 == ccid {
        return false;
      }
      calls := calls + [DeletedTunnel(ccid)];
      tunnels := tunnels - {ccid};
      ok := true;
    }
  }
}
