/**
 The revocation registry: live proxy sessions hold a handle per grant, and revoking a grant
 flips the flag of every handle registered under it and not yet deregistered.
 */
module Revocation {
  import opened Common

  // ---------------------------------------------------------------- what the calls do to the map

  function Bound<H>(sessions: map<Uid, set<H>>, grant: Uid): set<H> {
    if grant in sessions then sessions[grant] else {}
  }

  function Registered<H>(sessions: map<Uid, set<H>>, grant: Uid, h: H): map<Uid, set<H>> {
    if grant == NIL_UID then sessions else sessions[grant := Bound(sessions, grant) + {h}]
  }

  function Deregistered<H>(sessions: map<Uid, set<H>>, grant: Uid, h: H): map<Uid, set<H>> {
    if grant == NIL_UID || grant !in sessions then sessions
    else if sessions[grant] - {h} == {} then sessions - {grant}
    else sessions[grant := sessions[grant] - {h}]
  }

  function Signalled<H>(sessions: map<Uid, set<H>>, grant: Uid): set<H> {
    if grant == NIL_UID then {} else Bound(sessions, grant)
  }

  // ---------------------------------------------------------------- the objects

  class RevocationHandle {
    var revoked: bool

    constructor ()
      ensures !revoked
    {
      revoked := false;
    }
  }

  class RevocationRegistry {
    var sessions: map<Uid, set<RevocationHandle>>

    constructor ()
      ensures sessions == map[]
    {
      sessions := map[];
    }

    method Register(grant: Uid) returns (h: RevocationHandle)
      modifies this
      ensures fresh(h) && !h.revoked
      ensures sessions == Registered(old(sessions), grant, h)
    {
      h := new RevocationHandle();
      if grant == NIL_UID {
        return;
      }
      if grant !in sessions {
        sessions := sessions[grant := {}];
      }
      sessions := sessions[grant := sessions[grant] + {h}];
      assert sessions == Registered(old(sessions), grant, h);
    }

    method Deregister(grant: Uid, h: RevocationHandle?)
      modifies this
      ensures sessions == if h == null then old(sessions) else Deregistered(old(sessions), grant, h)
    {
      if h == null || grant == NIL_UID {
        return;
      }
      if grant !in sessions {
        return;
      }
      sessions := sessions[grant := sessions[grant] - {h}];
      if |sessions[grant]| == 0 {
        sessions := sessions - {grant};
      }
      assert sessions == Deregistered(old(sessions), grant, h);
    }

    /** Flips exactly the handles bound to the grant; the frame keeps every other flag. */
    method Revoke(grant: Uid) returns (n: nat)
      modifies Signalled(sessions, grant)
      ensures sessions == old(sessions)
      ensures n == |Signalled(sessions, grant)| && forall h :: h in Signalled(sessions, grant) ==> h.revoked
    {
      n := 0;
      if grant == NIL_UID {
        return;
      }
      var todo := Bound(sessions, grant);
      while todo != {}
        invariant todo <= Signalled(sessions, grant) && sessions == old(sessions)
        invariant n + |todo| == |Signalled(sessions, grant)|
        invariant forall h :: h in Signalled(sessions, grant) && h !in todo ==> h.revoked
        decreases |todo|
      {
        var h :| h in todo;
        h.revoked := true;
        n := n + 1;
        todo := todo - {h};
      }
    }
  }

  // Callers hold a registry or nil; on nil the calls do nothing and a handle is never revoked.

  method RegisterOn(r: RevocationRegistry?, grant: Uid) returns (h: RevocationHandle)
    modifies r
    ensures fresh(h) && !h.revoked
    ensures r != null ==> r.sessions == Registered(old(r.sessions), grant, h)
  {
    if r == null {
      h := new RevocationHandle();
    } else {
      h := r.Register(grant);
    }
  }

  method DeregisterOn(r: RevocationRegistry?, grant: Uid, h: RevocationHandle?)
    modifies r
    ensures r != null && h != null ==> r.sessions == Deregistered(old(r.sessions), grant, h)
    ensures r != null && h == null ==> r.sessions == old(r.sessions)
  {
    if r != null {
      r.Deregister(grant, h);
    }
  }

  method RevokeOn(r: RevocationRegistry?, grant: Uid) returns (n: nat)
    modifies if r == null then {} else Signalled(r.sessions, grant)
    ensures r == null ==> n == 0
    ensures r != null ==>
              && r.sessions == old(r.sessions) && n == |Signalled(r.sessions, grant)|
              && forall h :: h in Signalled(r.sessions, grant) ==> h.revoked
  {
    n := 0;
    if r != null {
      n := r.Revoke(grant);
    }
  }

  // ---------------------------------------------------------------- every run of calls

  /** A call, on handles named by numbers. */
  datatype Call =
    | Register(grant: Uid, h: nat)
    | Deregister(grant: Uid, h: nat)
    | Revoke(grant: Uid)

  datatype Registry = Registry(sessions: map<Uid, set<nat>>, revoked: set<nat>)

  function Step(r: Registry, c: Call): Registry {
    match c
    case Register(grant, h) => r.(sessions := Registered(r.sessions, grant, h))
    case Deregister(grant, h) => r.(sessions := Deregistered(r.sessions, grant, h))
    case Revoke(grant) => r.(revoked := r.revoked + Signalled(r.sessions, grant))
  }

  function After(calls: seq<Call>): Registry {
    if calls == [] then Registry(map[], {}) else Step(After(calls[..|calls| - 1]), calls[|calls| - 1])
  }

  /** In the history, `h` was registered under the grant and not deregistered from it since. */
  predicate Live(calls: seq<Call>, grant: Uid, h: nat) {
    && grant != NIL_UID
    && exists i :: 0 <= i < |calls| && calls[i] == Register(grant, h)
                   && forall j :: i < j < |calls| ==> calls[j] != Deregister(grant, h)
  }

  lemma LiveNext(calls: seq<Call>, c: Call, grant: Uid, h: nat)
    ensures Live(calls + [c], grant, h) <==>
            grant != NIL_UID && (c == Register(grant, h) || (Live(calls, grant, h) && c != Deregister(grant, h)))
  {
    var cs, n := calls + [c], |calls|;
    if Live(cs, grant, h) && c != Register(grant, h) {
      var i :| 0 <= i < |cs| && cs[i] == Register(grant, h)
               && forall j :: i < j < |cs| ==> cs[j] != Deregister(grant, h);
      assert calls[i] == Register(grant, h);
      assert forall j :: i < j < n ==> calls[j] == cs[j];
      assert cs[n] == c;
    }
    if grant != NIL_UID && c == Register(grant, h) {
      assert cs[n] == c;
    }
    if Live(calls, grant, h) && c != Deregister(grant, h) {
      var i :| 0 <= i < n && calls[i] == Register(grant, h)
               && forall j :: i < j < n ==> calls[j] != Deregister(grant, h);
      assert cs[i] == Register(grant, h);
      assert forall j :: i < j < |cs| ==> cs[j] == if j < n then calls[j] else c;
    }
  }

  /** The map holds exactly the live handles, and never an empty set. */
  lemma {:induction false} MapHoldsTheLive(calls: seq<Call>, grant: Uid, h: nat)
    ensures h in Bound(After(calls).sessions, grant) <==> Live(calls, grant, h)
    ensures forall g :: g in After(calls).sessions ==> After(calls).sessions[g] != {} && g != NIL_UID
  {
    if calls != [] {
      var before, c := calls[..|calls| - 1], calls[|calls| - 1];
      MapHoldsTheLive(before, grant, h);
      assert calls == before + [c];
      LiveNext(before, c, grant, h);
    }
  }

  /** Call `k` is a revocation that found `h` live under its grant. */
  predicate Hits(calls: seq<Call>, k: nat, h: nat) {
    k < |calls| && calls[k].Revoke? && Live(calls[..k], calls[k].grant, h)
  }

  predicate WasRevoked(calls: seq<Call>, h: nat) {
    exists k :: 0 <= k < |calls| && Hits(calls, k, h)
  }

  lemma HitsEarlier(calls: seq<Call>, c: Call, k: nat, h: nat)
    requires k < |calls|
    ensures Hits(calls + [c], k, h) <==> Hits(calls, k, h)
  {
    assert (calls + [c])[k] == calls[k] && (calls + [c])[..k] == calls[..k];
  }

  lemma HitsLast(calls: seq<Call>, c: Call, h: nat)
    ensures Hits(calls + [c], |calls|, h) <==> c.Revoke? && Live(calls, c.grant, h)
  {
    assert (calls + [c])[|calls|] == c && (calls + [c])[..|calls|] == calls;
  }

  lemma WasRevokedNext(calls: seq<Call>, c: Call, h: nat)
    ensures WasRevoked(calls + [c], h) <==> WasRevoked(calls, h) || (c.Revoke? && Live(calls, c.grant, h))
  {
    HitsLast(calls, c, h);
    if WasRevoked(calls + [c], h) {
      var k :| 0 <= k < |calls + [c]| && Hits(calls + [c], k, h);
      if k < |calls| {
        HitsEarlier(calls, c, k, h);
      }
    }
    if WasRevoked(calls, h) {
      var k :| 0 <= k < |calls| && Hits(calls, k, h);
      HitsEarlier(calls, c, k, h);
    }
  }

  /** A flag is up exactly when some revocation of a grant reached the handle while it was live under that grant. */
  lemma {:induction false} FlagUpIff(calls: seq<Call>, h: nat)
    ensures h in After(calls).revoked <==> WasRevoked(calls, h)
  {
    if calls != [] {
      var before, c := calls[..|calls| - 1], calls[|calls| - 1];
      FlagUpIff(before, h);
      assert calls == before + [c];
      WasRevokedNext(before, c, h);
      if c.Revoke? {
        MapHoldsTheLive(before, c.grant, h);
      }
    }
  }

  /** Flags never come down. */
  lemma {:induction false} FlagsOnlyRise(calls: seq<Call>, more: seq<Call>)
    ensures After(calls).revoked <= After(calls + more).revoked
    decreases |more|
  {
    if more == [] {
      assert calls + more == calls;
    } else {
      var n := |more| - 1;
      FlagsOnlyRise(calls, more[..n]);
      assert (calls + more)[..|calls + more| - 1] == calls + more[..n];
    }
  }
}
