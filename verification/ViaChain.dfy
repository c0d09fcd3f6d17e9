/**
 SSH tunnel references between servers: `via_uid` says "dial this server through that one".
 Validation walks the chain; create, update and (soft) delete keep the graph acyclic.
 */
module ViaChain {
  import opened Common

  const SSH := "ssh"

  datatype Server = Server(protocol: string, via: Option<Uid>, deleted: bool)

  /** All rows, soft-deleted ones included: the foreign key on via_uid still sees those. */
  type Servers = map<Uid, Server>

  datatype Verdict = Ok | Cycle | NotFound | NotSsh

  // ---------------------------------------------------------------- what validation decides

  predicate Live(rows: Servers, u: Uid) {
    u in rows && !rows[u].deleted
  }

  predicate Bastion(rows: Servers, u: Uid) {
    Live(rows, u) && rows[u].protocol == SSH
  }

  /** The server being saved; nil when it has no uid yet. */
  predicate IsSelf(self: Uid, u: Uid) {
    self != NIL_UID && u == self
  }

  /** `p` follows via references from `via`, passing only unseen bastions other than self. */
  predicate Trail(rows: Servers, self: Uid, via: Uid, p: seq<Uid>) {
    && |p| > 0 && p[0] == via
    && forall i :: 0 <= i < |p| - 1 ==> Passes(rows, self, p, i)
  }

  predicate Passes(rows: Servers, self: Uid, p: seq<Uid>, i: nat)
    requires i < |p| - 1
  {
    !IsSelf(self, p[i]) && p[i] !in p[..i] && Bastion(rows, p[i]) && rows[p[i]].via == Some(p[i + 1])
  }

  /** What the last server of a trail decides; None means the walk goes on. */
  function Judge(rows: Servers, self: Uid, p: seq<Uid>): Option<Verdict>
    requires |p| > 0
  {
    var n := |p| - 1;
    if IsSelf(self, p[n]) then Some(Cycle)
    else if p[n] in p[..n] then Some(Cycle)
    else if !Live(rows, p[n]) then Some(NotFound)
    else if rows[p[n]].protocol != SSH then Some(NotSsh)
    else if rows[p[n]].via.None? then Some(Ok)
    else None
  }

  /** The verdict on saving `self` with a reference to `via`. */
  ghost predicate Decides(rows: Servers, self: Uid, via: Uid, v: Verdict) {
    exists p :: Trail(rows, self, via, p) && Judge(rows, self, p) == Some(v)
  }

  /** A finite chain of live bastions that ends in a direct dial and avoids self. */
  predicate GoodChain(rows: Servers, self: Uid, p: seq<Uid>) {
    && |p| > 0
    && (forall i :: 0 <= i < |p| ==> Bastion(rows, p[i]) && !IsSelf(self, p[i]))
    && (forall i :: 0 <= i < |p| - 1 ==> rows[p[i]].via == Some(p[i + 1]))
    && rows[p[|p| - 1]].via == None
  }

  // ---------------------------------------------------------------- the verdict is well defined

  lemma {:induction false} TrailsAgree(rows: Servers, self: Uid, via: Uid, p: seq<Uid>, q: seq<Uid>, i: nat)
    requires Trail(rows, self, via, p) && Trail(rows, self, via, q) && i < |p| && i < |q|
    ensures p[..i + 1] == q[..i + 1]
  {
    if i > 0 {
      TrailsAgree(rows, self, via, p, q, i - 1);
      assert Passes(rows, self, p, i - 1) && Passes(rows, self, q, i - 1);
      assert p[i - 1] == p[..i][i - 1] == q[..i][i - 1] == q[i - 1];
    }
  }

  lemma ShorterTrailGoesOn(rows: Servers, self: Uid, via: Uid, p: seq<Uid>, q: seq<Uid>)
    requires Trail(rows, self, via, p) && Trail(rows, self, via, q) && |p| < |q|
    ensures Judge(rows, self, p).None?
  {
    var n := |p| - 1;
    TrailsAgree(rows, self, via, p, q, n);
    assert p == p[..n + 1] == q[..n + 1];
    assert p[..n] == q[..n];
    assert Passes(rows, self, q, n);
  }

  lemma VerdictIsUnique(rows: Servers, self: Uid, via: Uid, v: Verdict, w: Verdict)
    requires Decides(rows, self, via, v) && Decides(rows, self, via, w)
    ensures v == w
  {
    var p :| Trail(rows, self, via, p) && Judge(rows, self, p) == Some(v);
    var q :| Trail(rows, self, via, q) && Judge(rows, self, q) == Some(w);
    if |p| < |q| {
      ShorterTrailGoesOn(rows, self, via, p, q);
    } else if |q| < |p| {
      ShorterTrailGoesOn(rows, self, via, q, p);
    }
    TrailsAgree(rows, self, via, p, q, |p| - 1);
    assert p[..|p|] == p && q[..|q|] == q;
  }

  /** A chain that ends cannot meet the same server twice. */
  lemma {:induction false} GoodChainHasNoRepeat(rows: Servers, self: Uid, p: seq<Uid>, i: nat, j: nat)
    requires GoodChain(rows, self, p) && i < j < |p|
    ensures p[i] != p[j]
    decreases |p| - j
  {
    assert rows[p[i]].via == Some(p[i + 1]);
    if j < |p| - 1 {
      assert rows[p[j]].via == Some(p[j + 1]);
      GoodChainHasNoRepeat(rows, self, p, i + 1, j + 1);
    }
  }

  /** Validation accepts exactly the finite all-SSH chains avoiding self. */
  lemma AcceptsExactlyGoodChains(rows: Servers, self: Uid, via: Uid)
    ensures Decides(rows, self, via, Ok) <==> exists p :: GoodChain(rows, self, p) && p[0] == via
  {
    if Decides(rows, self, via, Ok) {
      var p :| Trail(rows, self, via, p) && Judge(rows, self, p) == Some(Ok);
      forall i | 0 <= i < |p| - 1
        ensures Bastion(rows, p[i]) && rows[p[i]].via == Some(p[i + 1]) && !IsSelf(self, p[i])
      {
        assert Passes(rows, self, p, i);
      }
      assert GoodChain(rows, self, p);
    }
    if exists p :: GoodChain(rows, self, p) && p[0] == via {
      var p :| GoodChain(rows, self, p) && p[0] == via;
      forall i, j | 0 <= i < j < |p| ensures p[i] != p[j] {
        GoodChainHasNoRepeat(rows, self, p, i, j);
      }
      forall i | 0 <= i < |p| - 1 ensures Passes(rows, self, p, i) {
      }
      assert Trail(rows, self, via, p) && Judge(rows, self, p) == Some(Ok);
    }
  }

  // ---------------------------------------------------------------- walking the graph

  /** The server `n` references away, if the walk gets that far. */
  function Walk(rows: Servers, u: Uid, n: nat): Option<Uid>
    decreases n
  {
    if n == 0 then Some(u)
    else if u in rows && rows[u].via.Some? then Walk(rows, rows[u].via.value, n - 1)
    else None
  }

  ghost predicate Acyclic(rows: Servers) {
    forall u: Uid, n: nat :: n > 0 ==> Walk(rows, u, n) != Some(u)
  }

  lemma {:induction false} WalkFurther(rows: Servers, u: Uid, a: nat, b: nat)
    ensures Walk(rows, u, a + b) == match Walk(rows, u, a) case None => None case Some(x) => Walk(rows, x, b)
    decreases a
  {
    if a > 0 && u in rows && rows[u].via.Some? {
      WalkFurther(rows, rows[u].via.value, a - 1, b);
    }
  }

  lemma {:induction false} WalkAlongTrail(rows: Servers, self: Uid, via: Uid, p: seq<Uid>, i: nat, j: nat)
    requires Trail(rows, self, via, p) && i <= j < |p|
    ensures Walk(rows, p[i], j - i) == Some(p[j])
    decreases j - i
  {
    if i < j {
      assert Passes(rows, self, p, i);
      WalkAlongTrail(rows, self, via, p, i + 1, j);
    }
  }

  /** In an acyclic table the "seen twice" test of the walk never fires. */
  lemma NeverSeenTwice(rows: Servers, self: Uid, via: Uid, p: seq<Uid>)
    requires Acyclic(rows) && Trail(rows, self, via, p)
    ensures p[|p| - 1] !in p[..|p| - 1]
  {
    forall i | 0 <= i < |p| - 1 ensures p[i] != p[|p| - 1] {
      WalkAlongTrail(rows, self, via, p, i, |p| - 1);
    }
  }

  /** The two tables differ at most in the row of `self`. */
  ghost predicate SameBut(rows: Servers, rows': Servers, self: Uid) {
    forall u :: u != self ==> (u in rows <==> u in rows') && (u in rows ==> rows[u].via == rows'[u].via)
  }

  lemma {:induction false} WalkAvoidingSelf(rows: Servers, rows': Servers, self: Uid, u: Uid, n: nat)
    requires SameBut(rows, rows', self)
    requires forall i: nat :: i < n ==> Walk(rows', u, i) != Some(self)
    ensures Walk(rows, u, n) == Walk(rows', u, n)
    decreases n
  {
    if n > 0 {
      assert Walk(rows', u, 0) != Some(self);
      if u in rows && rows[u].via.Some? {
        forall i: nat | i < n - 1 ensures Walk(rows', rows[u].via.value, i) != Some(self) {
          assert Walk(rows', u, i + 1) == Walk(rows', rows[u].via.value, i);
        }
        WalkAvoidingSelf(rows, rows', self, rows[u].via.value, n - 1);
      }
    }
  }

  /** If self's own walk never returns to self, changing self's row keeps the graph acyclic. */
  lemma NewEdgeKeepsAcyclic(rows: Servers, rows': Servers, self: Uid)
    requires Acyclic(rows) && SameBut(rows, rows', self)
    requires forall n: nat :: n > 0 ==> Walk(rows', self, n) != Some(self)
    ensures Acyclic(rows')
  {
    forall u: Uid, n: nat | n > 0 ensures Walk(rows', u, n) != Some(u) {
      if exists i: nat :: i < n && Walk(rows', u, i) == Some(self) {
        var i: nat :| i < n && Walk(rows', u, i) == Some(self);
        WalkFurther(rows', u, n, i);
        WalkFurther(rows', u, i, n);
      } else {
        WalkAvoidingSelf(rows, rows', self, u, n);
      }
    }
  }

  /** Along a good chain that avoids self, no walk reaches self, whatever self's row becomes. */
  lemma {:induction false} ChainAvoidsSelf(rows: Servers, rows': Servers, self: Uid, p: seq<Uid>, i: nat, n: nat)
    requires GoodChain(rows, self, p) && SameBut(rows, rows', self) && i < |p| && self !in p
    ensures Walk(rows', p[i], n) != Some(self)
    decreases n
  {
    assert p[i] != self;
    if n > 0 && i + 1 < |p| {
      ChainAvoidsSelf(rows, rows', self, p, i + 1, n - 1);
    }
  }

  // ---------------------------------------------------------------- the table over a run

  datatype Result = Saved | Rejected(verdict: Verdict)

  datatype Event =
    | Create(uid: Uid, protocol: string, via: Option<Uid>)
    | Update(uid: Uid, newProtocol: Option<string>, via: Option<Uid>, clearVia: bool)
    | Delete(uid: Uid)

  /** Uids are random: a new one is not nil and not in the table. */
  predicate Enabled(rows: Servers, e: Event) {
    e.Create? ==> e.uid != NIL_UID && e.uid !in rows
  }

  ghost predicate Accepted(rows: Servers, e: Event)
  {
    match e
    case Create(_, _, via) => via.Some? ==> Decides(rows, NIL_UID, via.value, Ok)
    case Update(uid, _, via, _) => (via.Some? ==> Decides(rows, uid, via.value, Ok)) && Live(rows, uid)
    case Delete(uid) => Live(rows, uid)
  }

  function Changed(r: Server, e: Event): Server
    requires e.Update?
  {
    Server(if e.newProtocol.Some? then e.newProtocol.value else r.protocol,
           if e.clearVia then None else if e.via.Some? then e.via else r.via,
           r.deleted)
  }

  ghost function Apply(rows: Servers, e: Event): Servers {
    if !Accepted(rows, e) then rows
    else match e
      case Create(uid, protocol, via) => rows[uid := Server(protocol, via, false)]
      case Update(uid, _, _, _) => rows[uid := Changed(rows[uid], e)]
      case Delete(uid) => rows[uid := rows[uid].(deleted := true)]
  }

  /** Foreign key, no nil uid, no cycle. */
  ghost predicate Inv(rows: Servers) {
    && NIL_UID !in rows
    && (forall u :: u in rows && rows[u].via.Some? ==> rows[u].via.value in rows)
    && Acyclic(rows)
  }

  /** The row of `uid` gets a reference that validation accepted. */
  lemma AcceptedEdge(rows: Servers, rows': Servers, uid: Uid, self: Uid, via: Uid)
    requires Inv(rows) && Decides(rows, self, via, Ok) && (self == uid || (self == NIL_UID && uid !in rows))
    requires uid != NIL_UID
    requires SameBut(rows, rows', uid) && uid in rows' && rows'[uid].via == Some(via)
    ensures Acyclic(rows') && via in rows
  {
    AcceptsExactlyGoodChains(rows, self, via);
    var p :| GoodChain(rows, self, p) && p[0] == via;
    assert Bastion(rows, p[0]);
    forall i | 0 <= i < |p| ensures p[i] != uid {
      assert Bastion(rows, p[i]) && !IsSelf(self, p[i]);
    }
    forall n: nat | n > 0 ensures Walk(rows', uid, n) != Some(uid) {
      ChainAvoidsSelf(rows, rows', uid, p, 0, n - 1);
    }
    NewEdgeKeepsAcyclic(rows, rows', uid);
  }

  lemma NoEdge(rows: Servers, rows': Servers, uid: Uid)
    requires Acyclic(rows) && SameBut(rows, rows', uid) && (uid in rows' ==> rows'[uid].via == None)
    ensures Acyclic(rows')
  {
    forall n: nat | n > 0 ensures Walk(rows', uid, n) != Some(uid) {
    }
    NewEdgeKeepsAcyclic(rows, rows', uid);
  }

  lemma {:induction false} WalkUnchanged(rows: Servers, rows': Servers, u: Uid, n: nat)
    requires forall x :: (x in rows <==> x in rows') && (x in rows ==> rows[x].via == rows'[x].via)
    ensures Walk(rows', u, n) == Walk(rows, u, n)
    decreases n
  {
    if n > 0 && u in rows && rows[u].via.Some? {
      WalkUnchanged(rows, rows', rows[u].via.value, n - 1);
    }
  }

  lemma ApplyKeepsAcyclic(rows: Servers, e: Event)
    requires Inv(rows) && Enabled(rows, e)
    ensures Acyclic(Apply(rows, e))
    ensures Accepted(rows, e) && !e.Delete? && e.via.Some? ==> e.via.value in rows
  {
    var rows' := Apply(rows, e);
    if Accepted(rows, e) {
      match e
      case Create(uid, _, via) =>
        if via.Some? { AcceptedEdge(rows, rows', uid, NIL_UID, via.value); } else { NoEdge(rows, rows', uid); }
      case Update(uid, _, via, clearVia) =>
        if via.Some? {
          AcceptedEdge(rows, rows[uid := rows[uid].(via := via)], uid, uid, via.value);
        }
        if clearVia {
          NoEdge(rows, rows', uid);
        } else if via.Some? {
          AcceptedEdge(rows, rows', uid, uid, via.value);
        } else {
          forall u: Uid, n: nat | n > 0 ensures Walk(rows', u, n) != Some(u) { WalkUnchanged(rows, rows', u, n); }
        }
      case Delete(_) =>
        forall u: Uid, n: nat | n > 0 ensures Walk(rows', u, n) != Some(u) { WalkUnchanged(rows, rows', u, n); }
    }
  }

  // ---------------------------------------------------------------- what the verdicts and the writes mean

  /** The server `n` references on from `via` is there and not deleted. */
  predicate Stands(rows: Servers, via: Uid, n: nat) {
    && Walk(rows, via, n).Some? && Walk(rows, via, n).value in rows
    && rows[Walk(rows, via, n).value].deleted == false
  }

  /** Server `n` on the way is a live SSH server. */
  predicate Dials(rows: Servers, via: Uid, n: nat) {
    Stands(rows, via, n) && rows[Walk(rows, via, n).value].protocol == "ssh"
  }

  /**
   Whatever is decided is true of the walk: accepted, it passes live SSH servers other than self and
   ends in a direct dial; not found, it comes to a server that is missing or deleted; not SSH, to a
   live one of another protocol; a cycle, back to self or to a server it has passed.
   */
  lemma VerdictMeans(rows: Servers, self: Uid, via: Uid, v: Verdict) returns (n: nat)
    requires Decides(rows, self, via, v)
    ensures Walk(rows, via, n).Some? && forall i :: 0 <= i < n ==> Dials(rows, via, i)
    ensures v == Ok ==> Dials(rows, via, n) && rows[Walk(rows, via, n).value].via == None
    ensures v == Ok && self != 0 ==> forall i :: 0 <= i <= n ==> Walk(rows, via, i) != Some(self)
    ensures v == NotFound ==> !Stands(rows, via, n)
    ensures v == NotSsh ==> Stands(rows, via, n) && rows[Walk(rows, via, n).value].protocol != "ssh"
    ensures v == Cycle ==> || (self != 0 && Walk(rows, via, n) == Some(self))
                           || exists i :: 0 <= i < n && Walk(rows, via, i) == Walk(rows, via, n)
  {
    var p :| Trail(rows, self, via, p) && Judge(rows, self, p) == Some(v);
    n := |p| - 1;
    forall i | 0 <= i <= n ensures Walk(rows, via, i) == Some(p[i]) {
      WalkAlongTrail(rows, self, via, p, 0, i);
    }
    forall i | 0 <= i < n ensures Dials(rows, via, i) && !IsSelf(self, p[i]) {
      assert Passes(rows, self, p, i);
    }
    if p[n] in p[..n] {
      var i :| 0 <= i < n && p[i] == p[n];
      assert Walk(rows, via, i) == Walk(rows, via, n);
    }
  }

  /** A create stores what it was given; an update changes what it names; a delete only marks the row. */
  lemma WritesMean(rows: Servers, e: Event)
    requires Accepted(rows, e)
    ensures e.Create? ==> Apply(rows, e) == rows[e.uid := Server(e.protocol, e.via, false)]
    ensures e.Delete? ==> && e.uid in rows && !rows[e.uid].deleted
                          && Apply(rows, e) == rows[e.uid := Server(rows[e.uid].protocol, rows[e.uid].via, true)]
    ensures e.Update? ==>
              && e.uid in rows && !rows[e.uid].deleted && e.uid in Apply(rows, e)
              && Apply(rows, e) == rows[e.uid := Apply(rows, e)[e.uid]]
              && var was, now := rows[e.uid], Apply(rows, e)[e.uid];
                 && !now.deleted
                 && (e.newProtocol.Some? ==> now.protocol == e.newProtocol.value)
                 && (e.newProtocol.None? ==> now.protocol == was.protocol)
                 && (e.clearVia ==> now.via == None)
                 && (!e.clearVia && e.via.Some? ==> now.via == e.via)
                 && (!e.clearVia && e.via.None? ==> now.via == was.via)
  {
  }

  /** What is not accepted changes nothing: a bad reference, or a row that is missing or deleted. */
  lemma AcceptedIff(rows: Servers, e: Event)
    ensures Accepted(rows, e) <==>
            && (!e.Create? ==> e.uid in rows && rows[e.uid].deleted == false)
            && (!e.Delete? && e.via.Some? ==>
                  exists p :: GoodChain(rows, if e.Create? then 0 else e.uid, p) && p[0] == e.via.value)
    ensures !Accepted(rows, e) ==> Apply(rows, e) == rows
  {
    if !e.Delete? && e.via.Some? {
      AcceptsExactlyGoodChains(rows, if e.Create? then 0 else e.uid, e.via.value);
    }
  }

  ghost function Run(rows: Servers, es: seq<Event>): Servers
    decreases |es|
  {
    if es == [] then rows else Run(Apply(rows, es[0]), es[1..])
  }

  ghost predicate AllEnabled(rows: Servers, es: seq<Event>)
    decreases |es|
  {
    es == [] || (Enabled(rows, es[0]) && AllEnabled(Apply(rows, es[0]), es[1..]))
  }

  /** Every table reachable by creates, updates and deletes is acyclic. */
  lemma {:induction false} RunKeepsAcyclic(rows: Servers, es: seq<Event>)
    requires Inv(rows) && AllEnabled(rows, es)
    ensures Inv(Run(rows, es))
    decreases |es|
  {
    if es != [] {
      ApplyKeepsAcyclic(rows, es[0]);
      RunKeepsAcyclic(Apply(rows, es[0]), es[1..]);
    }
  }

  /** So, from an empty table, the "seen twice" branch is dead code in every reachable state. */
  lemma SeenTwiceIsDead(es: seq<Event>, self: Uid, via: Uid, p: seq<Uid>)
    requires AllEnabled(map[], es) && Trail(Run(map[], es), self, via, p)
    ensures p[|p| - 1] !in p[..|p| - 1]
  {
    RunKeepsAcyclic(map[], es);
    NeverSeenTwice(Run(map[], es), self, via, p);
  }

  // ---------------------------------------------------------------- the store

  class Store {
    var rows: Servers

    constructor ()
      ensures rows == map[]
    {
      rows := map[];
    }

    /** Terminates on every table: each turn sees one more of its rows. */
    method ValidateViaUID(self: Uid, via: Uid) returns (v: Verdict)
      ensures Decides(rows, self, via, v)
    {
      var seen: set<Uid> := {};
      var cur := via;
      ghost var p := [via];
      while true
        invariant Trail(rows, self, via, p) && p[|p| - 1] == cur
        invariant seen <= rows.Keys && forall u :: u in seen <==> u in p[..|p| - 1]
        decreases rows.Keys - seen
      {
        ghost var before := seen;
        if self != NIL_UID && cur == self {
          assert Judge(rows, self, p) == Some(Cycle);
          return Cycle;
        }
        if cur in seen {
          assert Judge(rows, self, p) == Some(Cycle);
          return Cycle;
        }
        seen := seen + {cur};
        if cur !in rows || rows[cur].deleted {
          assert Judge(rows, self, p) == Some(NotFound);
          return NotFound;
        }
        if rows[cur].protocol != SSH {
          assert Judge(rows, self, p) == Some(NotSsh);
          return NotSsh;
        }
        if rows[cur].via.None? {
          assert Judge(rows, self, p) == Some(Ok);
          return Ok;
        }
        ghost var q := p + [rows[cur].via.value];
        forall i | 0 <= i < |q| - 1 ensures Passes(rows, self, q, i) {
          assert q[..i] == p[..i];
          if i < |p| - 1 {
            assert Passes(rows, self, p, i);
          }
        }
        assert q[..|q| - 1] == p == p[..|p| - 1] + [cur];
        p := q;
        cur := rows[cur].via.value;
        assert cur !in before || cur in seen;
      }
    }

    method CreateServer(uid: Uid, protocol: string, via: Option<Uid>) returns (r: Result)
      requires Enabled(rows, Create(uid, protocol, via))
      modifies this
      ensures rows == Apply(old(rows), Create(uid, protocol, via))
      ensures r.Saved? <==> Accepted(old(rows), Create(uid, protocol, via))
      ensures r.Rejected? ==> via.Some? && Decides(old(rows), NIL_UID, via.value, r.verdict)
    {
      if via.Some? {
        var v := ValidateViaUID(NIL_UID, via.value);
        if v != Ok {
          NotAccepted(rows, NIL_UID, via.value, v);
          return Rejected(v);
        }
      }
      rows := rows[uid := Server(protocol, via, false)];
      return Saved;
    }

    method UpdateServer(uid: Uid, protocol: Option<string>, via: Option<Uid>, clearVia: bool) returns (r: Result)
      modifies this
      ensures rows == Apply(old(rows), Update(uid, protocol, via, clearVia))
      ensures r.Saved? <==> Accepted(old(rows), Update(uid, protocol, via, clearVia))
      ensures r.Rejected? ==> r.verdict == NotFound || (via.Some? && Decides(old(rows), uid, via.value, r.verdict))
    {
      if via.Some? {
        var v := ValidateViaUID(uid, via.value);
        if v != Ok {
          NotAccepted(rows, uid, via.value, v);
          return Rejected(v);
        }
      }
      if uid !in rows || rows[uid].deleted {
        return Rejected(NotFound);
      }
      rows := rows[uid := Changed(rows[uid], Update(uid, protocol, via, clearVia))];
      return Saved;
    }

    method DeleteServer(uid: Uid) returns (r: Result)
      modifies this
      ensures rows == Apply(old(rows), Delete(uid))
      ensures r.Saved? <==> Accepted(old(rows), Delete(uid))
    {
      if uid !in rows || rows[uid].deleted {
        return Rejected(NotFound);
      }
      rows := rows[uid := rows[uid].(deleted := true)];
      return Saved;
    }
  }

  lemma NotAccepted(rows: Servers, self: Uid, via: Uid, v: Verdict)
    requires Decides(rows, self, via, v) && v != Ok
    ensures !Decides(rows, self, via, Ok)
  {
    if Decides(rows, self, via, Ok) {
      VerdictIsUnique(rows, self, via, v, Ok);
    }
  }
}
