/**
 Scope when handlers overlap: a request is checked against its definition's groups and databases
 in one statement and approved in a later transaction. That a grant is within its definition's
 scope when it is created holds exactly when stated.
 */
module GrantScope {
  import opened Common
  import opened GrantRequests
  import opened GrantRace

  predicate NewlyApproved(s: State, t: State, u: Uid) {
    && u in t.requests && t.requests[u].status == Approved
    && (u in s.requests ==> s.requests[u].status != Approved)
  }

  /** What is approved from `s` to `t` is within its definition's scope as it then stands. */
  ghost predicate BornInScope(s: State, t: State) {
    forall u :: NewlyApproved(s, t, u) ==> RequestInScope(t, u)
  }

  predicate RequestInScope(s: State, u: Uid) {
    u in s.requests && InScope(s, s.requests[u].definition, s.requests[u].user, s.requests[u].database)
  }

  /** The transaction goes through. */
  predicate Approvable(s: State, u: Uid) {
    && u in s.requests && s.requests[u].status == Pending
    && s.requests[u].definition in s.definitions && s.definitions[s.requests[u].definition].isActive
  }

  /** A transaction that goes through comes while its request is in scope. */
  predicate ApprovesInScope(s: RaceState, x: Statement)
    requires StatementEnabled(s, x)
  {
    x.RunTx? && Approvable(s.db, s.calls[x.c].uid) ==> RequestInScope(s.db, s.calls[x.c].uid)
  }

  lemma TxBornInScopeIff(s: State, uid: Uid, grant: Uid, decidedBy: Option<Uid>, grantedBy: Uid, now: int)
    ensures BornInScope(s, ApproveTx(s, uid, decidedBy, grantedBy, grant, now).0)
            <==> (Approvable(s, uid) ==> RequestInScope(s, uid))
  {
    var t := ApproveTx(s, uid, decidedBy, grantedBy, grant, now).0;
    if Approvable(s, uid) {
      assert NewlyApproved(s, t, uid);
      assert RequestInScope(t, uid) <==> RequestInScope(s, uid);
      assert forall u :: NewlyApproved(s, t, u) ==> u == uid;
    } else {
      assert t == s;
    }
  }

  lemma NextBornInScopeIff(s: RaceState, x: Statement)
    requires Core(s.db) && StatementEnabled(s, x)
    ensures BornInScope(s.db, Next(s, x).db) <==> ApprovesInScope(s, x)
  {
    match x
    case Check(_, _) =>
    case Insert(_) =>
    case CheckScope(_, _, _) =>
    case RunTx(c, grant, now) =>
      TxBornInScopeIff(s.db, s.calls[c].uid, grant, s.calls[c].decidedBy, s.calls[c].grantedBy, now);
    case Whole(e) =>
      forall u ensures !NewlyApproved(s.db, Apply(s.db, e), u) {
        ApplyRequest(s.db, e, u);
      }
  }

  predicate AllApproveInScope(s: RaceState, xs: seq<Statement>)
    requires AllEnabled(s, xs)
    decreases |xs|
  {
    xs == [] || (ApprovesInScope(s, xs[0]) && AllApproveInScope(Next(s, xs[0]), xs[1..]))
  }

  ghost predicate AllBornInScope(s: RaceState, xs: seq<Statement>)
    requires AllEnabled(s, xs)
    decreases |xs|
  {
    xs == [] || (BornInScope(s.db, Next(s, xs[0]).db) && AllBornInScope(Next(s, xs[0]), xs[1..]))
  }

  /**
   The scope check is there so that no grant is created that the current policy does not allow.
   Over a run of overlapping handlers this holds if and only if every request is in scope when its
   approval transaction runs: the check alone, made earlier, does not ensure it.
   */
  lemma {:induction false} AllBornInScopeIff(s: RaceState, xs: seq<Statement>)
    requires Core(s.db) && FilingOk(s) && AllEnabled(s, xs)
    ensures AllBornInScope(s, xs) <==> AllApproveInScope(s, xs)
    decreases |xs|
  {
    if xs != [] {
      NextKeepsCore(s, xs[0]);
      NextBornInScopeIff(s, xs[0]);
      AllBornInScopeIff(Next(s, xs[0]), xs[1..]);
    }
  }

  /** No group but `g` brings the user into the definition's scope. */
  predicate OnlyThrough(s: State, d: Uid, user: Uid, g: Uid) {
    && d in s.definitions
    && var wanted := s.definitions[d].groupUids;
       wanted != [] && forall x :: x in wanted && x in GroupsOf(s, user) ==> x == g
  }

  /** The event takes the user, who is in scope, out of it. */
  predicate Takes(s: State, e: Event, d: Uid, user: Uid, database: Uid) {
    && d in s.definitions
    && match e
       case EditDefinition(uid, def) => uid == d && !AppliesTo(def, GroupsOf(s, user), database)
       case DeleteGroup(g) => g in s.groups && OnlyThrough(s, d, user, g)
       case RemoveMember(g, u) => u == user && OnlyThrough(s, d, user, g)
       case SetGroupMembers(g, users) =>
         (g in s.groups || users == []) && user !in users && OnlyThrough(s, d, user, g)
       case SetUserGroups(u, list) =>
         && u == user && (forall g :: g in list ==> g in s.groups)
         && s.definitions[d].groupUids != [] && forall g :: g in s.definitions[d].groupUids ==> g !in list
       case _ => false
  }

  /** What each event does to the groups of a user. */
  function GroupsNext(s: State, e: Event, user: Uid): set<Uid> {
    match e
    case DeleteGroup(g) => if g in s.groups then GroupsOf(s, user) - {g} else GroupsOf(s, user)
    case AddMember(g, u) => if u == user && g in s.groups then GroupsOf(s, user) + {g} else GroupsOf(s, user)
    case RemoveMember(g, u) => if u == user then GroupsOf(s, user) - {g} else GroupsOf(s, user)
    case SetGroupMembers(g, users) =>
      if g !in s.groups && users != [] then GroupsOf(s, user)
      else if user in users then GroupsOf(s, user) + {g}
      else GroupsOf(s, user) - {g}
    case SetUserGroups(u, list) =>
      if u == user && forall g :: g in list ==> g in s.groups then set g | g in list else GroupsOf(s, user)
    case _ => GroupsOf(s, user)
  }

  lemma GroupsStep(s: State, e: Event, user: Uid)
    requires Enabled(s, e) && !WritesRequests(e)
    ensures GroupsOf(Apply(s, e), user) == GroupsNext(s, e, user)
  {
    var t := Apply(s, e);
    forall g ensures g in GroupsOf(t, user) <==> g in GroupsNext(s, e, user) {
      assert g in GroupsOf(t, user) <==> (g, user) in t.members;
      assert g in GroupsOf(s, user) <==> (g, user) in s.members;
    }
  }

  /** An event takes a user out of scope exactly as `Takes` says. */
  lemma ScopeStepIff(s: State, e: Event, d: Uid, user: Uid, database: Uid)
    requires Enabled(s, e) && !e.Create? && !e.Approve? && InScope(s, d, user, database)
    ensures InScope(Apply(s, e), d, user, database) <==> !Takes(s, e, d, user, database)
  {
    if WritesRequests(e) {
      assert Apply(s, e).members == s.members;
    } else {
      GroupsStep(s, e, user);
      ScopeByGroupsIff(s, e, d, user, database);
    }
  }

  lemma ScopeByGroupsIff(s: State, e: Event, d: Uid, user: Uid, database: Uid)
    requires !WritesRequests(e) && InScope(s, d, user, database)
    ensures AppliesTo(if Edits(e, d) then e.def else s.definitions[d], GroupsNext(s, e, user), database)
            <==> !Takes(s, e, d, user, database)
  {
    var wanted, owned := s.definitions[d].groupUids, GroupsOf(s, user);
    if wanted != [] {
      var g :| g in wanted && g in owned;
      assert forall x :: OnlyThrough(s, d, user, x) ==> g == x;
    }
  }

  /** No statement of the run takes the user out of scope. */
  predicate NoneTakes(s: RaceState, xs: seq<Statement>, d: Uid, user: Uid, database: Uid)
    requires AllEnabled(s, xs)
    decreases |xs|
  {
    || xs == []
    || (&& (xs[0].Whole? ==> !Takes(s.db, xs[0].e, d, user, database))
        && NoneTakes(Next(s, xs[0]), xs[1..], d, user, database))
  }

  lemma NextKeepsScope(s: RaceState, x: Statement, d: Uid, user: Uid, database: Uid)
    requires StatementEnabled(s, x) && InScope(s.db, d, user, database)
    requires x.Whole? ==> !Takes(s.db, x.e, d, user, database)
    ensures InScope(Next(s, x).db, d, user, database)
  {
    if x.Whole? {
      ScopeStepIff(s.db, x.e, d, user, database);
    }
  }

  lemma {:induction false} ScopeSurvives(s: RaceState, xs: seq<Statement>, d: Uid, user: Uid, database: Uid)
    requires AllEnabled(s, xs) && InScope(s.db, d, user, database) && NoneTakes(s, xs, d, user, database)
    ensures InScope(Final(s, xs).db, d, user, database)
    decreases |xs|
  {
    if xs != [] {
      NextKeepsScope(s, xs[0], d, user, database);
      ScopeSurvives(Next(s, xs[0]), xs[1..], d, user, database);
    }
  }

  lemma NextKeepsRequest(s: RaceState, x: Statement, u: Uid)
    requires Core(s.db) && StatementEnabled(s, x) && u in s.db.requests
    ensures u in Next(s, x).db.requests
    ensures var r := s.db.requests[u];
            Same(Next(s, x).db.requests[u], r.user, r.definition, r.database)
  {
    if x.Whole? {
      ApplyRequest(s.db, x.e, u);
    }
  }

  lemma {:induction false} OverlapKeepsRequest(s: RaceState, xs: seq<Statement>, u: Uid)
    requires Core(s.db) && FilingOk(s) && AllEnabled(s, xs) && u in s.db.requests
    ensures u in Final(s, xs).db.requests
    ensures var r := s.db.requests[u];
            Same(Final(s, xs).db.requests[u], r.user, r.definition, r.database)
    decreases |xs|
  {
    if xs != [] {
      NextKeepsCore(s, xs[0]);
      NextKeepsRequest(s, xs[0], u);
      OverlapKeepsRequest(Next(s, xs[0]), xs[1..], u);
    }
  }

  /**
   An approve handler that passes its scope check, and whose user no statement takes out of scope
   before the transaction, approves in scope.
   */
  lemma QuietApprovalIsInScope(s: RaceState, c: nat, uid: Uid, decider: Uid, xs: seq<Statement>, grant: Uid, now: int)
    requires Core(s.db) && FilingOk(s) && c !in s.calls && uid in s.db.requests
    requires PassesScope(s.db, uid) && AllEnabled(Next(s, CheckScope(c, uid, decider)), xs)
    requires var r := s.db.requests[uid];
             NoneTakes(Next(s, CheckScope(c, uid, decider)), xs, r.definition, r.user, r.database)
    requires var t := Final(Next(s, CheckScope(c, uid, decider)), xs);
             StatementEnabled(t, RunTx(c, grant, now)) && t.calls[c].uid == uid
    ensures ApprovesInScope(Final(Next(s, CheckScope(c, uid, decider)), xs), RunTx(c, grant, now))
  {
    var r, t := s.db.requests[uid], Next(s, CheckScope(c, uid, decider));
    assert RequestOk(s.db, r);
    OverlapKeepsRequest(t, xs, uid);
    ScopeSurvives(t, xs, r.definition, r.user, r.database);
  }

  /** The same for a request that is filed and approved automatically, from the create handler's checks on. */
  lemma QuietFilingIsInScope(s: RaceState, c: nat, op: Event, xs: seq<Statement>, ys: seq<Statement>,
                             grant: Uid, now: int)
    requires Core(s.db) && FilingOk(s) && c !in s.calls && op.Create? && WhyNotCreate(s.db, op).None?
    requires AllEnabled(Next(s, Check(c, op)), xs)
    requires NoneTakes(Next(s, Check(c, op)), xs, op.definition, op.user, op.database)
    requires var t := Final(Next(s, Check(c, op)), xs);
             && StatementEnabled(t, Insert(c)) && t.calls[c].op == op
             && AllEnabled(Next(t, Insert(c)), ys)
             && NoneTakes(Next(t, Insert(c)), ys, op.definition, op.user, op.database)
             && var u := Final(Next(t, Insert(c)), ys);
                StatementEnabled(u, RunTx(c, grant, now)) && u.calls[c].uid == op.uid
    ensures var t := Final(Next(s, Check(c, op)), xs);
            ApprovesInScope(Final(Next(t, Insert(c)), ys), RunTx(c, grant, now))
  {
    var checked := Next(s, Check(c, op));
    var t := Final(checked, xs);
    NextKeepsCore(s, Check(c, op));
    OverlapKeepsCore(checked, xs);
    ScopeSurvives(checked, xs, op.definition, op.user, op.database);
    NextKeepsCore(t, Insert(c));
    OverlapKeepsRequest(Next(t, Insert(c)), ys, op.uid);
    NextKeepsScope(t, Insert(c), op.definition, op.user, op.database);
    ScopeSurvives(Next(t, Insert(c)), ys, op.definition, op.user, op.database);
  }

  const SCOPED_DEFINITION := OPEN_DEFINITION.(groupUids := [3])

  const WAITING :=
    State(map[1 := SCOPED_DEFINITION], map[10 := Request(5, 1, 7, "", Pending, None, None, None, None)],
          map[], {3}, {3}, {(3, 5)}, map[7 := Server(false, false)])

  lemma BornFrom(s: RaceState, x: Statement, t: RaceState, xs: seq<Statement>)
    requires StatementEnabled(s, x) && t == Next(s, x) && AllEnabled(t, xs)
    ensures AllEnabled(s, [x] + xs)
    ensures AllBornInScope(s, [x] + xs) <==> BornInScope(s.db, t.db) && AllBornInScope(t, xs)
  {
    assert ([x] + xs)[1..] == xs;
  }

  lemma WaitingInScope()
    ensures Inv(WAITING) && PassesScope(WAITING, 10)
  {
    assert (3, 5) in WAITING.members;
    assert 3 in GroupsOf(WAITING, 5);
  }

  /** With nobody left in the group, the transaction creates a grant out of scope. */
  lemma GrantedToNobody(s: RaceState)
    requires s == RaceState(WAITING.(members := {}), map[1 := Approving(10, Some(9), 9)])
    ensures AllEnabled(s, [RunTx(1, 20, 0)]) && !AllBornInScope(s, [RunTx(1, 20, 0)])
  {
    assert GroupsOf(s.db, 5) == {};
    TxBornInScopeIff(s.db, 10, 20, Some(9), 9, 0);
  }

  /** The user leaves the group between the scope check and the transaction, and gets the grant. */
  lemma ApprovedOutOfScope() returns (xs: seq<Statement>)
    ensures Inv(WAITING) && AllEnabled(RaceState(WAITING, map[]), xs) && !AllBornInScope(RaceState(WAITING, map[]), xs)
  {
    var call := Approving(10, Some(9), 9);
    var s0, s1 := RaceState(WAITING, map[]), RaceState(WAITING, map[1 := call]);
    var s2 := RaceState(WAITING.(members := {}), map[1 := call]);
    xs := [RunTx(1, 20, 0)];
    GrantedToNobody(s2);
    BornFrom(s1, Whole(RemoveMember(3, 5)), s2, xs);
    WaitingInScope();
    BornFrom(s0, CheckScope(1, 10, 9), s1, [Whole(RemoveMember(3, 5))] + xs);
    xs := [CheckScope(1, 10, 9)] + ([Whole(RemoveMember(3, 5))] + xs);
  }
}
