/**
 Filing and approving a request when handlers overlap. The create handler makes its checks and
 inserts the request in separate statements, the approve handler checks the scope and then runs
 the approval transaction, and so does an automatic approval after the insert. What the
 transactions protect holds in every interleaving. That no two pending requests are alike holds
 exactly when stated.
 */
module GrantRace {
  import opened Common
  import opened GrantRequests

  /** A handler past its checks: about to insert, or about to run the approval transaction. */
  datatype Handler =
    | Filing(op: Event, auto: bool)
    | Approving(uid: Uid, decidedBy: Option<Uid>, grantedBy: Uid)

  datatype RaceState = RaceState(db: State, calls: map<nat, Handler>)

  datatype Statement =
    | Check(c: nat, op: Event)
    | Insert(c: nat)
    | CheckScope(c: nat, uid: Uid, decider: Uid)
    | RunTx(c: nat, grant: Uid, now: int)
    | Whole(e: Event)

  predicate StatementEnabled(s: RaceState, x: Statement) {
    match x
    case Check(c, op) => c !in s.calls && op.Create?
    case Insert(c) =>
      c in s.calls && s.calls[c].Filing? && s.calls[c].op.Create? && s.calls[c].op.uid !in s.db.requests
    case CheckScope(c, _, _) => c !in s.calls
    case RunTx(c, grant, _) => c in s.calls && s.calls[c].Approving? && grant !in s.db.grants
    case Whole(e) => Enabled(s.db, e) && !e.Create? && !e.Approve?
  }

  /** A missing request or definition is left to the transaction to report. */
  predicate PassesScope(s: State, uid: Uid) {
    (uid in s.requests && s.requests[uid].definition in s.definitions)
    ==> InScope(s, s.requests[uid].definition, s.requests[uid].user, s.requests[uid].database)
  }

  function Next(s: RaceState, x: Statement): RaceState
    requires StatementEnabled(s, x)
  {
    match x
    case Check(c, op) =>
      if WhyNotCreate(s.db, op).None?
      then s.(calls := s.calls[c := Filing(op, s.db.definitions[op.definition].autoApprove)])
      else s
    case Insert(c) =>
      var k := s.calls[c];
      RaceState(Filed(s.db, k.op),
                if k.auto then s.calls[c := Approving(k.op.uid, None, k.op.user)] else s.calls - {c})
    case CheckScope(c, uid, decider) =>
      if PassesScope(s.db, uid) then s.(calls := s.calls[c := Approving(uid, Some(decider), decider)]) else s
    case RunTx(c, grant, now) =>
      var k := s.calls[c];
      RaceState(ApproveTx(s.db, k.uid, k.decidedBy, k.grantedBy, grant, now).0, s.calls - {c})
    case Whole(e) => s.(db := Apply(s.db, e))
  }

  // ---------------------------------------------------------------- what the transactions protect

  ghost predicate FilingOk(s: RaceState) {
    forall c :: c in s.calls && s.calls[c].Filing? ==>
                  s.calls[c].op.Create? && s.calls[c].op.definition in s.db.definitions
  }

  lemma TxKeepsCore(s: State, uid: Uid, grant: Uid, decidedBy: Option<Uid>, grantedBy: Uid, now: int)
    requires Core(s) && grant !in s.grants
    ensures Core(ApproveTx(s, uid, decidedBy, grantedBy, grant, now).0)
  {
    var t := ApproveTx(s, uid, decidedBy, grantedBy, grant, now).0;
    forall u | u in t.requests ensures RequestOk(t, t.requests[u]) {
      assert RequestOk(s, s.requests[u]);
    }
    forall u, v | u in t.requests && v in t.requests && t.requests[u].grant.Some?
                  && t.requests[u].grant == t.requests[v].grant
      ensures u == v
    {
      assert RequestOk(s, s.requests[u]) && RequestOk(s, s.requests[v]);
    }
  }

  lemma FilingKeepsCore(s: State, e: Event)
    requires Core(s) && e.Create? && e.uid !in s.requests && e.definition in s.definitions
    ensures Core(Filed(s, e))
  {
    var t := Filed(s, e);
    forall u | u in t.requests ensures RequestOk(t, t.requests[u]) {
      if u in s.requests {
        assert RequestOk(s, s.requests[u]);
      }
    }
  }

  lemma NextKeepsCore(s: RaceState, x: Statement)
    requires Core(s.db) && FilingOk(s) && StatementEnabled(s, x)
    ensures Core(Next(s, x).db) && FilingOk(Next(s, x))
  {
    match x
    case Check(_, _) =>
    case Insert(c) => FilingKeepsCore(s.db, s.calls[c].op);
    case CheckScope(_, _, _) =>
    case RunTx(c, grant, now) =>
      TxKeepsCore(s.db, s.calls[c].uid, grant, s.calls[c].decidedBy, s.calls[c].grantedBy, now);
    case Whole(e) =>
      ApplyKeepsCore(s.db, e);
      DefinitionsStay(s.db, e);
  }

  lemma DefinitionsStay(s: State, e: Event)
    requires Enabled(s, e) && !e.Create? && !e.Approve?
    ensures s.definitions.Keys <= Apply(s, e).definitions.Keys
  {
    if !WritesRequests(e) {
      OtherEventsLeaveRequests(s, e);
    }
  }

  // ---------------------------------------------------------------- runs

  predicate AllEnabled(s: RaceState, xs: seq<Statement>)
    decreases |xs|
  {
    xs == [] || (StatementEnabled(s, xs[0]) && AllEnabled(Next(s, xs[0]), xs[1..]))
  }

  function Final(s: RaceState, xs: seq<Statement>): RaceState
    requires AllEnabled(s, xs)
    decreases |xs|
  {
    if xs == [] then s else Final(Next(s, xs[0]), xs[1..])
  }

  /** However handlers overlap: approved exactly with a grant of its own, for its user and database. */
  lemma {:induction false} OverlapKeepsCore(s: RaceState, xs: seq<Statement>)
    requires Core(s.db) && FilingOk(s) && AllEnabled(s, xs)
    ensures Core(Final(s, xs).db) && FilingOk(Final(s, xs))
    decreases |xs|
  {
    if xs != [] {
      NextKeepsCore(s, xs[0]);
      OverlapKeepsCore(Next(s, xs[0]), xs[1..]);
    }
  }

  predicate Decided(s: State, u: Uid) {
    u in s.requests && s.requests[u].status != Pending
  }

  lemma NextKeepsDecided(s: RaceState, x: Statement, u: Uid)
    requires Core(s.db) && StatementEnabled(s, x) && Decided(s.db, u)
    ensures u in Next(s, x).db.requests && Next(s, x).db.requests[u] == s.db.requests[u]
  {
    if x.Whole? {
      ApplyRequest(s.db, x.e, u);
    }
  }

  /** And a decided request never changes again. */
  lemma {:induction false} OverlapKeepsDecided(s: RaceState, xs: seq<Statement>, u: Uid)
    requires Core(s.db) && FilingOk(s) && AllEnabled(s, xs) && Decided(s.db, u)
    ensures u in Final(s, xs).db.requests && Final(s, xs).db.requests[u] == s.db.requests[u]
    decreases |xs|
  {
    if xs != [] {
      NextKeepsCore(s, xs[0]);
      NextKeepsDecided(s, xs[0], u);
      OverlapKeepsDecided(Next(s, xs[0]), xs[1..], u);
    }
  }

  /** Without interruption the create handler's statements are the handler in one step. */
  lemma SerialCreateIsOneStep(s: RaceState, c: nat, op: Event)
    requires c !in s.calls && op.Create? && Enabled(s.db, op)
    ensures var t := Next(s, Check(c, op));
            if Handle(s.db, op).1 != Done then t == s
            else && StatementEnabled(t, Insert(c))
                 && var u := Next(t, Insert(c));
                    if s.db.definitions[op.definition].autoApprove
                    then && StatementEnabled(u, RunTx(c, op.grant, op.now))
                         && Next(u, RunTx(c, op.grant, op.now)) == s.(db := Apply(s.db, op))
                    else u == s.(db := Apply(s.db, op))
  {
    var t := Next(s, Check(c, op));
    CreateIsJudged(s.db, op);
    CreateMeans(s.db, op);
    assert s.calls[c := Filing(op, false)] - {c} == s.calls;
    if WhyNotCreate(s.db, op).None? {
      var u := Next(t, Insert(c));
      assert u.calls - {c} == s.calls;
    }
  }

  /** And so are the approve handler's. */
  lemma SerialApproveIsOneStep(s: RaceState, c: nat, e: Event)
    requires c !in s.calls && e.Approve? && Enabled(s.db, e)
    ensures var t := Next(s, CheckScope(c, e.uid, e.decider));
            if c in t.calls
            then && StatementEnabled(t, RunTx(c, e.grant, e.now))
                 && Next(t, RunTx(c, e.grant, e.now)) == s.(db := Apply(s.db, e))
            else t == s && Handle(s.db, e) == (s.db, Rejected(OutOfScope))
  {
    var t := Next(s, CheckScope(c, e.uid, e.decider));
    assert t.calls - {c} == s.calls;
  }

  // ---------------------------------------------------------------- duplicates

  /** Filing a request makes a duplicate exactly when one like it is pending at that moment. */
  lemma FilingKeepsNoDuplicatesIff(s: State, e: Event)
    requires NoDuplicates(s) && e.Create? && e.uid !in s.requests
    ensures NoDuplicates(Filed(s, e)) <==> !HasPending(s, e.user, e.definition, e.database)
  {
    var t := Filed(s, e);
    if HasPending(s, e.user, e.definition, e.database) {
      var u :| u in s.requests && Same(s.requests[u], e.user, e.definition, e.database)
               && s.requests[u].status == Pending;
      assert t.requests[u].status == Pending && t.requests[e.uid].status == Pending;
      assert Same(t.requests[u], t.requests[e.uid].user, t.requests[e.uid].definition, t.requests[e.uid].database);
    }
  }

  /** An insertion comes while nothing like it is pending. */
  predicate InTime(s: RaceState, x: Statement)
    requires StatementEnabled(s, x)
  {
    x.Insert? ==> var op := s.calls[x.c].op; !HasPending(s.db, op.user, op.definition, op.database)
  }

  lemma NextKeepsNoDuplicatesIff(s: RaceState, x: Statement)
    requires Inv(s.db) && StatementEnabled(s, x)
    ensures NoDuplicates(Next(s, x).db) <==> InTime(s, x)
  {
    match x
    case Check(_, _) =>
    case Insert(c) => FilingKeepsNoDuplicatesIff(s.db, s.calls[c].op);
    case CheckScope(_, _, _) =>
    case RunTx(c, grant, now) =>
    case Whole(e) => ApplyKeepsNoDuplicates(s.db, e);
  }

  predicate AllInTime(s: RaceState, xs: seq<Statement>)
    requires AllEnabled(s, xs)
    decreases |xs|
  {
    xs == [] || (InTime(s, xs[0]) && AllInTime(Next(s, xs[0]), xs[1..]))
  }

  ghost predicate NeverDuplicates(s: RaceState, xs: seq<Statement>)
    requires AllEnabled(s, xs)
    decreases |xs|
  {
    NoDuplicates(s.db) && (xs == [] || NeverDuplicates(Next(s, xs[0]), xs[1..]))
  }

  /**
   The handler's check is there so that no user has two pending requests for the same definition
   and database. Over a run of overlapping handlers this holds if and only if every insertion
   still finds none: the check alone, made earlier, does not ensure it.
   */
  lemma {:induction false} NeverDuplicatesIff(s: RaceState, xs: seq<Statement>)
    requires Inv(s.db) && FilingOk(s) && AllEnabled(s, xs)
    ensures NeverDuplicates(s, xs) <==> AllInTime(s, xs)
    decreases |xs|
  {
    if xs != [] {
      NextKeepsCore(s, xs[0]);
      NextKeepsNoDuplicatesIff(s, xs[0]);
      if InTime(s, xs[0]) {
        NeverDuplicatesIff(Next(s, xs[0]), xs[1..]);
      }
    }
  }

  const OPEN_DEFINITION := Definition(3600, [], None, None, false, [], [], true)

  const QUIET := State(map[1 := OPEN_DEFINITION], map[], map[], {}, {}, {}, map[7 := Server(false, false)])

  function Ask(uid: Uid): Event {
    Create(uid, 0, 5, 1, 7, "", 0)
  }

  lemma FilesFrom(s: RaceState, x: Statement, t: RaceState, xs: seq<Statement>)
    requires StatementEnabled(s, x) && t == Next(s, x) && AllEnabled(t, xs) && !NeverDuplicates(t, xs)
    ensures AllEnabled(s, [x] + xs) && !NeverDuplicates(s, [x] + xs)
  {
    assert ([x] + xs)[1..] == xs;
  }

  /** Two overlapping handlers of the same user both find nothing pending, and both file. */
  lemma DuplicatesCanBeFiled() returns (xs: seq<Statement>)
    ensures Inv(QUIET) && AllEnabled(RaceState(QUIET, map[]), xs) && !NeverDuplicates(RaceState(QUIET, map[]), xs)
  {
    var first, second := Filing(Ask(10), false), Filing(Ask(11), false);
    var s0, s1 := RaceState(QUIET, map[]), RaceState(QUIET, map[1 := first]);
    var s2 := RaceState(QUIET, map[1 := first, 2 := second]);
    var s3 := RaceState(Filed(QUIET, Ask(10)), map[2 := second]);
    var s4 := RaceState(Filed(Filed(QUIET, Ask(10)), Ask(11)), map[]);
    assert WhyNotCreate(QUIET, Ask(10)).None? && WhyNotCreate(QUIET, Ask(11)).None?;
    assert s3.db.requests[10].status == Pending;
    assert HasPending(s3.db, 5, 1, 7);
    FilingKeepsNoDuplicatesIff(s3.db, Ask(11));
    FilesFrom(s3, Insert(2), s4, []);
    FilesFrom(s2, Insert(1), s3, [Insert(2)] + []);
    FilesFrom(s1, Check(2, Ask(11)), s2, [Insert(1)] + ([Insert(2)] + []));
    FilesFrom(s0, Check(1, Ask(10)), s1, [Check(2, Ask(11))] + ([Insert(1)] + ([Insert(2)] + [])));
    xs := [Check(1, Ask(10))] + ([Check(2, Ask(11))] + ([Insert(1)] + ([Insert(2)] + [])));
  }
}
