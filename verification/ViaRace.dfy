/**
 The same create, update and delete calls at the granularity of single SQL statements. The walk
 of validation takes one SELECT per server, and the row is written in a statement of its own, so
 other writes can come in between. It is proved exactly when the via graph stays acyclic.
 */
module ViaRace {
  import opened Common
  import opened ViaChain

  /** A call in flight: on its walk, with the servers it has come past; or about to write. */
  datatype Call =
    | Walking(op: Event, p: seq<Uid>)
    | Validated(op: Event)
    | Finished(result: Result)

  datatype State = State(rows: Servers, calls: map<nat, Call>)

  datatype Statement =
    | Begin(c: nat, op: Event)
    | Hop(c: nat)
    | Write(c: nat)

  /** The reference that the call asks for, to be validated. */
  function NewVia(op: Event): Option<Uid> {
    if op.Delete? then None else op.via
  }

  function Self(op: Event): Uid {
    if op.Create? then NIL_UID else op.uid
  }

  // ---------------------------------------------------------------- statements

  /** New uids are random: not nil, and not in the table when the row is inserted. */
  predicate StatementEnabled(s: State, e: Statement) {
    match e
    case Begin(c, op) => c !in s.calls && op.uid != NIL_UID
    case Hop(c) => c in s.calls && s.calls[c].Walking? && s.calls[c].p != []
    case Write(c) => c in s.calls && s.calls[c].Validated? && (s.calls[c].op.Create? ==> s.calls[c].op.uid !in s.rows)
  }

  /** One SELECT of the walk, and what it decides. */
  function Hopped(rows: Servers, op: Event, p: seq<Uid>): Call
    requires p != []
  {
    match Judge(rows, Self(op), p)
    case Some(Ok) => Validated(op)
    case Some(v) => Finished(Rejected(v))
    case None => Walking(op, p + [rows[p[|p| - 1]].via.value])
  }

  /** The INSERT or UPDATE: a missing or deleted row is not updated. */
  function Written(rows: Servers, op: Event): Servers {
    match op
    case Create(uid, protocol, via) => rows[uid := Server(protocol, via, false)]
    case Update(uid, _, _, _) => if Live(rows, uid) then rows[uid := Changed(rows[uid], op)] else rows
    case Delete(uid) => if Live(rows, uid) then rows[uid := rows[uid].(deleted := true)] else rows
  }

  function Next(s: State, e: Statement): State
    requires StatementEnabled(s, e)
  {
    match e
    case Begin(c, op) =>
      s.(calls := s.calls[c := if NewVia(op).Some? then Walking(op, [NewVia(op).value]) else Validated(op)])
    case Hop(c) => s.(calls := s.calls[c := Hopped(s.rows, s.calls[c].op, s.calls[c].p)])
    case Write(c) =>
      var op := s.calls[c].op;
      var done := op.Create? || Live(s.rows, op.uid);
      State(Written(s.rows, op), s.calls[c := Finished(if done then Saved else Rejected(NotFound))])
  }

  // ---------------------------------------------------------------- what holds in between

  /** Foreign keys: a reference that a call is past is to a row, deleted perhaps, but there. */
  predicate CallOk(rows: Servers, k: Call) {
    match k
    case Walking(op, p) =>
      && op.uid != NIL_UID && p != [] && NewVia(op) == Some(p[0]) && (|p| > 1 ==> p[0] in rows)
    case Validated(op) => op.uid != NIL_UID && (NewVia(op).Some? ==> NewVia(op).value in rows)
    case Finished(_) => true
  }

  ghost predicate CallsOk(s: State) {
    forall c :: c in s.calls ==> CallOk(s.rows, s.calls[c])
  }

  ghost predicate RowsOk(rows: Servers) {
    NIL_UID !in rows && forall u :: u in rows && rows[u].via.Some? ==> rows[u].via.value in rows
  }

  lemma NextIsOk(s: State, e: Statement)
    requires RowsOk(s.rows) && CallsOk(s) && StatementEnabled(s, e)
    ensures RowsOk(Next(s, e).rows) && CallsOk(Next(s, e))
  {
    var t := Next(s, e);
    if !e.Begin? {
      assert CallOk(s.rows, s.calls[e.c]);
    }
    forall c | c in t.calls ensures CallOk(t.rows, t.calls[c]) {
      if c in s.calls {
        assert CallOk(s.rows, s.calls[c]);
      }
    }
  }

  // ---------------------------------------------------------------- reachability

  ghost predicate Reaches(rows: Servers, a: Uid, b: Uid) {
    exists n: nat :: Walk(rows, a, n) == Some(b)
  }

  /** The first time a walk comes to `b`. */
  lemma {:induction false} FirstArrival(rows: Servers, a: Uid, b: Uid, n: nat) returns (m: nat)
    requires Walk(rows, a, n) == Some(b)
    ensures m <= n && Walk(rows, a, m) == Some(b) && forall i: nat :: i < m ==> Walk(rows, a, i) != Some(b)
  {
    if i: nat :| i < n && Walk(rows, a, i) == Some(b) {
      m := FirstArrival(rows, a, b, i);
    } else {
      m := n;
    }
  }

  /** Whether a walk comes to `self` does not depend on where it would go from there. */
  lemma ReachesWhatever(rows: Servers, rows': Servers, self: Uid, a: Uid)
    requires SameBut(rows, rows', self) && Reaches(rows, a, self)
    ensures Reaches(rows', a, self)
  {
    var n: nat :| Walk(rows, a, n) == Some(self);
    var m := FirstArrival(rows, a, self, n);
    WalkAvoidingSelf(rows', rows, self, a, m);
  }

  /** A walk that never comes to `self` is the same whatever the row of `self`. */
  lemma SameWalk(rows: Servers, rows': Servers, self: Uid, a: Uid, n: nat)
    requires SameBut(rows, rows', self) && !Reaches(rows, a, self)
    ensures Walk(rows', a, n) == Walk(rows, a, n)
  {
    WalkAvoidingSelf(rows', rows, self, a, n);
  }

  /** The row of `uid` now refers to `via`, and no other row has changed its reference. */
  ghost predicate SetsVia(rows: Servers, rows': Servers, uid: Uid, via: Uid) {
    SameBut(rows, rows', uid) && uid in rows' && rows'[uid].via == Some(via)
  }

  /** Setting one reference keeps the graph acyclic exactly when the new walk does not lead back. */
  lemma EdgeKeepsAcyclicIff(rows: Servers, rows': Servers, uid: Uid, via: Uid)
    requires Acyclic(rows) && SetsVia(rows, rows', uid, via)
    ensures Acyclic(rows') <==> !Reaches(rows, via, uid)
  {
    if Reaches(rows, via, uid) {
      ReachesWhatever(rows, rows', uid, via);
      var n: nat :| Walk(rows', via, n) == Some(uid);
      assert Walk(rows', uid, n + 1) == Some(uid);
    } else {
      forall n: nat | n > 0 ensures Walk(rows', uid, n) != Some(uid) {
        SameWalk(rows, rows', uid, via, n - 1);
      }
      NewEdgeKeepsAcyclic(rows, rows', uid);
    }
  }

  // ---------------------------------------------------------------- every run

  predicate WritesVia(rows: Servers, op: Event) {
    && NewVia(op).Some?
    && (op.Update? ==> Live(rows, op.uid) && !op.clearVia)
  }

  /** From the server that the call is about to refer to, no walk leads back to its own row. */
  ghost predicate SafeWrite(rows: Servers, op: Event) {
    WritesVia(rows, op) ==> !Reaches(rows, NewVia(op).value, op.uid)
  }

  lemma WriteKeepsAcyclicIff(rows: Servers, op: Event)
    requires Acyclic(rows)
    ensures Acyclic(Written(rows, op)) <==> SafeWrite(rows, op)
  {
    var rows' := Written(rows, op);
    if WritesVia(rows, op) {
      EdgeKeepsAcyclicIff(rows, rows', op.uid, NewVia(op).value);
    } else if op.Create? || (op.Update? && op.clearVia && Live(rows, op.uid)) {
      NoEdge(rows, rows', op.uid);
    } else {
      forall u: Uid, n: nat | n > 0 ensures Walk(rows', u, n) != Some(u) {
        WalkUnchanged(rows, rows', u, n);
      }
    }
  }

  predicate AllEnabled(s: State, es: seq<Statement>)
    decreases |es|
  {
    es == [] || (StatementEnabled(s, es[0]) && AllEnabled(Next(s, es[0]), es[1..]))
  }

  ghost predicate AcyclicThroughout(s: State, es: seq<Statement>)
    requires AllEnabled(s, es)
    decreases |es|
  {
    Acyclic(s.rows) && (es == [] || AcyclicThroughout(Next(s, es[0]), es[1..]))
  }

  ghost predicate Safe(s: State, e: Statement)
    requires StatementEnabled(s, e)
  {
    e.Write? ==> SafeWrite(s.rows, s.calls[e.c].op)
  }

  ghost predicate AllSafe(s: State, es: seq<Statement>)
    requires AllEnabled(s, es)
    decreases |es|
  {
    es == [] || (Safe(s, es[0]) && AllSafe(Next(s, es[0]), es[1..]))
  }

  /**
   However the statements of any number of calls interleave, the via graph is acyclic throughout
   if and only if no write, at the moment it runs, refers to a server that leads back to its own row.
   */
  lemma {:induction false} StaysAcyclicIff(s: State, es: seq<Statement>)
    requires Acyclic(s.rows) && AllEnabled(s, es)
    ensures AcyclicThroughout(s, es) <==> AllSafe(s, es)
    decreases |es|
  {
    if es != [] {
      if es[0].Write? {
        WriteKeepsAcyclicIff(s.rows, s.calls[es[0].c].op);
      }
      if Acyclic(Next(s, es[0]).rows) {
        StaysAcyclicIff(Next(s, es[0]), es[1..]);
      }
    }
  }

  lemma {:induction false} WalkStays(rows: Servers, a: Uid, n: nat)
    requires RowsOk(rows) && a in rows
    ensures Walk(rows, a, n).Some? ==> Walk(rows, a, n).value in rows
    decreases n
  {
    if n > 0 && rows[a].via.Some? {
      WalkStays(rows, rows[a].via.value, n - 1);
    }
  }

  /** A new row is always safe: nothing refers to it yet. Only updates can close a cycle. */
  lemma CreateIsSafe(s: State, c: nat)
    requires RowsOk(s.rows) && CallsOk(s) && StatementEnabled(s, Write(c)) && s.calls[c].op.Create?
    ensures Safe(s, Write(c))
  {
    var op := s.calls[c].op;
    assert CallOk(s.rows, s.calls[c]);
    if op.via.Some? {
      forall n: nat ensures Walk(s.rows, op.via.value, n) != Some(op.uid) {
        WalkStays(s.rows, op.via.value, n);
      }
    }
  }

  lemma {:induction false} RunIsOk(s: State, es: seq<Statement>)
    requires RowsOk(s.rows) && CallsOk(s) && AllEnabled(s, es)
    ensures RowsOk(Final(s, es).rows) && CallsOk(Final(s, es))
    decreases |es|
  {
    if es != [] {
      NextIsOk(s, es[0]);
      RunIsOk(Next(s, es[0]), es[1..]);
    }
  }

  /** So in any interleaving, from a table with its foreign keys in order, no insert closes a cycle. */
  lemma CreatesAreSafe(s: State, es: seq<Statement>, c: nat)
    requires RowsOk(s.rows) && s.calls == map[] && AllEnabled(s, es)
    requires StatementEnabled(Final(s, es), Write(c)) && Final(s, es).calls[c].op.Create?
    ensures Safe(Final(s, es), Write(c))
  {
    RunIsOk(s, es);
    CreateIsSafe(Final(s, es), c);
  }

  // ---------------------------------------------------------------- two overlapping updates

  /** What validation accepts does not lead back to self. */
  lemma AcceptedIsSafe(rows: Servers, self: Uid, via: Uid)
    requires self != NIL_UID && Decides(rows, self, via, Ok)
    ensures !Reaches(rows, via, self)
  {
    AcceptsExactlyGoodChains(rows, self, via);
    var p :| GoodChain(rows, self, p) && p[0] == via;
    forall n: nat ensures Walk(rows, via, n) != Some(self) {
      ChainAvoidsSelf(rows, rows, self, p, 0, n);
    }
  }

  /** A walk past `u`, once `u` refers to `v`, comes to `x` if and only if `v` leads there. */
  lemma ReachesThrough(rows: Servers, rows': Servers, u: Uid, v: Uid, y: Uid, x: Uid)
    requires SetsVia(rows, rows', u, v) && u != x && !Reaches(rows, v, u) && !Reaches(rows, y, x)
    ensures Reaches(rows', y, x) <==> Reaches(rows, y, u) && Reaches(rows, v, x)
  {
    if Reaches(rows, y, u) {
      var n: nat :| Walk(rows, y, n) == Some(u);
      var m := FirstArrival(rows, y, u, n);
      PastArrival(rows, rows', u, v, y, m);
      if Reaches(rows', y, x) {
        var k: nat :| Walk(rows', y, k) == Some(x);
        assert k <= m ==> Walk(rows, y, k) == Some(x);
        assert Walk(rows, v, k - m - 1) == Some(x);
      }
      if Reaches(rows, v, x) {
        var k: nat :| Walk(rows, v, k) == Some(x);
        assert Walk(rows', y, m + 1 + k) == Some(x);
      }
    } else if Reaches(rows', y, x) {
      var k: nat :| Walk(rows', y, k) == Some(x);
      SameWalk(rows, rows', u, y, k);
    }
  }

  /** The walk from `y` goes as before until it comes to `u` after `m` steps, and then on from `v`. */
  lemma PastArrival(rows: Servers, rows': Servers, u: Uid, v: Uid, y: Uid, m: nat)
    requires SetsVia(rows, rows', u, v) && !Reaches(rows, v, u)
    requires Walk(rows, y, m) == Some(u) && forall i: nat :: i < m ==> Walk(rows, y, i) != Some(u)
    ensures forall k: nat :: k <= m ==> Walk(rows', y, k) == Walk(rows, y, k)
    ensures forall k: nat :: k > m ==> Walk(rows', y, k) == Walk(rows, v, k - m - 1)
  {
    forall k: nat | k <= m ensures Walk(rows', y, k) == Walk(rows, y, k) {
      WalkAvoidingSelf(rows', rows, u, y, k);
    }
    forall k: nat | k > m ensures Walk(rows', y, k) == Walk(rows, v, k - m - 1) {
      WalkFurther(rows', y, m, k - m);
      assert Walk(rows', u, k - m) == Walk(rows', v, k - m - 1);
      SameWalk(rows, rows', u, v, k - m - 1);
    }
  }

  /**
   Two updates, each accepted on the same table, are then both written. The graph is acyclic
   afterwards if and only if the two new references do not lead to each other's rows.
   */
  lemma OverlappingUpdatesIff(rows: Servers, rows1: Servers, rows2: Servers, u: Uid, v: Uid, x: Uid, y: Uid)
    requires Acyclic(rows) && u != NIL_UID && x != NIL_UID
    requires Decides(rows, u, v, Ok) && Decides(rows, x, y, Ok)
    requires SetsVia(rows, rows1, u, v) && SetsVia(rows1, rows2, x, y)
    ensures Acyclic(rows2) <==> !(Reaches(rows, v, x) && Reaches(rows, y, u))
  {
    AcceptedIsSafe(rows, u, v);
    AcceptedIsSafe(rows, x, y);
    EdgeKeepsAcyclicIff(rows, rows1, u, v);
    EdgeKeepsAcyclicIff(rows1, rows2, x, y);
    if u == x {
      if Reaches(rows1, y, x) {
        ReachesWhatever(rows1, rows, u, y);
      }
    } else {
      ReachesThrough(rows, rows1, u, v, y, x);
    }
  }

  /** From `s` the statements can run, and close a cycle. */
  ghost predicate Closes(s: State, es: seq<Statement>) {
    AllEnabled(s, es) && !AcyclicThroughout(s, es)
  }

  lemma ClosesFrom(s: State, e: Statement, t: State, es: seq<Statement>)
    requires StatementEnabled(s, e) && t == Next(s, e) && Closes(t, es)
    ensures Closes(s, [e] + es)
  {
    assert ([e] + es)[1..] == es;
  }

  const BASTION := Server(SSH, None, false)

  const TO_TWO := Update(1, None, Some(2), false)

  const TO_ONE := Update(2, None, Some(1), false)

  /** Both updates have been validated; the first write leaves 1 -> 2, the second closes the cycle. */
  lemma WritesClose(s: State)
    requires s == State(map[1 := BASTION, 2 := BASTION], map[1 := Validated(TO_TWO), 2 := Validated(TO_ONE)])
    ensures Closes(s, [Write(1)] + ([Write(2)] + []))
  {
    var t := State(map[1 := BASTION.(via := Some(2)), 2 := BASTION], map[1 := Finished(Saved), 2 := Validated(TO_ONE)]);
    var u := State(map[1 := BASTION.(via := Some(2)), 2 := BASTION.(via := Some(1))],
                   map[1 := Finished(Saved), 2 := Finished(Saved)]);
    assert Walk(u.rows, 1, 2) == Walk(u.rows, 2, 1) == Walk(u.rows, 1, 0) == Some(1);
    ClosesFrom(t, Write(2), u, []);
    ClosesFrom(s, Write(1), t, [Write(2)] + []);
  }

  /** Two bastions that dial directly; two overlapping updates make each go through the other. */
  lemma CycleCanClose() returns (s: State, es: seq<Statement>)
    ensures Inv(s.rows) && s.calls == map[] && Closes(s, es)
  {
    s := State(map[1 := BASTION, 2 := BASTION], map[]);
    assert Acyclic(s.rows);
    var s1 := s.(calls := map[1 := Walking(TO_TWO, [2])]);
    var s2 := s.(calls := map[1 := Walking(TO_TWO, [2]), 2 := Walking(TO_ONE, [1])]);
    var s3 := s.(calls := map[1 := Validated(TO_TWO), 2 := Walking(TO_ONE, [1])]);
    var s4 := s.(calls := map[1 := Validated(TO_TWO), 2 := Validated(TO_ONE)]);
    WritesClose(s4);
    es := [Write(1)] + ([Write(2)] + []);
    ClosesFrom(s3, Hop(2), s4, es);
    ClosesFrom(s2, Hop(1), s3, [Hop(2)] + es);
    ClosesFrom(s1, Begin(2, TO_ONE), s2, [Hop(1)] + ([Hop(2)] + es));
    ClosesFrom(s, Begin(1, TO_TWO), s1, [Begin(2, TO_ONE)] + ([Hop(1)] + ([Hop(2)] + es)));
    es := [Begin(1, TO_TWO)] + ([Begin(2, TO_ONE)] + ([Hop(1)] + ([Hop(2)] + es)));
  }

  // ---------------------------------------------------------------- calls that do not overlap a write

  /** What the call has validated so far is true of the table as it is. */
  ghost predicate Current(rows: Servers, k: Call) {
    match k
    case Walking(op, p) => NewVia(op).Some? && Trail(rows, Self(op), NewVia(op).value, p)
    case Validated(op) => NewVia(op).Some? ==> Decides(rows, Self(op), NewVia(op).value, Ok)
    case Finished(_) => true
  }

  ghost predicate AllCurrent(s: State) {
    forall c :: c in s.calls ==> Current(s.rows, s.calls[c])
  }

  /** A write runs while no other call is in flight; walks may overlap as they like. */
  ghost predicate WritesAlone(s: State, e: Statement) {
    e.Write? ==> forall d :: d in s.calls && d != e.c ==> s.calls[d].Finished?
  }

  lemma HopIsCurrent(rows: Servers, op: Event, p: seq<Uid>)
    requires Current(rows, Walking(op, p))
    ensures Current(rows, Hopped(rows, op, p))
  {
    var self, via := Self(op), NewVia(op).value;
    match Judge(rows, self, p)
    case Some(Ok) =>
      assert Trail(rows, self, via, p) && Judge(rows, self, p) == Some(Ok);
    case Some(_) =>
    case None =>
      var q := p + [rows[p[|p| - 1]].via.value];
      forall i | 0 <= i < |q| - 1 ensures Passes(rows, self, q, i) {
        assert q[..i] == p[..i];
        if i < |p| - 1 {
          assert Passes(rows, self, p, i);
        }
      }
  }

  lemma NextIsCurrent(s: State, e: Statement)
    requires AllCurrent(s) && StatementEnabled(s, e) && WritesAlone(s, e)
    ensures AllCurrent(Next(s, e))
  {
    var t := Next(s, e);
    forall c | c in t.calls ensures Current(t.rows, t.calls[c]) {
      if c in s.calls {
        assert Current(s.rows, s.calls[c]);
      }
      if e.Hop? && c == e.c {
        HopIsCurrent(s.rows, s.calls[c].op, s.calls[c].p);
      }
    }
  }

  /** A walk that is current and ends without acceptance is rejected with its verdict. */
  lemma HopRejectsWith(rows: Servers, op: Event, p: seq<Uid>, r: Result)
    requires Current(rows, Walking(op, p)) && Hopped(rows, op, p) == Finished(r)
    ensures r.Rejected? && r.verdict != Ok && Decides(rows, Self(op), NewVia(op).value, r.verdict)
  {
    assert Trail(rows, Self(op), NewVia(op).value, p) && Judge(rows, Self(op), p) == Some(r.verdict);
  }

  /** A write is answered as saved exactly when it was an insert or found its row. */
  lemma WriteAnswers(s: State, c: nat)
    requires StatementEnabled(s, Write(c))
    ensures var op, k := s.calls[c].op, Next(s, Write(c)).calls[c];
            if op.Create? || (op.uid in s.rows && s.rows[op.uid].deleted == false)
            then k == Finished(Saved)
            else k == Finished(Rejected(NotFound)) && Next(s, Write(c)).rows == s.rows
  {
  }

  /** A call that asks for a reference starts its walk there; any other goes straight to its write. */
  lemma BeginMeans(s: State, c: nat, op: Event)
    ensures c !in s.calls && op.uid != 0 ==>
              var t := Next(s, Begin(c, op));
              && t.rows == s.rows && c in t.calls
              && t.calls[c] == if !op.Delete? && op.via.Some? then Walking(op, [op.via.value]) else Validated(op)
  {
  }

  /** A write whose validation is current is the whole call in one step. */
  lemma CurrentWriteIsOneStep(rows: Servers, op: Event)
    requires Current(rows, Validated(op))
    ensures Written(rows, op) == Apply(rows, op)
  {
  }

  ghost predicate AllWriteAlone(s: State, es: seq<Statement>)
    requires AllEnabled(s, es)
    decreases |es|
  {
    es == [] || (WritesAlone(s, es[0]) && AllWriteAlone(Next(s, es[0]), es[1..]))
  }

  function Final(s: State, es: seq<Statement>): State
    requires AllEnabled(s, es)
    decreases |es|
  {
    if es == [] then s else Final(Next(s, es[0]), es[1..])
  }

  /** The calls in the order of their writes. */
  function Writes(s: State, es: seq<Statement>): seq<Event>
    requires AllEnabled(s, es)
    decreases |es|
  {
    if es == [] then []
    else (if es[0].Write? then [s.calls[es[0].c].op] else []) + Writes(Next(s, es[0]), es[1..])
  }

  /** If writes run alone, the run is one of whole calls in the order of their writes, and keeps the graph acyclic. */
  lemma {:induction false} SerialRunIsOneStep(s: State, es: seq<Statement>)
    requires Inv(s.rows) && CallsOk(s) && AllCurrent(s) && AllEnabled(s, es) && AllWriteAlone(s, es)
    ensures Final(s, es).rows == Run(s.rows, Writes(s, es)) && Inv(Final(s, es).rows)
    decreases |es|
  {
    if es != [] {
      var e := es[0];
      NextIsOk(s, e);
      NextIsCurrent(s, e);
      if e.Write? {
        SerialWrite(s, e.c);
        assert Writes(s, es)[1..] == Writes(Next(s, e), es[1..]);
      } else {
        assert Writes(s, es) == Writes(Next(s, e), es[1..]);
      }
      SerialRunIsOneStep(Next(s, e), es[1..]);
    }
  }

  lemma SerialWrite(s: State, c: nat)
    requires Inv(s.rows) && CallsOk(s) && AllCurrent(s) && StatementEnabled(s, Write(c))
    ensures Next(s, Write(c)).rows == Apply(s.rows, s.calls[c].op) && Acyclic(Next(s, Write(c)).rows)
  {
    assert Current(s.rows, s.calls[c]) && CallOk(s.rows, s.calls[c]);
    CurrentWriteIsOneStep(s.rows, s.calls[c].op);
    ApplyKeepsAcyclic(s.rows, s.calls[c].op);
  }
}
