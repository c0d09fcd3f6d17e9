/**
 The login failure tracker: per user name a count and the time of the last failure, a table
 of backoff delays, and a background sweep. It is proved to answer exactly as a tracker that
 keeps the whole history of failures and successful logins.
 */
module FailureTracker {
  import opened Common

  const SECOND := 1_000_000_000
  const MINUTE := 60 * SECOND
  const RESET_AFTER := 15 * MINUTE

  datatype Delay = Delay(minFailures: nat, delay: int)

  /** authBackoffDelays, most failures first. */
  const BACKOFF: seq<Delay> :=
    [Delay(10, 5 * MINUTE), Delay(7, 2 * MINUTE), Delay(5, 30 * SECOND), Delay(3, 5 * SECOND)]

  datatype FailureRecord = FailureRecord(count: nat, lastFailure: int)

  /** A user name. */
  type Name = nat

  type Failures = map<Name, FailureRecord>

  // ---------------------------------------------------------------- what the code computes

  predicate Stale(r: FailureRecord, now: int) {
    now - r.lastFailure > RESET_AFTER
  }

  /** The first row of the table that applies gives the delay; no row, no delay. */
  function FirstDelay(table: seq<Delay>, count: nat): int {
    if table == [] then 0
    else if count >= table[0].minFailures then table[0].delay
    else FirstDelay(table[1..], count)
  }

  predicate Blocked(f: Failures, name: Name, now: int) {
    && name in f && !Stale(f[name], now)
    && FirstDelay(BACKOFF, f[name].count) > 0 && now < f[name].lastFailure + FirstDelay(BACKOFF, f[name].count)
  }

  /** recordFailure reads the clock twice: once to compare, once to store. */
  function Bump(f: Failures, name: Name, compared: int, stored: int): Failures {
    f[name := FailureRecord(if name in f && !Stale(f[name], compared) then f[name].count + 1 else 1, stored)]
  }

  function SweepStep(f: Failures, now: int): Failures {
    map name | name in f && !Stale(f[name], now) :: f[name]
  }

  /** The documented delays: 3 failures 5 s, 5 failures 30 s, 7 failures 2 min, 10 failures 5 min. */
  function DelayFor(count: nat): int {
    if count < 3 then 0
    else if count < 5 then 5_000_000_000
    else if count < 7 then 30_000_000_000
    else if count < 10 then 120_000_000_000
    else 300_000_000_000
  }

  /** `n` is the number of whole seconds in `left` nanoseconds, but at least one. */
  predicate WholeSeconds(left: int, n: int) {
    n >= 1 && left < (n + 1) * 1_000_000_000 && (n > 1 ==> n * 1_000_000_000 <= left)
  }

  class Tracker {
    var failures: Failures

    constructor ()
      ensures failures == map[]
    {
      failures := map[];
    }

    /** `until` is the second clock reading, used only for the hint. */
    method CheckRateLimit(name: Name, now: int, until: int) returns (allowed: bool, retryAfter: int)
      ensures allowed <==> !Blocked(failures, name, now)
      ensures allowed <==> !(&& name in failures && now - failures[name].lastFailure <= 900_000_000_000
                             && failures[name].count >= 3
                             && now < failures[name].lastFailure + DelayFor(failures[name].count))
      ensures allowed ==> retryAfter == 0
      ensures !allowed ==>
                WholeSeconds(failures[name].lastFailure + DelayFor(failures[name].count) - until, retryAfter)
    {
      if name !in failures {
        return true, 0;
      }
      var record := failures[name];
      DelaysAreDocumented(record.count);
      if now - record.lastFailure > RESET_AFTER {
        return true, 0;
      }
      var i := 0;
      while i < |BACKOFF|
        invariant 0 <= i <= |BACKOFF|
        invariant FirstDelay(BACKOFF, record.count) == FirstDelay(BACKOFF[i..], record.count)
      {
        assert BACKOFF[i..][1..] == BACKOFF[i + 1..];
        if record.count >= BACKOFF[i].minFailures {
          var blockedUntil := record.lastFailure + BACKOFF[i].delay;
          if now < blockedUntil {
            var left := blockedUntil - until;
            retryAfter := if left < 0 then 0 else left / SECOND;
            assert left >= 0 ==> retryAfter * SECOND <= left < (retryAfter + 1) * SECOND;
            if retryAfter < 1 {
              retryAfter := 1;
            }
            return false, retryAfter;
          }
          return true, 0;
        }
        i := i + 1;
      }
      assert BACKOFF[|BACKOFF|..] == [];
      return true, 0;
    }

    method RecordFailure(name: Name, compared: int, stored: int)
      modifies this
      ensures failures == Bump(old(failures), name, compared, stored)
    {
      if name !in failures {
        failures := failures[name := FailureRecord(1, stored)];
        return;
      }
      var record := failures[name];
      if compared - record.lastFailure > RESET_AFTER {
        record := record.(count := 1);
      } else {
        record := record.(count := record.count + 1);
      }
      failures := failures[name := record.(lastFailure := stored)];
    }

    method ResetFailures(name: Name)
      modifies this
      ensures failures == old(failures) - {name}
    {
      failures := failures - {name};
    }

    /** One tick of the background cleanup. */
    method Sweep(now: int)
      modifies this
      ensures failures == SweepStep(old(failures), now)
    {
      var todo := failures.Keys;
      while todo != {}
        invariant todo <= failures.Keys <= old(failures).Keys
        invariant forall k :: k in failures ==> failures[k] == old(failures)[k]
        invariant forall k :: k in old(failures) && k !in todo ==> (k in failures <==> !Stale(old(failures)[k], now))
        decreases |todo|
      {
        var name :| name in todo;
        if now - failures[name].lastFailure > RESET_AFTER {
          failures := failures - {name};
        }
        todo := todo - {name};
      }
    }
  }

  // ---------------------------------------------------------------- the history

  datatype Event =
    | Failure(name: Name, compared: int, stored: int)
    | Success(name: Name)
    | Query(name: Name, now: int)
    | Sweep(now: int)

  /** What one user name has gone through: failures and successful logins. */
  datatype Mark = Failed(compared: int, stored: int) | Cleared

  type Log = seq<Mark>

  type Logs = map<Name, Log>

  function LogOf(h: Logs, name: Name): Log {
    if name in h then h[name] else []
  }

  /** Marks `j - 1` and `j` are failures at most 15 minutes apart. */
  predicate Linked(h: Log, j: nat) {
    0 < j < |h| && h[j - 1].Failed? && h[j].Failed? && h[j].compared - h[j - 1].stored <= 900_000_000_000
  }

  /** `h[i..]` are failures, none more than 15 minutes after the one before. */
  predicate Unbroken(h: Log, i: nat) {
    i <= |h| && (i < |h| ==> h[i].Failed?) && forall j :: i < j < |h| ==> Linked(h, j)
  }

  /** The current streak is `h[i..]`: unbroken, and not extensible to the left. */
  predicate StreakFrom(h: Log, i: nat) {
    Unbroken(h, i) && (i > 0 && i < |h| ==> !Unbroken(h, i - 1)) && (i == |h| ==> h == [] || h[|h| - 1].Cleared?)
  }

  /** Length of the current streak, by recursion on the last mark. */
  function Streak(h: Log): nat {
    if h == [] || h[|h| - 1].Cleared? then 0
    else
      var before := h[..|h| - 1];
      if Linked(h, |h| - 1) then Streak(before) + 1 else 1
  }

  function LastFailure(h: Log): int
    requires h != [] && h[|h| - 1].Failed?
  {
    h[|h| - 1].stored
  }

  /** The largest delay among the table's rows the count has reached. */
  ghost predicate LargestApplicable(count: nat, d: int) {
    && (d == 0 || exists i :: 0 <= i < |BACKOFF| && count >= BACKOFF[i].minFailures && d == BACKOFF[i].delay)
    && d >= 0
    && forall i :: 0 <= i < |BACKOFF| && count >= BACKOFF[i].minFailures ==> BACKOFF[i].delay <= d
  }

  /** The rule: refused exactly while inside the delay that the current streak has earned. */
  ghost predicate Refused(h: Log, now: int) {
    h != [] && h[|h| - 1].Failed? && exists d :: LargestApplicable(Streak(h), d) && now < LastFailure(h) + d
  }

  function Note(h: Logs, e: Event): Logs {
    match e
    case Failure(name, compared, stored) => h[name := LogOf(h, name) + [Failed(compared, stored)]]
    case Success(name) => h[name := LogOf(h, name) + [Cleared]]
    case Query(_, _) => h
    case Sweep(_) => h
  }

  function Step(f: Failures, e: Event): Failures {
    match e
    case Failure(name, compared, stored) => Bump(f, name, compared, stored)
    case Success(name) => f - {name}
    case Query(_, _) => f
    case Sweep(now) => SweepStep(f, now)
  }

  // ---------------------------------------------------------------- the streak

  /** The recursive streak is the length of the one maximal unbroken tail. */
  lemma {:induction false} StreakIsMaximalTail(h: Log)
    ensures Streak(h) <= |h| && StreakFrom(h, |h| - Streak(h))
    ensures forall i :: StreakFrom(h, i) ==> i == |h| - Streak(h)
  {
    StreakFromHolds(h);
    forall i | StreakFrom(h, i) ensures i == |h| - Streak(h) {
      StreakFromUnique(h, i, |h| - Streak(h));
    }
  }

  lemma StreakFromUnique(h: Log, i: nat, j: nat)
    requires StreakFrom(h, i) && StreakFrom(h, j)
    ensures i == j
  {
    if i < j {
      TailsOfUnbroken(h, i, j);
    } else if j < i {
      TailsOfUnbroken(h, j, i);
    }
  }

  lemma TailsOfUnbroken(h: Log, i: nat, j: nat)
    requires i < j <= |h| && Unbroken(h, i)
    ensures h[|h| - 1].Failed? && (j < |h| ==> Unbroken(h, j - 1))
  {
    if i < |h| - 1 {
      assert Linked(h, |h| - 1);
    }
    if j < |h| {
      assert Linked(h, j);
    }
  }

  lemma {:induction false} StreakFromHolds(h: Log)
    ensures Streak(h) <= |h| && StreakFrom(h, |h| - Streak(h))
  {
    if h != [] && h[|h| - 1].Failed? {
      var before := h[..|h| - 1];
      StreakFromHolds(before);
      assert forall j :: 0 < j < |before| ==> (Linked(before, j) <==> Linked(h, j));
      if Linked(h, |h| - 1) {
        var i := |before| - Streak(before);
        assert forall j :: i < j < |before| ==> Linked(before, j);
        if i > 0 && Unbroken(h, i - 1) {
          assert Unbroken(before, i - 1);
        }
      } else if |h| > 1 {
        assert !Unbroken(h, |h| - 2);
      }
    }
  }

  lemma DelaysAreDocumented(count: nat)
    ensures FirstDelay(BACKOFF, count) == DelayFor(count)
  {
    var b1, b2, b3 := BACKOFF[1..], BACKOFF[2..], BACKOFF[3..];
    assert b1[1..] == b2 && b2[1..] == b3 && b3[1..] == [];
    assert FirstDelay(b3, count) == if count >= 3 then BACKOFF[3].delay else 0;
    assert FirstDelay(b2, count) == if count >= 5 then BACKOFF[2].delay else FirstDelay(b3, count);
    assert FirstDelay(b1, count) == if count >= 7 then BACKOFF[1].delay else FirstDelay(b2, count);
  }

  /** The sweep keeps exactly the records whose last failure is at most fifteen minutes old. */
  lemma SweepKeepsRecent(f: Failures, now: int, name: Name)
    ensures name in SweepStep(f, now) <==> name in f && now - f[name].lastFailure <= 900_000_000_000
    ensures name in SweepStep(f, now) ==> SweepStep(f, now)[name] == f[name]
  {
  }

  lemma TableGivesLargest(count: nat)
    ensures LargestApplicable(count, FirstDelay(BACKOFF, count))
    ensures FirstDelay(BACKOFF, count) <= 5 * MINUTE
  {
    DelaysAreDocumented(count);
    assert BACKOFF[0].delay == 300_000_000_000 && BACKOFF[1].delay == 120_000_000_000;
    assert BACKOFF[2].delay == 30_000_000_000 && BACKOFF[3].delay == 5_000_000_000;
  }

  // ---------------------------------------------------------------- refinement

  /** Clock readings in the order they were taken never go back. */
  predicate Clocked(es: seq<Event>, t: int) {
    es == [] ||
    match es[0]
    case Failure(_, compared, stored) => t <= compared <= stored && Clocked(es[1..], stored)
    case Success(_) => Clocked(es[1..], t)
    case Query(_, now) => t <= now && Clocked(es[1..], now)
    case Sweep(now) => t <= now && Clocked(es[1..], now)
  }

  function Clock(e: Event, t: int): int {
    match e
    case Failure(_, _, stored) => stored
    case Success(_) => t
    case Query(_, now) => now
    case Sweep(now) => now
  }

  /** A record is the history's streak and last failure; no record means none that still counts. */
  ghost predicate Agree(r: Option<FailureRecord>, h: Log, t: int) {
    && (h != [] && h[|h| - 1].Failed? ==> LastFailure(h) <= t)
    && match r
       case Some(rec) => h != [] && h[|h| - 1].Failed? && rec == FailureRecord(Streak(h), LastFailure(h))
       case None => h != [] && h[|h| - 1].Failed? ==> t - LastFailure(h) > RESET_AFTER
  }

  function RecordOf(f: Failures, name: Name): Option<FailureRecord> {
    if name in f then Some(f[name]) else None
  }

  ghost predicate Refines(f: Failures, h: Logs, t: int) {
    forall name :: Agree(RecordOf(f, name), LogOf(h, name), t)
  }

  lemma FailureAgrees(r: Option<FailureRecord>, h: Log, t: int, compared: int, stored: int)
    requires Agree(r, h, t) && t <= compared <= stored
    ensures Agree(Some(FailureRecord(if r.Some? && !Stale(r.value, compared) then r.value.count + 1 else 1, stored)),
                  h + [Failed(compared, stored)], stored)
  {
    var h' := h + [Failed(compared, stored)];
    assert h'[..|h'| - 1] == h;
    if h != [] {
      assert h'[|h'| - 2] == h[|h| - 1];
    }
    if h == [] || h[|h| - 1].Cleared? {
      assert !Linked(h', |h'| - 1);
    }
  }

  lemma StepAgrees(f: Failures, h: Logs, t: int, e: Event, name: Name)
    requires Agree(RecordOf(f, name), LogOf(h, name), t) && Clocked([e], t)
    ensures Agree(RecordOf(Step(f, e), name), LogOf(Note(h, e), name), Clock(e, t))
  {
    if e.Failure? && e.name == name {
      FailureAgrees(RecordOf(f, name), LogOf(h, name), t, e.compared, e.stored);
    }
  }

  /** On records that agree with the history, the code refuses exactly when the rule does. */
  lemma BlockedIsRefused(f: Failures, h: Logs, t: int, name: Name, now: int)
    requires Agree(RecordOf(f, name), LogOf(h, name), t) && t <= now
    ensures Blocked(f, name, now) <==> Refused(LogOf(h, name), now)
  {
    var log := LogOf(h, name);
    if log != [] && log[|log| - 1].Failed? {
      var d := FirstDelay(BACKOFF, Streak(log));
      TableGivesLargest(Streak(log));
    }
  }

  /** The answers, true for refused, that the code gives to the queries of a run. */
  ghost function Verdicts(f: Failures, es: seq<Event>): seq<bool>
    decreases |es|
  {
    if es == [] then []
    else (if es[0].Query? then [Blocked(f, es[0].name, es[0].now)] else []) + Verdicts(Step(f, es[0]), es[1..])
  }

  ghost function RuleVerdicts(h: Logs, es: seq<Event>): seq<bool>
    decreases |es|
  {
    if es == [] then []
    else
      (if es[0].Query? then [Refused(LogOf(h, es[0].name), es[0].now)] else []) + RuleVerdicts(Note(h, es[0]), es[1..])
  }

  /** Every run of failures, logins, queries and sweeps answers by the rule over the whole history. */
  lemma {:induction false} RunRefines(f: Failures, h: Logs, t: int, es: seq<Event>)
    requires Refines(f, h, t) && Clocked(es, t)
    ensures Verdicts(f, es) == RuleVerdicts(h, es)
    decreases |es|
  {
    if es != [] {
      var e := es[0];
      forall name ensures Agree(RecordOf(Step(f, e), name), LogOf(Note(h, e), name), Clock(e, t)) {
        assert [e][1..] == [];
        StepAgrees(f, h, t, e, name);
      }
      if e.Query? {
        BlockedIsRefused(f, h, t, e.name, e.now);
      }
      RunRefines(Step(f, e), Note(h, e), Clock(e, t), es[1..]);
    }
  }

  function WithoutSweeps(es: seq<Event>): seq<Event> {
    if es == [] then [] else if es[0].Sweep? then WithoutSweeps(es[1..]) else [es[0]] + WithoutSweeps(es[1..])
  }

  lemma {:induction false} RuleIgnoresSweeps(h: Logs, es: seq<Event>)
    ensures RuleVerdicts(h, es) == RuleVerdicts(h, WithoutSweeps(es))
    decreases |es|
  {
    if es != [] {
      RuleIgnoresSweeps(Note(h, es[0]), es[1..]);
      if es[0].Sweep? {
        assert RuleVerdicts(h, es) == RuleVerdicts(h, es[1..]);
      } else {
        assert WithoutSweeps(es)[1..] == WithoutSweeps(es[1..]);
      }
    }
  }

  lemma {:induction false} DroppingSweepsKeepsClock(es: seq<Event>, t: int, t': int)
    requires Clocked(es, t) && t' <= t
    ensures Clocked(WithoutSweeps(es), t')
    decreases |es|
  {
    if es != [] {
      if es[0].Sweep? {
        DroppingSweepsKeepsClock(es[1..], es[0].now, t');
      } else {
        DroppingSweepsKeepsClock(es[1..], Clock(es[0], t), Clock(es[0], t'));
        assert WithoutSweeps(es)[1..] == WithoutSweeps(es[1..]);
      }
    }
  }

  /** A fresh tracker gives the same answers whether or not the cleanup ever runs. */
  lemma SweepsAreInvisible(es: seq<Event>, t: int)
    requires Clocked(es, t)
    ensures Verdicts(map[], es) == Verdicts(map[], WithoutSweeps(es))
  {
    RunRefines(map[], map[], t, es);
    RuleIgnoresSweeps(map[], es);
    DroppingSweepsKeepsClock(es, t, t);
    RunRefines(map[], map[], t, WithoutSweeps(es));
  }
}
