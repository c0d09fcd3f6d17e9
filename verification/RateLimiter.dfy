/**
 The sliding-window rate limiter. The limiter keeps, per key, a trimmed list of admission
 times and a background sweep drops idle keys. It is proved to answer exactly as a limiter
 that remembers every admission for ever.
 */
module RateLimiter {
  import opened Common

  /** Nanoseconds, as in Go's time.Duration. */
  const MINUTE := 60_000_000_000

  /** The limiter's string keys: "user:" + uid, or "ip:" + address. */
  datatype Key = User(uid: Uid) | Ip(address: string)

  type Windows = map<Key, seq<int>>

  datatype Answer =
    | Checked(allowed: bool, remaining: nat, reset: int)
    | Counted(count: nat, reset: int)

  function Get(w: Windows, key: Key): seq<int> {
    if key in w then w[key] else []
  }

  // ---------------------------------------------------------------- what the code computes

  /** Index of the first time after `from`, or the length. */
  function FirstAfter(ts: seq<int>, from: int): (i: nat)
    ensures i <= |ts|
  {
    if ts == [] then 0 else if ts[0] > from then 0 else 1 + FirstAfter(ts[1..], from)
  }

  function Verdict(inWindow: seq<int>, limit: int, now: int): Answer {
    var reset := if inWindow == [] then now + MINUTE else inWindow[0] + MINUTE;
    if |inWindow| >= limit then Checked(false, 0, reset)
    else Checked(true, limit - |inWindow| - 1, reset)
  }

  function Trimmed(ts: seq<int>, now: int): seq<int> {
    ts[FirstAfter(ts, now - MINUTE)..]
  }

  /** The list `inWindow` with this request added if it is admitted. */
  function Admit(list: seq<int>, inWindow: seq<int>, limit: int, now: int): seq<int> {
    if |inWindow| < limit then list + [now] else list
  }

  /** One call of check, with `limit` already including the burst. */
  function CheckStep(w: Windows, key: Key, limit: int, now: int): (Windows, Answer) {
    var ts := Trimmed(Get(w, key), now);
    (w[key := Admit(ts, ts, limit, now)], Verdict(ts, limit, now))
  }

  predicate Idle(ts: seq<int>, now: int) {
    ts == [] || now - ts[|ts| - 1] > MINUTE
  }

  function SweepStep(w: Windows, now: int): Windows {
    map key | key in w && !Idle(w[key], now) :: w[key]
  }

  /** The times after `from`, wherever they are in the list. */
  function After(ts: seq<int>, from: int): seq<int> {
    if ts == [] then []
    else if ts[0] > from then [ts[0]] + After(ts[1..], from)
    else After(ts[1..], from)
  }

  function Tally(inWindow: seq<int>, now: int): Answer {
    Counted(|inWindow|, if inWindow == [] then now + MINUTE else inWindow[0] + MINUTE)
  }

  class Limiter {
    var windows: Windows
    const burst: int

    constructor (burst: int)
      ensures windows == map[] && this.burst == burst
    {
      windows := map[];
      this.burst := burst;
    }

    method Check(key: Key, limit: int, now: int) returns (allowed: bool, remaining: nat, reset: int)
      modifies this
      ensures (windows, Checked(allowed, remaining, reset)) == CheckStep(old(windows), key, limit + burst, now)
    {
      if key !in windows {
        windows := windows[key := []];
      }
      var ts := windows[key];
      var from := now - MINUTE;
      var validStart, i := 0, 0;
      while i < |ts|
        invariant 0 <= i <= |ts|
        invariant forall j :: 0 <= j < i ==> ts[j] <= from
        invariant validStart == if i == |ts| then |ts| else 0
      {
        if ts[i] > from {
          validStart := i;
          break;
        }
        if i == |ts| - 1 {
          validStart := |ts|;
        }
        i := i + 1;
      }
      FirstAfterUnique(ts, from, validStart);
      ts := ts[validStart..];
      windows := windows[key := ts];

      var effective := limit + burst;
      var count := |ts|;
      var left := effective - count - 1;
      if left < 0 {
        left := 0;
      }
      reset := now + MINUTE;
      if |ts| > 0 {
        reset := ts[0] + MINUTE;
      }
      if count >= effective {
        assert windows == old(windows)[key := ts];
        return false, 0, reset;
      }
      windows := windows[key := ts + [now]];
      assert windows == old(windows)[key := ts + [now]];
      return true, left, reset;
    }

    /** One tick of the background cleanup. */
    method Sweep(now: int)
      modifies this
      ensures windows == SweepStep(old(windows), now)
    {
      var todo := windows.Keys;
      while todo != {}
        invariant todo <= windows.Keys <= old(windows).Keys
        invariant forall k :: k in windows ==> windows[k] == old(windows)[k]
        invariant forall k :: k in old(windows) && k !in todo ==> (k in windows <==> !Idle(old(windows)[k], now))
        decreases |todo|
      {
        var key :| key in todo;
        var ts := windows[key];
        if |ts| == 0 {
          windows := windows - {key};
        } else if now - ts[|ts| - 1] > MINUTE {
          windows := windows - {key};
        }
        todo := todo - {key};
      }
    }

    method GetStats(key: Key, now: int) returns (count: nat, reset: int)
      ensures Counted(count, reset) == Tally(After(Get(windows, key), now - MINUTE), now)
    {
      if key !in windows {
        return 0, now + MINUTE;
      }
      var ts := windows[key];
      var from := now - MINUTE;
      count := 0;
      for i := 0 to |ts|
        invariant count == |After(ts[..i], from)|
      {
        AfterSnoc(ts[..i], ts[i], from);
        assert ts[..i + 1] == ts[..i] + [ts[i]];
        if ts[i] > from {
          count := count + 1;
        }
      }
      reset := now + MINUTE;
      if |ts| > 0 {
        for i := 0 to |ts|
          invariant After(ts[..i], from) == [] && reset == now + MINUTE
        {
          AfterSnoc(ts[..i], ts[i], from);
          assert ts[..i + 1] == ts[..i] + [ts[i]];
          if ts[i] > from {
            reset := ts[i] + MINUTE;
            AfterConcat(ts[..i + 1], ts[i + 1..], from);
            assert ts == ts[..i + 1] + ts[i + 1..];
            break;
          }
        }
      }
      assert ts[..|ts|] == ts;
    }
  }

  lemma {:induction false} AfterConcat(a: seq<int>, b: seq<int>, from: int)
    ensures After(a + b, from) == After(a, from) + After(b, from)
  {
    if a == [] {
      assert a + b == b;
    } else {
      AfterConcat(a[1..], b, from);
      assert (a + b)[0] == a[0] && (a + b)[1..] == a[1..] + b;
      Regroup([a[0]], After(a[1..], from), After(b, from));
    }
  }

  lemma AfterSnoc(a: seq<int>, x: int, from: int)
    ensures After(a + [x], from) == After(a, from) + if x > from then [x] else []
  {
    AfterConcat(a, [x], from);
  }

  lemma {:induction false} FirstAfterIs(ts: seq<int>, from: int)
    ensures var i := FirstAfter(ts, from);
            && (i < |ts| ==> ts[i] > from) && forall j :: 0 <= j < i ==> ts[j] <= from
  {
    if ts != [] && ts[0] <= from {
      FirstAfterIs(ts[1..], from);
      forall j | 0 <= j < FirstAfter(ts, from) ensures ts[j] <= from {
        if j > 0 {
          assert ts[j] == ts[1..][j - 1];
        }
      }
    }
  }

  lemma {:induction false} FirstAfterUnique(ts: seq<int>, from: int, i: nat)
    requires i <= |ts| && (i < |ts| ==> ts[i] > from) && forall j :: 0 <= j < i ==> ts[j] <= from
    ensures FirstAfter(ts, from) == i
  {
    if i > 0 {
      FirstAfterUnique(ts[1..], from, i - 1);
    }
  }

  // ---------------------------------------------------------------- the simple limiter

  datatype Event =
    | Check(key: Key, limit: int, now: int)
    | Stats(key: Key, now: int)
    | Sweep(now: int)

  predicate Clocked(es: seq<Event>, from: int) {
    es == [] || (es[0].now >= from && Clocked(es[1..], es[0].now))
  }

  /** A limiter that keeps every admission and counts the last minute. */
  function Record(h: Windows, burst: int, e: Event): Windows {
    if e.Check?
    then h[e.key := Admit(Get(h, e.key), After(Get(h, e.key), e.now - MINUTE), e.limit + burst, e.now)]
    else h
  }

  function History(h: Windows, burst: int, es: seq<Event>): Windows
    decreases |es|
  {
    if es == [] then h else History(Record(h, burst, es[0]), burst, es[1..])
  }

  function SimpleReply(h: Windows, burst: int, e: Event): seq<Answer> {
    match e
    case Check(key, limit, now) => [Verdict(After(Get(h, key), now - MINUTE), limit + burst, now)]
    case Stats(key, now) => [Tally(After(Get(h, key), now - MINUTE), now)]
    case Sweep(_) => []
  }

  function SimpleAnswers(h: Windows, burst: int, es: seq<Event>): seq<Answer>
    decreases |es|
  {
    if es == [] then [] else SimpleReply(h, burst, es[0]) + SimpleAnswers(Record(h, burst, es[0]), burst, es[1..])
  }

  function WithoutSweeps(es: seq<Event>): seq<Event> {
    if es == [] then [] else (if es[0].Sweep? then [] else [es[0]]) + WithoutSweeps(es[1..])
  }

  // ---------------------------------------------------------------- refinement

  ghost predicate Sorted(ts: seq<int>) {
    forall i, j :: 0 <= i < j < |ts| ==> ts[i] <= ts[j]
  }

  /** Looked at from `t` on, the kept list `ts` and the full history `h` hold the same last minute. */
  ghost predicate Agree(ts: seq<int>, h: seq<int>, t: int) {
    && Sorted(ts) && (ts != [] ==> ts[|ts| - 1] <= t)
    && forall from :: from >= t - MINUTE ==> After(ts, from) == After(h, from)
  }

  ghost predicate Refines(w: Windows, h: Windows, t: int) {
    forall key :: Agree(Get(w, key), Get(h, key), t)
  }

  /** On a sorted list, filtering is cutting off the front. */
  lemma {:induction false} AfterIsSuffix(ts: seq<int>, from: int)
    requires Sorted(ts)
    ensures After(ts, from) == ts[FirstAfter(ts, from)..]
  {
    if ts != [] {
      AfterIsSuffix(ts[1..], from);
      if ts[0] > from {
        FirstAfterUnique(ts[1..], from, 0);
        assert ts == [ts[0]] + ts[1..];
      }
    }
  }

  lemma {:induction false} AfterTwice(ts: seq<int>, a: int, b: int)
    requires a <= b
    ensures After(After(ts, a), b) == After(ts, b)
  {
    if ts != [] {
      AfterTwice(ts[1..], a, b);
      if ts[0] > a {
        assert After(ts, a)[1..] == After(ts[1..], a);
      }
    }
  }

  lemma {:induction false} NothingAfter(ts: seq<int>, from: int)
    requires forall i :: 0 <= i < |ts| ==> ts[i] <= from
    ensures After(ts, from) == []
  {
    if ts != [] {
      NothingAfter(ts[1..], from);
    }
  }

  /** What trimming leaves is the last minute of the history. */
  lemma LastMinute(ts: seq<int>, h: seq<int>, t: int, now: int)
    requires Agree(ts, h, t) && t <= now
    ensures SameLastMinute(ts, h, now)
  {
    AfterIsSuffix(ts, now - MINUTE);
  }

  lemma TrimAgrees(ts: seq<int>, h: seq<int>, t: int, now: int)
    requires Agree(ts, h, t) && t <= now
    ensures Agree(Trimmed(ts, now), h, now) && Trimmed(ts, now) == After(h, now - MINUTE)
  {
    AfterIsSuffix(ts, now - MINUTE);
    forall from | from >= now - MINUTE ensures After(Trimmed(ts, now), from) == After(h, from) {
      AfterTwice(ts, now - MINUTE, from);
    }
  }

  lemma AppendAgrees(ts: seq<int>, h: seq<int>, now: int)
    requires Agree(ts, h, now)
    ensures Agree(ts + [now], h + [now], now)
  {
    forall from | from >= now - MINUTE ensures After(ts + [now], from) == After(h + [now], from) {
      AfterSnoc(ts, now, from);
      AfterSnoc(h, now, from);
    }
  }

  lemma CheckAgrees(ts: seq<int>, h: seq<int>, t: int, limit: int, now: int, ts': seq<int>, h': seq<int>)
    requires Agree(ts, h, t) && t <= now
    requires ts' == Admit(Trimmed(ts, now), Trimmed(ts, now), limit, now)
    requires h' == Admit(h, After(h, now - MINUTE), limit, now)
    ensures Agree(ts', h', now)
  {
    TrimAgrees(ts, h, t, now);
    AppendAgrees(Trimmed(ts, now), h, now);
  }

  lemma SweepAgrees(ts: seq<int>, h: seq<int>, t: int, now: int)
    requires Agree(ts, h, t) && t <= now && Idle(ts, now)
    ensures Agree([], h, now)
  {
    forall from | from >= now - MINUTE ensures After([], from) == After(h, from) {
      NothingAfter(ts, from);
    }
  }

  lemma AgreeLater(ts: seq<int>, h: seq<int>, t: int, now: int)
    requires Agree(ts, h, t) && t <= now
    ensures Agree(ts, h, now)
  {
  }

  /** The state of the code after one event. */
  function Step(w: Windows, burst: int, e: Event): Windows {
    match e
    case Check(key, limit, now) => CheckStep(w, key, limit + burst, now).0
    case Stats(_, _) => w
    case Sweep(now) => SweepStep(w, now)
  }

  lemma RecordAt(h: Windows, burst: int, e: Event, k: Key)
    ensures Get(Record(h, burst, e), k) ==
            if e.Check? && k == e.key
            then Admit(Get(h, k), After(Get(h, k), e.now - MINUTE), e.limit + burst, e.now)
            else Get(h, k)
  {
  }

  lemma StepChecked(w: Windows, burst: int, e: Event)
    requires e.Check?
    ensures Get(Step(w, burst, e), e.key)
            == Admit(Trimmed(Get(w, e.key), e.now), Trimmed(Get(w, e.key), e.now), e.limit + burst, e.now)
  {
  }

  lemma CheckedKeyAgrees(w: Windows, h: Windows, t: int, burst: int, e: Event)
    requires e.Check? && Agree(Get(w, e.key), Get(h, e.key), t) && t <= e.now
    ensures Agree(Get(Step(w, burst, e), e.key), Get(Record(h, burst, e), e.key), e.now)
  {
    var ts, hs := Get(w, e.key), Get(h, e.key);
    var ts', hs' := Get(Step(w, burst, e), e.key), Get(Record(h, burst, e), e.key);
    StepChecked(w, burst, e);
    RecordAt(h, burst, e, e.key);
    CheckAgrees(ts, hs, t, e.limit + burst, e.now, ts', hs');
  }

  lemma SweptKeyAgrees(w: Windows, h: Windows, t: int, burst: int, e: Event, k: Key)
    requires e.Sweep? && Agree(Get(w, k), Get(h, k), t) && t <= e.now
    ensures Agree(Get(Step(w, burst, e), k), Get(h, k), e.now)
  {
    if Idle(Get(w, k), e.now) {
      SweepAgrees(Get(w, k), Get(h, k), t, e.now);
    } else {
      AgreeLater(Get(w, k), Get(h, k), t, e.now);
    }
  }

  lemma StepAgrees(w: Windows, h: Windows, t: int, burst: int, e: Event, k: Key)
    requires Agree(Get(w, k), Get(h, k), t) && t <= e.now
    ensures Agree(Get(Step(w, burst, e), k), Get(Record(h, burst, e), k), e.now)
  {
    if e.Check? && k == e.key {
      CheckedKeyAgrees(w, h, t, burst, e);
    } else if e.Sweep? {
      SweptKeyAgrees(w, h, t, burst, e, k);
    } else {
      AgreeLater(Get(w, k), Get(h, k), t, e.now);
    }
  }

  lemma StepRefines(w: Windows, h: Windows, t: int, burst: int, e: Event)
    requires Refines(w, h, t) && t <= e.now
    ensures Refines(Step(w, burst, e), Record(h, burst, e), e.now)
  {
    forall k ensures Agree(Get(Step(w, burst, e), k), Get(Record(h, burst, e), k), e.now) {
      StepAgrees(w, h, t, burst, e, k);
    }
  }

  /** What the limiter as coded answers to one event; nothing to a sweep. */
  function Reply(w: Windows, burst: int, e: Event): seq<Answer> {
    match e
    case Check(key, limit, now) => [CheckStep(w, key, limit + burst, now).1]
    case Stats(key, now) => [Tally(After(Get(w, key), now - MINUTE), now)]
    case Sweep(_) => []
  }

  /** Both limiters look at the same times of the last minute. */
  predicate SameLastMinute(ts: seq<int>, h: seq<int>, now: int) {
    Trimmed(ts, now) == After(ts, now - MINUTE) == After(h, now - MINUTE)
  }

  lemma SameTimesSameReply(w: Windows, h: Windows, burst: int, e: Event)
    requires !e.Sweep? ==> SameLastMinute(Get(w, e.key), Get(h, e.key), e.now)
    ensures Reply(w, burst, e) == SimpleReply(h, burst, e)
  {
  }

  lemma ReplyRefines(w: Windows, h: Windows, t: int, burst: int, e: Event)
    requires Refines(w, h, t) && t <= e.now
    ensures Reply(w, burst, e) == SimpleReply(h, burst, e)
  {
    if !e.Sweep? {
      LastMinute(Get(w, e.key), Get(h, e.key), t, e.now);
    }
    SameTimesSameReply(w, h, burst, e);
  }

  function Answers(w: Windows, burst: int, es: seq<Event>): seq<Answer>
    decreases |es|
  {
    if es == [] then [] else Reply(w, burst, es[0]) + Answers(Step(w, burst, es[0]), burst, es[1..])
  }

  /** Every run of checks, statistics and sweeps answers as the simple limiter does. */
  lemma {:induction false} RunRefines(w: Windows, h: Windows, t: int, burst: int, es: seq<Event>)
    requires Refines(w, h, t) && Clocked(es, t)
    ensures Answers(w, burst, es) == SimpleAnswers(h, burst, es)
    decreases |es|
  {
    if es != [] {
      var e := es[0];
      ReplyRefines(w, h, t, burst, e);
      StepRefines(w, h, t, burst, e);
      RunRefines(Step(w, burst, e), Record(h, burst, e), e.now, burst, es[1..]);
    }
  }

  // The run of the code: its final state, its last clock reading, the requests it let through.

  function Final(w: Windows, burst: int, es: seq<Event>): Windows
    decreases |es|
  {
    if es == [] then w else Final(Step(w, burst, es[0]), burst, es[1..])
  }

  function EndTime(es: seq<Event>, t: int): int {
    if es == [] then t else EndTime(es[1..], es[0].now)
  }

  /** The time of `e`, if it is a check of `key` that the code admits. */
  function Passed(w: Windows, burst: int, e: Event, key: Key): seq<int> {
    if e.Check? && e.key == key && CheckStep(w, key, e.limit + burst, e.now).1.allowed then [e.now] else []
  }

  function Admitted(w: Windows, burst: int, es: seq<Event>, key: Key): seq<int>
    decreases |es|
  {
    if es == [] then [] else Passed(w, burst, es[0], key) + Admitted(Step(w, burst, es[0]), burst, es[1..], key)
  }

  lemma RecordIsPassed(w: Windows, h: Windows, t: int, burst: int, e: Event, key: Key)
    requires Agree(Get(w, key), Get(h, key), t) && t <= e.now
    ensures Get(Record(h, burst, e), key) == Get(h, key) + Passed(w, burst, e, key)
  {
    RecordAt(h, burst, e, key);
    LastMinute(Get(w, key), Get(h, key), t, e.now);
  }

  lemma {:induction false} FinalRefines(w: Windows, h: Windows, t: int, burst: int, es: seq<Event>)
    requires Refines(w, h, t) && Clocked(es, t)
    ensures Refines(Final(w, burst, es), History(h, burst, es), EndTime(es, t)) && t <= EndTime(es, t)
    decreases |es|
  {
    if es != [] {
      StepRefines(w, h, t, burst, es[0]);
      FinalRefines(Step(w, burst, es[0]), Record(h, burst, es[0]), es[0].now, burst, es[1..]);
    }
  }

  /** The history is exactly what the code admitted, in order. */
  lemma {:induction false} HistoryIsAdmitted(w: Windows, h: Windows, t: int, burst: int, es: seq<Event>, key: Key)
    requires Refines(w, h, t) && Clocked(es, t)
    ensures Get(History(h, burst, es), key) == Get(h, key) + Admitted(w, burst, es, key)
    decreases |es|
  {
    if es != [] {
      var e := es[0];
      var w', h' := Step(w, burst, e), Record(h, burst, e);
      RecordIsPassed(w, h, t, burst, e, key);
      StepRefines(w, h, t, burst, e);
      HistoryIsAdmitted(w', h', e.now, burst, es[1..], key);
      Regroup(Get(h, key), Passed(w, burst, e, key), Admitted(w', burst, es[1..], key));
    }
  }

  lemma {:induction false} SimpleIgnoresSweeps(h: Windows, burst: int, es: seq<Event>)
    ensures SimpleAnswers(h, burst, es) == SimpleAnswers(h, burst, WithoutSweeps(es))
    decreases |es|
  {
    if es != [] {
      SimpleIgnoresSweeps(Record(h, burst, es[0]), burst, es[1..]);
      if es[0].Sweep? {
        assert WithoutSweeps(es) == WithoutSweeps(es[1..]);
        assert SimpleAnswers(h, burst, es) == SimpleAnswers(h, burst, es[1..]);
      } else {
        assert WithoutSweeps(es)[1..] == WithoutSweeps(es[1..]);
      }
    }
  }

  lemma {:induction false} DroppingSweepsKeepsClock(es: seq<Event>, from: int)
    requires Clocked(es, from)
    ensures Clocked(WithoutSweeps(es), from)
  {
    if es != [] {
      DroppingSweepsKeepsClock(es[1..], es[0].now);
      if es[0].Sweep? {
        if WithoutSweeps(es) != [] {
          assert WithoutSweeps(es) == WithoutSweeps(es[1..]);
        }
      } else {
        assert WithoutSweeps(es)[1..] == WithoutSweeps(es[1..]);
      }
    }
  }

  /** A fresh limiter gives the same answers whether or not the background sweep ever runs. */
  lemma SweepsAreInvisible(burst: int, es: seq<Event>, t: int)
    requires Clocked(es, t)
    ensures Answers(map[], burst, es) == Answers(map[], burst, WithoutSweeps(es))
  {
    RunRefines(map[], map[], t, burst, es);
    SimpleIgnoresSweeps(map[], burst, es);
    DroppingSweepsKeepsClock(es, t);
    RunRefines(map[], map[], t, burst, WithoutSweeps(es));
  }

  lemma TrimmedTwice(ts: seq<int>, now: int)
    ensures Trimmed(Trimmed(ts, now), now) == Trimmed(ts, now)
  {
    FirstAfterIs(ts, now - MINUTE);
    FirstAfterUnique(Trimmed(ts, now), now - MINUTE, 0);
  }

  lemma TrimmedStays(ts: seq<int>, now: int)
    ensures Trimmed(Trimmed(ts, now) + [now], now) == Trimmed(ts, now) + [now]
  {
    FirstAfterIs(ts, now - MINUTE);
    var list := Trimmed(ts, now) + [now];
    assert list[0] > now - MINUTE;
    assert list[0..] == list;
  }

  /** `n` checks of the same key at the same instant. */
  function Burst(w: Windows, key: Key, limit: int, now: int, n: nat): Windows
    decreases n
  {
    if n == 0 then w else CheckStep(Burst(w, key, limit, now, n - 1), key, limit, now).0
  }

  /** After `n` checks at this instant the window holds `n` times more, up to the limit. */
  lemma {:induction false} BurstFills(w: Windows, key: Key, limit: int, now: int, n: nat)
    requires n > 0 && |Trimmed(Get(w, key), now)| <= limit
    ensures |Trimmed(Get(Burst(w, key, limit, now, n), key), now)| == Min(|Trimmed(Get(w, key), now)| + n, limit)
    decreases n
  {
    var v := Burst(w, key, limit, now, n - 1);
    if n > 1 {
      BurstFills(w, key, limit, now, n - 1);
    }
    StepChecked(v, 0, Check(key, limit, now));
    AdmitFills(Trimmed(Get(v, key), now), Get(v, key), limit, now);
  }

  lemma AdmitFills(inWindow: seq<int>, ts: seq<int>, limit: int, now: int)
    requires inWindow == Trimmed(ts, now) && |inWindow| <= limit
    ensures |Trimmed(Admit(inWindow, inWindow, limit, now), now)| == Min(|inWindow| + 1, limit)
  {
    TrimmedStays(ts, now);
    TrimmedTwice(ts, now);
  }

  function Min(a: int, b: int): int {
    if a <= b then a else b
  }

  /** `remaining` is exact: of the checks that follow at the same instant, that many pass, and then none. */
  lemma RemainingIsExact(w: Windows, key: Key, limit: int, now: int, n: nat)
    requires CheckStep(w, key, limit, now).1.allowed && n > 0
    ensures CheckStep(Burst(w, key, limit, now, n), key, limit, now).1.allowed
            <==> n <= CheckStep(w, key, limit, now).1.remaining
  {
    BurstFills(w, key, limit, now, n);
  }

  // ---------------------------------------------------------------- the bound

  predicate WithinMinute(x: int, t: int) {
    t - 60_000_000_000 < x <= t
  }

  /** How many admissions lie in the window (t - 60s, t]. */
  function InWindow(h: seq<int>, t: int): nat {
    if h == [] then 0 else (if WithinMinute(h[0], t) then 1 else 0) + InWindow(h[1..], t)
  }

  /** Any two admissions at least `limit` positions apart are at least a minute apart. */
  ghost predicate Spaced(h: seq<int>, limit: nat) {
    forall i, j :: 0 <= i && i + limit <= j < |h| ==> h[j] - h[i] >= MINUTE
  }

  ghost predicate KeyOk(h: seq<int>, limit: int, t: int) {
    && Sorted(h) && (forall i :: 0 <= i < |h| ==> h[i] <= t)
    && (limit <= 0 ==> h == []) && (limit > 0 ==> Spaced(h, limit))
  }

  /** On this key, every check of the run uses this limit. */
  predicate FixedLimit(es: seq<Event>, key: Key, limit: int) {
    es == [] || ((es[0].Check? && es[0].key == key ==> es[0].limit == limit) && FixedLimit(es[1..], key, limit))
  }

  lemma AppendKeepsSpaced(h: seq<int>, limit: nat, now: int)
    requires Sorted(h) && Spaced(h, limit)
    requires forall i :: 0 <= i <= |h| - limit && i < |h| ==> h[i] <= now - MINUTE
    requires limit > 0
    ensures Spaced(h + [now], limit)
  {
  }

  lemma AdmitKeepsKeyOk(h: seq<int>, limit: int, t: int, now: int)
    requires KeyOk(h, limit, t) && t <= now
    ensures KeyOk(Admit(h, After(h, now - MINUTE), limit, now), limit, now)
  {
    AfterIsSuffix(h, now - MINUTE);
    FirstAfterIs(h, now - MINUTE);
    if |After(h, now - MINUTE)| < limit {
      AppendKeepsSpaced(h, limit, now);
    }
  }

  lemma RecordKeepsKeyOk(h: Windows, burst: int, e: Event, key: Key, limit: int, t: int)
    requires KeyOk(Get(h, key), limit + burst, t) && t <= e.now
    requires e.Check? && e.key == key ==> e.limit == limit
    ensures KeyOk(Get(Record(h, burst, e), key), limit + burst, e.now)
  {
    RecordAt(h, burst, e, key);
    KeyOkStep(Get(h, key), Get(Record(h, burst, e), key), limit + burst, t, e.now, e.Check? && e.key == key);
  }

  lemma KeyOkStep(h: seq<int>, h': seq<int>, limit: int, t: int, now: int, checked: bool)
    requires KeyOk(h, limit, t) && t <= now
    requires h' == if checked then Admit(h, After(h, now - MINUTE), limit, now) else h
    ensures KeyOk(h', limit, now)
  {
    if checked {
      AdmitKeepsKeyOk(h, limit, t, now);
    } else {
      KeyOkLater(h, limit, t, now);
    }
  }

  lemma KeyOkLater(h: seq<int>, limit: int, t: int, now: int)
    requires KeyOk(h, limit, t) && t <= now
    ensures KeyOk(h, limit, now)
  {
  }

  lemma {:induction false} HistoryKeepsKeyOk(h: Windows, burst: int, es: seq<Event>, key: Key, limit: int, t: int)
    requires KeyOk(Get(h, key), limit + burst, t) && Clocked(es, t) && FixedLimit(es, key, limit)
    ensures KeyOk(Get(History(h, burst, es), key), limit + burst, EndTime(es, t))
    decreases |es|
  {
    if es != [] {
      RecordKeepsKeyOk(h, burst, es[0], key, limit, t);
      HistoryKeepsKeyOk(Record(h, burst, es[0]), burst, es[1..], key, limit, es[0].now);
    }
  }

  /** In a sorted list the window count is the difference of two cut points. */
  lemma {:induction false} InWindowIsSlice(h: seq<int>, t: int)
    requires Sorted(h)
    ensures InWindow(h, t) == FirstAfter(h, t) - FirstAfter(h, t - MINUTE)
  {
    if h != [] {
      InWindowIsSlice(h[1..], t);
      if h[0] > t {
        FirstAfterUnique(h[1..], t, 0);
      }
      if h[0] > t - MINUTE {
        FirstAfterUnique(h[1..], t - MINUTE, 0);
      }
    }
  }

  lemma SpacedBoundsWindow(h: seq<int>, limit: int, t: int)
    requires Sorted(h) && (limit <= 0 ==> h == []) && (limit > 0 ==> Spaced(h, limit))
    ensures InWindow(h, t) <= if limit > 0 then limit else 0
  {
    InWindowIsSlice(h, t);
    var a, b := FirstAfter(h, t - MINUTE), FirstAfter(h, t);
    FirstAfterIs(h, t - MINUTE);
    FirstAfterIs(h, t);
    if limit > 0 && a + limit < |h| {
      assert h[a + limit] - h[a] >= MINUTE;
    }
  }

  /**
   The limiter's guarantee: whatever the run, whatever other keys do and whenever the sweep
   runs, any window (t - 60s, t] holds at most limit + burst admitted requests of a key whose
   limit is fixed.
   */
  lemma AnyWindowIsBounded(burst: int, es: seq<Event>, key: Key, limit: int, t: int, from: int)
    requires Clocked(es, from) && FixedLimit(es, key, limit)
    ensures InWindow(Admitted(map[], burst, es, key), t) <= if limit + burst > 0 then limit + burst else 0
  {
    HistoryKeepsKeyOk(map[], burst, es, key, limit, from);
    HistoryIsAdmitted(map[], map[], from, burst, es, key);
    assert Get(History(map[], burst, es), key) == Admitted(map[], burst, es, key);
    SpacedBoundsWindow(Get(History(map[], burst, es), key), limit + burst, t);
  }

  // ---------------------------------------------------------------- what the answers mean

  ghost predicate UpTo(h: seq<int>, t: int) {
    Sorted(h) && forall i :: 0 <= i < |h| ==> h[i] <= t
  }

  lemma {:induction false} HistoryIsUpTo(h: Windows, burst: int, es: seq<Event>, key: Key, t: int)
    requires UpTo(Get(h, key), t) && Clocked(es, t)
    ensures UpTo(Get(History(h, burst, es), key), EndTime(es, t)) && t <= EndTime(es, t)
    decreases |es|
  {
    if es != [] {
      RecordAt(h, burst, es[0], key);
      HistoryIsUpTo(Record(h, burst, es[0]), burst, es[1..], key, es[0].now);
    }
  }

  /** The reset time: a minute after the first admission of the last minute, or after now if there is none. */
  ghost predicate ResetIs(h: seq<int>, now: int, reset: int) {
    if InWindow(h, now) == 0 then reset == now + 60_000_000_000
    else exists i :: 0 <= i < |h| && WithinMinute(h[i], now) && reset == h[i] + 60_000_000_000
                     && forall j :: 0 <= j < |h| && WithinMinute(h[j], now) ==> h[i] <= h[j]
  }

  lemma LastMinuteMeans(h: seq<int>, now: int)
    requires UpTo(h, now)
    ensures |After(h, now - MINUTE)| == InWindow(h, now)
    ensures ResetIs(h, now, if After(h, now - MINUTE) == [] then now + MINUTE else After(h, now - MINUTE)[0] + MINUTE)
  {
    InWindowIsSlice(h, now);
    AfterIsSuffix(h, now - MINUTE);
    FirstAfterIs(h, now - MINUTE);
    FirstAfterUnique(h, now, |h|);
    var i := FirstAfter(h, now - MINUTE);
    if i < |h| {
      assert WithinMinute(h[i], now) && After(h, now - MINUTE)[0] == h[i];
      assert forall j :: 0 <= j < |h| && WithinMinute(h[j], now) ==> h[i] <= h[j];
    }
  }

  /** The answer to a check with this limit, burst included, of a key whose admissions are `h`. */
  ghost predicate CheckTells(h: seq<int>, limit: int, now: int, a: Answer) {
    && a.Checked? && (a.allowed <==> InWindow(h, now) < limit)
    && a.remaining == (if InWindow(h, now) < limit then limit - InWindow(h, now) - 1 else 0)
    && ResetIs(h, now, a.reset)
  }

  ghost predicate StatsTell(h: seq<int>, now: int, a: Answer) {
    a.Counted? && a.count == InWindow(h, now) && ResetIs(h, now, a.reset)
  }

  lemma SimpleAnswersMean(h: Windows, burst: int, key: Key, limit: int, now: int)
    requires UpTo(Get(h, key), now)
    ensures CheckTells(Get(h, key), limit + burst, now, SimpleReply(h, burst, Check(key, limit, now))[0])
    ensures StatsTell(Get(h, key), now, SimpleReply(h, burst, Stats(key, now))[0])
  {
    LastMinuteMeans(Get(h, key), now);
  }

  /**
   After any run, a check is allowed exactly when fewer than limit + burst requests of the key were
   admitted in the last 60 seconds; `remaining` is what is left after it; statistics report that
   number; and both give the same reset time.
   */
  lemma AnswersMean(burst: int, es: seq<Event>, key: Key, limit: int, now: int, from: int)
    requires Clocked(es, from) && EndTime(es, from) <= now
    ensures var w, h := Final(map[], burst, es), Admitted(map[], burst, es, key);
            && CheckTells(h, limit + burst, now, Reply(w, burst, Check(key, limit, now))[0])
            && StatsTell(h, now, Reply(w, burst, Stats(key, now))[0])
  {
    var w, h := Final(map[], burst, es), History(map[], burst, es);
    FinalRefines(map[], map[], from, burst, es);
    HistoryIsUpTo(map[], burst, es, key, from);
    HistoryIsAdmitted(map[], map[], from, burst, es, key);
    assert Get(h, key) == Admitted(map[], burst, es, key);
    SimpleAnswersMean(h, burst, key, limit, now);
    ReplyRefines(w, h, EndTime(es, from), burst, Stats(key, now));
    ReplyRefines(w, h, EndTime(es, from), burst, Check(key, limit, now));
  }

  /** The sweep keeps exactly the keys whose last admission is at most 60 seconds old, with all their times. */
  lemma SweepKeepsRecent(w: Windows, now: int, key: Key)
    ensures key in SweepStep(w, now) <==>
            key in w && w[key] != [] && now - w[key][|w[key]| - 1] <= 60_000_000_000
    ensures key in SweepStep(w, now) ==> SweepStep(w, now)[key] == w[key]
  {
  }

  /** The tail of the same history seen later is shorter once its first entry has expired. */
  lemma LaterWindowIsShorter(h: seq<int>, now: int, later: int)
    requires Sorted(h) && After(h, now - MINUTE) != [] && now <= later
    requires later >= After(h, now - MINUTE)[0] + MINUTE
    ensures |After(h, later - MINUTE)| < |After(h, now - MINUTE)|
  {
    AfterIsSuffix(h, now - MINUTE);
    AfterIsSuffix(h, later - MINUTE);
    FirstAfterIs(h, later - MINUTE);
    assert h[FirstAfter(h, now - MINUTE)] <= later - MINUTE;
  }

  lemma RefusalShrinks(h: seq<int>, limit: int, t: int, now: int, later: int)
    requires KeyOk(h, limit, t) && t <= now <= later && limit > 0
    requires |After(h, now - MINUTE)| >= limit && later >= After(h, now - MINUTE)[0] + MINUTE
    ensures |After(h, later - MINUTE)| < limit
  {
    SpacedBoundsWindow(h, limit, now);
    InWindowIsSlice(h, now);
    AfterIsSuffix(h, now - MINUTE);
    FirstAfterUnique(h, now, |h|);
    LaterWindowIsShorter(h, now, later);
  }

  /**
   A refusal's reset time is honest: after any run `es`, if a check at `now` is refused, then a
   check at or after the reset time it gave is admitted, provided that nothing was admitted on
   the key in the run `mid` between the two.
   */
  lemma AdmittedAfterReset(burst: int, es: seq<Event>, mid: seq<Event>, key: Key, limit: int,
                           now: int, later: int, from: int)
    requires Clocked(es, from) && FixedLimit(es, key, limit) && limit + burst > 0 && EndTime(es, from) <= now
    requires Clocked(mid, now) && EndTime(mid, now) <= later
    requires var (w, refusal) := CheckStep(Final(map[], burst, es), key, limit + burst, now);
             !refusal.allowed && later >= refusal.reset && Admitted(w, burst, mid, key) == []
    ensures var w := CheckStep(Final(map[], burst, es), key, limit + burst, now).0;
            CheckStep(Final(w, burst, mid), key, limit + burst, later).1.allowed
  {
    var h, t := History(map[], burst, es), EndTime(es, from);
    HistoryKeepsKeyOk(map[], burst, es, key, limit, from);
    FinalRefines(map[], map[], from, burst, es);
    RefusalThenAdmission(Final(map[], burst, es), h, t, burst, mid, key, limit, now, later);
  }

  lemma RefusalThenAdmission(w: Windows, h: Windows, t: int, burst: int, mid: seq<Event>, key: Key, limit: int,
                             now: int, later: int)
    requires Refines(w, h, t) && KeyOk(Get(h, key), limit + burst, t) && limit + burst > 0 && t <= now
    requires Clocked(mid, now) && EndTime(mid, now) <= later
    requires var (w', refusal) := CheckStep(w, key, limit + burst, now);
             !refusal.allowed && later >= refusal.reset && Admitted(w', burst, mid, key) == []
    ensures CheckStep(Final(CheckStep(w, key, limit + burst, now).0, burst, mid), key, limit + burst, later).1.allowed
  {
    var e := Check(key, limit, now);
    var w', h' := Step(w, burst, e), Record(h, burst, e);
    LastMinute(Get(w, key), Get(h, key), t, now);
    RecordIsPassed(w, h, t, burst, e, key);
    StepRefines(w, h, t, burst, e);
    var w'' := Final(w', burst, mid);
    QuietRunAgrees(w', h', now, burst, mid, key);
    RefusalShrinks(Get(h, key), limit + burst, t, now, later);
    LastMinute(Get(w'', key), Get(h, key), EndTime(mid, now), later);
  }

  /** A run that admits nothing on a key leaves the key's history as it was. */
  lemma QuietRunAgrees(w: Windows, h: Windows, t: int, burst: int, mid: seq<Event>, key: Key)
    requires Refines(w, h, t) && Clocked(mid, t) && Admitted(w, burst, mid, key) == []
    ensures Agree(Get(Final(w, burst, mid), key), Get(h, key), EndTime(mid, t)) && t <= EndTime(mid, t)
  {
    FinalRefines(w, h, t, burst, mid);
    HistoryIsAdmitted(w, h, t, burst, mid, key);
    assert Get(h, key) + [] == Get(h, key);
  }
}
