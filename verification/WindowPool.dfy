/**
 The rate limiter's check takes two steps: it fetches the key's window from the map, and only
 then locks the window. The background sweep, or another call, can come in between. Here windows
 have an identity, one event is one critical section, and it is proved exactly when the limiter
 still does what the one-step limiter does.
 */
module WindowPool {
  import opened Common
  import opened RateLimiter

  /** A call that has fetched a window and not yet locked it. */
  datatype Held = Checking(key: Key, id: nat) | Counting(key: Key, id: nat)

  /** `index` is the map and `lists` what each window holds, in the map or not. */
  datatype Pool = Pool(index: map<Key, nat>, lists: map<nat, seq<int>>, held: map<nat, Held>)

  const EMPTY := Pool(map[], map[], map[])

  datatype PoolEvent =
    | GetWindow(c: nat, key: Key, newId: nat)
    | LockCheck(c: nat, limit: int, now: int)
    | FindWindow(c: nat, key: Key, now: int)
    | LockStats(c: nat, now: int)
    | CleanKey(key: Key, began: int)

  predicate Enabled(s: Pool, e: PoolEvent) {
    match e
    case GetWindow(c, _, newId) => c !in s.held && newId !in s.lists
    case LockCheck(c, _, _) => c in s.held && s.held[c].Checking? && s.held[c].id in s.lists
    case FindWindow(c, _, _) => c !in s.held
    case LockStats(c, _) => c in s.held && s.held[c].Counting? && s.held[c].id in s.lists
    case CleanKey(_, _) => true
  }

  /** getWindow: the window of the key, a new one named `newId` if there is none. */
  function Fetched(s: Pool, key: Key, newId: nat): Pool {
    if key in s.index then s else s.(index := s.index[key := newId], lists := s.lists[newId := []])
  }

  /** The sweep, begun at `began`, comes to this key: an idle window leaves the map; calls that hold it keep it. */
  function Cleaned(s: Pool, key: Key, began: int): Pool {
    if key in s.index && s.index[key] in s.lists && Idle(s.lists[s.index[key]], began)
    then s.(index := s.index - {key})
    else s
  }

  /** The locked part of check, on a window fetched earlier. */
  function CheckedOn(s: Pool, id: nat, limit: int, now: int): Pool
    requires id in s.lists
  {
    var ts := Trimmed(s.lists[id], now);
    s.(lists := s.lists[id := Admit(ts, ts, limit, now)])
  }

  function Drop(s: Pool, c: nat): Pool {
    s.(held := s.held - {c})
  }

  function Next(s: Pool, burst: int, e: PoolEvent): Pool
    requires Enabled(s, e)
  {
    match e
    case GetWindow(c, key, newId) =>
      var t := Fetched(s, key, newId);
      t.(held := t.held[c := Checking(key, t.index[key])])
    case LockCheck(c, limit, now) => Drop(CheckedOn(s, s.held[c].id, limit + burst, now), c)
    case FindWindow(c, key, _) =>
      if key in s.index then s.(held := s.held[c := Counting(key, s.index[key])]) else s
    case LockStats(c, _) => Drop(s, c)
    case CleanKey(key, began) => Cleaned(s, key, began)
  }

  function PoolReply(s: Pool, burst: int, e: PoolEvent): seq<Answer>
    requires Enabled(s, e)
  {
    match e
    case LockCheck(c, limit, now) => [Verdict(Trimmed(s.lists[s.held[c].id], now), limit + burst, now)]
    case FindWindow(_, key, now) => if key in s.index then [] else [Tally([], now)]
    case LockStats(c, now) => [Tally(After(s.lists[s.held[c].id], now - MINUTE), now)]
    case _ => []
  }

  /** The call that the event is of, as a one-step event: fetching and sweeping are none. */
  function AsOneStep(s: Pool, e: PoolEvent): seq<Event>
    requires Enabled(s, e)
  {
    match e
    case GetWindow(_, _, _) => []
    case LockCheck(c, limit, now) => [Check(s.held[c].key, limit, now)]
    case FindWindow(_, key, now) => if key in s.index then [] else [Stats(key, now)]
    case LockStats(c, now) => [Stats(s.held[c].key, now)]
    case CleanKey(_, _) => []
  }

  // ---------------------------------------------------------------- what holds in between

  function View(s: Pool): Windows {
    map k | k in s.index && s.index[k] in s.lists :: s.lists[s.index[k]]
  }

  predicate HeldOk(s: Pool, k: Held) {
    k.id in s.lists && forall key :: key in s.index && s.index[key] == k.id ==> key == k.key
  }

  ghost predicate PoolOk(s: Pool) {
    && (forall k :: k in s.index ==> s.index[k] in s.lists)
    && (forall k, m :: k in s.index && m in s.index && s.index[k] == s.index[m] ==> k == m)
    && (forall c :: c in s.held ==> HeldOk(s, s.held[c]))
  }

  /** The window is no longer, or not yet, in the map. */
  predicate Dropped(s: Pool, id: nat) {
    id in s.lists && forall k :: k in s.index ==> s.index[k] != id
  }

  predicate AllBefore(ts: seq<int>, t: int) {
    forall i :: 0 <= i < |ts| ==> ts[i] <= t
  }

  /** Windows outside the map hold nothing of the last minute. */
  ghost predicate DroppedAreStale(s: Pool, t: int) {
    forall id :: Dropped(s, id) ==> AllBefore(s.lists[id], t - MINUTE)
  }

  ghost predicate Good(s: Pool, h: Windows, t: int) {
    PoolOk(s) && Refines(View(s), h, t) && DroppedAreStale(s, t)
  }

  /** The window that call `c` holds is still the one in the map. */
  predicate InPlace(s: Pool, c: nat) {
    c in s.held && s.held[c].key in s.index && s.index[s.held[c].key] == s.held[c].id
  }

  /** The guard of the refusing branch, on the window that the call holds. */
  predicate Full(s: Pool, c: nat, limit: int, now: int) {
    c in s.held && s.held[c].id in s.lists && |Trimmed(s.lists[s.held[c].id], now)| >= limit
  }

  /** A check that admits does so on the window in the map. */
  predicate AdmitsInPlace(s: Pool, burst: int, e: PoolEvent) {
    e.LockCheck? ==> InPlace(s, e.c) || Full(s, e.c, e.limit + burst, e.now)
  }

  /** Every call finds its window still in the map. */
  predicate FindsInPlace(s: Pool, e: PoolEvent) {
    e.LockCheck? || e.LockStats? ==> InPlace(s, e.c)
  }

  /** The time after an event at or after `t`: a sweep reads the clock when it begins, not at each key. */
  function TimeOf(e: PoolEvent, t: int): int {
    match e
    case GetWindow(_, _, _) => t
    case CleanKey(_, began) => if began > t then began else t
    case _ => e.now
  }

  // ---------------------------------------------------------------- one event

  lemma FetchIsInvisible(s: Pool, key: Key, newId: nat, k: Key)
    requires PoolOk(s) && newId !in s.lists
    ensures Get(View(Fetched(s, key, newId)), k) == Get(View(s), k)
  {
  }

  /** Other calls may lock windows while the sweep is on its way; it drops nothing of the last minute. */
  lemma CleanAgrees(s: Pool, h: Windows, t: int, key: Key, began: int, now: int, k: Key)
    requires PoolOk(s) && Refines(View(s), h, t) && t <= now && began <= now
    ensures Agree(Get(View(Cleaned(s, key, began)), k), Get(h, k), now)
  {
    assert Agree(Get(View(s), k), Get(h, k), t);
    if Cleaned(s, key, began) != s && k == key {
      SweepAgrees(Get(View(s), k), Get(h, k), t, now);
    } else {
      assert Get(View(Cleaned(s, key, began)), k) == Get(View(s), k);
      AgreeLater(Get(View(s), k), Get(h, k), t, now);
    }
  }

  /** If the fetched window is still in the map when it is locked, the two steps are one. */
  lemma CheckInPlaceIsOneStep(s: Pool, key: Key, limit: int, now: int, k: Key)
    requires PoolOk(s) && key in s.index
    ensures Get(View(CheckedOn(s, s.index[key], limit, now)), k) == Get(CheckStep(View(s), key, limit, now).0, k)
    ensures s.lists[s.index[key]] == Get(View(s), key)
  {
  }

  lemma CheckElsewhereIsInvisible(s: Pool, id: nat, limit: int, now: int)
    requires Dropped(s, id)
    ensures View(CheckedOn(s, id, limit, now)) == View(s)
  {
  }

  lemma NextIsOk(s: Pool, burst: int, e: PoolEvent)
    requires PoolOk(s) && Enabled(s, e)
    ensures PoolOk(Next(s, burst, e))
  {
    forall c | c in Next(s, burst, e).held ensures HeldOk(Next(s, burst, e), Next(s, burst, e).held[c]) {
      if c in s.held {
        assert HeldOk(s, s.held[c]);
      }
    }
  }

  lemma SameTimesAgree(w: Windows, w': Windows, h: Windows, t: int, now: int)
    requires Refines(w, h, t) && t <= now && forall k :: Get(w', k) == Get(w, k)
    ensures Refines(w', h, now)
  {
    forall k ensures Agree(Get(w', k), Get(h, k), now) {
      AgreeLater(Get(w, k), Get(h, k), t, now);
    }
  }

  /** A check that is late on a dropped window finds nothing of the last minute there. */
  lemma NothingLeft(s: Pool, c: nat, t: int, now: int)
    requires PoolOk(s) && DroppedAreStale(s, t) && t <= now && c in s.held && !InPlace(s, c)
    ensures Dropped(s, s.held[c].id) && Trimmed(s.lists[s.held[c].id], now) == []
  {
    var ts := s.lists[s.held[c].id];
    assert HeldOk(s, s.held[c]);
    assert Dropped(s, s.held[c].id);
    assert AllBefore(ts, now - MINUTE);
    FirstAfterUnique(ts, now - MINUTE, |ts|);
  }

  lemma LockRefines(s: Pool, h: Windows, t: int, burst: int, e: PoolEvent)
    requires Good(s, h, t) && Enabled(s, e) && e.LockCheck? && t <= e.now && AdmitsInPlace(s, burst, e)
    ensures Refines(View(Next(s, burst, e)), Record(h, burst, Check(s.held[e.c].key, e.limit, e.now)), e.now)
  {
    var key, id := s.held[e.c].key, s.held[e.c].id;
    var one := Check(key, e.limit, e.now);
    var h' := Record(h, burst, one);
    assert View(Next(s, burst, e)) == View(CheckedOn(s, id, e.limit + burst, e.now));
    if InPlace(s, e.c) {
      StepRefines(View(s), h, t, burst, one);
      forall k ensures Get(View(Next(s, burst, e)), k) == Get(Step(View(s), burst, one), k) {
        CheckInPlaceIsOneStep(s, key, e.limit + burst, e.now, k);
      }
      SameTimesAgree(Step(View(s), burst, one), View(Next(s, burst, e)), h', e.now, e.now);
    } else {
      NothingLeft(s, e.c, t, e.now);
      CheckElsewhereIsInvisible(s, id, e.limit + burst, e.now);
      forall k ensures Agree(Get(View(s), k), Get(h', k), e.now) {
        RecordAt(h, burst, one, k);
        AgreeLater(Get(View(s), k), Get(h, k), t, e.now);
      }
    }
  }

  lemma NextRefines(s: Pool, h: Windows, t: int, burst: int, e: PoolEvent)
    requires Good(s, h, t) && Enabled(s, e) && t <= TimeOf(e, t) && AdmitsInPlace(s, burst, e)
    ensures Refines(View(Next(s, burst, e)), History(h, burst, AsOneStep(s, e)), TimeOf(e, t))
  {
    var s' := Next(s, burst, e);
    match e
    case GetWindow(_, key, newId) =>
      forall k ensures Get(View(s'), k) == Get(View(s), k) {
        FetchIsInvisible(s, key, newId, k);
      }
      SameTimesAgree(View(s), View(s'), h, t, t);
    case LockCheck(_, _, _) =>
      LockRefines(s, h, t, burst, e);
    case FindWindow(_, _, now) =>
      SameTimesAgree(View(s), View(s'), h, t, now);
    case LockStats(_, now) =>
      SameTimesAgree(View(s), View(s'), h, t, now);
    case CleanKey(key, began) =>
      forall k ensures Agree(Get(View(s'), k), Get(h, k), TimeOf(e, t)) {
        CleanAgrees(s, h, t, key, began, TimeOf(e, t), k);
      }
  }

  lemma NextIsStale(s: Pool, h: Windows, t: int, burst: int, e: PoolEvent, id: nat)
    requires Good(s, h, t) && Enabled(s, e) && t <= TimeOf(e, t) && AdmitsInPlace(s, burst, e)
    requires Dropped(Next(s, burst, e), id)
    ensures AllBefore(Next(s, burst, e).lists[id], TimeOf(e, t) - MINUTE)
  {
    if Dropped(s, id) {
      assert AllBefore(s.lists[id], t - MINUTE);
      if e.LockCheck? && s.held[e.c].id == id {
        NothingLeft(s, e.c, t, e.now);
      }
    } else {
      var k := DroppedBySweep(s, burst, e, id);
      assert Agree(Get(View(s), k), Get(h, k), t);
    }
  }

  /** Only a sweep takes a window out of the map, and only an idle one. */
  lemma DroppedBySweep(s: Pool, burst: int, e: PoolEvent, id: nat) returns (k: Key)
    requires Enabled(s, e) && !Dropped(s, id) && Dropped(Next(s, burst, e), id)
    ensures e.CleanKey? && k in s.index && s.index[k] == id && id in s.lists && Idle(s.lists[id], e.began)
  {
    if e.GetWindow? {
      assert Next(s, burst, e).index[e.key] == Next(s, burst, e).held[e.c].id;
    }
    assert id in s.lists;
    k :| k in s.index && s.index[k] == id;
    assert k !in Next(s, burst, e).index;
  }

  lemma NextIsGood(s: Pool, h: Windows, t: int, burst: int, e: PoolEvent)
    requires Good(s, h, t) && Enabled(s, e) && t <= TimeOf(e, t) && AdmitsInPlace(s, burst, e)
    ensures Good(Next(s, burst, e), History(h, burst, AsOneStep(s, e)), TimeOf(e, t))
  {
    NextIsOk(s, burst, e);
    NextRefines(s, h, t, burst, e);
    forall id | Dropped(Next(s, burst, e), id)
      ensures AllBefore(Next(s, burst, e).lists[id], TimeOf(e, t) - MINUTE)
    {
      NextIsStale(s, h, t, burst, e, id);
    }
  }

  /** The checks' decisions among the answers. */
  function Decisions(answers: seq<Answer>): seq<bool> {
    if answers == [] then []
    else (if answers[0].Checked? then [answers[0].allowed] else []) + Decisions(answers[1..])
  }

  /** A window that is still in the map shows the last minute of the key's history. */
  lemma HeldSees(s: Pool, h: Windows, t: int, c: nat, now: int)
    requires PoolOk(s) && Refines(View(s), h, t) && t <= now && c in s.held && InPlace(s, c)
    ensures s.held[c].id in s.lists && SameLastMinute(s.lists[s.held[c].id], Get(h, s.held[c].key), now)
  {
    var key := s.held[c].key;
    assert Get(View(s), key) == s.lists[s.held[c].id];
    LastMinute(Get(View(s), key), Get(h, key), t, now);
  }

  lemma SeenReply(s: Pool, h: Windows, burst: int, e: PoolEvent)
    requires Enabled(s, e)
    requires e.LockCheck? || e.LockStats? ==>
               SameLastMinute(s.lists[s.held[e.c].id], Get(h, s.held[e.c].key), e.now)
    requires e.FindWindow? && e.key !in s.index ==> After(Get(h, e.key), e.now - MINUTE) == []
    ensures PoolReply(s, burst, e) == SimpleAnswers(h, burst, AsOneStep(s, e))
  {
    if AsOneStep(s, e) != [] {
      OneAnswer(h, burst, AsOneStep(s, e)[0]);
    }
  }

  lemma OneAnswer(h: Windows, burst: int, e: Event)
    ensures SimpleAnswers(h, burst, [e]) == SimpleReply(h, burst, e)
  {
  }

  lemma ReplyInPlace(s: Pool, h: Windows, t: int, burst: int, e: PoolEvent)
    requires Good(s, h, t) && Enabled(s, e) && t <= TimeOf(e, t) && FindsInPlace(s, e)
    ensures PoolReply(s, burst, e) == SimpleAnswers(h, burst, AsOneStep(s, e))
  {
    if e.LockCheck? || e.LockStats? {
      HeldSees(s, h, t, e.c, e.now);
    } else if e.FindWindow? && e.key !in s.index {
      LastMinute(Get(View(s), e.key), Get(h, e.key), t, e.now);
    }
    SeenReply(s, h, burst, e);
  }

  lemma DecisionInPlace(s: Pool, h: Windows, t: int, burst: int, e: PoolEvent)
    requires Good(s, h, t) && Enabled(s, e) && t <= TimeOf(e, t) && AdmitsInPlace(s, burst, e)
    ensures Decisions(PoolReply(s, burst, e)) == Decisions(SimpleAnswers(h, burst, AsOneStep(s, e)))
  {
    if e.LockCheck? && !InPlace(s, e.c) {
      NothingLeft(s, e.c, t, e.now);
    } else if !e.LockStats? {
      ReplyInPlace(s, h, t, burst, e);
    }
  }

  // ---------------------------------------------------------------- runs

  predicate PoolClocked(es: seq<PoolEvent>, t: int) {
    es == [] || (t <= TimeOf(es[0], t) && PoolClocked(es[1..], TimeOf(es[0], t)))
  }

  predicate AllEnabled(s: Pool, burst: int, es: seq<PoolEvent>)
    decreases |es|
  {
    es == [] || (Enabled(s, es[0]) && AllEnabled(Next(s, burst, es[0]), burst, es[1..]))
  }

  function PoolAnswers(s: Pool, burst: int, es: seq<PoolEvent>): seq<Answer>
    requires AllEnabled(s, burst, es)
    decreases |es|
  {
    if es == [] then [] else PoolReply(s, burst, es[0]) + PoolAnswers(Next(s, burst, es[0]), burst, es[1..])
  }

  /** The same calls in one step each, at the moment of the lock. */
  function OneSteps(s: Pool, burst: int, es: seq<PoolEvent>): seq<Event>
    requires AllEnabled(s, burst, es)
    decreases |es|
  {
    if es == [] then [] else AsOneStep(s, es[0]) + OneSteps(Next(s, burst, es[0]), burst, es[1..])
  }

  predicate AllAdmitInPlace(s: Pool, burst: int, es: seq<PoolEvent>)
    requires AllEnabled(s, burst, es)
    decreases |es|
  {
    es == [] || (AdmitsInPlace(s, burst, es[0]) && AllAdmitInPlace(Next(s, burst, es[0]), burst, es[1..]))
  }

  predicate AllFindInPlace(s: Pool, burst: int, es: seq<PoolEvent>)
    requires AllEnabled(s, burst, es)
    decreases |es|
  {
    es == [] || (FindsInPlace(s, es[0]) && AllFindInPlace(Next(s, burst, es[0]), burst, es[1..]))
  }

  /** `h` with what the code admits at this event. */
  function Logged(s: Pool, h: Windows, burst: int, e: PoolEvent): Windows
    requires Enabled(s, e)
  {
    if !e.LockCheck? then h
    else
      var key := s.held[e.c].key;
      h[key := if Full(s, e.c, e.limit + burst, e.now) then Get(h, key) else Get(h, key) + [e.now]]
  }

  /** Every request that the code admits in the run, key by key. */
  function Log(s: Pool, h: Windows, burst: int, es: seq<PoolEvent>): Windows
    requires AllEnabled(s, burst, es)
    decreases |es|
  {
    if es == [] then h else Log(Next(s, burst, es[0]), Logged(s, h, burst, es[0]), burst, es[1..])
  }

  /** In every state of the run the map agrees with the log of what was admitted. */
  ghost predicate AgreesThroughout(s: Pool, h: Windows, t: int, burst: int, es: seq<PoolEvent>)
    requires AllEnabled(s, burst, es)
    decreases |es|
  {
    && Refines(View(s), h, t)
    && (es != [] ==>
          AgreesThroughout(Next(s, burst, es[0]), Logged(s, h, burst, es[0]), TimeOf(es[0], t), burst, es[1..]))
  }

  lemma SeenIsRecorded(s: Pool, h: Windows, burst: int, e: PoolEvent)
    requires Enabled(s, e) && e.LockCheck?
    requires Full(s, e.c, e.limit + burst, e.now)
             <==> |After(Get(h, s.held[e.c].key), e.now - MINUTE)| >= e.limit + burst
    ensures Logged(s, h, burst, e) == History(h, burst, AsOneStep(s, e))
  {
    OneRecord(h, burst, AsOneStep(s, e)[0]);
  }

  lemma OneRecord(h: Windows, burst: int, e: Event)
    ensures History(h, burst, [e]) == Record(h, burst, e)
  {
  }

  lemma LoggedIsRecorded(s: Pool, h: Windows, t: int, burst: int, e: PoolEvent)
    requires Good(s, h, t) && Enabled(s, e) && t <= TimeOf(e, t) && AdmitsInPlace(s, burst, e)
    ensures Logged(s, h, burst, e) == History(h, burst, AsOneStep(s, e))
  {
    if e.LockCheck? {
      if InPlace(s, e.c) {
        HeldSees(s, h, t, e.c, e.now);
      } else {
        NothingLeft(s, e.c, t, e.now);
      }
      SeenIsRecorded(s, h, burst, e);
    }
  }

  /** An admission on a dropped window is missing from the map. */
  lemma ForgottenElsewhere(s: Pool, h: Windows, t: int, burst: int, e: PoolEvent)
    requires Good(s, h, t) && Enabled(s, e) && t <= TimeOf(e, t) && !AdmitsInPlace(s, burst, e)
    ensures !Refines(View(Next(s, burst, e)), Logged(s, h, burst, e), e.now)
  {
    var key, id := s.held[e.c].key, s.held[e.c].id;
    NothingLeft(s, e.c, t, e.now);
    CheckElsewhereIsInvisible(s, id, e.limit + burst, e.now);
    assert View(Next(s, burst, e)) == View(s);
    AfterSnoc(Get(h, key), e.now, e.now - MINUTE);
    assert Agree(Get(View(s), key), Get(h, key), t);
    assert Get(Logged(s, h, burst, e), key) == Get(h, key) + [e.now];
    assert After(Get(View(s), key), e.now - MINUTE) != After(Get(h, key) + [e.now], e.now - MINUTE);
  }

  /**
   The map tells the truth about what has been admitted throughout a run if and only if every
   check that admits finds its window still in the map. One that is late, on a window that a
   sweep has dropped in between, is forgotten.
   */
  lemma {:induction false} AgreementHoldsIff(s: Pool, h: Windows, t: int, burst: int, es: seq<PoolEvent>)
    requires Good(s, h, t) && AllEnabled(s, burst, es) && PoolClocked(es, t)
    ensures AgreesThroughout(s, h, t, burst, es) <==> AllAdmitInPlace(s, burst, es)
    decreases |es|
  {
    if es != [] {
      var e := es[0];
      if AdmitsInPlace(s, burst, e) {
        NextIsGood(s, h, t, burst, e);
        LoggedIsRecorded(s, h, t, burst, e);
        AgreementHoldsIff(Next(s, burst, e), Logged(s, h, burst, e), TimeOf(e, t), burst, es[1..]);
      } else {
        ForgottenElsewhere(s, h, t, burst, e);
      }
    }
  }

  lemma {:induction false} AnswersInTurn(h: Windows, burst: int, a: seq<Event>, b: seq<Event>)
    ensures SimpleAnswers(h, burst, a + b) == SimpleAnswers(h, burst, a) + SimpleAnswers(History(h, burst, a), burst, b)
    decreases |a|
  {
    if a == [] {
      assert a + b == b;
    } else {
      var h' := Record(h, burst, a[0]);
      AnswersInTurn(h', burst, a[1..], b);
      assert (a + b)[0] == a[0] && (a + b)[1..] == a[1..] + b;
      Regroup(SimpleReply(h, burst, a[0]), SimpleAnswers(h', burst, a[1..]),
              SimpleAnswers(History(h, burst, a), burst, b));
    }
  }

  lemma {:induction false} HistoryInTurn(h: Windows, burst: int, a: seq<Event>, b: seq<Event>)
    ensures History(h, burst, a + b) == History(History(h, burst, a), burst, b)
    decreases |a|
  {
    if a == [] {
      assert a + b == b;
    } else {
      HistoryInTurn(Record(h, burst, a[0]), burst, a[1..], b);
      assert (a + b)[0] == a[0] && (a + b)[1..] == a[1..] + b;
    }
  }

  lemma {:induction false} DecisionsInTurn(a: seq<Answer>, b: seq<Answer>)
    ensures Decisions(a + b) == Decisions(a) + Decisions(b)
  {
    if a == [] {
      assert a + b == b;
    } else {
      DecisionsInTurn(a[1..], b);
      assert (a + b)[0] == a[0] && (a + b)[1..] == a[1..] + b;
      Regroup(if a[0].Checked? then [a[0].allowed] else [], Decisions(a[1..]), Decisions(b));
    }
  }

  lemma InPlaceAdmitsInPlace(s: Pool, burst: int, e: PoolEvent)
    requires Enabled(s, e) && FindsInPlace(s, e)
    ensures AdmitsInPlace(s, burst, e)
  {
  }

  /** A run in which every call finds its window in the map answers as the simple limiter does. */
  lemma {:induction false} PoolRunRefines(s: Pool, h: Windows, t: int, burst: int, es: seq<PoolEvent>)
    requires Good(s, h, t) && AllEnabled(s, burst, es) && PoolClocked(es, t) && AllFindInPlace(s, burst, es)
    ensures PoolAnswers(s, burst, es) == SimpleAnswers(h, burst, OneSteps(s, burst, es))
    decreases |es|
  {
    if es != [] {
      var e := es[0];
      InPlaceAdmitsInPlace(s, burst, e);
      var s', h' := Next(s, burst, e), History(h, burst, AsOneStep(s, e));
      ReplyInPlace(s, h, t, burst, e);
      NextIsGood(s, h, t, burst, e);
      PoolRunRefines(s', h', TimeOf(e, t), burst, es[1..]);
      AnswersInTurn(h, burst, AsOneStep(s, e), OneSteps(s', burst, es[1..]));
    }
  }

  /**
   It is enough that every check that admits does: then the checks are decided as the simple
   limiter decides them, and what was admitted is the simple limiter's history.
   */
  lemma {:induction false} PoolRunDecides(s: Pool, h: Windows, t: int, burst: int, es: seq<PoolEvent>)
    requires Good(s, h, t) && AllEnabled(s, burst, es) && PoolClocked(es, t) && AllAdmitInPlace(s, burst, es)
    ensures Decisions(PoolAnswers(s, burst, es)) == Decisions(SimpleAnswers(h, burst, OneSteps(s, burst, es)))
    ensures Log(s, h, burst, es) == History(h, burst, OneSteps(s, burst, es))
    decreases |es|
  {
    if es != [] {
      var e := es[0];
      var s', h' := Next(s, burst, e), History(h, burst, AsOneStep(s, e));
      DecisionInPlace(s, h, t, burst, e);
      LoggedIsRecorded(s, h, t, burst, e);
      NextIsGood(s, h, t, burst, e);
      PoolRunDecides(s', h', TimeOf(e, t), burst, es[1..]);
      AnswersInTurn(h, burst, AsOneStep(s, e), OneSteps(s', burst, es[1..]));
      HistoryInTurn(h, burst, AsOneStep(s, e), OneSteps(s', burst, es[1..]));
      DecisionsInTurn(PoolReply(s, burst, e), PoolAnswers(s', burst, es[1..]));
      DecisionsInTurn(SimpleAnswers(h, burst, AsOneStep(s, e)), SimpleAnswers(h', burst, OneSteps(s', burst, es[1..])));
    }
  }

  lemma {:induction false} OneStepsAreClocked(s: Pool, burst: int, es: seq<PoolEvent>, t: int)
    requires AllEnabled(s, burst, es) && PoolClocked(es, t)
    ensures Clocked(OneSteps(s, burst, es), t)
    decreases |es|
  {
    if es != [] {
      var e := es[0];
      var rest := OneSteps(Next(s, burst, e), burst, es[1..]);
      OneStepsAreClocked(Next(s, burst, e), burst, es[1..], TimeOf(e, t));
      if AsOneStep(s, e) == [] {
        assert OneSteps(s, burst, es) == rest;
      } else {
        assert OneSteps(s, burst, es)[1..] == rest;
      }
    }
  }

  lemma EmptyIsGood(t: int)
    ensures Good(EMPTY, map[], t)
  {
  }

  /** So every theorem about the answers of the one-step limiter is one about the code. */
  lemma PoolRunIsOneStepRun(burst: int, es: seq<PoolEvent>, t: int)
    requires AllEnabled(EMPTY, burst, es) && PoolClocked(es, t) && AllFindInPlace(EMPTY, burst, es)
    ensures PoolAnswers(EMPTY, burst, es) == Answers(map[], burst, OneSteps(EMPTY, burst, es))
  {
    EmptyIsGood(t);
    PoolRunRefines(EMPTY, map[], t, burst, es);
    OneStepsAreClocked(EMPTY, burst, es, t);
    RunRefines(map[], map[], t, burst, OneSteps(EMPTY, burst, es));
  }

  /**
   The guarantee, for the code as it is: if every check that admits finds its window in the
   map, any window (t - 60s, t] holds at most limit + burst admitted requests of the key.
   */
  lemma PoolWindowIsBounded(burst: int, es: seq<PoolEvent>, key: Key, limit: int, t: int, from: int)
    requires AllEnabled(EMPTY, burst, es) && PoolClocked(es, from) && AllAdmitInPlace(EMPTY, burst, es)
    requires FixedLimit(OneSteps(EMPTY, burst, es), key, limit)
    ensures InWindow(Get(Log(EMPTY, map[], burst, es), key), t) <= if limit + burst > 0 then limit + burst else 0
  {
    EmptyIsGood(from);
    PoolRunDecides(EMPTY, map[], from, burst, es);
    OneStepsAreClocked(EMPTY, burst, es, from);
    HistoryKeepsKeyOk(map[], burst, OneSteps(EMPTY, burst, es), key, limit, from);
    SpacedBoundsWindow(Get(Log(EMPTY, map[], burst, es), key), limit + burst, t);
  }

  // ---------------------------------------------------------------- the reset time

  function PoolFinal(s: Pool, burst: int, es: seq<PoolEvent>): Pool
    requires AllEnabled(s, burst, es)
    decreases |es|
  {
    if es == [] then s else PoolFinal(Next(s, burst, es[0]), burst, es[1..])
  }

  function PoolEnd(es: seq<PoolEvent>, t: int): int {
    if es == [] then t else PoolEnd(es[1..], TimeOf(es[0], t))
  }

  lemma {:induction false} RunIsGood(s: Pool, h: Windows, t: int, burst: int, es: seq<PoolEvent>)
    requires Good(s, h, t) && AllEnabled(s, burst, es) && PoolClocked(es, t) && AllAdmitInPlace(s, burst, es)
    ensures Good(PoolFinal(s, burst, es), Log(s, h, burst, es), PoolEnd(es, t)) && t <= PoolEnd(es, t)
    decreases |es|
  {
    if es != [] {
      LockIsGood(s, h, t, burst, es[0]);
      RunIsGood(Next(s, burst, es[0]), Logged(s, h, burst, es[0]), TimeOf(es[0], t), burst, es[1..]);
    }
  }

  lemma {:induction false} LogIsOk(s: Pool, h: Windows, t: int, burst: int, es: seq<PoolEvent>, key: Key, limit: int)
    requires Good(s, h, t) && AllEnabled(s, burst, es) && PoolClocked(es, t) && AllAdmitInPlace(s, burst, es)
    requires KeyOk(Get(h, key), limit + burst, t) && FixedLimit(OneSteps(s, burst, es), key, limit)
    ensures KeyOk(Get(Log(s, h, burst, es), key), limit + burst, PoolEnd(es, t))
    decreases |es|
  {
    if es != [] {
      var e := es[0];
      var rest := OneSteps(Next(s, burst, e), burst, es[1..]);
      LockIsGood(s, h, t, burst, e);
      if AsOneStep(s, e) == [] {
        assert OneSteps(s, burst, es) == rest;
      } else {
        assert OneSteps(s, burst, es)[1..] == rest;
      }
      LoggedIsOk(s, h, t, burst, e, key, limit);
      LogIsOk(Next(s, burst, e), Logged(s, h, burst, e), TimeOf(e, t), burst, es[1..], key, limit);
    }
  }

  lemma LoggedIsOk(s: Pool, h: Windows, t: int, burst: int, e: PoolEvent, key: Key, limit: int)
    requires Good(s, h, t) && Enabled(s, e) && t <= TimeOf(e, t) && AdmitsInPlace(s, burst, e)
    requires KeyOk(Get(h, key), limit + burst, t)
    requires e.LockCheck? && s.held[e.c].key == key ==> e.limit == limit
    ensures KeyOk(Get(Logged(s, h, burst, e), key), limit + burst, TimeOf(e, t))
  {
    LoggedIsRecorded(s, h, t, burst, e);
    if AsOneStep(s, e) == [] {
      KeyOkLater(Get(h, key), limit + burst, t, TimeOf(e, t));
    } else {
      RecordKeepsKeyOk(h, burst, AsOneStep(s, e)[0], key, limit, t);
      OneRecord(h, burst, AsOneStep(s, e)[0]);
    }
  }

  /** `c` is a check of `key` past its fetch, on a key with this limit, and nothing is out of place so far. */
  ghost predicate Ready(s: Pool, h: Windows, t: int, burst: int, c: nat, key: Key, limit: int) {
    && Good(s, h, t) && KeyOk(Get(h, key), limit + burst, t)
    && c in s.held && s.held[c].Checking? && s.held[c].key == key
  }

  lemma RunIsReady(burst: int, es: seq<PoolEvent>, from: int, c: nat, key: Key, limit: int)
    requires AllEnabled(EMPTY, burst, es) && PoolClocked(es, from) && AllAdmitInPlace(EMPTY, burst, es)
    requires FixedLimit(OneSteps(EMPTY, burst, es), key, limit)
    requires var s := PoolFinal(EMPTY, burst, es);
             c in s.held && s.held[c].Checking? && s.held[c].key == key
    ensures Ready(PoolFinal(EMPTY, burst, es), Log(EMPTY, map[], burst, es), PoolEnd(es, from), burst, c, key, limit)
  {
    EmptyIsGood(from);
    RunIsGood(EMPTY, map[], from, burst, es);
    LogIsOk(EMPTY, map[], from, burst, es, key, limit);
  }

  /** A refusal is one by the key's history, whose first time of the last minute gives the reset time. */
  lemma RefusedByHistory(s: Pool, h: Windows, t: int, burst: int, c: nat, key: Key, limit: int, now: int)
    requires Good(s, h, t) && CanLock(s, c, key, limit, now) && t <= now && limit + burst > 0
    requires Full(s, c, limit + burst, now)
    ensures |After(Get(h, key), now - MINUTE)| >= limit + burst
    ensures PoolReply(s, burst, LockCheck(c, limit, now))
            == [Checked(false, 0, After(Get(h, key), now - MINUTE)[0] + MINUTE)]
  {
    RefusedInPlace(s, t, c, limit + burst, now);
    HeldSees(s, h, t, c, now);
  }

  /** A dropped window is never full. */
  lemma RefusedInPlace(s: Pool, t: int, c: nat, limit: int, now: int)
    requires PoolOk(s) && DroppedAreStale(s, t) && t <= now && limit > 0 && c in s.held
    requires s.held[c].id in s.lists && Full(s, c, limit, now)
    ensures InPlace(s, c)
  {
    if !InPlace(s, c) {
      NothingLeft(s, c, t, now);
    }
  }

  lemma {:induction false} LogAppends(s: Pool, h: Windows, burst: int, es: seq<PoolEvent>, key: Key)
    requires AllEnabled(s, burst, es)
    ensures Get(Log(s, h, burst, es), key) == Get(h, key) + Get(Log(s, map[], burst, es), key)
    decreases |es|
  {
    if es != [] {
      var s', e := Next(s, burst, es[0]), es[0];
      LogAppends(s', Logged(s, h, burst, e), burst, es[1..], key);
      LogAppends(s', Logged(s, map[], burst, e), burst, es[1..], key);
      Regroup(Get(h, key), Get(Logged(s, map[], burst, e), key), Get(Log(s', map[], burst, es[1..]), key));
    }
  }

  /** In a state that is ready, with `log` after `mid` the log before it. */
  lemma ReadyAfterReset(s: Pool, h: Windows, t: int, burst: int, c: nat, d: nat, mid: seq<PoolEvent>,
                        key: Key, limit: int, now: int, later: int)
    requires Ready(s, h, t, burst, c, key, limit) && t <= now && limit + burst > 0
    requires s.held[c].id in s.lists && Full(s, c, limit + burst, now)
    requires var s' := Next(s, burst, LockCheck(c, limit, now));
             && AllEnabled(s', burst, mid) && PoolClocked(mid, now) && AllAdmitInPlace(s', burst, mid)
             && Get(Log(s', Logged(s, h, burst, LockCheck(c, limit, now)), burst, mid), key) == Get(h, key)
             && var s'' := PoolFinal(s', burst, mid);
                Enabled(s'', LockCheck(d, limit, later)) && s''.held[d].key == key
    requires PoolEnd(mid, now) <= later && later >= PoolReply(s, burst, LockCheck(c, limit, now))[0].reset
    ensures PoolReply(PoolFinal(Next(s, burst, LockCheck(c, limit, now)), burst, mid), burst,
                      LockCheck(d, limit, later))[0].allowed
  {
    var e := LockCheck(c, limit, now);
    var s' := Next(s, burst, e);
    var s'' := PoolFinal(s', burst, mid);
    var log := Log(s', Logged(s, h, burst, e), burst, mid);
    RefusedByHistory(s, h, t, burst, c, key, limit, now);
    LockIsGood(s, h, t, burst, e);
    RunIsGood(s', Logged(s, h, burst, e), now, burst, mid);
    RefusalShrinks(Get(h, key), limit + burst, t, now, later);
    AdmittedByHistory(s'', log, PoolEnd(mid, now), burst, d, limit, later);
  }

  /** Call `c` can lock its window of `key` now. */
  predicate CanLock(s: Pool, c: nat, key: Key, limit: int, now: int) {
    Enabled(s, LockCheck(c, limit, now)) && s.held[c].key == key
  }

  /**
   A refusal's reset time is honest, for the code as it is: after a run `es` of an empty limiter in
   which every check that admits finds its window, if a check at `now` is refused, a check of the key
   at or after the reset time it gave is admitted, wherever its window is by then, provided that
   nothing was admitted on the key in the run `mid` between the two.
   */
  lemma PoolAdmittedAfterReset(burst: int, es: seq<PoolEvent>, from: int, c: nat, d: nat, mid: seq<PoolEvent>,
                               key: Key, limit: int, now: int, later: int)
    requires AllEnabled(EMPTY, burst, es) && PoolClocked(es, from) && AllAdmitInPlace(EMPTY, burst, es)
    requires FixedLimit(OneSteps(EMPTY, burst, es), key, limit) && limit + burst > 0 && PoolEnd(es, from) <= now
    requires var s := PoolFinal(EMPTY, burst, es);
             && CanLock(s, c, key, limit, now)
             && var refusal := PoolReply(s, burst, LockCheck(c, limit, now))[0];
                !refusal.allowed && later >= refusal.reset
    requires var s' := Next(PoolFinal(EMPTY, burst, es), burst, LockCheck(c, limit, now));
             && AllEnabled(s', burst, mid) && PoolClocked(mid, now) && AllAdmitInPlace(s', burst, mid)
             && Get(Log(s', map[], burst, mid), key) == [] && PoolEnd(mid, now) <= later
             && CanLock(PoolFinal(s', burst, mid), d, key, limit, later)
    ensures var s' := Next(PoolFinal(EMPTY, burst, es), burst, LockCheck(c, limit, now));
            PoolReply(PoolFinal(s', burst, mid), burst, LockCheck(d, limit, later))[0].allowed
  {
    var s, h := PoolFinal(EMPTY, burst, es), Log(EMPTY, map[], burst, es);
    var e := LockCheck(c, limit, now);
    RunIsReady(burst, es, from, c, key, limit);
    LogAppends(Next(s, burst, e), Logged(s, h, burst, e), burst, mid, key);
    assert Get(Logged(s, h, burst, e), key) + [] == Get(h, key);
    ReadyAfterReset(s, h, PoolEnd(es, from), burst, c, d, mid, key, limit, now, later);
  }

  lemma LockIsGood(s: Pool, h: Windows, t: int, burst: int, e: PoolEvent)
    requires Good(s, h, t) && Enabled(s, e) && t <= TimeOf(e, t) && AdmitsInPlace(s, burst, e)
    ensures Good(Next(s, burst, e), Logged(s, h, burst, e), TimeOf(e, t))
  {
    NextIsGood(s, h, t, burst, e);
    LoggedIsRecorded(s, h, t, burst, e);
  }

  /** A check of a key that has room is admitted, wherever its window is. */
  lemma AdmittedByHistory(s: Pool, h: Windows, t: int, burst: int, c: nat, limit: int, now: int)
    requires Good(s, h, t) && Enabled(s, LockCheck(c, limit, now)) && t <= now && limit + burst > 0
    requires |After(Get(h, s.held[c].key), now - MINUTE)| < limit + burst
    ensures PoolReply(s, burst, LockCheck(c, limit, now))[0].allowed
  {
    if InPlace(s, c) {
      HeldSees(s, h, t, c, now);
    } else {
      NothingLeft(s, c, t, now);
    }
  }

  // ---------------------------------------------------------------- without interruption

  /** A check whose lock follows its fetch at once is the check in one step. */
  lemma SerialCheckIsOneStep(s: Pool, burst: int, c: nat, key: Key, newId: nat, limit: int, now: int, k: Key)
    requires PoolOk(s) && c !in s.held && newId !in s.lists
    ensures var t := Next(s, burst, GetWindow(c, key, newId));
            && Enabled(t, LockCheck(c, limit, now))
            && PoolReply(t, burst, LockCheck(c, limit, now)) == Reply(View(s), burst, Check(key, limit, now))
            && var u := Next(t, burst, LockCheck(c, limit, now));
               u.held == s.held && Get(View(u), k) == Get(Step(View(s), burst, Check(key, limit, now)), k)
  {
    var t := Next(s, burst, GetWindow(c, key, newId));
    NextIsOk(s, burst, GetWindow(c, key, newId));
    FetchIsInvisible(s, key, newId, key);
    FetchIsInvisible(s, key, newId, k);
    assert View(t) == View(Fetched(s, key, newId));
    LockRepliesAtOnce(t, burst, c, limit, now);
    LockStepsAtOnce(t, burst, c, limit, now, k);
    SameTimesSameStep(View(t), View(s), burst, Check(key, limit, now), k);
    assert t.held - {c} == s.held;
  }

  lemma LockRepliesAtOnce(s: Pool, burst: int, c: nat, limit: int, now: int)
    requires Enabled(s, LockCheck(c, limit, now)) && InPlace(s, c)
    ensures PoolReply(s, burst, LockCheck(c, limit, now))
            == Reply(View(s), burst, Check(s.held[c].key, limit, now))
  {
    assert Get(View(s), s.held[c].key) == s.lists[s.held[c].id];
  }

  lemma LockStepsAtOnce(s: Pool, burst: int, c: nat, limit: int, now: int, k: Key)
    requires PoolOk(s) && Enabled(s, LockCheck(c, limit, now)) && InPlace(s, c)
    ensures Get(View(Next(s, burst, LockCheck(c, limit, now))), k)
            == Get(Step(View(s), burst, Check(s.held[c].key, limit, now)), k)
  {
    CheckInPlaceIsOneStep(s, s.held[c].key, limit + burst, now, k);
    var t := CheckedOn(s, s.held[c].id, limit + burst, now);
    assert View(Drop(t, c)) == View(t);
  }

  lemma SameTimesSameStep(w: Windows, w': Windows, burst: int, e: Event, k: Key)
    requires e.Check? && Get(w, e.key) == Get(w', e.key) && Get(w, k) == Get(w', k)
    ensures Reply(w, burst, e) == Reply(w', burst, e) && Get(Step(w, burst, e), k) == Get(Step(w', burst, e), k)
  {
  }

  /** Statistics change nothing, and report the window of the last minute, empty if there is none. */
  lemma SerialStatsIsOneStep(s: Pool, burst: int, c: nat, key: Key, now: int, later: int)
    requires PoolOk(s) && c !in s.held
    ensures var e, f := FindWindow(c, key, now), LockStats(c, later);
            if key in s.index
            then && PoolReply(s, burst, e) == []
                 && Enabled(Next(s, burst, e), f) && Next(Next(s, burst, e), burst, f) == s
                 && PoolReply(Next(s, burst, e), burst, f) == Reply(View(s), burst, Stats(key, later))
            else Next(s, burst, e) == s && PoolReply(s, burst, e) == Reply(View(s), burst, Stats(key, now))
  {
    assert s.held[c := Counting(key, if key in s.index then s.index[key] else 0)] - {c} == s.held;
  }

  // ---------------------------------------------------------------- when calls find their window

  /** The sweep does not come to a key while a call holds the key's window and has not locked it yet. */
  predicate SweepsUnheld(s: Pool, e: PoolEvent) {
    e.CleanKey? ==> forall c :: c in s.held ==> s.held[c].key != e.key
  }

  predicate AllSweepUnheld(s: Pool, burst: int, es: seq<PoolEvent>)
    requires AllEnabled(s, burst, es)
    decreases |es|
  {
    es == [] || (SweepsUnheld(s, es[0]) && AllSweepUnheld(Next(s, burst, es[0]), burst, es[1..]))
  }

  predicate AllHeldInPlace(s: Pool) {
    forall c :: c in s.held ==> InPlace(s, c)
  }

  lemma NextHoldsInPlace(s: Pool, burst: int, e: PoolEvent)
    requires Enabled(s, e) && AllHeldInPlace(s) && SweepsUnheld(s, e)
    ensures FindsInPlace(s, e) && AllHeldInPlace(Next(s, burst, e))
  {
    forall c | c in Next(s, burst, e).held ensures InPlace(Next(s, burst, e), c) {
      if c in s.held {
        assert InPlace(s, c);
      }
    }
  }

  /** Only a sweep can come in between: calls of any number of requests may overlap. */
  lemma {:induction false} OverlappingCallsAreFine(s: Pool, burst: int, es: seq<PoolEvent>)
    requires AllEnabled(s, burst, es) && AllHeldInPlace(s) && AllSweepUnheld(s, burst, es)
    ensures AllFindInPlace(s, burst, es)
    decreases |es|
  {
    if es != [] {
      NextHoldsInPlace(s, burst, es[0]);
      OverlappingCallsAreFine(Next(s, burst, es[0]), burst, es[1..]);
    }
  }

  /** From `s` at `t`, the events can happen, use limit 1 on every key, and take the log from `h` to `log`. */
  predicate Shows(s: Pool, h: Windows, t: int, es: seq<PoolEvent>, log: Windows) {
    && AllEnabled(s, 0, es) && PoolClocked(es, t) && FixedLimit(OneSteps(s, 0, es), SOME_KEY, 1)
    && Log(s, h, 0, es) == log
  }

  lemma ShowsFrom(s: Pool, h: Windows, t: int, e: PoolEvent, s': Pool, h': Windows, es: seq<PoolEvent>, log: Windows)
    requires Enabled(s, e) && (e.LockCheck? ==> e.limit == 1) && t <= TimeOf(e, t)
    requires s' == Next(s, 0, e) && h' == Logged(s, h, 0, e) && Shows(s', h', TimeOf(e, t), es, log)
    ensures Shows(s, h, t, [e] + es, log)
  {
    assert ([e] + es)[1..] == es;
    assert OneSteps(s, 0, [e] + es) == AsOneStep(s, e) + OneSteps(s', 0, es);
    if AsOneStep(s, e) != [] {
      assert OneSteps(s, 0, [e] + es)[1..] == OneSteps(s', 0, es);
    } else {
      assert OneSteps(s, 0, [e] + es) == OneSteps(s', 0, es);
    }
  }

  const SOME_KEY := Ip("10.0.0.1")

  const A_CALL := Checking(SOME_KEY, 0)

  /** A check of limit 1 that finds nothing of the last minute. */
  lemma AdmittedFirst(s: Pool, h: Windows, c: nat, now: int, s': Pool, h': Windows)
    requires Enabled(s, LockCheck(c, 1, now)) && AllBefore(s.lists[s.held[c].id], now - MINUTE)
    requires s' == Pool(s.index, s.lists[s.held[c].id := [now]], s.held - {c})
    requires h' == h[s.held[c].key := Get(h, s.held[c].key) + [now]]
    ensures Next(s, 0, LockCheck(c, 1, now)) == s' && Logged(s, h, 0, LockCheck(c, 1, now)) == h'
  {
    var ts := s.lists[s.held[c].id];
    FirstAfterUnique(ts, now - MINUTE, |ts|);
    assert Trimmed(ts, now) == [] && [] + [now] == [now];
  }

  /** Two calls of limit 1, on two windows of one key that hold nothing of the last minute. */
  lemma BothAdmitted(now: int)
    requires now == 2 * MINUTE
    ensures Shows(Pool(map[SOME_KEY := 1], map[0 := [0], 1 := []], map[2 := A_CALL, 3 := Checking(SOME_KEY, 1)]),
                  map[SOME_KEY := [0]], now, [LockCheck(3, 1, now)] + ([LockCheck(2, 1, now)] + []),
                  map[SOME_KEY := [0, now, now]])
  {
    var h, h', log := map[SOME_KEY := [0]], map[SOME_KEY := [0, now]], map[SOME_KEY := [0, now, now]];
    var s := Pool(map[SOME_KEY := 1], map[0 := [0], 1 := []], map[2 := A_CALL, 3 := Checking(SOME_KEY, 1)]);
    var s' := Pool(map[SOME_KEY := 1], map[0 := [0], 1 := [now]], map[2 := A_CALL]);
    var s'' := Pool(map[SOME_KEY := 1], map[0 := [now], 1 := [now]], map[]);
    assert [0] + [now] == [0, now] && [0, now] + [now] == [0, now, now];
    AdmittedFirst(s, h, 3, now, s', h');
    AdmittedFirst(s', h', 2, now, s'', log);
    ShowsFrom(s', h', now, LockCheck(2, 1, now), s'', log, [], log);
    ShowsFrom(s, h, now, LockCheck(3, 1, now), s', h', [LockCheck(2, 1, now)] + [], log);
  }

  /** The window that call 2 holds is swept, and call 3 gets another. */
  lemma SweptAndFetched(es: seq<PoolEvent>, log: Windows, now: int)
    requires now == 2 * MINUTE
    requires Shows(Pool(map[SOME_KEY := 1], map[0 := [0], 1 := []], map[2 := A_CALL, 3 := Checking(SOME_KEY, 1)]),
                   map[SOME_KEY := [0]], now, es, log)
    ensures Shows(Pool(map[SOME_KEY := 0], map[0 := [0]], map[2 := A_CALL]), map[SOME_KEY := [0]], 0,
                  [CleanKey(SOME_KEY, now)] + ([GetWindow(3, SOME_KEY, 1)] + es), log)
  {
    var h := map[SOME_KEY := [0]];
    var s := Pool(map[SOME_KEY := 0], map[0 := [0]], map[2 := A_CALL]);
    var s' := Pool(map[], map[0 := [0]], map[2 := A_CALL]);
    var s'' := Pool(map[SOME_KEY := 1], map[0 := [0], 1 := []], map[2 := A_CALL, 3 := Checking(SOME_KEY, 1)]);
    ShowsFrom(s', h, now, GetWindow(3, SOME_KEY, 1), s'', h, es, log);
    ShowsFrom(s, h, 0, CleanKey(SOME_KEY, now), s', h, [GetWindow(3, SOME_KEY, 1)] + es, log);
  }

  /** Calls 1 and 2 fetch the same window, and call 1 is admitted. */
  lemma FetchedTwice(es: seq<PoolEvent>, log: Windows)
    requires Shows(Pool(map[SOME_KEY := 0], map[0 := [0]], map[2 := A_CALL]), map[SOME_KEY := [0]], 0, es, log)
    ensures Shows(EMPTY, map[], 0,
                  [GetWindow(1, SOME_KEY, 0)] + ([GetWindow(2, SOME_KEY, 1)] + ([LockCheck(1, 1, 0)] + es)), log)
  {
    var s := Pool(map[SOME_KEY := 0], map[0 := []], map[1 := A_CALL]);
    var s' := Pool(map[SOME_KEY := 0], map[0 := []], map[1 := A_CALL, 2 := A_CALL]);
    var s'' := Pool(map[SOME_KEY := 0], map[0 := [0]], map[2 := A_CALL]);
    assert Get(map[], SOME_KEY) + [0] == [0];
    AdmittedFirst(s', map[], 1, 0, s'', map[SOME_KEY := [0]]);
    ShowsFrom(s', map[], 0, LockCheck(1, 1, 0), s'', map[SOME_KEY := [0]], es, log);
    ShowsFrom(s, map[], 0, GetWindow(2, SOME_KEY, 1), s', map[], [LockCheck(1, 1, 0)] + es, log);
    ShowsFrom(EMPTY, map[], 0, GetWindow(1, SOME_KEY, 0), s, map[],
              [GetWindow(2, SOME_KEY, 1)] + ([LockCheck(1, 1, 0)] + es), log);
  }

  /** Limit 1: a call fetches, a sweep drops the idle window, another call is admitted, and so is the first. */
  lemma ForgottenAdmission() returns (es: seq<PoolEvent>)
    ensures AllEnabled(EMPTY, 0, es) && PoolClocked(es, 0) && FixedLimit(OneSteps(EMPTY, 0, es), SOME_KEY, 1)
    ensures InWindow(Get(Log(EMPTY, map[], 0, es), SOME_KEY), 2 * MINUTE) == 2
  {
    var now := 2 * MINUTE;
    var late := [LockCheck(3, 1, now)] + ([LockCheck(2, 1, now)] + []);
    var swept := [CleanKey(SOME_KEY, now)] + ([GetWindow(3, SOME_KEY, 1)] + late);
    BothAdmitted(now);
    SweptAndFetched(late, map[SOME_KEY := [0, now, now]], now);
    FetchedTwice(swept, map[SOME_KEY := [0, now, now]]);
    es := [GetWindow(1, SOME_KEY, 0)] + ([GetWindow(2, SOME_KEY, 1)] + ([LockCheck(1, 1, 0)] + swept));
    TwoInWindow(now);
  }

  lemma TwoInWindow(now: int)
    requires now == 2 * MINUTE
    ensures InWindow([0, now, now], now) == 2
  {
    assert [0, now, now][1..] == [now, now] && [now, now][1..] == [now] && [now][1..] == [];
    assert InWindow([now], now) == 1;
    assert InWindow([now, now], now) == 2;
  }
}
