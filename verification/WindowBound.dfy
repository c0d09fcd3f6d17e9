/**
 The exact condition for the rate limiter's bound with fetch and lock apart. A check that is
 admitted late, on a window that a sweep has dropped, is missing from the map, so that calls which
 all find their windows can then go past the limit. Without such a check no calls can.
 */
module WindowBound {
  import opened Common
  import opened RateLimiter
  import opened WindowPool

  /** The limit of a check depends on its key: one for users, one for addresses. */
  predicate AtLimit(s: Pool, e: PoolEvent, limits: Key -> int) {
    e.LockCheck? ==> e.c in s.held && e.limit == limits(s.held[e.c].key)
  }

  predicate KeepsLimits(s: Pool, burst: int, es: seq<PoolEvent>, limits: Key -> int)
    requires AllEnabled(s, burst, es)
    decreases |es|
  {
    es == [] || (AtLimit(s, es[0], limits) && KeepsLimits(Next(s, burst, es[0]), burst, es[1..], limits))
  }

  function Cap(limit: int): nat {
    if limit > 0 then limit else 0
  }

  /** From `s` at `t`, a run in which every call finds its window still in the map. */
  predicate Continues(s: Pool, t: int, burst: int, limits: Key -> int, xs: seq<PoolEvent>) {
    && AllEnabled(s, burst, xs) && PoolClocked(xs, t)
    && AllFindInPlace(s, burst, xs) && KeepsLimits(s, burst, xs, limits)
  }

  /** However calls in place go on from here, no minute holds more than limit + burst admitted requests of a key. */
  ghost predicate BoundedHowever(s: Pool, h: Windows, t: int, burst: int, limits: Key -> int) {
    forall xs, key, w ::
      Continues(s, t, burst, limits, xs) ==> InWindow(Get(Log(s, h, burst, xs), key), w) <= Cap(limits(key) + burst)
  }

  /** The same at every point of the run `es`. */
  ghost predicate BoundedThroughout(s: Pool, h: Windows, t: int, burst: int, limits: Key -> int, es: seq<PoolEvent>)
    requires AllEnabled(s, burst, es)
    decreases |es|
  {
    && BoundedHowever(s, h, t, burst, limits)
    && (es != [] ==>
          var e := es[0];
          BoundedThroughout(Next(s, burst, e), Logged(s, h, burst, e), TimeOf(e, t), burst, limits, es[1..]))
  }

  ghost predicate AllKeysOk(h: Windows, burst: int, limits: Key -> int, t: int) {
    forall key :: KeyOk(Get(h, key), limits(key) + burst, t)
  }

  // ---------------------------------------------------------------- without a late admission

  lemma {:induction false} LimitsAreFixed(s: Pool, burst: int, es: seq<PoolEvent>, limits: Key -> int, key: Key)
    requires AllEnabled(s, burst, es) && KeepsLimits(s, burst, es, limits)
    ensures FixedLimit(OneSteps(s, burst, es), key, limits(key))
    decreases |es|
  {
    if es != [] {
      var rest := OneSteps(Next(s, burst, es[0]), burst, es[1..]);
      LimitsAreFixed(Next(s, burst, es[0]), burst, es[1..], limits, key);
      if AsOneStep(s, es[0]) == [] {
        assert OneSteps(s, burst, es) == rest;
      } else {
        assert OneSteps(s, burst, es)[1..] == rest;
      }
    }
  }

  lemma {:induction false} FindingIsAdmitting(s: Pool, burst: int, es: seq<PoolEvent>)
    requires AllEnabled(s, burst, es) && AllFindInPlace(s, burst, es)
    ensures AllAdmitInPlace(s, burst, es)
    decreases |es|
  {
    if es != [] {
      InPlaceAdmitsInPlace(s, burst, es[0]);
      FindingIsAdmitting(Next(s, burst, es[0]), burst, es[1..]);
    }
  }

  lemma GoodIsBounded(s: Pool, h: Windows, t: int, burst: int, limits: Key -> int)
    requires Good(s, h, t) && AllKeysOk(h, burst, limits, t)
    ensures BoundedHowever(s, h, t, burst, limits)
  {
    forall xs, key, w | Continues(s, t, burst, limits, xs)
      ensures InWindow(Get(Log(s, h, burst, xs), key), w) <= Cap(limits(key) + burst)
    {
      FindingIsAdmitting(s, burst, xs);
      LimitsAreFixed(s, burst, xs, limits, key);
      LogIsOk(s, h, t, burst, xs, key, limits(key));
      SpacedBoundsWindow(Get(Log(s, h, burst, xs), key), limits(key) + burst, w);
    }
  }

  // ---------------------------------------------------------------- after a late admission

  lemma ContinuesFrom(s: Pool, t: int, burst: int, limits: Key -> int, x: PoolEvent, xs: seq<PoolEvent>, h: Windows)
    requires Enabled(s, x) && t <= TimeOf(x, t) && FindsInPlace(s, x) && AtLimit(s, x, limits)
    requires Continues(Next(s, burst, x), TimeOf(x, t), burst, limits, xs)
    ensures Continues(s, t, burst, limits, [x] + xs)
    ensures Log(s, h, burst, [x] + xs) == Log(Next(s, burst, x), Logged(s, h, burst, x), burst, xs)
  {
    assert ([x] + xs)[1..] == xs;
  }

  lemma {:induction false} InWindowSnoc(h: seq<int>, now: int)
    ensures InWindow(h + [now], now) == InWindow(h, now) + 1
  {
    if h == [] {
      assert h + [now] == [now] && [now][1..] == [];
    } else {
      assert (h + [now])[1..] == h[1..] + [now];
      InWindowSnoc(h[1..], now);
    }
  }

  lemma FetchOne(s: Pool, burst: int, key: Key, c: nat, id: nat)
    requires PoolOk(s) && c !in s.held && id !in s.lists
    ensures var s' := Next(s, burst, GetWindow(c, key, id));
            && PoolOk(s') && c in s'.held && s'.held[c].Checking? && s'.held[c].key == key && InPlace(s', c)
            && Get(View(s'), key) == Get(View(s), key)
  {
    NextIsOk(s, burst, GetWindow(c, key, id));
    FetchIsInvisible(s, key, id, key);
  }

  /** A call that finds its window, with room in it as far as the map knows, is admitted and takes one place. */
  lemma LockOne(s: Pool, h: Windows, now: int, burst: int, limit: int, g: seq<int>, c: nat)
    requires PoolOk(s) && c in s.held && s.held[c].Checking? && InPlace(s, c)
    requires Agree(Get(View(s), s.held[c].key), g, now) && |After(g, now - MINUTE)| < limit + burst
    ensures var b, key := LockCheck(c, limit, now), s.held[c].key;
            && Enabled(s, b) && Get(Logged(s, h, burst, b), key) == Get(h, key) + [now]
            && PoolOk(Next(s, burst, b)) && Agree(Get(View(Next(s, burst, b)), key), g + [now], now)
  {
    var b, key := LockCheck(c, limit, now), s.held[c].key;
    var ts, t := Get(View(s), key), Next(s, burst, b);
    assert ts == s.lists[s.held[c].id];
    TrimAgrees(ts, g, now, now);
    AppendAgrees(Trimmed(ts, now), g, now);
    NextIsOk(s, burst, b);
    assert Get(View(t), key) == Trimmed(ts, now) + [now];
  }

  /** Calls at one instant, each of which finds its window, until the window in the map is full. */
  lemma {:induction false} FillUp(s: Pool, h: Windows, now: int, burst: int, limits: Key -> int, key: Key, g: seq<int>)
    returns (xs: seq<PoolEvent>)
    requires PoolOk(s) && Agree(Get(View(s), key), g, now) && |After(g, now - MINUTE)| <= limits(key) + burst
    ensures Continues(s, now, burst, limits, xs)
    ensures InWindow(Get(Log(s, h, burst, xs), key), now)
            == InWindow(Get(h, key), now) + limits(key) + burst - |After(g, now - MINUTE)|
    decreases limits(key) + burst - |After(g, now - MINUTE)|
  {
    xs := [];
    if |After(g, now - MINUTE)| < limits(key) + burst {
      var c := UnusedExists(s.held.Keys);
      var id := UnusedExists(s.lists.Keys);
      var a, b := GetWindow(c, key, id), LockCheck(c, limits(key), now);
      var s' := Next(s, burst, a);
      FetchOne(s, burst, key, c, id);
      LockOne(s', h, now, burst, limits(key), g, c);
      AfterSnoc(g, now, now - MINUTE);
      InWindowSnoc(Get(h, key), now);
      var h' := Logged(s', h, burst, b);
      xs := FillUp(Next(s', burst, b), h', now, burst, limits, key, g + [now]);
      ContinuesFrom(s', now, burst, limits, b, xs, h);
      ContinuesFrom(s, now, burst, limits, a, [b] + xs, h);
      xs := [a] + ([b] + xs);
    }
  }

  /** In a history up to now, the window that ends now is the last minute. */
  lemma InWindowIsLastMinute(h: seq<int>, limit: int, t: int, now: int)
    requires KeyOk(h, limit, t) && t <= now
    ensures InWindow(h, now) == |After(h, now - MINUTE)|
  {
    InWindowIsSlice(h, now);
    AfterIsSuffix(h, now - MINUTE);
    FirstAfterUnique(h, now, |h|);
  }

  /** One late admission, and calls that all find their windows can go past the limit. */
  lemma LateAdmissionBreaksBound(s: Pool, h: Windows, t: int, burst: int, limits: Key -> int, e: PoolEvent)
    returns (xs: seq<PoolEvent>)
    requires Good(s, h, t) && AllKeysOk(h, burst, limits, t) && Enabled(s, e) && t <= TimeOf(e, t)
    requires AtLimit(s, e, limits) && !AdmitsInPlace(s, burst, e)
    ensures Continues(Next(s, burst, e), e.now, burst, limits, xs)
    ensures InWindow(Get(Log(Next(s, burst, e), Logged(s, h, burst, e), burst, xs), s.held[e.c].key), e.now)
            == e.limit + burst + 1
  {
    var key, g, now := s.held[e.c].key, Get(h, s.held[e.c].key), e.now;
    NothingLeft(s, e.c, t, now);
    CheckElsewhereIsInvisible(s, s.held[e.c].id, e.limit + burst, now);
    NextIsOk(s, burst, e);
    assert View(Next(s, burst, e)) == View(s);
    AgreeLater(Get(View(s), key), g, t, now);
    InWindowIsLastMinute(g, e.limit + burst, t, now);
    SpacedBoundsWindow(g, e.limit + burst, now);
    xs := FillUp(Next(s, burst, e), Logged(s, h, burst, e), now, burst, limits, key, g);
    InWindowSnoc(g, now);
  }

  // ---------------------------------------------------------------- the exact condition

  lemma LateIsUnbounded(s: Pool, h: Windows, t: int, burst: int, limits: Key -> int, e: PoolEvent)
    requires Good(s, h, t) && AllKeysOk(h, burst, limits, t) && Enabled(s, e) && t <= TimeOf(e, t)
    requires AtLimit(s, e, limits) && !AdmitsInPlace(s, burst, e)
    ensures !BoundedHowever(Next(s, burst, e), Logged(s, h, burst, e), TimeOf(e, t), burst, limits)
  {
    var xs := LateAdmissionBreaksBound(s, h, t, burst, limits, e);
    NothingLeft(s, e.c, t, e.now);
    assert Continues(Next(s, burst, e), TimeOf(e, t), burst, limits, xs);
  }

  lemma KeysStayOk(s: Pool, h: Windows, t: int, burst: int, limits: Key -> int, e: PoolEvent)
    requires Good(s, h, t) && AllKeysOk(h, burst, limits, t) && Enabled(s, e) && t <= TimeOf(e, t)
    requires AtLimit(s, e, limits) && AdmitsInPlace(s, burst, e)
    ensures AllKeysOk(Logged(s, h, burst, e), burst, limits, TimeOf(e, t))
  {
    forall key ensures KeyOk(Get(Logged(s, h, burst, e), key), limits(key) + burst, TimeOf(e, t)) {
      LoggedIsOk(s, h, t, burst, e, key, limits(key));
    }
  }

  lemma {:induction false} StaysBoundedIff(s: Pool, h: Windows, t: int, burst: int, limits: Key -> int,
                                           es: seq<PoolEvent>)
    requires Good(s, h, t) && AllKeysOk(h, burst, limits, t)
    requires AllEnabled(s, burst, es) && PoolClocked(es, t) && KeepsLimits(s, burst, es, limits)
    ensures BoundedThroughout(s, h, t, burst, limits, es) <==> AllAdmitInPlace(s, burst, es)
    decreases |es|
  {
    GoodIsBounded(s, h, t, burst, limits);
    if es != [] {
      var e := es[0];
      if AdmitsInPlace(s, burst, e) {
        LockIsGood(s, h, t, burst, e);
        KeysStayOk(s, h, t, burst, limits, e);
        StaysBoundedIff(Next(s, burst, e), Logged(s, h, burst, e), TimeOf(e, t), burst, limits, es[1..]);
      } else {
        LateIsUnbounded(s, h, t, burst, limits, e);
      }
    }
  }

  /**
   The bound, exactly: at every point of a run of an empty limiter, however calls that find their
   windows go on from there, any window (w - 60s, w] holds at most limit + burst admitted requests
   of any key, if and only if every check of the run that admits finds its window in the map.
   */
  lemma BoundHoldsIff(burst: int, es: seq<PoolEvent>, limits: Key -> int, from: int)
    requires AllEnabled(EMPTY, burst, es) && PoolClocked(es, from) && KeepsLimits(EMPTY, burst, es, limits)
    ensures BoundedThroughout(EMPTY, map[], from, burst, limits, es) <==> AllAdmitInPlace(EMPTY, burst, es)
  {
    EmptyIsGood(from);
    StaysBoundedIff(EMPTY, map[], from, burst, limits, es);
  }
}
