/**
 The authentication cache in front of the slow Argon2id verification: entries keyed by a
 digest, expiry, eviction of the oldest, a background sweep and a clear. One event is one
 critical section of the cache's lock, so calls interleave freely between looking up,
 counting and storing. The cache is proved to answer as direct verification would, under the
 conditions that this needs.
 */
module AuthCache {
  import opened Common

  /** `digest` is hex(SHA-256(text)); `verify(storedHash, secret)` is Argon2id, None on a malformed hash. */
  datatype Env = Env(digest: string -> string, verify: (string, string) -> Option<bool>)

  datatype Config = Config(ttl: int, maxSize: int, enabled: bool)

  datatype Entry = Entry(valid: bool, timestamp: int)

  type Entries = map<string, Entry>

  /** A call of VerifyPassword or of VerifyKey. */
  datatype Query =
    | Password(userId: string, secret: string, storedHash: string)
    | ApiKey(secret: string, storedHash: string)

  function HashPrefix(storedHash: string): string {
    if |storedHash| > 32 then storedHash[..32] else storedHash
  }

  /** The text whose digest is the cache key. */
  function Text(q: Query): string {
    match q
    case Password(userId, secret, storedHash) => userId + ":" + secret + ":" + HashPrefix(storedHash)
    case ApiKey(secret, _) => secret
  }

  function Key(env: Env, q: Query): string {
    env.digest(Text(q))
  }

  function Direct(env: Env, q: Query): Option<bool> {
    env.verify(q.storedHash, q.secret)
  }

  // ---------------------------------------------------------------- the critical sections

  /** Where a call stands: past its look-up, past its verification, or answered. */
  datatype Call =
    | Found(q: Query, valid: bool)
    | Missed(q: Query)
    | Verified(q: Query, valid: bool)
    | Answered(q: Query, answer: Option<bool>)

  datatype Cache = Cache(entries: Entries, hits: nat, misses: nat, calls: map<nat, Call>)

  datatype Event =
    | Look(c: nat, q: Query, now: int)
    | CountHit(c: nat)
    | CountMiss(c: nat)
    | Insert(c: nat, stored: int, victim: Option<string>)
    | Sweep(now: int)
    | Clear

  predicate Fresh(cfg: Config, entries: Entries, key: string, now: int) {
    key in entries && now - entries[key].timestamp < cfg.ttl
  }

  predicate Oldest(entries: Entries, k: string) {
    k in entries && forall x :: x in entries ==> entries[k].timestamp <= entries[x].timestamp
  }

  /** What may be evicted before an insertion: an oldest entry, if the cache is full and not empty. */
  predicate MayEvict(cfg: Config, entries: Entries, victim: Option<string>) {
    if |entries| >= cfg.maxSize && entries != map[] then victim.Some? && Oldest(entries, victim.value)
    else victim.None?
  }

  function Without(entries: Entries, victim: Option<string>): Entries {
    if victim.Some? then entries - {victim.value} else entries
  }

  predicate Enabled(cfg: Config, s: Cache, e: Event) {
    match e
    case Look(c, _, _) => c !in s.calls
    case CountHit(c) => c in s.calls && s.calls[c].Found?
    case CountMiss(c) => c in s.calls && s.calls[c].Missed?
    case Insert(c, _, victim) => c in s.calls && s.calls[c].Verified? && MayEvict(cfg, s.entries, victim)
    case _ => true
  }

  function LookUp(env: Env, cfg: Config, s: Cache, q: Query, now: int): Call {
    if !cfg.enabled then Answered(q, Direct(env, q))
    else if Fresh(cfg, s.entries, Key(env, q), now) then Found(q, s.entries[Key(env, q)].valid)
    else Missed(q)
  }

  function Apply(env: Env, cfg: Config, s: Cache, e: Event): Cache
    requires Enabled(cfg, s, e)
  {
    match e
    case Look(c, q, now) => s.(calls := s.calls[c := LookUp(env, cfg, s, q, now)])
    case CountHit(c) =>
      s.(hits := s.hits + 1, calls := s.calls[c := Answered(s.calls[c].q, Some(s.calls[c].valid))])
    case CountMiss(c) =>
      var q := s.calls[c].q;
      s.(misses := s.misses + 1,
         calls := s.calls[c := match Direct(env, q) case None => Answered(q, None) case Some(v) => Verified(q, v)])
    case Insert(c, stored, victim) =>
      var q, v := s.calls[c].q, s.calls[c].valid;
      s.(entries := Without(s.entries, victim)[Key(env, q) := Entry(v, stored)],
         calls := s.calls[c := Answered(q, Some(v))])
    case Sweep(now) => s.(entries := map k | k in s.entries && now - s.entries[k].timestamp < cfg.ttl :: s.entries[k])
    case Clear => s.(entries := map[])
  }

  // ---------------------------------------------------------------- the cache object

  /** Call 0, looked up at `now`, runs to its answer without interruption. */
  function Alone(env: Env, cfg: Config, s: Cache, q: Query, now: int, stored: int, victim: Option<string>): Cache
    requires s.calls == map[] && MayEvict(cfg, s.entries, victim)
  {
    var t := Apply(env, cfg, s, Look(0, q, now));
    match t.calls[0]
    case Found(_, _) => Apply(env, cfg, t, CountHit(0))
    case Missed(_) =>
      var u := Apply(env, cfg, t, CountMiss(0));
      if u.calls[0].Verified? then Apply(env, cfg, u, Insert(0, stored, victim)) else u
    case _ => t
  }

  /** From `s` to `t`, a call with this cache key and secret goes through the cache and answers `r`. */
  predicate Served(env: Env, cfg: Config, s: Cache, key: string, storedHash: string, secret: string, now: int,
                   stored: int, victim: Option<string>, r: Option<bool>, t: Cache)
  {
    if Fresh(cfg, s.entries, key, now)
    then t == s.(hits := s.hits + 1) && r == Some(s.entries[key].valid)
    else && r == env.verify(storedHash, secret)
         && t == s.(misses := s.misses + 1,
                    entries := match r
                               case None => s.entries
                               case Some(v) => Without(s.entries, victim)[key := Entry(v, stored)])
  }

  lemma ServedIsAlone(env: Env, cfg: Config, s: Cache, q: Query, now: int, stored: int, victim: Option<string>,
                      r: Option<bool>, t: Cache)
    requires cfg.enabled && s.calls == map[] && MayEvict(cfg, s.entries, victim)
    requires Served(env, cfg, s, Key(env, q), q.storedHash, q.secret, now, stored, victim, r, t)
    ensures t.(calls := map[0 := Answered(q, r)]) == Alone(env, cfg, s, q, now, stored, victim)
  {
  }

  class AuthCache {
    const env: Env
    const cfg: Config
    var entries: Entries
    var hits: nat
    var misses: nat

    /** The cache with no call in flight. */
    ghost function Snapshot(): Cache
      reads this
    {
      Cache(entries, hits, misses, map[])
    }

    /** A digest is never the empty string, which evictOldest uses for "none yet". */
    ghost predicate Valid()
      reads this
    {
      (forall t :: env.digest(t) != "") && "" !in entries
    }

    constructor (env: Env, cfg: Config)
      requires forall t :: env.digest(t) != ""
      ensures Valid() && this.env == env && this.cfg == cfg && Snapshot() == Cache(map[], 0, 0, map[])
    {
      this.env, this.cfg := env, cfg;
      entries, hits, misses := map[], 0, 0;
    }

    method VerifyPassword(userId: string, password: string, storedHash: string, now: int, stored: int)
      returns (r: Option<bool>, ghost victim: Option<string>)
      requires Valid()
      modifies this
      ensures Valid() && MayEvict(cfg, old(entries), victim)
      ensures var q := Password(userId, password, storedHash);
              Snapshot().(calls := map[0 := Answered(q, r)])
              == Alone(env, cfg, old(Snapshot()), q, now, stored, victim)
    {
      if !cfg.enabled {
        victim := OldestIfFull(cfg, entries);
        return env.verify(storedHash, password), victim;
      }
      var hashPrefix := if |storedHash| > 32 then storedHash[..32] else storedHash;
      var cacheKey := env.digest(userId + ":" + password + ":" + hashPrefix);
      ghost var before := Snapshot();
      r, victim := Cached(cacheKey, storedHash, password, now, stored);
      ServedIsAlone(env, cfg, before, Password(userId, password, storedHash), now, stored, victim, r, Snapshot());
    }

    method VerifyKey(plainKey: string, storedHash: string, now: int, stored: int)
      returns (r: Option<bool>, ghost victim: Option<string>)
      requires Valid()
      modifies this
      ensures Valid() && MayEvict(cfg, old(entries), victim)
      ensures var q := ApiKey(plainKey, storedHash);
              Snapshot().(calls := map[0 := Answered(q, r)])
              == Alone(env, cfg, old(Snapshot()), q, now, stored, victim)
    {
      if !cfg.enabled {
        victim := OldestIfFull(cfg, entries);
        return env.verify(storedHash, plainKey), victim;
      }
      ghost var before := Snapshot();
      r, victim := Cached(env.digest(plainKey), storedHash, plainKey, now, stored);
      ServedIsAlone(env, cfg, before, ApiKey(plainKey, storedHash), now, stored, victim, r, Snapshot());
    }

    /** The common part of both calls. */
    method Cached(cacheKey: string, storedHash: string, secret: string, now: int, stored: int)
      returns (r: Option<bool>, ghost victim: Option<string>)
      requires Valid() && cacheKey != ""
      modifies this
      ensures Valid() && MayEvict(cfg, old(entries), victim)
      ensures Served(env, cfg, old(Snapshot()), cacheKey, storedHash, secret, now, stored, victim, r, Snapshot())
    {
      victim := OldestIfFull(cfg, entries);
      if cacheKey in entries && now - entries[cacheKey].timestamp < cfg.ttl {
        hits := hits + 1;
        return Some(entries[cacheKey].valid), victim;
      }
      misses := misses + 1;
      r := env.verify(storedHash, secret);
      if r.None? {
        return;
      }
      // set
      if |entries| >= cfg.maxSize {
        victim := EvictOldest();
      } else {
        victim := None;
      }
      entries := entries[cacheKey := Entry(r.value, stored)];
    }

    /** Scans the whole map, in whatever order, for an entry with the least timestamp. */
    method EvictOldest() returns (ghost victim: Option<string>)
      requires Valid()
      modifies this`entries
      ensures Valid() && entries == Without(old(entries), victim)
      ensures if old(entries) == map[] then victim == None else victim.Some? && Oldest(old(entries), victim.value)
    {
      var oldestKey, oldestTime := "", 0;
      var todo := entries.Keys;
      while todo != {}
        invariant todo <= entries.Keys
        invariant oldestKey == "" ==> todo == entries.Keys
        invariant oldestKey != "" ==> oldestKey in entries && oldestTime == entries[oldestKey].timestamp
                                      && forall x :: x in entries && x !in todo ==> oldestTime <= entries[x].timestamp
        decreases |todo|
      {
        var key :| key in todo;
        if oldestKey == "" || entries[key].timestamp < oldestTime {
          oldestKey, oldestTime := key, entries[key].timestamp;
        }
        todo := todo - {key};
      }
      victim := None;
      if oldestKey != "" {
        victim := Some(oldestKey);
        entries := entries - {oldestKey};
      } else {
        assert entries.Keys == {};
      }
    }

    method Cleanup(now: int)
      requires Valid()
      modifies this`entries
      ensures Valid() && Snapshot() == Apply(env, cfg, old(Snapshot()), Sweep(now))
    {
      var todo := entries.Keys;
      while todo != {}
        invariant todo <= entries.Keys <= old(entries).Keys
        invariant forall k :: k in entries ==> entries[k] == old(entries)[k]
        invariant forall k :: k in old(entries) && k !in todo ==>
                                (k in entries <==> now - old(entries)[k].timestamp < cfg.ttl)
        decreases |todo|
      {
        var key :| key in todo;
        if now - entries[key].timestamp >= cfg.ttl {
          entries := entries - {key};
        }
        todo := todo - {key};
      }
    }

    method Clear()
      requires Valid()
      modifies this`entries
      ensures Valid() && Snapshot() == Apply(env, cfg, old(Snapshot()), Event.Clear)
    {
      entries := map[];
    }
  }

  ghost function OldestIfFull(cfg: Config, entries: Entries): (victim: Option<string>)
    ensures MayEvict(cfg, entries, victim)
  {
    if |entries| >= cfg.maxSize && entries != map[] then
      OldestOf(entries);
      var k :| Oldest(entries, k);
      Some(k)
    else None
  }

  lemma {:induction false} OldestExists(entries: Entries, some: set<string>)
    requires some != {} && some <= entries.Keys
    ensures exists k :: k in some && forall x :: x in some ==> entries[k].timestamp <= entries[x].timestamp
    decreases |some|
  {
    var k :| k in some;
    if some == {k} {
      assert forall x :: x in some ==> entries[k].timestamp <= entries[x].timestamp;
    } else {
      var rest := some - {k};
      assert some == rest + {k};
      OldestExists(entries, rest);
      var m :| m in rest && forall x :: x in rest ==> entries[m].timestamp <= entries[x].timestamp;
      var w := if entries[k].timestamp <= entries[m].timestamp then k else m;
      assert w in some && forall x :: x in some ==> entries[w].timestamp <= entries[x].timestamp;
    }
  }

  lemma OldestOf(entries: Entries)
    requires entries != map[]
    ensures exists k :: Oldest(entries, k)
  {
    assert entries.Keys != {};
    OldestExists(entries, entries.Keys);
    var k :| k in entries.Keys && forall x :: x in entries.Keys ==> entries[k].timestamp <= entries[x].timestamp;
    assert Oldest(entries, k);
  }

  // ---------------------------------------------------------------- runs

  /** `among` holds the queries of the run. */
  datatype Run = Run(env: Env, cfg: Config, among: iset<Query>, states: seq<Cache>, events: seq<Event>) {
    ghost predicate Valid() {
      && |states| == |events| + 1
      && states[0] == Cache(map[], 0, 0, map[])
      && forall i :: 0 <= i < |events| ==> Follows(env, cfg, among, states[i], events[i], states[i + 1])
    }
  }

  ghost predicate Follows(env: Env, cfg: Config, among: iset<Query>, s: Cache, e: Event, t: Cache) {
    Enabled(cfg, s, e) && (e.Look? ==> e.q in among) && t == Apply(env, cfg, s, e)
  }

  /** Some query of the run with this cache key deserves this answer. */
  ghost predicate Deserved(env: Env, among: iset<Query>, key: string, answer: Option<bool>) {
    exists p :: p in among && Key(env, p) == key && Direct(env, p) == answer
  }

  ghost predicate CallOk(env: Env, among: iset<Query>, k: Call) {
    && k.q in among
    && match k
       case Found(q, valid) => Deserved(env, among, Key(env, q), Some(valid))
       case Missed(_) => true
       case Verified(q, valid) => Direct(env, q) == Some(valid)
       case Answered(q, answer) => Deserved(env, among, Key(env, q), answer)
  }

  ghost predicate Inv(env: Env, among: iset<Query>, s: Cache) {
    && (forall k :: k in s.entries ==> Deserved(env, among, k, Some(s.entries[k].valid)))
    && (forall c :: c in s.calls ==> CallOk(env, among, s.calls[c]))
  }

  lemma StepKeepsEntries(env: Env, cfg: Config, among: iset<Query>, s: Cache, e: Event, t: Cache, k: string)
    requires Inv(env, among, s) && Follows(env, cfg, among, s, e, t) && k in t.entries
    ensures Deserved(env, among, k, Some(t.entries[k].valid))
  {
    if e.Insert? && k == Key(env, s.calls[e.c].q) {
      assert CallOk(env, among, s.calls[e.c]);
    }
  }

  lemma StepKeepsCalls(env: Env, cfg: Config, among: iset<Query>, s: Cache, e: Event, t: Cache, c: nat)
    requires Inv(env, among, s) && Follows(env, cfg, among, s, e, t) && c in t.calls
    ensures CallOk(env, among, t.calls[c])
  {
    if c in s.calls {
      assert CallOk(env, among, s.calls[c]);
    } else {
      assert e.q in among && Key(env, e.q) == Key(env, e.q);
    }
  }

  lemma {:induction false} InvAt(r: Run, j: nat)
    requires r.Valid() && j < |r.states|
    ensures Inv(r.env, r.among, r.states[j])
  {
    if j > 0 {
      InvAt(r, j - 1);
      StepKeepsInv(r.env, r.cfg, r.among, r.states[j - 1], r.events[j - 1], r.states[j]);
    }
  }

  /** Two queries of the run that share a cache key deserve the same answer. */
  ghost predicate Consistent(env: Env, among: iset<Query>) {
    forall p, q :: p in among && q in among && Key(env, p) == Key(env, q) ==> Direct(env, p) == Direct(env, q)
  }

  /** In any interleaving with evictions, sweeps and clears, every call answers as direct verification would. */
  lemma Transparent(r: Run, j: nat, c: nat)
    requires r.Valid() && j < |r.states| && Consistent(r.env, r.among)
    requires c in r.states[j].calls && r.states[j].calls[c].Answered?
    ensures r.states[j].calls[c].answer == Direct(r.env, r.states[j].calls[c].q)
  {
    InvAt(r, j);
    var k := r.states[j].calls[c];
    assert CallOk(r.env, r.among, k);
    var p :| p in r.among && Key(r.env, p) == Key(r.env, k.q) && Direct(r.env, p) == k.answer;
  }

  lemma StepKeepsInv(env: Env, cfg: Config, among: iset<Query>, s: Cache, e: Event, t: Cache)
    requires Inv(env, among, s) && Follows(env, cfg, among, s, e, t)
    ensures Inv(env, among, t)
  {
    forall k | k in t.entries ensures Deserved(env, among, k, Some(t.entries[k].valid)) {
      StepKeepsEntries(env, cfg, among, s, e, t, k);
    }
    forall c | c in t.calls ensures CallOk(env, among, t.calls[c]) {
      StepKeepsCalls(env, cfg, among, s, e, t, c);
    }
  }

  lemma AloneKeepsInv(env: Env, cfg: Config, among: iset<Query>, s: Cache, q: Query, now: int, stored: int,
                      victim: Option<string>)
    requires s.calls == map[] && MayEvict(cfg, s.entries, victim) && Inv(env, among, s) && q in among
    ensures Inv(env, among, Alone(env, cfg, s, q, now, stored, victim))
  {
    var t := Apply(env, cfg, s, Look(0, q, now));
    StepKeepsInv(env, cfg, among, s, Look(0, q, now), t);
    if t.calls[0].Found? {
      StepKeepsInv(env, cfg, among, t, CountHit(0), Apply(env, cfg, t, CountHit(0)));
    } else if t.calls[0].Missed? {
      var u := Apply(env, cfg, t, CountMiss(0));
      StepKeepsInv(env, cfg, among, t, CountMiss(0), u);
      if u.calls[0].Verified? {
        StepKeepsInv(env, cfg, among, u, Insert(0, stored, victim), Apply(env, cfg, u, Insert(0, stored, victim)));
      }
    }
  }

  /** A call on a cache left by consistent queries answers as direct verification, and leaves such a cache. */
  lemma AloneIsTransparent(env: Env, cfg: Config, among: iset<Query>, s: Cache, q: Query, now: int, stored: int,
                           victim: Option<string>)
    requires s.calls == map[] && MayEvict(cfg, s.entries, victim)
    requires Inv(env, among, s) && Consistent(env, among) && q in among
    ensures var t := Alone(env, cfg, s, q, now, stored, victim);
            && 0 in t.calls && t.calls[0] == Answered(q, Direct(env, q))
            && Inv(env, among, t.(calls := map[]))
  {
    var t := Alone(env, cfg, s, q, now, stored, victim);
    AloneKeepsInv(env, cfg, among, s, q, now, stored, victim);
    assert CallOk(env, among, t.calls[0]);
    var p :| p in among && Key(env, p) == Key(env, q) && Direct(env, p) == t.calls[0].answer;
  }

  /** Event `i` stored this entry. */
  predicate Stores(r: Run, i: nat, k: string, entry: Entry)
    requires i < |r.events| <= |r.states|
  {
    && r.events[i].Insert? && r.events[i].c in r.states[i].calls && r.states[i].calls[r.events[i].c].Verified?
    && Key(r.env, r.states[i].calls[r.events[i].c].q) == k
    && entry == Entry(r.states[i].calls[r.events[i].c].valid, r.events[i].stored)
  }

  /** Every entry was stored by an earlier call that had verified, with no clear in between. */
  lemma {:induction false} EntryHasOrigin(r: Run, j: nat, k: string) returns (i: nat)
    requires r.Valid() && j < |r.states| && k in r.states[j].entries
    ensures i < j && Stores(r, i, k, r.states[j].entries[k])
    ensures forall m :: i < m < j ==> !r.events[m].Clear?
  {
    if j == 0 {
      assert false;
    }
    assert Follows(r.env, r.cfg, r.among, r.states[j - 1], r.events[j - 1], r.states[j]);
    if Stores(r, j - 1, k, r.states[j].entries[k]) {
      i := j - 1;
    } else {
      i := EntryHasOrigin(r, j - 1, k);
    }
  }

  /** A hit repeats an insertion that is younger than the time to live and was not cleared since. */
  lemma HitIsRecent(r: Run, j: nat) returns (i: nat)
    requires r.Valid() && j < |r.events| && r.events[j].Look?
    requires r.events[j].c in r.states[j + 1].calls && r.states[j + 1].calls[r.events[j].c].Found?
    ensures i < j && r.events[i].Insert?
    ensures r.events[j].now - r.events[i].stored < r.cfg.ttl
    ensures Stores(r, i, Key(r.env, r.events[j].q),
                   Entry(r.states[j + 1].calls[r.events[j].c].valid, r.events[i].stored))
    ensures forall m :: i < m < j ==> !r.events[m].Clear?
  {
    assert Follows(r.env, r.cfg, r.among, r.states[j], r.events[j], r.states[j + 1]);
    i := EntryHasOrigin(r, j, Key(r.env, r.events[j].q));
  }

  /** Call `c` has verified and waits to store what it found. */
  predicate Waits(s: Cache, c: nat) {
    c in s.calls && s.calls[c].Verified?
  }

  predicate PastVerification(s: Cache, c: nat) {
    c in s.calls && (s.calls[c].Verified? || s.calls[c].Answered?)
  }

  lemma VerifiedStep(env: Env, cfg: Config, s: Cache, e: Event, c: nat)
    requires Enabled(cfg, s, e)
    ensures PastVerification(s, c) ==> PastVerification(Apply(env, cfg, s, e), c)
    ensures Waits(Apply(env, cfg, s, e), c) ==>
              (Waits(s, c) && Apply(env, cfg, s, e).calls[c] == s.calls[c]) || e == CountMiss(c)
  {
  }

  lemma {:induction false} VerifiedGoesOn(r: Run, m: nat, j: nat, c: nat)
    requires r.Valid() && m <= j < |r.states| && PastVerification(r.states[m], c)
    ensures PastVerification(r.states[j], c)
  {
    if m < j {
      VerifiedGoesOn(r, m, j - 1, c);
      assert Follows(r.env, r.cfg, r.among, r.states[j - 1], r.events[j - 1], r.states[j]);
      VerifiedStep(r.env, r.cfg, r.states[j - 1], r.events[j - 1], c);
    }
  }

  /** A call that waits to store has verified at an earlier moment and waits since. */
  lemma {:induction false} VerifiedHasOrigin(r: Run, i: nat, c: nat) returns (k: nat)
    requires r.Valid() && i < |r.states| && Waits(r.states[i], c)
    ensures k < i && r.events[k] == CountMiss(c)
    ensures forall m :: k < m <= i ==> Waits(r.states[m], c) && r.states[m].calls[c] == r.states[i].calls[c]
  {
    if i == 0 {
      assert false;
    }
    var s, e := r.states[i - 1], r.events[i - 1];
    assert Follows(r.env, r.cfg, r.among, s, e, r.states[i]);
    VerifiedStep(r.env, r.cfg, s, e, c);
    if e == CountMiss(c) {
      k := i - 1;
    } else {
      k := VerifiedHasOrigin(r, i - 1, c);
    }
  }

  /**
   Clear empties the map and no more. A result that is stored at `i`, after a clear at `m`, was
   verified before the clear if and only if its call was waiting to store it at that moment.
   */
  lemma OutlivesClearIff(r: Run, m: nat, i: nat) returns (k: nat)
    requires r.Valid() && m < i < |r.events| && r.events[m].Clear? && r.events[i].Insert?
    ensures k < i && r.events[k] == CountMiss(r.events[i].c)
    ensures k < m <==> Waits(r.states[m], r.events[i].c)
  {
    var c := r.events[i].c;
    assert Follows(r.env, r.cfg, r.among, r.states[i], r.events[i], r.states[i + 1]);
    k := VerifiedHasOrigin(r, i, c);
    assert Follows(r.env, r.cfg, r.among, r.states[k], r.events[k], r.states[k + 1]);
    if m <= k && Waits(r.states[m], c) {
      VerifiedGoesOn(r, m, k, c);
      assert false;
    }
  }

  /** Calls that have looked up but not yet been counted. */
  function Uncounted(s: Cache): set<nat> {
    set c | c in s.calls && (s.calls[c].Found? || s.calls[c].Missed?)
  }

  lemma UncountedStep(env: Env, cfg: Config, s: Cache, e: Event)
    requires Enabled(cfg, s, e) && cfg.enabled
    ensures var t := Apply(env, cfg, s, e);
            Uncounted(t) == if e.Look? then Uncounted(s) + {e.c}
                            else if e.CountHit? || e.CountMiss? then Uncounted(s) - {e.c}
                            else Uncounted(s)
  {
  }

  lemma CountStep(env: Env, cfg: Config, s: Cache, e: Event)
    requires Enabled(cfg, s, e) && cfg.enabled
    ensures var t := Apply(env, cfg, s, e);
            t.hits + t.misses + |Uncounted(t)| == s.hits + s.misses + |Uncounted(s)| + if e.Look? then 1 else 0
  {
    UncountedStep(env, cfg, s, e);
    assert e.Look? ==> e.c !in Uncounted(s);
    assert e.CountHit? || e.CountMiss? ==> e.c in Uncounted(s);
  }

  function LooksSoFar(es: seq<Event>): nat {
    if es == [] then 0 else LooksSoFar(es[..|es| - 1]) + if es[|es| - 1].Look? then 1 else 0
  }

  /** Every call of an enabled cache is counted once, as a hit or as a miss. */
  lemma {:induction false} EveryCallIsCounted(r: Run, j: nat)
    requires r.Valid() && j < |r.states| && r.cfg.enabled
    ensures r.states[j].hits + r.states[j].misses + |Uncounted(r.states[j])| == LooksSoFar(r.events[..j])
  {
    if j == 0 {
      assert Uncounted(r.states[0]) == {};
    } else {
      EveryCallIsCounted(r, j - 1);
      assert Follows(r.env, r.cfg, r.among, r.states[j - 1], r.events[j - 1], r.states[j]);
      CountStep(r.env, r.cfg, r.states[j - 1], r.events[j - 1]);
      assert r.events[..j][..j - 1] == r.events[..j - 1];
    }
  }

  function Capacity(cfg: Config): nat {
    if cfg.maxSize > 1 then cfg.maxSize else 1
  }

  lemma InsertKeepsSize(cfg: Config, entries: Entries, victim: Option<string>, k: string, entry: Entry)
    requires MayEvict(cfg, entries, victim) && |entries| <= Capacity(cfg)
    ensures |Without(entries, victim)[k := entry]| <= Capacity(cfg)
  {
    var rest := Without(entries, victim);
    assert victim.Some? ==> rest.Keys == entries.Keys - {victim.value};
    assert rest[k := entry].Keys == rest.Keys + {k};
  }

  /** The cache never holds more than max(maxSize, 1) entries. */
  lemma {:induction false} SizeIsBounded(r: Run, j: nat)
    requires r.Valid() && j < |r.states|
    ensures |r.states[j].entries| <= Capacity(r.cfg)
  {
    if j > 0 {
      SizeIsBounded(r, j - 1);
      var s, e := r.states[j - 1], r.events[j - 1];
      assert Follows(r.env, r.cfg, r.among, s, e, r.states[j]);
      if e.Insert? {
        InsertKeepsSize(r.cfg, s.entries, e.victim, Key(r.env, s.calls[e.c].q), Entry(s.calls[e.c].valid, e.stored));
      } else {
        SubsetSmaller(r.states[j].entries.Keys, s.entries.Keys);
      }
    }
  }

  // ---------------------------------------------------------------- what the critical sections do

  /** A look-up hits exactly on an entry younger than the time to live; a disabled cache verifies directly. */
  lemma LookUpMeans(env: Env, cfg: Config, s: Cache, q: Query, now: int)
    ensures var k, key := LookUp(env, cfg, s, q, now), env.digest(Text(q));
            if !cfg.enabled then k == Answered(q, env.verify(q.storedHash, q.secret))
            else if key in s.entries && now < s.entries[key].timestamp + cfg.ttl
            then k == Found(q, s.entries[key].valid)
            else k == Missed(q)
  {
  }

  /** What a call verifies is stored under its key, and an entry goes only if the cache was full. */
  lemma InsertMeans(env: Env, cfg: Config, s: Cache, e: Event)
    requires Enabled(cfg, s, e) && e.Insert?
    ensures var k, t := s.calls[e.c], Apply(env, cfg, s, e);
            var key := env.digest(Text(k.q));
            && key in t.entries && t.entries[key] == Entry(k.valid, e.stored)
            && t.calls[e.c] == Answered(k.q, Some(k.valid))
            && (forall x :: x in t.entries && x != key ==> x in s.entries && t.entries[x] == s.entries[x])
            && (forall x :: x in s.entries && x !in t.entries ==> e.victim == Some(x))
            && (e.victim.Some? ==>
                  && |s.entries| >= cfg.maxSize && e.victim.value in s.entries
                  && forall x :: x in s.entries ==> s.entries[e.victim.value].timestamp <= s.entries[x].timestamp)
            && (e.victim.None? ==> |s.entries| < cfg.maxSize || s.entries == map[])
  {
  }

  /** The sweep keeps exactly the entries younger than the time to live; clearing keeps none; neither counts. */
  lemma SweepAndClearMean(env: Env, cfg: Config, s: Cache, now: int, x: string)
    ensures var t := Apply(env, cfg, s, Sweep(now));
            && (x in t.entries <==> x in s.entries && now < s.entries[x].timestamp + cfg.ttl)
            && (x in t.entries ==> t.entries[x] == s.entries[x])
            && t.hits == s.hits && t.misses == s.misses && t.calls == s.calls
    ensures Apply(env, cfg, s, Event.Clear) == Cache(map[], s.hits, s.misses, s.calls)
  {
  }

  function CountsSoFar(es: seq<Event>, hit: bool): nat {
    if es == [] then 0
    else CountsSoFar(es[..|es| - 1], hit)
         + if (if hit then es[|es| - 1].CountHit? else es[|es| - 1].CountMiss?) then 1 else 0
  }

  /** The hit counter counts the hits and the miss counter the misses. */
  lemma {:induction false} CountersMean(r: Run, j: nat)
    requires r.Valid() && j < |r.states|
    ensures r.states[j].hits == CountsSoFar(r.events[..j], true)
    ensures r.states[j].misses == CountsSoFar(r.events[..j], false)
  {
    if j > 0 {
      CountersMean(r, j - 1);
      assert Follows(r.env, r.cfg, r.among, r.states[j - 1], r.events[j - 1], r.states[j]);
      assert r.events[..j][..j - 1] == r.events[..j - 1];
    }
  }

  // ---------------------------------------------------------------- when the cache is transparent

  /** Splitting at the first colon is unambiguous when the left part has none. */
  lemma FirstColon(a: string, x: string, b: string, y: string)
    requires a + ":" + x == b + ":" + y && ':' !in a && ':' !in b
    ensures a == b && x == y
  {
    var t := a + ":" + x;
    assert t[|a|] == ':' && (b + ":" + y)[|b|] == ':';
    assert t[..|a|] == a && t[|a| + 1..] == x;
    assert (b + ":" + y)[..|b|] == b && (b + ":" + y)[|b| + 1..] == y;
  }

  /** Splitting at the last colon is unambiguous when the right part has none. */
  lemma LastColon(x: string, a: string, y: string, b: string)
    requires x + ":" + a == y + ":" + b && ':' !in a && ':' !in b
    ensures x == y && a == b
  {
    var t, u := x + ":" + a, y + ":" + b;
    assert t[|x|] == ':' && u[|y|] == ':';
    assert t[..|x|] == x && t[|x| + 1..] == a;
    assert u[..|y|] == y && u[|y| + 1..] == b;
  }

  /** User ids are UUIDs and hashes Argon2id strings: no colon, no underscore at 3. Keys start with dbb_ or web_. */
  predicate WellFormed(q: Query) {
    match q
    case Password(userId, _, storedHash) =>
      ':' !in userId && ':' !in HashPrefix(storedHash) && |userId| >= 4 && userId[3] != '_'
    case ApiKey(secret, _) => |secret| >= 4 && secret[3] == '_'
  }

  /** The key text determines the user, the password and the hash prefix, or the API key. */
  lemma TextIsInjective(p: Query, q: Query)
    requires WellFormed(p) && WellFormed(q) && Text(p) == Text(q)
    ensures p.Password? == q.Password? && p.secret == q.secret
    ensures p.Password? ==> p.userId == q.userId && HashPrefix(p.storedHash) == HashPrefix(q.storedHash)
  {
    if p.Password? {
      assert Text(p)[3] == p.userId[3];
    }
    if q.Password? {
      assert Text(q)[3] == q.userId[3];
    }
    if p.Password? && q.Password? {
      LastColon(p.userId + ":" + p.secret, HashPrefix(p.storedHash),
                q.userId + ":" + q.secret, HashPrefix(q.storedHash));
      FirstColon(p.userId, p.secret, q.userId, q.secret);
    }
  }

  /** SHA-256 does not collide on these two, and the hash that goes with the same credentials is the same. */
  predicate Compatible(env: Env, p: Query, q: Query) {
    && (Key(env, p) == Key(env, q) ==> Text(p) == Text(q))
    && ((p.Password? && q.Password? && p.userId == q.userId && HashPrefix(p.storedHash) == HashPrefix(q.storedHash))
        ==> p.storedHash == q.storedHash)
    && (p.ApiKey? && q.ApiKey? && p.secret == q.secret ==> p.storedHash == q.storedHash)
  }

  ghost predicate Sound(env: Env, among: iset<Query>) {
    (forall q :: q in among ==> WellFormed(q)) && forall p, q :: p in among && q in among ==> Compatible(env, p, q)
  }

  /**
   With collision-free digests, one stored hash per API key, and 32-character hash prefixes
   that identify each user's hash, the cache answers as direct verification would.
   */
  lemma SoundRunIsTransparent(r: Run, j: nat, c: nat)
    requires r.Valid() && Sound(r.env, r.among) && j < |r.states|
    requires c in r.states[j].calls && r.states[j].calls[c].Answered?
    ensures r.states[j].calls[c].answer == Direct(r.env, r.states[j].calls[c].q)
  {
    forall p, q | p in r.among && q in r.among && Key(r.env, p) == Key(r.env, q)
      ensures Direct(r.env, p) == Direct(r.env, q)
    {
      assert Compatible(r.env, p, q);
      TextIsInjective(p, q);
    }
    Transparent(r, j, c);
  }

  /**
   A comment says that the hash prefix in the key "ensures cache invalidation when password
   changes". Exactly this holds: the key changes with the stored hash if and only if the
   change shows in its first 32 characters.
   */
  lemma KeyChangesIff(env: Env, p: Query, q: Query)
    requires p.Password? && q.Password? && p.userId == q.userId && p.secret == q.secret
    requires Key(env, p) == Key(env, q) ==> Text(p) == Text(q)
    ensures Key(env, p) != Key(env, q) <==> HashPrefix(p.storedHash) != HashPrefix(q.storedHash)
  {
    var start := p.userId + ":" + p.secret + ":";
    assert Text(p)[|start|..] == HashPrefix(p.storedHash) && Text(q)[|start|..] == HashPrefix(q.storedHash);
  }

  /** Both strings have the same character at `i`, or neither reaches that far. */
  predicate SameAt(a: string, b: string, i: nat) {
    (i < |a| <==> i < |b|) && (i < |a| && i < |b| ==> a[i] == b[i])
  }

  /** The prefix is the first 32 characters: two hashes share it exactly if they agree on those. */
  lemma PrefixMeans(a: string, b: string)
    ensures HashPrefix(a) == HashPrefix(b) <==> forall i :: 0 <= i < 32 ==> SameAt(a, b, i)
  {
    var x, y := HashPrefix(a), HashPrefix(b);
    assert forall i :: 0 <= i < 32 ==> (SameAt(a, b, i) <==> SameAt(x, y, i));
    if forall i :: 0 <= i < 32 ==> SameAt(x, y, i) {
      assert |x| < 32 ==> SameAt(x, y, |x|);
      assert |y| < 32 ==> SameAt(x, y, |y|);
      assert |x| == |y|;
      forall i | 0 <= i < |x| ensures x[i] == y[i] {
        assert SameAt(x, y, i);
      }
      assert x == y;
    }
  }

  const SHARED_PREFIX := "$argon2id$v=19$m=8192,t=1,p=4$ab"

  function Old(): Query {
    Password("ffff", "pw", SHARED_PREFIX + "1")
  }

  function New(): Query {
    Password("ffff", "pw", SHARED_PREFIX + "2")
  }

  lemma SamePrefix()
    ensures HashPrefix(Old().storedHash) == SHARED_PREFIX == HashPrefix(New().storedHash)
    ensures Old().storedHash != New().storedHash && Text(Old()) == Text(New())
  {
    assert |SHARED_PREFIX| == 32;
    assert (SHARED_PREFIX + "1")[..32] == SHARED_PREFIX && (SHARED_PREFIX + "2")[..32] == SHARED_PREFIX;
    assert (SHARED_PREFIX + "1")[32] != (SHARED_PREFIX + "2")[32];
  }

  /** A cache that still accepts the old password after a change to a hash with the same prefix. */
  lemma StaleAnswer() returns (env: Env, cfg: Config, s: Cache)
    ensures s.calls == map[] && MayEvict(cfg, s.entries, None)
    ensures s == Alone(env, cfg, Cache(map[], 0, 0, map[]), Old(), 0, 0, None).(calls := map[])
    ensures 0 in Alone(env, cfg, s, New(), 1, 1, None).calls
    ensures Alone(env, cfg, s, New(), 1, 1, None).calls[0] == Answered(New(), Some(true))
    ensures Direct(env, New()) == Some(false)
  {
    SamePrefix();
    env := Env((t: string) => "#" + t, (h: string, _: string) => Some(h == SHARED_PREFIX + "1"));
    cfg := Config(300, 10, true);
    s := Cache(map[Key(env, Old()) := Entry(true, 0)], 0, 1, map[]);
    assert |s.entries| == 1;
  }

  // ---------------------------------------------------------------- API keys

  const PREFIX_LENGTH := 8

  datatype KeyRow = KeyRow(hash: string, revoked: bool, expiresAt: Option<int>)

  datatype KeyVerdict = Accepted | KeyNotFound | Revoked | Expired

  predicate IsExpired(row: KeyRow, now: int) {
    row.expiresAt.Some? && now > row.expiresAt.value
  }

  /** VerifyAPIKey, given what the verification (cached or not) said. */
  function JudgeKey(rows: map<string, KeyRow>, plainKey: string, valid: Option<bool>, now: int): KeyVerdict {
    if |plainKey| < PREFIX_LENGTH || plainKey[..PREFIX_LENGTH] !in rows then KeyNotFound
    else
      var row := rows[plainKey[..PREFIX_LENGTH]];
      if valid != Some(true) then KeyNotFound
      else if row.revoked then Revoked
      else if IsExpired(row, now) then Expired
      else Accepted
  }

  /** Accepted: eight characters or more, on record, verified, not revoked and not past its expiry. */
  lemma VerdictMeans(rows: map<string, KeyRow>, plainKey: string, valid: Option<bool>, now: int)
    ensures var v := JudgeKey(rows, plainKey, valid, now);
            if |plainKey| < 8 || plainKey[..8] !in rows || valid != Some(true) then v == KeyNotFound
            else
              var row := rows[plainKey[..8]];
              && (v == Revoked <==> row.revoked)
              && (v == Accepted <==> !row.revoked && (row.expiresAt.Some? ==> now <= row.expiresAt.value))
              && (v == Expired <==> !row.revoked && row.expiresAt.Some? && now > row.expiresAt.value)
  {
  }

  /** The api_keys table, by unique key prefix, with the cache in front of verification. */
  class KeyStore {
    var rows: map<string, KeyRow>
    const cache: AuthCache

    constructor (cache: AuthCache)
      ensures rows == map[] && this.cache == cache
    {
      this.cache := cache;
      rows := map[];
    }

    /**
     The verdict from the cached verification and the row. If all queries so far, this one
     included, are among consistent ones, it is the verdict of direct verification. A revoked or
     expired key is never accepted, whatever the cache holds.
     */
    method VerifyAPIKey(plainKey: string, now: int, stored: int, clock: int)
      returns (v: KeyVerdict, ghost victim: Option<string>)
      requires cache.Valid()
      modifies cache
      ensures cache.Valid()
      ensures !HasRow(plainKey) ==> v == KeyNotFound && cache.Snapshot() == old(cache.Snapshot())
      ensures HasRow(plainKey) ==>
                && MayEvict(cache.cfg, old(cache.entries), victim)
                && var t := Alone(cache.env, cache.cfg, old(cache.Snapshot()), QueryFor(plainKey), now, stored, victim);
                   && t == cache.Snapshot().(calls := t.calls) && 0 in t.calls && t.calls[0].Answered?
                   && v == JudgeKey(rows, plainKey, t.calls[0].answer, clock)
      ensures forall among :: HasRow(plainKey) && Explains(among, plainKey, old(cache.Snapshot())) ==>
                                && v == JudgeKey(rows, plainKey, Direct(cache.env, QueryFor(plainKey)), clock)
                                && Inv(cache.env, among, cache.Snapshot())
      ensures HasRow(plainKey) && rows[plainKey[..PREFIX_LENGTH]].revoked ==> !v.Accepted?
      ensures v.Accepted? ==> && HasRow(plainKey)
                              && var row := rows[plainKey[..PREFIX_LENGTH]];
                                 !row.revoked && (row.expiresAt.Some? ==> clock <= row.expiresAt.value)
    {
      victim := None;
      if |plainKey| < PREFIX_LENGTH {
        return KeyNotFound, None;
      }
      var prefix := plainKey[..PREFIX_LENGTH];
      if prefix !in rows {
        return KeyNotFound, None;
      }
      var row := rows[prefix];
      var valid;
      ghost var before := cache.Snapshot();
      valid, victim := cache.VerifyKey(plainKey, row.hash, now, stored);
      forall among | Explains(among, plainKey, before)
        ensures valid == Direct(cache.env, QueryFor(plainKey)) && Inv(cache.env, among, cache.Snapshot())
      {
        AloneIsTransparent(cache.env, cache.cfg, among, before, QueryFor(plainKey), now, stored, victim);
      }
      if valid.None? || !valid.value {
        return KeyNotFound, victim;
      }
      if row.revoked {
        return Revoked, victim;
      }
      if row.expiresAt.Some? && clock > row.expiresAt.value {
        return Expired, victim;
      }
      return Accepted, victim;
    }

    predicate HasRow(plainKey: string)
      reads this
    {
      |plainKey| >= PREFIX_LENGTH && plainKey[..PREFIX_LENGTH] in rows
    }

    ghost function QueryFor(plainKey: string): Query
      requires HasRow(plainKey)
      reads this
    {
      ApiKey(plainKey, rows[plainKey[..PREFIX_LENGTH]].hash)
    }

    /** The cache comes from queries that are consistent, this one among them. */
    ghost predicate Explains(among: iset<Query>, plainKey: string, before: Cache)
      requires HasRow(plainKey)
      reads this
    {
      Consistent(cache.env, among) && Inv(cache.env, among, before) && QueryFor(plainKey) in among
    }

    /** From the next call on no key with this prefix is accepted, whatever the cache holds. */
    method RevokeAPIKey(prefix: string) returns (ok: bool)
      modifies this`rows
      ensures ok <==> prefix in old(rows) && !old(rows)[prefix].revoked
      ensures rows == if ok then old(rows)[prefix := old(rows)[prefix].(revoked := true)] else old(rows)
      ensures forall key: string, valid, now ::
                |key| >= PREFIX_LENGTH && key[..PREFIX_LENGTH] == prefix ==> !JudgeKey(rows, key, valid, now).Accepted?
    {
      if prefix !in rows || rows[prefix].revoked {
        return false;
      }
      rows := rows[prefix := rows[prefix].(revoked := true)];
      return true;
    }
  }
}
