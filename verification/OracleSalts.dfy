/**
 Lazy generation of a user's shared O5LOGON salts: a read, a compare-and-set and a re-read
 that race with each other, with the row-locked MongoDB verifier writer, and with API key
 creation and upgrade. One event is one SQL statement, or one transaction holding the row lock.
 */
module OracleSalts {
  import opened Common

  type Bytes = seq<byte>

  datatype Salts = Salts(salt6949: Bytes, salt18453: Bytes)

  datatype ProtocolData = ProtocolData(oracle: Option<Salts>, mongo: Option<Bytes>)

  /** A user row; deletion is soft, so the row keeps its data. */
  datatype User = User(data: Option<ProtocolData>, deleted: bool)

  /** The Oracle part of a key's protocol data: the salts its verifiers were derived from. */
  datatype KeyOracle = KeyOracle(salts: Salts, userSalt: bool)

  datatype ApiKey = ApiKey(user: Uid, oracle: Option<KeyOracle>, revoked: bool)

  /** Why EnsureUserOracleSalts was called. */
  datatype Purpose =
    | Direct
    | ForCreate(fallback: Salts)
    | ForUpgrade(key: Uid)

  /** A call in flight: past the SELECT of the key, past the first SELECT of the user, and so on. */
  datatype Call =
    | Selected(purpose: Purpose, user: Uid)
    | Generated(purpose: Purpose, user: Uid, read: Option<ProtocolData>, minted: Salts)
    | LostRace(purpose: Purpose, user: Uid)
    | Ensured(purpose: Purpose, user: Uid, salts: Salts)
    | Failed(purpose: Purpose, user: Uid)
    | Done

  datatype State = State(users: map<Uid, User>, keys: map<Uid, ApiKey>, calls: map<nat, Call>)

  datatype Event =
    | AddUser(u: Uid)
    | RemoveUser(u: Uid)
    | SetMongoVerifier(u: Uid, verifier: Bytes)
    | BeginUpgrade(c: nat, key: Uid)
    | ReadOwner(c: nat, minted: Salts)
    | BeginEnsure(c: nat, u: Uid, purpose: Purpose, minted: Salts)
    | CompareAndSet(c: nat)
    | ReRead(c: nat)
    | InsertKey(c: nat, key: Uid)
    | InsertPlainKey(key: Uid, u: Uid)
    | WriteUpgraded(c: nat)
    | RevokeKey(key: Uid)

  // ---------------------------------------------------------------- statements

  predicate Live(s: State, u: Uid) {
    u in s.users && !s.users[u].deleted
  }

  function OracleOf(d: Option<ProtocolData>): Option<Salts> {
    if d.None? then None else d.value.oracle
  }

  function MongoOf(d: Option<ProtocolData>): Option<Bytes> {
    if d.None? then None else d.value.mongo
  }

  /** Present and non-empty on both counts: the first test of EnsureUserOracleSalts. */
  predicate Usable(o: Option<Salts>) {
    o.Some? && |o.value.salt6949| > 0 && |o.value.salt18453| > 0
  }

  function WithOracle(d: Option<ProtocolData>, salts: Salts): ProtocolData {
    ProtocolData(Some(salts), MongoOf(d))
  }

  function WithMongo(d: Option<ProtocolData>, verifier: Bytes): ProtocolData {
    ProtocolData(OracleOf(d), Some(verifier))
  }

  /** The WHERE clause of the compare-and-set. */
  predicate OracleAbsent(s: State, u: Uid) {
    Live(s, u) && OracleOf(s.users[u].data).None?
  }

  predicate KeyNeedsUpgrade(s: State, key: Uid) {
    key in s.keys && s.keys[key].oracle.Some? && !s.keys[key].oracle.value.userSalt
  }

  predicate Enabled(s: State, e: Event) {
    match e
    case AddUser(u) => u !in s.users
    case RemoveUser(_) => true
    case SetMongoVerifier(_, _) => true
    case BeginUpgrade(c, _) => c !in s.calls
    case ReadOwner(c, _) => c in s.calls && s.calls[c].Selected?
    case BeginEnsure(c, _, purpose, _) => c !in s.calls && !purpose.ForUpgrade?
    case CompareAndSet(c) => c in s.calls && s.calls[c].Generated?
    case ReRead(c) => c in s.calls && s.calls[c].LostRace?
    case InsertKey(c, key) =>
      key !in s.keys && c in s.calls && (s.calls[c].Ensured? || s.calls[c].Failed?) && s.calls[c].purpose.ForCreate?
    case InsertPlainKey(key, _) => key !in s.keys
    case WriteUpgraded(c) => c in s.calls && s.calls[c].Ensured? && s.calls[c].purpose.ForUpgrade?
    case RevokeKey(_) => true
  }

  function Remember(s: State, c: nat, k: Call): State {
    s.(calls := s.calls[c := k])
  }

  /** The first SELECT of EnsureUserOracleSalts. */
  function FirstRead(s: State, u: Uid, purpose: Purpose, minted: Salts): Call {
    if !Live(s, u) then Failed(purpose, u)
    else if Usable(OracleOf(s.users[u].data)) then Ensured(purpose, u, OracleOf(s.users[u].data).value)
    else Generated(purpose, u, s.users[u].data, minted)
  }

  function Apply(s: State, e: Event): State
    requires Enabled(s, e)
  {
    match e
    case AddUser(u) => s.(users := s.users[u := User(None, false)])
    case RemoveUser(u) => if Live(s, u) then s.(users := s.users[u := s.users[u].(deleted := true)]) else s
    case SetMongoVerifier(u, v) =>
      if Live(s, u) then s.(users := s.users[u := s.users[u].(data := Some(WithMongo(s.users[u].data, v)))]) else s
    case BeginUpgrade(c, key) =>
      Remember(s, c, if KeyNeedsUpgrade(s, key) then Selected(ForUpgrade(key), s.keys[key].user) else Done)
    case ReadOwner(c, minted) => Remember(s, c, FirstRead(s, s.calls[c].user, s.calls[c].purpose, minted))
    case BeginEnsure(c, u, purpose, minted) => Remember(s, c, FirstRead(s, u, purpose, minted))
    case CompareAndSet(c) =>
      var k := s.calls[c];
      if OracleAbsent(s, k.user)
      then Remember(s.(users := s.users[k.user := s.users[k.user].(data := Some(WithOracle(k.read, k.minted)))]),
                    c, Ensured(k.purpose, k.user, k.minted))
      else Remember(s, c, LostRace(k.purpose, k.user))
    case ReRead(c) =>
      var k := s.calls[c];
      Remember(s, c, if Live(s, k.user) && OracleOf(s.users[k.user].data).Some?
                     then Ensured(k.purpose, k.user, OracleOf(s.users[k.user].data).value)
                     else Failed(k.purpose, k.user))
    case InsertKey(c, key) =>
      var k := s.calls[c];
      var oracle := if k.Ensured? then KeyOracle(k.salts, true) else KeyOracle(k.purpose.fallback, false);
      Remember(s.(keys := s.keys[key := ApiKey(k.user, Some(oracle), false)]), c, Done)
    case InsertPlainKey(key, u) => s.(keys := s.keys[key := ApiKey(u, None, false)])
    case WriteUpgraded(c) =>
      var k := s.calls[c];
      var key := k.purpose.key;
      if key in s.keys
      then Remember(s.(keys := s.keys[key := s.keys[key].(oracle := Some(KeyOracle(k.salts, true)))]), c, Done)
      else Remember(s, c, Done)
    case RevokeKey(key) =>
      if key in s.keys then s.(keys := s.keys[key := s.keys[key].(revoked := true)]) else s
  }

  // ---------------------------------------------------------------- invariant

  predicate Holds(s: State, u: Uid, salts: Salts) {
    u in s.users && OracleOf(s.users[u].data) == Some(salts)
  }

  ghost predicate KeysOk(s: State) {
    forall k :: k in s.keys && s.keys[k].oracle.Some? && s.keys[k].oracle.value.userSalt ==>
                  Holds(s, s.keys[k].user, s.keys[k].oracle.value.salts)
  }

  predicate CallOk(s: State, k: Call) {
    && (k.Ensured? ==> Holds(s, k.user, k.salts))
    && (k.Generated? ==> k.user in s.users)
    && (k.LostRace? ==> k.user in s.users && (OracleOf(s.users[k.user].data).Some? || s.users[k.user].deleted))
    && (k.Selected? ==> k.purpose.ForUpgrade?)
    && (!k.Done? && k.purpose.ForUpgrade? ==>
          k.purpose.key in s.keys && s.keys[k.purpose.key].user == k.user && s.keys[k.purpose.key].oracle.Some?)
  }

  ghost predicate CallsOk(s: State) {
    forall c :: c in s.calls ==> CallOk(s, s.calls[c])
  }

  ghost predicate Inv(s: State) {
    KeysOk(s) && CallsOk(s)
  }

  /** Once a user row holds salts, no statement changes them. */
  lemma ApplyKeepsSalts(s: State, e: Event, u: Uid, salts: Salts)
    requires Enabled(s, e) && Holds(s, u, salts)
    ensures Holds(Apply(s, e), u, salts)
  {
  }

  lemma ApplyKeepsKeys(s: State, e: Event)
    requires Inv(s) && Enabled(s, e)
    ensures KeysOk(Apply(s, e))
  {
    var t := Apply(s, e);
    forall k | k in t.keys && t.keys[k].oracle.Some? && t.keys[k].oracle.value.userSalt
      ensures Holds(t, t.keys[k].user, t.keys[k].oracle.value.salts)
    {
      if k in s.keys && t.keys[k].oracle == s.keys[k].oracle {
        ApplyKeepsSalts(s, e, s.keys[k].user, s.keys[k].oracle.value.salts);
      }
    }
  }

  lemma ApplyKeepsCall(s: State, e: Event, c: nat)
    requires Inv(s) && Enabled(s, e) && c in Apply(s, e).calls
    ensures CallOk(Apply(s, e), Apply(s, e).calls[c])
  {
    if c in s.calls {
      assert CallOk(s, s.calls[c]);
    }
  }

  lemma ApplyKeepsCalls(s: State, e: Event)
    requires Inv(s) && Enabled(s, e)
    ensures CallsOk(Apply(s, e))
  {
    forall c | c in Apply(s, e).calls ensures CallOk(Apply(s, e), Apply(s, e).calls[c]) {
      ApplyKeepsCall(s, e, c);
    }
  }

  // ---------------------------------------------------------------- runs

  datatype Run = Run(states: seq<State>, events: seq<Event>) {
    /** Any table may be the start, as long as keys already flagged are right. */
    ghost predicate Valid() {
      && |states| == |events| + 1
      && states[0].calls == map[] && KeysOk(states[0])
      && forall i {:trigger events[i]} :: 0 <= i < |events| ==> Follows(states[i], events[i], states[i + 1])
    }
  }

  predicate Follows(s: State, e: Event, t: State) {
    Enabled(s, e) && t == Apply(s, e)
  }

  lemma {:induction false} InvAt(r: Run, i: nat)
    requires r.Valid() && i < |r.states|
    ensures Inv(r.states[i])
  {
    if i > 0 {
      InvAt(r, i - 1);
      ApplyKeepsKeys(r.states[i - 1], r.events[i - 1]);
      ApplyKeepsCalls(r.states[i - 1], r.events[i - 1]);
    }
  }

  lemma {:induction false} SaltsNeverChange(r: Run, i: nat, j: nat, u: Uid, salts: Salts)
    requires r.Valid() && i <= j < |r.states| && Holds(r.states[i], u, salts)
    ensures Holds(r.states[j], u, salts)
  {
    if i < j {
      SaltsNeverChange(r, i, j - 1, u, salts);
      ApplyKeepsSalts(r.states[j - 1], r.events[j - 1], u, salts);
    }
  }

  /** Call `c` has EnsureUserOracleSalts return `salts` for `u` in this state. */
  predicate Returned(s: State, c: nat, u: Uid, salts: Salts) {
    c in s.calls && s.calls[c].Ensured? && s.calls[c].user == u && s.calls[c].salts == salts
  }

  /** All successful calls for one user agree, whenever they return. */
  lemma AllCallersConverge(r: Run, i: nat, j: nat, c: nat, d: nat, u: Uid, a: Salts, b: Salts)
    requires r.Valid() && i < |r.states| && j < |r.states|
    requires Returned(r.states[i], c, u, a) && Returned(r.states[j], d, u, b)
    ensures a == b
  {
    InvAt(r, i);
    InvAt(r, j);
    if i <= j {
      SaltsNeverChange(r, i, j, u, a);
    } else {
      SaltsNeverChange(r, j, i, u, b);
    }
  }

  /** Every key flagged UserSalt holds its owner's salts, and those of every other flagged key of that owner. */
  lemma FlaggedKeysShareOwnerSalts(r: Run, i: nat, j: nat, k: Uid, m: Uid)
    requires r.Valid() && i < |r.states| && j < |r.states|
    requires k in r.states[i].keys && r.states[i].keys[k].oracle.Some? && r.states[i].keys[k].oracle.value.userSalt
    requires m in r.states[j].keys && r.states[j].keys[m].oracle.Some? && r.states[j].keys[m].oracle.value.userSalt
    requires r.states[i].keys[k].user == r.states[j].keys[m].user
    ensures r.states[i].keys[k].oracle.value.salts == r.states[j].keys[m].oracle.value.salts
    ensures Holds(r.states[i], r.states[i].keys[k].user, r.states[i].keys[k].oracle.value.salts)
  {
    InvAt(r, i);
    InvAt(r, j);
    var u := r.states[i].keys[k].user;
    if i <= j {
      SaltsNeverChange(r, i, j, u, r.states[i].keys[k].oracle.value.salts);
    } else {
      SaltsNeverChange(r, j, i, u, r.states[j].keys[m].oracle.value.salts);
    }
  }

  /** After a lost race the re-read succeeds unless the user has been deleted. */
  lemma LoserAdoptsWinner(r: Run, i: nat, c: nat)
    requires r.Valid() && i < |r.events| && r.events[i] == ReRead(c) && Live(r.states[i], r.states[i].calls[c].user)
    ensures c in r.states[i + 1].calls && r.states[i + 1].calls[c].Ensured?
    ensures Holds(r.states[i], r.states[i].calls[c].user, r.states[i + 1].calls[c].salts)
  {
    InvAt(r, i);
    assert CallOk(r.states[i], r.states[i].calls[c]);
  }

  // ---------------------------------------------------------------- the lost update

  /** `k` is in flight since a first read in state `s` that found the row without usable salts. */
  predicate ReadIn(s: State, e: Event, c: nat, k: Call) {
    && (e.BeginEnsure? || e.ReadOwner?) && e.c == c && k.Generated?
    && k.user in s.users && k.read == s.users[k.user].data
  }

  lemma GeneratedStep(s: State, e: Event, c: nat)
    requires Enabled(s, e) && c in Apply(s, e).calls && Apply(s, e).calls[c].Generated?
    ensures if c in s.calls && s.calls[c].Generated? then Apply(s, e).calls[c] == s.calls[c]
            else ReadIn(s, e, c, Apply(s, e).calls[c])
  {
  }

  lemma {:induction false} GeneratedHasOrigin(r: Run, i: nat, c: nat) returns (k: nat)
    requires r.Valid() && i < |r.states| && c in r.states[i].calls && r.states[i].calls[c].Generated?
    ensures k < i && ReadIn(r.states[k], r.events[k], c, r.states[i].calls[c])
  {
    if i == 0 {
      assert false;
    }
    GeneratedStep(r.states[i - 1], r.events[i - 1], c);
    k := i - 1;
    if c in r.states[i - 1].calls && r.states[i - 1].calls[c].Generated? {
      k := GeneratedHasOrigin(r, i - 1, c);
    }
  }

  function VerifierOf(s: State, u: Uid): Option<Bytes>
  {
    if u in s.users then MongoOf(s.users[u].data) else None
  }

  /**
   The verifier writer's comment says that the salt writer cannot clobber the verifier. The
   salt writer writes back the record it read, so exactly this holds: a successful
   compare-and-set at `i`, whose call began at `k`, keeps the user's verifier if and only if
   the verifier at `i` is the one that was there at `k`.
   */
  lemma VerifierSurvivesIff(r: Run, i: nat, c: nat) returns (k: nat)
    requires r.Valid() && i < |r.events| && r.events[i] == CompareAndSet(c)
    requires OracleAbsent(r.states[i], r.states[i].calls[c].user)
    ensures k < i && ReadIn(r.states[k], r.events[k], c, r.states[i].calls[c])
    ensures var u := r.states[i].calls[c].user;
            && VerifierOf(r.states[i + 1], u) == VerifierOf(r.states[k], u)
            && (VerifierOf(r.states[i + 1], u) == VerifierOf(r.states[i], u)
                <==> VerifierOf(r.states[i], u) == VerifierOf(r.states[k], u))
  {
    k := GeneratedHasOrigin(r, i, c);
  }

  /** In the other direction the row lock does its work: the verifier writer keeps the salts. */
  lemma VerifierWriterMerges(s: State, u: Uid, v: Bytes)
    requires Live(s, u)
    ensures var t := Apply(s, SetMongoVerifier(u, v));
            && OracleOf(t.users[u].data) == OracleOf(s.users[u].data) && MongoOf(t.users[u].data) == Some(v)
  {
  }

  /** A run in which a verifier is written and then lost. */
  lemma VerifierCanBeLost() returns (r: Run)
    ensures r.Valid() && |r.events| == 3 && r.events[1] == SetMongoVerifier(1, [9])
    ensures 1 in r.states[2].users && MongoOf(r.states[2].users[1].data) == Some([9])
    ensures 1 in r.states[3].users && MongoOf(r.states[3].users[1].data) == None
  {
    var minted := Salts([1], [2]);
    var s0 := State(map[1 := User(None, false)], map[], map[]);
    var e0, e1, e2 := BeginEnsure(0, 1, Direct, minted), SetMongoVerifier(1, [9]), CompareAndSet(0);
    var s1 := State(s0.users, map[], map[0 := Generated(Direct, 1, None, minted)]);
    var s2 := s1.(users := map[1 := User(Some(ProtocolData(None, Some([9]))), false)]);
    var s3 := State(map[1 := User(Some(ProtocolData(Some(minted), None)), false)], map[],
                    map[0 := Ensured(Direct, 1, minted)]);
    assert Apply(s0, e0) == s1;
    assert Apply(s1, e1) == s2;
    assert Apply(s2, e2) == s3;
    r := Run([s0, s1, s2, s3], [e0, e1, e2]);
  }

  // ---------------------------------------------------------------- the store's calls

  /** Call 0 runs on alone until EnsureUserOracleSalts has returned. */
  function Settle(s: State): (t: State)
    requires 0 in s.calls
    ensures 0 in t.calls && !t.calls[0].Generated? && !t.calls[0].LostRace? && t.keys == s.keys
    ensures !s.calls[0].Done? ==> !t.calls[0].Done? && t.calls[0].purpose == s.calls[0].purpose
  {
    var t := if s.calls[0].Generated? then Apply(s, CompareAndSet(0)) else s;
    if t.calls[0].LostRace? then Apply(t, ReRead(0)) else t
  }

  predicate IsLive(users: map<Uid, User>, u: Uid) {
    u in users && users[u].deleted == false
  }

  /** The salts in a user row, if there are any. */
  predicate SaltsIn(users: map<Uid, User>, u: Uid, salts: Salts) {
    u in users && users[u].data.Some? && users[u].data.value.oracle == Some(salts)
  }

  /** From `s` to `t` the row of `u` gets the salts, keeps its verifier, and nothing else changes. */
  predicate SaltsAdded(s: State, t: State, u: Uid, salts: Salts) {
    && u in s.users && t.users.Keys == s.users.Keys && SaltsIn(t.users, u, salts)
    && t.users[u].deleted == s.users[u].deleted
    && t.users[u].data.value.mongo == (if s.users[u].data.Some? then s.users[u].data.value.mongo else None)
    && forall v :: v in s.users && v != u ==> t.users[v] == s.users[v]
  }

  /**
   EnsureUserOracleSalts run alone: a missing or deleted user is an error, salts that are there are
   returned, and a user without any gets the ones just generated.
   */
  lemma EnsureAloneMeans(s: State, u: Uid, purpose: Purpose, minted: Salts)
    requires s.calls == map[]
    ensures var t := Settle(Remember(s, 0, FirstRead(s, u, purpose, minted)));
            if !IsLive(s.users, u) then t.calls[0] == Failed(purpose, u) && t.users == s.users
            else if s.users[u].data.Some? && s.users[u].data.value.oracle.Some?
            then t.calls[0] == Ensured(purpose, u, s.users[u].data.value.oracle.value) && t.users == s.users
            else t.calls[0] == Ensured(purpose, u, minted) && SaltsAdded(s, t, u, minted)
  {
  }

  /**
   A key created for a live user with an encryption key is flagged and holds the salts in the user
   row; for any other user it holds salts of its own; without an encryption key it holds none.
   */
  lemma CreatedKeyMeans(s: State, key: Uid, u: Uid, minted: Salts, fallback: Salts)
    requires s.calls == map[] && key !in s.keys
    ensures var t := Apply(Settle(Apply(s, BeginEnsure(0, u, ForCreate(fallback), minted))), InsertKey(0, key));
            && key in t.keys && t.keys - {key} == s.keys && t.keys[key].user == u && !t.keys[key].revoked
            && t.keys[key].oracle.Some?
            && (IsLive(s.users, u) ==>
                  t.keys[key].oracle.value.userSalt && SaltsIn(t.users, u, t.keys[key].oracle.value.salts))
            && (!IsLive(s.users, u) ==> t.keys[key].oracle.value == KeyOracle(fallback, false) && t.users == s.users)
    ensures var t := Apply(s, InsertPlainKey(key, u));
            t.users == s.users && t.keys == s.keys[key := ApiKey(u, None, false)]
  {
    var e := BeginEnsure(0, u, ForCreate(fallback), minted);
    assert Apply(s, e) == Remember(s, 0, FirstRead(s, u, ForCreate(fallback), minted));
    EnsureAloneMeans(s, u, ForCreate(fallback), minted);
    var t := Apply(Settle(Apply(s, e)), InsertKey(0, key));
    assert t.keys - {key} == s.keys;
  }

  /** In any interleaving: a create whose salt call succeeded inserts a key with its owner's salts. */
  lemma InsertedKeyMeans(r: Run, i: nat, c: nat, key: Uid)
    requires r.Valid() && i < |r.events| && r.events[i] == InsertKey(c, key)
    ensures c in r.states[i].calls && r.states[i].calls[c].purpose.ForCreate?
    ensures key in r.states[i + 1].keys && r.states[i + 1].keys - {key} == r.states[i].keys
    ensures var k, row := r.states[i].calls[c], r.states[i + 1].keys[key];
            && row.user == k.user && !row.revoked && row.oracle.Some?
            && (k.Ensured? ==> row.oracle.value.userSalt
                               && SaltsIn(r.states[i + 1].users, k.user, row.oracle.value.salts))
            && (k.Failed? ==> row.oracle.value == KeyOracle(k.purpose.fallback, false))
  {
    InvAt(r, i);
    assert Follows(r.states[i], r.events[i], r.states[i + 1]);
    assert CallOk(r.states[i], r.states[i].calls[c]);
    assert r.states[i + 1].keys - {key} == r.states[i].keys;
  }

  /** The remaining writers, each of which changes one row and in it one thing. */
  lemma WritersMean(s: State, x: Uid, v: Bytes)
    ensures x !in s.users ==> Apply(s, AddUser(x)) == s.(users := s.users[x := User(None, false)])
    ensures var t := Apply(s, RemoveUser(x));
            && t.keys == s.keys
            && t.users == if x in s.users then s.users[x := User(s.users[x].data, true)] else s.users
    ensures var t := Apply(s, SetMongoVerifier(x, v));
            if IsLive(s.users, x)
            then && t.users == s.users[x := t.users[x]] && IsLive(t.users, x) && t.keys == s.keys
                 && t.users[x].data.Some? && t.users[x].data.value.mongo == Some(v)
                 && t.users[x].data.value.oracle
                    == (if s.users[x].data.Some? then s.users[x].data.value.oracle else None)
            else t == s
    ensures var t := Apply(s, RevokeKey(x));
            && t.users == s.users
            && t.keys == if x in s.keys then s.keys[x := ApiKey(s.keys[x].user, s.keys[x].oracle, true)] else s.keys
  {
    if x in s.users && s.users[x].deleted {
      assert s.users[x := User(s.users[x].data, true)] == s.users;
    }
  }

  /** UpgradeAPIKeyO5LogonVerifiers as call 0, run alone. */
  function UpgradeAlone(s: State, key: Uid, minted: Salts, encrypting: bool): State
    requires 0 !in s.calls
  {
    if !encrypting then s
    else
      var t := Apply(s, BeginUpgrade(0, key));
      if t.calls[0].Done? then t
      else
        var u := Settle(Apply(t, ReadOwner(0, minted)));
        if u.calls[0].Ensured? then Apply(u, WriteUpgraded(0)) else u
  }

  /** Without interruption the two SELECTs see the same tables. */
  lemma UpgradeReadsAtOnce(s: State, key: Uid, minted: Salts)
    requires s.calls == map[] && KeyNeedsUpgrade(s, key)
    ensures var u := Settle(Remember(s, 0, FirstRead(s, s.keys[key].user, ForUpgrade(key), minted)));
            UpgradeAlone(s, key, minted, true) == if u.calls[0].Ensured? then Apply(u, WriteUpgraded(0)) else u
  {
    var t := Apply(s, BeginUpgrade(0, key));
    assert Apply(t, ReadOwner(0, minted)) == Remember(s, 0, FirstRead(s, s.keys[key].user, ForUpgrade(key), minted));
  }

  /**
   The upgrade's comment says that it is a no-op when the key has been revoked. The code never
   looks at the revocation. Exactly this holds: the upgrade leaves every key as it was if and
   only if there is no encryption key, or the key is unknown, has no Oracle material or is on
   its owner's salts already, or the owner is gone.
   */
  lemma UpgradeIsNoOpIff(s: State, key: Uid, minted: Salts, encrypting: bool)
    requires 0 !in s.calls
    ensures UpgradeAlone(s, key, minted, encrypting).keys == s.keys
            <==> !encrypting || !KeyNeedsUpgrade(s, key) || !Live(s, s.keys[key].user)
  {
    if encrypting && KeyNeedsUpgrade(s, key) {
      var t := Apply(s, BeginUpgrade(0, key));
      var u := Settle(Apply(t, ReadOwner(0, minted)));
      assert u.calls[0].Ensured? <==> Live(s, s.keys[key].user);
      assert UpgradeAlone(s, key, minted, encrypting).keys[key].oracle.value.userSalt
             <==> Live(s, s.keys[key].user);
    }
  }

  /**
   The same in any interleaving: when an upgrade comes to its write, the key gets its owner's
   salts and keeps its revocation, and the table changes if and only if the key was still on
   salts of its own.
   */
  lemma UpgradeWritesIff(r: Run, i: nat, c: nat)
    requires r.Valid() && i < |r.events| && r.events[i] == WriteUpgraded(c)
    ensures c in r.states[i].calls && r.states[i].calls[c].Ensured? && r.states[i].calls[c].purpose.ForUpgrade?
    ensures var key := r.states[i].calls[c].purpose.key;
            && key in r.states[i].keys && key in r.states[i + 1].keys
            && var before, after := r.states[i].keys[key], r.states[i + 1].keys[key];
               && after.user == before.user && after.revoked == before.revoked
               && after.oracle.Some? && after.oracle.value.userSalt
               && Holds(r.states[i + 1], before.user, after.oracle.value.salts)
               && (r.states[i + 1].keys != r.states[i].keys <==> KeyNeedsUpgrade(r.states[i], key))
  {
    var s := r.states[i];
    assert Follows(s, r.events[i], r.states[i + 1]);
    InvAt(r, i);
    assert CallOk(s, s.calls[c]);
    var key := s.calls[c].purpose.key;
    var oracle := Some(KeyOracle(s.calls[c].salts, true));
    assert r.states[i + 1].keys == s.keys[key := s.keys[key].(oracle := oracle)];
    if !KeyNeedsUpgrade(s, key) {
      assert s.keys[key].oracle == oracle;
    } else {
      assert r.states[i + 1].keys[key] != s.keys[key];
    }
  }

  /** A revoked key that is upgraded all the same. */
  lemma RevokedKeyIsUpgraded() returns (r: Run)
    ensures r.Valid() && |r.events| == 3
    ensures 5 in r.states[0].keys && r.states[0].keys[5] == ApiKey(1, Some(KeyOracle(Salts([3], [4]), false)), true)
    ensures 5 in r.states[3].keys && r.states[3].keys[5] == ApiKey(1, Some(KeyOracle(Salts([1], [2]), true)), true)
  {
    var salts := Salts([1], [2]);
    var key := ApiKey(1, Some(KeyOracle(Salts([3], [4]), false)), true);
    var s0 := State(map[1 := User(Some(ProtocolData(Some(salts), None)), false)], map[5 := key], map[]);
    var s1 := s0.(calls := map[0 := Selected(ForUpgrade(5), 1)]);
    var s2 := s0.(calls := map[0 := Ensured(ForUpgrade(5), 1, salts)]);
    var s3 := State(s0.users, map[5 := key.(oracle := Some(KeyOracle(salts, true)))], map[0 := Done]);
    assert Follows(s0, BeginUpgrade(0, 5), s1);
    assert Follows(s1, ReadOwner(0, salts), s2);
    assert Follows(s2, WriteUpgraded(0), s3);
    r := Run([s0, s1, s2, s3], [BeginUpgrade(0, 5), ReadOwner(0, salts), WriteUpgraded(0)]);
  }

  /** The store, each method run without interruption. */
  class Store {
    var users: map<Uid, User>
    var keys: map<Uid, ApiKey>

    ghost function Snapshot(): State
      reads this
    {
      State(users, keys, map[])
    }

    constructor ()
      ensures users == map[] && keys == map[]
    {
      users, keys := map[], map[];
    }

    method EnsureUserOracleSalts(u: Uid, minted: Salts, purpose: Purpose) returns (r: Option<Salts>)
      modifies this`users
      ensures Snapshot().(calls := map[0 := if r.Some? then Ensured(purpose, u, r.value) else Failed(purpose, u)])
              == Settle(Remember(old(Snapshot()), 0, FirstRead(old(Snapshot()), u, purpose, minted)))
    {
      if u !in users || users[u].deleted {
        return None;
      }
      var read := users[u].data;
      if Usable(OracleOf(read)) {
        return OracleOf(read);
      }
      if OracleOf(users[u].data).None? {
        users := users[u := users[u].(data := Some(WithOracle(read, minted)))];
        return Some(minted);
      }
      return OracleOf(users[u].data);
    }

    method PersistUserMongoVerifier(u: Uid, verifier: Bytes) returns (ok: bool)
      modifies this`users
      ensures Snapshot() == Apply(old(Snapshot()), SetMongoVerifier(u, verifier))
      ensures ok <==> u in old(users) && !old(users)[u].deleted
    {
      if u !in users || users[u].deleted {
        return false;
      }
      users := users[u := users[u].(data := Some(WithMongo(users[u].data, verifier)))];
      return true;
    }

    /** With an encryption key: the user's salts if they can be had, else the key's own. Without: no salts. */
    method CreateAPIKey(key: Uid, u: Uid, minted: Salts, fallback: Salts, encrypting: bool)
      requires key !in keys
      modifies this
      ensures !encrypting ==> Snapshot() == Apply(old(Snapshot()), InsertPlainKey(key, u))
      ensures encrypting ==>
                var t := Settle(Apply(old(Snapshot()), BeginEnsure(0, u, ForCreate(fallback), minted)));
                Snapshot().(calls := map[0 := Done]) == Apply(t, InsertKey(0, key))
    {
      if !encrypting {
        keys := keys[key := ApiKey(u, None, false)];
        return;
      }
      var salts := EnsureUserOracleSalts(u, minted, ForCreate(fallback));
      var oracle := if salts.Some? then KeyOracle(salts.value, true) else KeyOracle(fallback, false);
      keys := keys[key := ApiKey(u, Some(oracle), false)];
    }

    /** False when the key is unknown or the user's salts cannot be had. */
    method UpgradeAPIKeyO5LogonVerifiers(key: Uid, minted: Salts, encrypting: bool) returns (ok: bool)
      modifies this
      ensures Snapshot() == UpgradeAlone(old(Snapshot()), key, minted, encrypting).(calls := map[])
      ensures ok <==> !encrypting || (key in keys && (keys[key].oracle.Some? ==> keys[key].oracle.value.userSalt))
    {
      if !encrypting {
        return true;
      }
      if key !in keys {
        return false;
      }
      if keys[key].oracle.None? || keys[key].oracle.value.userSalt {
        return true;
      }
      UpgradeReadsAtOnce(Snapshot(), key, minted);
      var salts := EnsureUserOracleSalts(keys[key].user, minted, ForUpgrade(key));
      if salts.None? {
        return false;
      }
      keys := keys[key := keys[key].(oracle := Some(KeyOracle(salts.value, true)))];
      return true;
    }

    method RevokeAPIKey(key: Uid) returns (ok: bool)
      modifies this`keys
      ensures Snapshot() == Apply(old(Snapshot()), RevokeKey(key))
      ensures ok <==> key in old(keys) && !old(keys)[key].revoked
    {
      if key !in keys || keys[key].revoked {
        return false;
      }
      keys := keys[key := keys[key].(revoked := true)];
      return true;
    }
  }
}
