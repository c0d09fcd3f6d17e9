/**
 The OAuth 2.0 device authorization handshake (RFC 8628, sections 3.1 to 3.5) over the
 shared `oauth_states` table, at the granularity of single SQL statements: a call that
 issues two statements can be interrupted between them by any statement of any other call.
 */
module DeviceAuth {
  import opened Common

  const DEVICE_PROVIDER := "device"

  datatype Status = Pending | Approved | Denied

  /** The jsonb column: the device record, or whatever a real OAuth provider stored. */
  datatype Metadata =
    | Device(clientName: string, userCode: string, status: Status,
             userId: Option<Uid>, encryptedKey: seq<byte>, keyPrefix: string)
    | Foreign(json: string)

  datatype Row = Row(state: string, provider: string, meta: Metadata, expiresAt: int, createdAt: int)

  type Table = map<Uid, Row>

  /** What a responder passes in. */
  datatype Answer = Answer(userId: Uid, approve: bool, encryptedKey: seq<byte>, keyPrefix: string)

  datatype Outcome =
    | Created(uid: Uid)
    | CodeTaken
    | StateConflict
    | NotFound
    | AlreadyResolved
    | Responded
    | Polled(uid: Uid, status: Status, key: seq<byte>)
    | Consumed(uid: Uid)

  /** A call in flight between its two statements, or finished. */
  datatype Call =
    | Creating(clientName: string, deviceCode: string, userCode: string)
    | Responding(uid: Uid, seen: Metadata, written: Metadata)
    | Polling(uid: Uid, seen: Metadata)
    | Consuming(uid: Uid)
    | Finished(outcome: Outcome)

  /** `used` holds every uid ever inserted: uids are random and never reused. */
  datatype State = State(rows: Table, used: set<Uid>, calls: map<nat, Call>)

  /** One SQL statement. `now` is the value of NOW() it sees; nothing is assumed about it.
      `pick` is the row a SELECT returned. */
  datatype Event =
    | CheckCode(c: nat, now: int, clientName: string, deviceCode: string, userCode: string)
    | InsertDevice(c: nat, uid: Uid, expiresAt: int, createdAt: int)
    | InsertForeign(uid: Uid, state: string, provider: string, json: string, expiresAt: int, createdAt: int)
    | SelectForResponse(c: nat, now: int, userCode: string, answer: Answer, pick: Option<Uid>)
    | UpdateIfPending(c: nat, now: int)
    | SelectForPoll(c: nat, now: int, deviceCode: string, pick: Option<Uid>)
    | DeletePolled(c: nat)
    | SelectForConsume(c: nat, now: int, token: string, pick: Option<Uid>)
    | DeleteConsumed(c: nat)
    | Sweep(now: int)

  // ---------------------------------------------------------------- statements

  predicate LiveDevice(r: Row, now: int) {
    r.provider == DEVICE_PROVIDER && r.expiresAt > now
  }

  predicate HoldsCode(r: Row, now: int, code: string) {
    LiveDevice(r, now) && r.meta.Device? && r.meta.userCode == code
  }

  /** The answers `... ORDER BY created_at DESC LIMIT 1` may give for a user code. */
  predicate SelectsCode(rows: Table, now: int, code: string, pick: Option<Uid>) {
    match pick
    case None => forall u :: u in rows ==> !HoldsCode(rows[u], now, code)
    case Some(u) =>
      && u in rows && HoldsCode(rows[u], now, code)
      && forall v :: v in rows && HoldsCode(rows[v], now, code) ==> rows[v].createdAt <= rows[u].createdAt
  }

  predicate HoldsDeviceCode(r: Row, now: int, code: string) {
    LiveDevice(r, now) && r.state == code
  }

  predicate SelectsDeviceCode(rows: Table, now: int, code: string, pick: Option<Uid>) {
    match pick
    case None => forall u :: u in rows ==> !HoldsDeviceCode(rows[u], now, code)
    case Some(u) => u in rows && HoldsDeviceCode(rows[u], now, code)
  }

  predicate HoldsToken(r: Row, now: int, token: string) {
    r.state == token && r.expiresAt > now
  }

  predicate SelectsToken(rows: Table, now: int, token: string, pick: Option<Uid>) {
    match pick
    case None => forall u :: u in rows ==> !HoldsToken(rows[u], now, token)
    case Some(u) => u in rows && HoldsToken(rows[u], now, token)
  }

  /** The metadata a responder writes over the pending record it read. */
  function Answered(seen: Metadata, a: Answer): (m: Metadata)
    requires seen.Device?
    ensures m.Device? && !m.status.Pending?
  {
    if a.approve then
      seen.(status := Approved, encryptedKey := a.encryptedKey, keyPrefix := a.keyPrefix, userId := Some(a.userId))
    else
      seen.(status := Denied, userId := Some(a.userId))
  }

  /** The UPDATE's WHERE clause. */
  predicate StillPending(rows: Table, u: Uid, now: int) {
    u in rows && LiveDevice(rows[u], now) && rows[u].meta.Device? && rows[u].meta.status.Pending?
  }

  /** The unique constraint on the `state` column. */
  predicate StateTaken(rows: Table, state: string) {
    exists u :: u in rows && rows[u].state == state
  }

  predicate StartsCall(e: Event) {
    e.CheckCode? || e.SelectForResponse? || e.SelectForPoll? || e.SelectForConsume?
  }

  predicate Enabled(s: State, e: Event) {
    match e
    case CheckCode(c, _, _, _, _) => c !in s.calls
    case InsertDevice(c, uid, _, _) => c in s.calls && s.calls[c].Creating? && uid !in s.used
    case InsertForeign(uid, _, provider, _, _, _) => uid !in s.used && provider != DEVICE_PROVIDER
    case SelectForResponse(c, now, code, _, pick) => c !in s.calls && SelectsCode(s.rows, now, code, pick)
    case UpdateIfPending(c, _) => c in s.calls && s.calls[c].Responding?
    case SelectForPoll(c, now, code, pick) => c !in s.calls && SelectsDeviceCode(s.rows, now, code, pick)
    case DeletePolled(c) => c in s.calls && s.calls[c].Polling?
    case SelectForConsume(c, now, token, pick) => c !in s.calls && SelectsToken(s.rows, now, token, pick)
    case DeleteConsumed(c) => c in s.calls && s.calls[c].Consuming?
    case Sweep(_) => true
  }

  function Remember(s: State, c: nat, call: Call): State {
    s.(calls := s.calls[c := call])
  }

  function InsertRow(s: State, uid: Uid, r: Row): State {
    s.(rows := s.rows[uid := r], used := s.used + {uid})
  }

  function Apply(s: State, e: Event): State
    requires Enabled(s, e)
  {
    match e
    case CheckCode(c, now, name, deviceCode, userCode) =>
      Remember(s, c, if exists u :: u in s.rows && HoldsCode(s.rows[u], now, userCode)
                     then Finished(CodeTaken) else Creating(name, deviceCode, userCode))
    case InsertDevice(c, uid, expiresAt, createdAt) =>
      var k := s.calls[c];
      if StateTaken(s.rows, k.deviceCode) then Remember(s, c, Finished(StateConflict))
      else Remember(
             InsertRow(s, uid, Row(k.deviceCode, DEVICE_PROVIDER,
                                   Device(k.clientName, k.userCode, Pending, None, [], ""), expiresAt, createdAt)),
             c, Finished(Created(uid)))
    case InsertForeign(uid, state, provider, json, expiresAt, createdAt) =>
      if StateTaken(s.rows, state) then s
      else InsertRow(s, uid, Row(state, provider, Foreign(json), expiresAt, createdAt))
    case SelectForResponse(c, _, _, answer, pick) =>
      Remember(s, c, match pick
                     case None => Finished(NotFound)
                     case Some(u) =>
                       var meta := s.rows[u].meta;
                       if !meta.status.Pending? then Finished(AlreadyResolved)
                       else Responding(u, meta, Answered(meta, answer)))
    case UpdateIfPending(c, now) =>
      var k := s.calls[c];
      if StillPending(s.rows, k.uid, now)
      then Remember(s.(rows := s.rows[k.uid := s.rows[k.uid].(meta := k.written)]), c, Finished(Responded))
      else Remember(s, c, Finished(AlreadyResolved))
    case SelectForPoll(c, _, _, pick) =>
      Remember(s, c, match pick
                     case None => Finished(NotFound)
                     case Some(u) =>
                       var meta := s.rows[u].meta;
                       // A device row always carries a device record: see Inv.
                       if meta.Foreign? then Finished(NotFound)
                       else if meta.status.Pending? then Finished(Polled(u, Pending, []))
                       else Polling(u, meta))
    case DeletePolled(c) =>
      var k := s.calls[c];
      Remember(s.(rows := s.rows - {k.uid}), c,
               if k.seen.Foreign? then Finished(NotFound)
               else Finished(Polled(k.uid, k.seen.status, k.seen.encryptedKey)))
    case SelectForConsume(c, _, _, pick) =>
      Remember(s, c, match pick case None => Finished(NotFound) case Some(u) => Consuming(u))
    case DeleteConsumed(c) =>
      Remember(s.(rows := s.rows - {s.calls[c].uid}), c, Finished(Consumed(s.calls[c].uid)))
    case Sweep(now) =>
      s.(rows := map u | u in s.rows && s.rows[u].expiresAt > now :: s.rows[u])
  }

  // ---------------------------------------------------------------- invariant

  predicate DeviceRow(s: State, u: Uid) {
    u in s.rows && s.rows[u].provider == DEVICE_PROVIDER && s.rows[u].meta.Device?
  }

  /** A request nobody has answered carries no answer. */
  predicate Blank(m: Metadata) {
    m.Device? && m.status.Pending? && m.userId == None && m.encryptedKey == [] && m.keyPrefix == ""
  }

  predicate Resolved(s: State, u: Uid) {
    DeviceRow(s, u) && !s.rows[u].meta.status.Pending?
  }

  predicate CallOk(s: State, k: Call) {
    match k
    case Responding(u, seen, written) =>
      && u in s.used && Blank(seen) && written.Device? && !written.status.Pending?
      && (u in s.rows ==> DeviceRow(s, u) && (Resolved(s, u) || s.rows[u].meta == seen))
    case Polling(u, seen) =>
      && u in s.used && seen.Device? && !seen.status.Pending?
      && (u in s.rows ==> DeviceRow(s, u) && s.rows[u].meta == seen)
    case Consuming(u) => u in s.used
    case _ => true
  }

  ghost predicate RowsOk(s: State) {
    && s.rows.Keys <= s.used
    && (forall u :: u in s.rows && s.rows[u].provider == DEVICE_PROVIDER ==> DeviceRow(s, u))
    && (forall u :: DeviceRow(s, u) && !Resolved(s, u) ==> Blank(s.rows[u].meta))
    && (forall u, v :: u in s.rows && v in s.rows && s.rows[u].state == s.rows[v].state ==> u == v)
  }

  ghost predicate Inv(s: State) {
    RowsOk(s) && forall c :: c in s.calls ==> CallOk(s, s.calls[c])
  }

  ghost predicate Init(s: State) {
    s.calls == map[] && Inv(s) && forall u :: u in s.rows ==> !Resolved(s, u)
  }

  lemma ApplyKeepsCall(s: State, e: Event, c: nat)
    requires Inv(s) && Enabled(s, e) && c in Apply(s, e).calls
    ensures CallOk(Apply(s, e), Apply(s, e).calls[c])
  {
    if c in s.calls && Apply(s, e).calls[c] == s.calls[c] {
      OldCallOk(s, e, s.calls[c]);
    }
  }

  /** What a call has read survives the statements of other calls. */
  lemma OldCallOk(s: State, e: Event, k: Call)
    requires Inv(s) && Enabled(s, e) && CallOk(s, k)
    ensures CallOk(Apply(s, e), k)
  {
    if e.UpdateIfPending? {
      assert CallOk(s, s.calls[e.c]);
    }
  }

  lemma ApplyKeepsRows(s: State, e: Event)
    requires Inv(s) && Enabled(s, e)
    ensures RowsOk(Apply(s, e))
  {
    if e.UpdateIfPending? { assert CallOk(s, s.calls[e.c]); }
  }

  lemma ApplyKeepsInv(s: State, e: Event)
    requires Inv(s) && Enabled(s, e)
    ensures Inv(Apply(s, e))
  {
    ApplyKeepsRows(s, e);
    forall c | c in Apply(s, e).calls ensures CallOk(Apply(s, e), Apply(s, e).calls[c]) {
      ApplyKeepsCall(s, e, c);
    }
  }

  /** What one statement may do to a row. */
  lemma ApplyRow(s: State, e: Event, u: Uid)
    requires Inv(s) && Enabled(s, e)
    ensures var t := Apply(s, e);
            && s.used <= t.used
            && (u in s.used && u !in s.rows ==> u !in t.rows)
            && (u in t.rows && u !in s.rows ==> !Resolved(t, u))
            && (u in s.rows && u in t.rows && t.rows[u] != s.rows[u] ==> Wins(s, e, u))
  {
  }

  // ---------------------------------------------------------------- runs

  datatype Run = Run(states: seq<State>, events: seq<Event>) {
    ghost predicate Valid() {
      && |states| == |events| + 1
      && Init(states[0])
      && forall i {:trigger events[i]} :: 0 <= i < |events| ==> Follows(states[i], events[i], states[i + 1])
    }
  }

  predicate Follows(s: State, e: Event, t: State) {
    Enabled(s, e) && t == Apply(s, e)
  }

  /** The statement `e` is an UPDATE that moves request `u` out of pending. */
  predicate Wins(s: State, e: Event, u: Uid) {
    e.UpdateIfPending? && e.c in s.calls && s.calls[e.c].Responding? && s.calls[e.c].uid == u
    && StillPending(s.rows, u, e.now)
  }

  lemma {:induction false} InvAt(r: Run, i: nat)
    requires r.Valid() && i < |r.states|
    ensures Inv(r.states[i])
  {
    if i > 0 {
      InvAt(r, i - 1);
      ApplyKeepsInv(r.states[i - 1], r.events[i - 1]);
    }
  }

  /** A uid that was used and is gone stays gone. */
  lemma {:induction false} GoneStaysGone(r: Run, i: nat, j: nat, u: Uid)
    requires r.Valid() && i <= j < |r.states| && Gone(r.states[i], u)
    ensures Gone(r.states[j], u)
  {
    if i < j {
      GoneStaysGone(r, i, j - 1, u);
      GoneStep(r.states[j - 1], r.events[j - 1], r.states[j], u);
    }
  }

  predicate Gone(s: State, u: Uid) {
    u in s.used && u !in s.rows
  }

  lemma GoneStep(s: State, e: Event, t: State, u: Uid)
    requires Follows(s, e, t) && Gone(s, u)
    ensures Gone(t, u)
  {
  }

  /** A resolved request never changes again; it can only disappear. */
  lemma {:induction false} ResolvedIsFinal(r: Run, i: nat, j: nat, u: Uid)
    requires r.Valid() && i <= j < |r.states|
    requires Resolved(r.states[i], u)
    ensures u in r.states[j].used && (u in r.states[j].rows ==> r.states[j].rows[u] == r.states[i].rows[u])
    decreases j - i
  {
    InvAt(r, i);
    if i < j {
      ApplyRow(r.states[i], r.events[i], u);
      if u in r.states[i + 1].rows {
        ResolvedIsFinal(r, i + 1, j, u);
      } else {
        GoneStaysGone(r, i + 1, j, u);
      }
    }
  }

  /** Each request leaves pending at most once over a whole run. */
  lemma LeavesPendingOnce(r: Run, i: nat, j: nat, u: Uid)
    requires r.Valid() && i < |r.events| && j < |r.events|
    requires Wins(r.states[i], r.events[i], u) && Wins(r.states[j], r.events[j], u)
    ensures i == j
  {
    if i != j {
      var a, b := if i < j then i else j, if i < j then j else i;
      InvAt(r, a);
      assert CallOk(r.states[a], r.states[a].calls[r.events[a].c]);
      assert Resolved(r.states[a + 1], u);
      ResolvedIsFinal(r, a + 1, b, u);
    }
  }

  /** A responder that does not win changes no row, and is told so. */
  lemma LoserLeavesNoTrace(s: State, e: Event)
    requires Inv(s) && Enabled(s, e) && e.UpdateIfPending?
    ensures Wins(s, e, s.calls[e.c].uid) <==> Apply(s, e).calls[e.c] == Finished(Responded)
    ensures !Wins(s, e, s.calls[e.c].uid) ==>
              Apply(s, e).rows == s.rows && Apply(s, e).calls[e.c] == Finished(AlreadyResolved)
  {
  }

  /** Call `c` of the run began at `k` as a responder with `answer`, and its UPDATE at `i` won `u`. */
  ghost predicate WinnerIs(r: Run, k: nat, i: nat, u: Uid)
    requires r.Valid()
  {
    && k < i < |r.events|
    && Wins(r.states[i], r.events[i], u)
    && r.events[k].SelectForResponse? && r.events[k].c == r.events[i].c && r.events[k].pick == Some(u)
    && DeviceRow(r.states[k], u) && r.states[k].rows[u].meta.status.Pending?
    && DeviceRow(r.states[i + 1], u)
    && Carries(r.states[i + 1].rows[u].meta, r.states[k].rows[u].meta, r.events[k].answer)
  }

  /** One statement either leaves a responder in flight as it was, or is the SELECT that started it. */
  lemma ResponderStep(s: State, e: Event, c: nat)
    requires Inv(s) && Enabled(s, e)
    requires c in Apply(s, e).calls && Apply(s, e).calls[c].Responding?
    ensures if c in s.calls then Apply(s, e).calls[c] == s.calls[c]
            else StartedBy(s, e, c, Apply(s, e).calls[c])
  {
  }

  /** `m` is the request `seen`, answered with `a` and with nothing else changed. */
  predicate Carries(m: Metadata, seen: Metadata, a: Answer) {
    && m.Device? && seen.Device? && m.clientName == seen.clientName && m.userCode == seen.userCode
    && m.userId == Some(a.userId)
    && (a.approve ==> m.status.Approved? && m.encryptedKey == a.encryptedKey && m.keyPrefix == a.keyPrefix)
    && (!a.approve ==> m.status.Denied? && m.encryptedKey == [] && m.keyPrefix == "")
  }

  /** Responder `k` was started by a SELECT in state `s`, which fixed what it will write. */
  predicate StartedBy(s: State, e: Event, c: nat, k: Call) {
    && e.SelectForResponse? && e.c == c && e.pick.Some? && DeviceRow(s, e.pick.value)
    && s.rows[e.pick.value].meta.status.Pending?
    && k == Responding(e.pick.value, s.rows[e.pick.value].meta, Answered(s.rows[e.pick.value].meta, e.answer))
  }

  lemma {:induction false} ResponderHasOrigin(r: Run, i: nat, c: nat) returns (k: nat)
    requires r.Valid() && i < |r.states|
    requires c in r.states[i].calls && r.states[i].calls[c].Responding?
    ensures k < i && StartedBy(r.states[k], r.events[k], c, r.states[i].calls[c])
  {
    if i == 0 {
      assert false;
    }
    InvAt(r, i - 1);
    ResponderStep(r.states[i - 1], r.events[i - 1], c);
    k := i - 1;
    if c in r.states[i - 1].calls {
      k := ResponderHasOrigin(r, i - 1, c);
    }
  }

  /** A resolved row holds exactly what one winning responder passed in. */
  lemma {:induction false} ResolvedHasWinner(r: Run, j: nat, u: Uid) returns (k: nat, i: nat)
    requires r.Valid() && j < |r.states| && Resolved(r.states[j], u)
    ensures i < j && WinnerIs(r, k, i, u)
    ensures r.states[j].rows[u] == r.states[i + 1].rows[u]
  {
    if j == 0 {
      assert false;
    }
    InvAt(r, j - 1);
    ResolvedStep(r.states[j - 1], r.events[j - 1], r.states[j], u);
    if Resolved(r.states[j - 1], u) {
      k, i := ResolvedHasWinner(r, j - 1, u);
    } else {
      k := ResponderHasOrigin(r, j - 1, r.events[j - 1].c);
      i := j - 1;
      InvAt(r, k);
    }
  }

  /** A row is resolved because it was, or because this statement's UPDATE wins and writes the answer. */
  lemma ResolvedStep(s: State, e: Event, t: State, u: Uid)
    requires Inv(s) && Follows(s, e, t) && Resolved(t, u)
    ensures if Resolved(s, u) then t.rows[u] == s.rows[u]
            else Wins(s, e, u) && t.rows[u].meta == s.calls[e.c].written
  {
    ApplyRow(s, e, u);
  }

  /** Poll `k` saw a resolved row when its SELECT ran in state `s`. */
  predicate PollStartedBy(s: State, e: Event, c: nat, k: Call) {
    && e.SelectForPoll? && e.c == c && e.pick.Some? && Resolved(s, e.pick.value)
    && k == Polling(e.pick.value, s.rows[e.pick.value].meta)
  }

  lemma PollStep(s: State, e: Event, c: nat)
    requires Inv(s) && Enabled(s, e)
    requires c in Apply(s, e).calls && Apply(s, e).calls[c].Polling?
    ensures if c in s.calls then Apply(s, e).calls[c] == s.calls[c] else PollStartedBy(s, e, c, Apply(s, e).calls[c])
  {
  }

  lemma {:induction false} PollHasOrigin(r: Run, i: nat, c: nat) returns (k: nat)
    requires r.Valid() && i < |r.states|
    requires c in r.states[i].calls && r.states[i].calls[c].Polling?
    ensures k < i && PollStartedBy(r.states[k], r.events[k], c, r.states[i].calls[c])
  {
    if i == 0 {
      assert false;
    }
    InvAt(r, i - 1);
    PollStep(r.states[i - 1], r.events[i - 1], c);
    k := i - 1;
    if c in r.states[i - 1].calls {
      k := PollHasOrigin(r, i - 1, c);
    }
  }

  predicate Ended(s: State, c: nat, o: Outcome) {
    c in s.calls && s.calls[c] == Finished(o)
  }

  /** `c` has finished as a poll of `u` that carried the key. */
  predicate Delivered(s: State, c: nat, u: Uid, key: seq<byte>) {
    Ended(s, c, Polled(u, Approved, key))
  }

  predicate DeletesFor(s: State, e: Event, c: nat, u: Uid, key: seq<byte>) {
    && e == DeletePolled(c) && c in s.calls && s.calls[c].Polling? && s.calls[c].uid == u
    && s.calls[c].seen.Device? && s.calls[c].seen.encryptedKey == key && s.calls[c].seen.status.Approved?
  }

  /** A delivered key comes from a DELETE statement of that poll. */
  lemma {:induction false} DeliveryHasDelete(r: Run, j: nat, c: nat, u: Uid, key: seq<byte>) returns (d: nat)
    requires r.Valid() && j < |r.states| && Delivered(r.states[j], c, u, key)
    ensures d < j && DeletesFor(r.states[d], r.events[d], c, u, key)
  {
    if j == 0 {
      assert false;
    }
    InvAt(r, j - 1);
    d := j - 1;
    if Delivered(r.states[j - 1], c, u, key) {
      d := DeliveryHasDelete(r, j - 1, c, u, key);
    }
  }

  /** Every poll that returns a key returns the one passed by the single winning approver. */
  lemma DeliveredKeyIsTheWinners(r: Run, j: nat, c: nat, u: Uid, key: seq<byte>)
    returns (k: nat, i: nat)
    requires r.Valid() && j < |r.states| && Delivered(r.states[j], c, u, key)
    ensures i < j && WinnerIs(r, k, i, u)
    ensures r.events[k].answer.approve && r.events[k].answer.encryptedKey == key
    ensures forall m :: 0 <= m < |r.events| && Wins(r.states[m], r.events[m], u) ==> m == i
  {
    var d := DeliveryHasDelete(r, j, c, u, key);
    var p := PollHasOrigin(r, d, c);
    k, i := ResolvedHasWinner(r, p, u);
    forall m | 0 <= m < |r.events| && Wins(r.states[m], r.events[m], u) ensures m == i {
      LeavesPendingOnce(r, m, i, u);
    }
  }

  /** A poll whose SELECT runs after a delivering poll's DELETE never returns that request again. */
  lemma NoKeyAfterDelivery(r: Run, d: nat, k: nat, j: nat)
    requires r.Valid() && d < k < j < |r.states|
    requires r.events[d].DeletePolled? && r.events[k].SelectForPoll?
    ensures forall status, key ::
              !Ended(r.states[j], r.events[k].c, Polled(r.states[d].calls[r.events[d].c].uid, status, key))
  {
    var u, c := r.states[d].calls[r.events[d].c].uid, r.events[k].c;
    InvAt(r, d);
    assert CallOk(r.states[d], r.states[d].calls[r.events[d].c]);
    assert Gone(r.states[d + 1], u);
    GoneStaysGone(r, d + 1, k, u);
    PollKeepsItsRow(r, k, j);
  }

  /** From its SELECT on, a poll is about the row it picked and nothing else. */
  lemma {:induction false} PollKeepsItsRow(r: Run, k: nat, j: nat)
    requires r.Valid() && k < j < |r.states| && r.events[k].SelectForPoll?
    ensures r.events[k].c in r.states[j].calls
    ensures var call := r.states[j].calls[r.events[k].c];
            match r.events[k].pick
            case None => call == Finished(NotFound)
            case Some(u) =>
              var meta := r.states[k].rows[u].meta;
              if meta.Foreign? then call == Finished(NotFound)
              else if meta.status.Pending? then call == Finished(Polled(u, Pending, []))
              else call == Polling(u, meta) || call == Finished(Polled(u, meta.status, meta.encryptedKey))
  {
    assert Follows(r.states[k], r.events[k], r.states[k + 1]);
    if j > k + 1 {
      PollKeepsItsRow(r, k, j - 1);
      PollGoesOn(r.states[j - 1], r.events[j - 1], r.states[j], r.events[k].c);
    }
  }

  /** A poll in flight waits or runs its DELETE; a finished call stays as it is. */
  lemma PollGoesOn(s: State, e: Event, t: State, c: nat)
    requires Follows(s, e, t) && c in s.calls
    requires s.calls[c].Finished? || (s.calls[c].Polling? && s.calls[c].seen.Device?)
    ensures c in t.calls
    ensures || t.calls[c] == s.calls[c]
            || (&& s.calls[c].Polling?
                && t.calls[c] == Finished(Polled(s.calls[c].uid, s.calls[c].seen.status, s.calls[c].seen.encryptedKey)))
  {
  }

  /** A poll of a denied request delivers no key. */
  lemma DeniedDeliversNothing(r: Run, d: nat)
    requires r.Valid() && d < |r.events| && r.events[d].DeletePolled?
    requires r.states[d].calls[r.events[d].c].seen.Device? && r.states[d].calls[r.events[d].c].seen.status.Denied?
    ensures Ended(r.states[d + 1], r.events[d].c, Polled(r.states[d].calls[r.events[d].c].uid, Denied, []))
  {
    var p := PollHasOrigin(r, d, r.events[d].c);
    var k, i := ResolvedHasWinner(r, p, r.states[d].calls[r.events[d].c].uid);
  }

  /** The SELECT of poll `e` finds request `u`, approved. */
  predicate FindsApproved(s: State, e: Event, u: Uid) {
    && e.SelectForPoll? && u in s.rows && HoldsDeviceCode(s.rows[u], e.now, e.deviceCode)
    && s.rows[u].meta.Device? && s.rows[u].meta.status.Approved?
  }

  predicate PollEnded(s: State, c: nat) {
    c in s.calls && s.calls[c].Finished?
  }

  /**
   A finished poll returns the key of request `u` if and only if its SELECT found the request
   approved, whatever happened to the row since.
   */
  lemma PollDeliversIff(r: Run, k: nat, j: nat, u: Uid, key: seq<byte>)
    requires r.Valid() && k < j < |r.states| && r.events[k].SelectForPoll?
    requires PollEnded(r.states[j], r.events[k].c)
    ensures Delivered(r.states[j], r.events[k].c, u, key) <==>
            FindsApproved(r.states[k], r.events[k], u) && r.states[k].rows[u].meta.encryptedKey == key
  {
    PollKeepsItsRow(r, k, j);
    InvAt(r, k);
    assert Follows(r.states[k], r.events[k], r.states[k + 1]);
  }

  /**
   Of two polls, the earlier of which has delivered request `u`, the later delivers it too if
   and only if its SELECT still found a live row of `u`: neither deleted nor expired.
   */
  lemma SecondPollDeliversIff(r: Run, a: nat, b: nat, j: nat, u: Uid, key: seq<byte>)
    requires r.Valid() && a < b < j < |r.states| && r.events[a].SelectForPoll? && r.events[b].SelectForPoll?
    requires Delivered(r.states[j], r.events[a].c, u, key) && PollEnded(r.states[j], r.events[b].c)
    ensures Delivered(r.states[j], r.events[b].c, u, key) <==>
            u in r.states[b].rows && HoldsDeviceCode(r.states[b].rows[u], r.events[b].now, r.events[b].deviceCode)
  {
    PollDeliversIff(r, a, j, u, key);
    PollDeliversIff(r, b, j, u, key);
    assert Resolved(r.states[a], u);
    ResolvedIsFinal(r, a, b, u);
  }

  /** At most one of the polls begun before `j` has returned the key of `u`. */
  ghost predicate DeliveredAtMostOnce(r: Run, j: nat, u: Uid)
    requires r.Valid() && j < |r.states|
  {
    forall a, b, x, y ::
      (&& 0 <= a < j && 0 <= b < j && r.events[a].SelectForPoll? && r.events[b].SelectForPoll?
       && Delivered(r.states[j], r.events[a].c, u, x) && Delivered(r.states[j], r.events[b].c, u, y))
      ==> a == b
  }

  /** No SELECT finds `u` approved after another has. */
  ghost predicate FoundAtMostOnce(r: Run, j: nat, u: Uid)
    requires r.Valid() && j < |r.states|
  {
    forall a, b ::
      (&& 0 <= a < j && 0 <= b < j
       && FindsApproved(r.states[a], r.events[a], u) && FindsApproved(r.states[b], r.events[b], u))
      ==> a == b
  }

  ghost predicate AllPollsEnded(r: Run, j: nat)
    requires r.Valid() && j < |r.states|
  {
    forall k :: 0 <= k < j && r.events[k].SelectForPoll? ==> PollEnded(r.states[j], r.events[k].c)
  }

  /**
   The store's comment promises a key "at most once". Over all polls of a run, once they have
   ended, this holds if and only if no poll's SELECT found the approved row after another's had:
   the DELETE, or the expiry, must come between them.
   */
  lemma AtMostOnceIff(r: Run, j: nat, u: Uid)
    requires r.Valid() && j < |r.states| && AllPollsEnded(r, j)
    ensures DeliveredAtMostOnce(r, j, u) <==> FoundAtMostOnce(r, j, u)
  {
    forall k, key | 0 <= k < j && r.events[k].SelectForPoll?
      ensures Delivered(r.states[j], r.events[k].c, u, key) <==>
              FindsApproved(r.states[k], r.events[k], u) && r.states[k].rows[u].meta.encryptedKey == key
    {
      PollDeliversIff(r, k, j, u, key);
    }
    if DeliveredAtMostOnce(r, j, u) {
      forall a, b | 0 <= a < j && 0 <= b < j
                    && FindsApproved(r.states[a], r.events[a], u) && FindsApproved(r.states[b], r.events[b], u)
        ensures a == b
      {
        assert Delivered(r.states[j], r.events[a].c, u, r.states[a].rows[u].meta.encryptedKey);
        assert Delivered(r.states[j], r.events[b].c, u, r.states[b].rows[u].meta.encryptedKey);
      }
    }
  }

  function Last(r: Run): State
    requires |r.states| > 0
  {
    r.states[|r.states| - 1]
  }

  lemma Extend(r: Run, e: Event, t: State) returns (x: Run)
    requires r.Valid() && Enabled(Last(r), e) && t == Apply(Last(r), e)
    ensures x.Valid() && Last(x) == t
  {
    x := Run(r.states + [t], r.events + [e]);
  }

  const PENDING_ROW :=
    Row("secret", DEVICE_PROVIDER, Device("cli", "WDJP4KXR", Pending, None, [], ""), 600, 0)

  const APPROVED_ROW :=
    PENDING_ROW.(meta := Device("cli", "WDJP4KXR", Approved, Some(7), [42], "dbb_abcd"))

  /** A request waiting in the table is approved by call 1. */
  lemma ApprovedRun() returns (r: Run)
    ensures r.Valid() && Last(r) == State(map[1 := APPROVED_ROW], {1}, map[1 := Finished(Responded)])
  {
    var before := map[1 := PENDING_ROW];
    r := Run([State(before, {1}, map[])], []);
    r := Extend(r, SelectForResponse(1, 1, "WDJP4KXR", Answer(7, true, [42], "dbb_abcd"), Some(1)),
                State(before, {1}, map[1 := Responding(1, PENDING_ROW.meta, APPROVED_ROW.meta)]));
    r := Extend(r, UpdateIfPending(1, 1), State(map[1 := APPROVED_ROW], {1}, map[1 := Finished(Responded)]));
  }

  /** "At most once" read over all polls is false: two overlapping polls both get the key. */
  lemma OverlappingPollsBothDeliver() returns (r: Run)
    ensures r.Valid() && Delivered(Last(r), 2, 1, [42]) && Delivered(Last(r), 3, 1, [42])
  {
    r := ApprovedRun();
    var p, got := Polling(1, APPROVED_ROW.meta), Finished(Polled(1, Approved, [42]));
    var s2 := Remember(Last(r), 2, p);
    r := Extend(r, SelectForPoll(2, 2, "secret", Some(1)), s2);
    var s3 := Remember(s2, 3, p);
    r := Extend(r, SelectForPoll(3, 2, "secret", Some(1)), s3);
    var s4 := Remember(s3.(rows := map[]), 2, got);
    r := Extend(r, DeletePolled(2), s4);
    r := Extend(r, DeletePolled(3), Remember(s4, 3, got));
  }

  // ---------------------------------------------------------------- the store's calls

  /** A call whose two statements run back to back, as call 0 of a state with no other call. */
  function Alone(rows: Table, used: set<Uid>, first: Event, second: Event): (t: State)
    requires Enabled(State(rows, used, map[]), first) && StartsCall(first) && first.c == 0
    requires var s := Apply(State(rows, used, map[]), first);
             0 in s.calls && (s.calls[0].Finished? || Enabled(s, second))
  {
    var s := Apply(State(rows, used, map[]), first);
    if s.calls[0].Finished? then s else Apply(s, second)
  }

  // ---------------------------------------------------------------- one call after the other

  /** A device request that has not expired holds the user code. */
  predicate CodeInUse(rows: Table, now: int, code: string) {
    exists u :: u in rows && rows[u].provider == "device" && rows[u].expiresAt > now
                && rows[u].meta.Device? && rows[u].meta.userCode == code
  }

  /** The three SELECTs: what each can return, and that it returns nothing only if nothing matches. */
  lemma SelectsByCode(rows: Table, now: int, code: string, pick: Option<Uid>)
    requires SelectsCode(rows, now, code, pick)
    ensures pick.Some? <==> CodeInUse(rows, now, code)
    ensures pick.Some? ==>
              && pick.value in rows && rows[pick.value].provider == "device" && rows[pick.value].expiresAt > now
              && rows[pick.value].meta.Device? && rows[pick.value].meta.userCode == code
              && forall v :: (v in rows && rows[v].provider == "device" && rows[v].expiresAt > now
                              && rows[v].meta.Device? && rows[v].meta.userCode == code)
                             ==> rows[v].createdAt <= rows[pick.value].createdAt
  {
  }

  lemma SelectsByDeviceCode(s: State, now: int, code: string, pick: Option<Uid>, u: Uid)
    requires Inv(s) && SelectsDeviceCode(s.rows, now, code, pick)
    ensures pick == Some(u) <==>
            u in s.rows && s.rows[u].state == code && s.rows[u].provider == "device" && s.rows[u].expiresAt > now
  {
  }

  lemma SelectsByToken(s: State, now: int, token: string, pick: Option<Uid>, u: Uid)
    requires Inv(s) && SelectsToken(s.rows, now, token, pick)
    ensures pick == Some(u) <==> u in s.rows && s.rows[u].state == token && s.rows[u].expiresAt > now
  {
  }

  /** An UPDATE wins exactly on a device request that is pending and has not expired; it writes the answer only. */
  lemma UpdateWinsIff(s: State, e: Event, u: Uid)
    requires Inv(s) && Enabled(s, e) && e.UpdateIfPending? && s.calls[e.c].uid == u
    ensures Wins(s, e, u) <==>
            && u in s.rows && s.rows[u].provider == "device" && s.rows[u].expiresAt > e.now
            && s.rows[u].meta.Device? && s.rows[u].meta.status == Pending
    ensures Wins(s, e, u) ==> Apply(s, e).rows == s.rows[u := s.rows[u].(meta := s.calls[e.c].written)]
  {
  }

  /** A poll that delivers saw the request approved and not yet expired. */
  lemma DeliveredWasLive(r: Run, k: nat, j: nat, u: Uid, key: seq<byte>)
    requires r.Valid() && k < j < |r.states| && r.events[k].SelectForPoll?
    requires Delivered(r.states[j], r.events[k].c, u, key)
    ensures u in r.states[k].rows && r.states[k].rows[u].expiresAt > r.events[k].now
    ensures r.states[k].rows[u].provider == "device" && r.states[k].rows[u].state == r.events[k].deviceCode
    ensures r.states[k].rows[u].meta.Device? && r.states[k].rows[u].meta.status == Approved
  {
    PollDeliversIff(r, k, j, u, key);
  }

  /** The sweep removes exactly the rows that have expired, of whatever provider. */
  lemma SweepRemovesExpired(s: State, now: int, u: Uid)
    ensures u in Apply(s, Sweep(now)).rows <==> u in s.rows && s.rows[u].expiresAt > now
    ensures u in Apply(s, Sweep(now)).rows ==> Apply(s, Sweep(now)).rows[u] == s.rows[u]
  {
  }

  /** Another provider's state goes in as given, unless the state is taken. */
  lemma ForeignIsStored(s: State, e: Event)
    requires Enabled(s, e) && e.InsertForeign?
    ensures (exists u :: u in s.rows && s.rows[u].state == e.state) ==> Apply(s, e) == s
    ensures (forall u :: u in s.rows ==> s.rows[u].state != e.state) ==>
              Apply(s, e).rows == s.rows[e.uid := Row(e.state, e.provider, Foreign(e.json), e.expiresAt, e.createdAt)]
  {
  }

  /** Consuming an OAuth state removes a live row with the token, and only that. */
  lemma ConsumeRemovesOne(rows: Table, used: set<Uid>, now: int, token: string, pick: Option<Uid>)
    requires Inv(State(rows, used, map[])) && SelectsToken(rows, now, token, pick)
    ensures var t := Alone(rows, used, SelectForConsume(0, now, token, pick), DeleteConsumed(0));
            if exists u :: u in rows && rows[u].state == token && rows[u].expiresAt > now
            then && pick.Some? && pick.value in rows && rows[pick.value].state == token
                 && Ended(t, 0, Consumed(pick.value)) && t.rows == rows - {pick.value}
            else Ended(t, 0, NotFound) && t.rows == rows
  {
    if u: Uid :| u in rows && rows[u].state == token && rows[u].expiresAt > now {
      SelectsByToken(State(rows, used, map[]), now, token, pick, u);
    }
  }

  /** A poll: nothing without a live row of the code; a pending request stays; a decided one is handed out and goes. */
  lemma PollHandsOut(rows: Table, used: set<Uid>, now: int, code: string, pick: Option<Uid>, u: Uid)
    requires Inv(State(rows, used, map[])) && SelectsDeviceCode(rows, now, code, pick)
    requires u in rows && rows[u].state == code
    ensures var t := Alone(rows, used, SelectForPoll(0, now, code, pick), DeletePolled(0));
            if rows[u].provider != "device" || rows[u].expiresAt <= now then Ended(t, 0, NotFound) && t.rows == rows
            else && rows[u].meta.Device?
                 && if rows[u].meta.status == Pending then Ended(t, 0, Polled(u, Pending, [])) && t.rows == rows
                    else && Ended(t, 0, Polled(u, rows[u].meta.status, rows[u].meta.encryptedKey))
                         && t.rows == rows - {u}
  {
    var s := State(rows, used, map[]);
    SelectsByDeviceCode(s, now, code, pick, u);
    if pick.Some? {
      SelectsByDeviceCode(s, now, code, pick, pick.value);
    }
  }

  /** A request is filed as given, unless its user code is in use or its device code is taken. */
  lemma CreateFilesRequest(rows: Table, used: set<Uid>, now: int, clientName: string, deviceCode: string,
                           userCode: string, uid: Uid, expiresAt: int, createdAt: int)
    requires Inv(State(rows, used, map[])) && uid !in used
    ensures var t := Alone(rows, used, CheckCode(0, now, clientName, deviceCode, userCode),
                           InsertDevice(0, uid, expiresAt, createdAt));
            if CodeInUse(rows, now, userCode) then Ended(t, 0, CodeTaken) && t.rows == rows
            else if exists u :: u in rows && rows[u].state == deviceCode
            then Ended(t, 0, StateConflict) && t.rows == rows
            else && Ended(t, 0, Created(uid)) && uid in t.rows && t.rows - {uid} == rows
                 && IsRequest(t.rows[uid], clientName, deviceCode, userCode, expiresAt, createdAt)
  {
    var s := State(rows, used, map[]);
    var e := CheckCode(0, now, clientName, deviceCode, userCode);
    assert CodeInUse(rows, now, userCode) <==> exists u :: u in rows && HoldsCode(rows[u], now, userCode);
    var t := Alone(rows, used, e, InsertDevice(0, uid, expiresAt, createdAt));
    if Ended(t, 0, Created(uid)) {
      assert uid !in rows;
      assert t.rows - {uid} == rows;
    }
  }

  /** A pending request, with nothing in it but what its client gave. */
  predicate IsRequest(r: Row, clientName: string, deviceCode: string, userCode: string, expiresAt: int, createdAt: int)
  {
    && r.provider == "device" && r.state == deviceCode && r.expiresAt == expiresAt && r.createdAt == createdAt
    && r.meta.Device? && r.meta.clientName == clientName && r.meta.userCode == userCode && r.meta.status == Pending
    && r.meta.userId == None && r.meta.encryptedKey == [] && r.meta.keyPrefix == ""
  }

  /** A user code answered in time is answered for the one request that holds it. */
  lemma RespondAnswersRequest(rows: Table, used: set<Uid>, now: int, later: int, code: string, a: Answer,
                              pick: Option<Uid>, u: Uid)
    requires Inv(State(rows, used, map[])) && SelectsCode(rows, now, code, pick)
    requires u in rows && rows[u].provider == "device" && rows[u].meta.Device? && rows[u].meta.userCode == code
    requires forall v :: (v in rows && v != u && rows[v].provider == "device" && rows[v].meta.Device?
                          && rows[v].meta.userCode == code)
                         ==> rows[v].expiresAt <= now
    ensures var t := Alone(rows, used, SelectForResponse(0, now, code, a, pick), UpdateIfPending(0, later));
            if rows[u].expiresAt <= now then Ended(t, 0, NotFound) && t.rows == rows
            else if rows[u].meta.status != Pending || rows[u].expiresAt <= later
            then Ended(t, 0, AlreadyResolved) && t.rows == rows
            else && Ended(t, 0, Responded) && u in t.rows && t.rows == rows[u := rows[u].(meta := t.rows[u].meta)]
                 && Carries(t.rows[u].meta, rows[u].meta, a)
  {
    SelectsByCode(rows, now, code, pick);
  }

  /**
   The handshake of RFC 8628 comes to its end: a request that is filed, answered by its user code
   and polled by its device code, each before it expires, hands out what the user decided, and
   leaves the table as it was.
   */
  lemma HandshakeCompletes(s: State, t0: int, t1: int, t2: int, t3: int, clientName: string, deviceCode: string,
                           userCode: string, uid: Uid, expiresAt: int, createdAt: int, a: Answer,
                           filed: State, found: Option<Uid>, answered: State, polled: Option<Uid>, done: State,
                           o: Outcome, p: Outcome, q: Outcome)
    requires Inv(s) && t0 <= t1 < expiresAt && t2 < expiresAt && t3 < expiresAt
    requires !CodeInUse(s.rows, t0, userCode) && forall u :: u in s.rows ==> s.rows[u].state != deviceCode
    requires RunsAlone(s, CheckCode(0, t0, clientName, deviceCode, userCode),
                       InsertDevice(0, uid, expiresAt, createdAt), filed, o)
    requires RunsAlone(filed, SelectForResponse(0, t1, userCode, a, found), UpdateIfPending(0, t2), answered, p)
    requires RunsAlone(answered, SelectForPoll(0, t3, deviceCode, polled), DeletePolled(0), done, q)
    ensures o == Created(uid) && p == Responded && done.rows == s.rows
    ensures q == if a.approve then Polled(uid, Approved, a.encryptedKey) else Polled(uid, Denied, [])
  {
    FiledAlone(s, t0, clientName, deviceCode, userCode, uid, expiresAt, createdAt, filed, o);
    FiledHandsOut(filed, uid, t1, t2, t3, deviceCode, userCode, a, found, answered, polled, done, p, q);
  }

  lemma FiledHandsOut(s: State, u: Uid, t1: int, t2: int, t3: int, deviceCode: string, userCode: string, a: Answer,
                      found: Option<Uid>, answered: State, polled: Option<Uid>, done: State, p: Outcome, q: Outcome)
    requires Inv(s) && u in s.rows && s.rows[u].expiresAt > t1 && s.rows[u].expiresAt > t2 && s.rows[u].expiresAt > t3
    requires s.rows[u].meta.Device?
    requires IsRequest(s.rows[u], s.rows[u].meta.clientName, deviceCode, userCode, s.rows[u].expiresAt,
                       s.rows[u].createdAt)
    requires forall v :: (v in s.rows && v != u && s.rows[v].provider == "device" && s.rows[v].meta.Device?
                          && s.rows[v].meta.userCode == userCode)
                         ==> s.rows[v].expiresAt <= t1
    requires RunsAlone(s, SelectForResponse(0, t1, userCode, a, found), UpdateIfPending(0, t2), answered, p)
    requires RunsAlone(answered, SelectForPoll(0, t3, deviceCode, polled), DeletePolled(0), done, q)
    ensures p == Responded && done.rows == s.rows - {u}
    ensures q == if a.approve then Polled(u, Approved, a.encryptedKey) else Polled(u, Denied, [])
  {
    AnsweredAlone(s, t1, t2, userCode, a, found, answered, p, u);
    PolledAlone(answered, t3, deviceCode, polled, done, q, u);
  }

  /** From `s` to `t` one call runs without interruption and answers `o`. */
  predicate RunsAlone(s: State, first: Event, second: Event, t: State, o: Outcome) {
    && s.calls == map[] && t.calls == map[]
    && Enabled(s, first) && StartsCall(first) && first.c == 0 && 0 in Apply(s, first).calls
    && (Apply(s, first).calls[0].Finished? || Enabled(Apply(s, first), second))
    && t.(calls := map[0 := Finished(o)]) == Alone(s.rows, s.used, first, second)
  }

  /** Any call left to itself comes to an answer. */
  lemma AloneEnds(s: State, first: Event, second: Event) returns (t: State, o: Outcome)
    requires s.calls == map[] && Enabled(s, first) && StartsCall(first) && first.c == 0
    requires second.InsertDevice? || second.UpdateIfPending? || second.DeletePolled? || second.DeleteConsumed?
    requires second.c == 0 && (Apply(s, first).calls[0].Finished? || Enabled(Apply(s, first), second))
    ensures RunsAlone(s, first, second, t, o)
  {
    var end := Alone(s.rows, s.used, first, second);
    t, o := end.(calls := map[]), end.calls[0].outcome;
    assert end.calls == map[0 := Finished(o)];
  }

  lemma FiledAlone(s: State, now: int, clientName: string, deviceCode: string, userCode: string, uid: Uid,
                   expiresAt: int, createdAt: int, t: State, o: Outcome)
    requires Inv(s) && !CodeInUse(s.rows, now, userCode) && forall u :: u in s.rows ==> s.rows[u].state != deviceCode
    requires RunsAlone(s, CheckCode(0, now, clientName, deviceCode, userCode),
                       InsertDevice(0, uid, expiresAt, createdAt), t, o)
    ensures Inv(t) && o == Created(uid) && uid !in s.rows && uid in t.rows && t.rows == s.rows[uid := t.rows[uid]]
    ensures IsRequest(t.rows[uid], clientName, deviceCode, userCode, expiresAt, createdAt)
  {
    var e, f := CheckCode(0, now, clientName, deviceCode, userCode), InsertDevice(0, uid, expiresAt, createdAt);
    assert Apply(s, e).calls[0].Creating?;
    AloneKeepsInv(s.rows, s.used, e, f);
    CreateFilesRequest(s.rows, s.used, now, clientName, deviceCode, userCode, uid, expiresAt, createdAt);
  }

  lemma AnsweredAlone(s: State, now: int, later: int, code: string, a: Answer, pick: Option<Uid>, t: State,
                      o: Outcome, u: Uid)
    requires Inv(s) && u in s.rows && s.rows[u].provider == "device" && s.rows[u].meta.Device?
    requires s.rows[u].meta.userCode == code && s.rows[u].meta.status == Pending
    requires s.rows[u].expiresAt > now && s.rows[u].expiresAt > later
    requires forall v :: (v in s.rows && v != u && s.rows[v].provider == "device" && s.rows[v].meta.Device?
                          && s.rows[v].meta.userCode == code)
                         ==> s.rows[v].expiresAt <= now
    requires RunsAlone(s, SelectForResponse(0, now, code, a, pick), UpdateIfPending(0, later), t, o)
    ensures Inv(t) && o == Responded && u in t.rows && t.rows == s.rows[u := s.rows[u].(meta := t.rows[u].meta)]
    ensures Carries(t.rows[u].meta, s.rows[u].meta, a)
  {
    AloneKeepsInv(s.rows, s.used, SelectForResponse(0, now, code, a, pick), UpdateIfPending(0, later));
    RespondAnswersRequest(s.rows, s.used, now, later, code, a, pick, u);
  }

  lemma PolledAlone(s: State, now: int, code: string, pick: Option<Uid>, t: State, o: Outcome, u: Uid)
    requires Inv(s) && u in s.rows && s.rows[u].state == code && s.rows[u].provider == "device"
    requires s.rows[u].expiresAt > now && s.rows[u].meta.Device? && s.rows[u].meta.status != Pending
    requires RunsAlone(s, SelectForPoll(0, now, code, pick), DeletePolled(0), t, o)
    ensures o == Polled(u, s.rows[u].meta.status, s.rows[u].meta.encryptedKey) && t.rows == s.rows - {u}
  {
    PollHandsOut(s.rows, s.used, now, code, pick, u);
  }

  lemma AloneKeepsInv(rows: Table, used: set<Uid>, first: Event, second: Event)
    requires Inv(State(rows, used, map[]))
    requires Enabled(State(rows, used, map[]), first) && StartsCall(first) && first.c == 0
    requires var s := Apply(State(rows, used, map[]), first);
             0 in s.calls && (s.calls[0].Finished? || Enabled(s, second))
    ensures Inv(State(Alone(rows, used, first, second).rows, Alone(rows, used, first, second).used, map[]))
  {
    var s := State(rows, used, map[]);
    ApplyKeepsInv(s, first);
    if !Apply(s, first).calls[0].Finished? {
      ApplyKeepsInv(Apply(s, first), second);
    }
  }

  lemma NewestExists(rows: Table, some: set<Uid>) returns (u: Uid)
    requires some != {} && some <= rows.Keys
    ensures u in some && forall v :: v in some ==> rows[v].createdAt <= rows[u].createdAt
    decreases |some|
  {
    u :| u in some;
    if some != {u} {
      assert some - {u} < some;
      var w := NewestExists(rows, some - {u});
      u := if rows[w].createdAt <= rows[u].createdAt then u else w;
    }
  }

  /** The store, each method run without interruption. */
  class Store {
    var rows: Table
    ghost var used: set<Uid>

    ghost predicate Valid()
      reads this
    {
      Inv(State(rows, used, map[]))
    }

    constructor ()
      ensures Valid() && rows == map[] && used == {}
    {
      rows, used := map[], {};
    }

    /** Returns the newest live row for the code, if any. */
    method GetDeviceAuthStateByUserCode(now: int, userCode: string) returns (pick: Option<Uid>)
      ensures SelectsCode(rows, now, userCode, pick)
    {
      var held := set u | u in rows && HoldsCode(rows[u], now, userCode);
      if held == {} {
        assert forall u :: u in rows && HoldsCode(rows[u], now, userCode) ==> u in held;
        return None;
      }
      ghost var w := NewestExists(rows, held);
      var u :| u in held && forall v :: v in held ==> rows[v].createdAt <= rows[u].createdAt;
      return Some(u);
    }

    method CreateDeviceAuthRequest(now: int, clientName: string, deviceCode: string, userCode: string,
                                   uid: Uid, expiresAt: int, createdAt: int) returns (o: Outcome)
      requires Valid() && uid !in used
      modifies this
      ensures Valid()
      ensures State(rows, used, map[0 := Finished(o)]) ==
              Alone(old(rows), old(used), CheckCode(0, now, clientName, deviceCode, userCode),
                    InsertDevice(0, uid, expiresAt, createdAt))
    {
      if exists u :: u in rows && HoldsCode(rows[u], now, userCode) {
        return CodeTaken;
      }
      if StateTaken(rows, deviceCode) {
        return StateConflict;
      }
      rows := rows[uid := Row(deviceCode, DEVICE_PROVIDER,
                              Device(clientName, userCode, Pending, None, [], ""), expiresAt, createdAt)];
      used := used + {uid};
      return Created(uid);
    }

    method RespondToDeviceAuthByUserCode(now: int, later: int, userCode: string, answer: Answer)
      returns (o: Outcome, ghost pick: Option<Uid>)
      requires Valid()
      modifies this`rows
      ensures Valid() && SelectsCode(old(rows), now, userCode, pick)
      ensures State(rows, used, map[0 := Finished(o)]) ==
              Alone(old(rows), used, SelectForResponse(0, now, userCode, answer, pick), UpdateIfPending(0, later))
    {
      var found := GetDeviceAuthStateByUserCode(now, userCode);
      pick := found;
      if found.None? {
        return NotFound, pick;
      }
      var u := found.value;
      var meta := rows[u].meta;
      if !meta.status.Pending? {
        return AlreadyResolved, pick;
      }
      if !StillPending(rows, u, later) {
        return AlreadyResolved, pick;
      }
      rows := rows[u := rows[u].(meta := Answered(meta, answer))];
      return Responded, pick;
    }

    method PollDeviceAuthToken(now: int, deviceCode: string) returns (o: Outcome, ghost pick: Option<Uid>)
      requires Valid()
      modifies this`rows
      ensures Valid() && SelectsDeviceCode(old(rows), now, deviceCode, pick)
      ensures State(rows, used, map[0 := Finished(o)]) ==
              Alone(old(rows), used, SelectForPoll(0, now, deviceCode, pick), DeletePolled(0))
    {
      pick := None;
      if !exists u :: u in rows && HoldsDeviceCode(rows[u], now, deviceCode) {
        return NotFound, None;
      }
      var u :| u in rows && HoldsDeviceCode(rows[u], now, deviceCode);
      assert DeviceRow(State(rows, used, map[]), u);
      pick := Some(u);
      var meta := rows[u].meta;
      if meta.status.Pending? {
        return Polled(u, Pending, []), pick;
      }
      rows := rows - {u};
      return Polled(u, meta.status, meta.encryptedKey), pick;
    }

    method ConsumeOAuthState(now: int, token: string) returns (o: Outcome, ghost pick: Option<Uid>)
      requires Valid()
      modifies this`rows
      ensures Valid() && SelectsToken(old(rows), now, token, pick)
      ensures State(rows, used, map[0 := Finished(o)]) ==
              Alone(old(rows), used, SelectForConsume(0, now, token, pick), DeleteConsumed(0))
    {
      pick := None;
      if !exists u :: u in rows && HoldsToken(rows[u], now, token) {
        return NotFound, None;
      }
      var u :| u in rows && HoldsToken(rows[u], now, token);
      pick := Some(u);
      rows := rows - {u};
      return Consumed(u), pick;
    }

    method CleanupExpiredOAuthStates(now: int) returns (removed: nat)
      requires Valid()
      modifies this`rows
      ensures Valid()
      ensures State(rows, used, map[]) == Apply(State(old(rows), used, map[]), Sweep(now))
      ensures removed == |old(rows)| - |rows|
    {
      var before := rows;
      rows := map u | u in rows && rows[u].expiresAt > now :: rows[u];
      assert rows.Keys <= before.Keys;
      SubsetSmaller(rows.Keys, before.Keys);
      removed := |before| - |rows|;
    }
  }
}
