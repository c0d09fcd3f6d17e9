/**
 Grant requests: a user asks for a definition on a database; the request is approved
 (automatically or by an admin), denied or cancelled; approval creates the grant in the same
 transaction. Scope is checked against group membership that changes over time. One event is
 one handler or one store transaction.
 */
module GrantRequests {
  import opened Common

  const MAX_JUSTIFICATION := 1000

  datatype Definition = Definition(
    durationSeconds: int, controls: seq<string>, maxQueries: Option<int>, maxBytes: Option<int>,
    autoApprove: bool, groupUids: seq<Uid>, databaseUids: seq<Uid>, isActive: bool)

  datatype Status = Pending | Approved | Denied | Cancelled

  datatype Request = Request(
    user: Uid, definition: Uid, database: Uid, justification: string, status: Status,
    decidedAt: Option<int>, decidedBy: Option<Uid>, reason: Option<string>, grant: Option<Uid>)

  datatype Grant = Grant(
    user: Uid, database: Uid, controls: seq<string>, grantedBy: Uid, startsAt: int, expiresAt: int,
    maxQueries: Option<int>, maxBytes: Option<int>, revokedAt: Option<int>, revokedBy: Option<Uid>)

  datatype Server = Server(ssh: bool, deleted: bool)

  /** `members` holds (group, user) pairs; `usedGroups` every group uid ever issued. */
  datatype State = State(
    definitions: map<Uid, Definition>, requests: map<Uid, Request>, grants: map<Uid, Grant>,
    groups: set<Uid>, usedGroups: set<Uid>, members: set<(Uid, Uid)>, servers: map<Uid, Server>)

  datatype Reason =
    | TooLong | NoDefinition | Inactive | JustificationRequired | OutOfScope | SshTarget
    | Duplicate | NoDatabase | NotFound | NotPending | NoGroup | AlreadyRevoked

  datatype Outcome = Done | Rejected(reason: Reason)

  datatype Event =
    | Create(uid: Uid, grant: Uid, user: Uid, definition: Uid, database: Uid, justification: string, now: int)
    | Approve(uid: Uid, grant: Uid, decider: Uid, now: int)
    | Deny(uid: Uid, actor: Uid, why: string, now: int)
    | Cancel(uid: Uid, actor: Uid, now: int)
    | AddDefinition(uid: Uid, def: Definition)
    | EditDefinition(uid: Uid, def: Definition)
    | Deactivate(uid: Uid)
    | AddGroup(uid: Uid)
    | DeleteGroup(uid: Uid)
    | AddMember(group: Uid, user: Uid)
    | RemoveMember(group: Uid, user: Uid)
    | SetGroupMembers(group: Uid, users: seq<Uid>)
    | SetUserGroups(user: Uid, groupList: seq<Uid>)
    | Revoke(grant: Uid, actor: Uid, now: int)
    | DirectGrant(grant: Uid, row: Grant)
    | SetServer(uid: Uid, server: Server)

  // ---------------------------------------------------------------- scope

  /** An empty list means everyone. */
  predicate AppliesToGroups(d: Definition, owned: set<Uid>) {
    d.groupUids == [] || exists g :: g in d.groupUids && g in owned
  }

  predicate AppliesToDatabase(d: Definition, database: Uid) {
    d.databaseUids == [] || database in d.databaseUids
  }

  predicate AppliesTo(d: Definition, owned: set<Uid>, database: Uid) {
    AppliesToGroups(d, owned) && AppliesToDatabase(d, database)
  }

  /** The nested search over both lists. */
  method SearchGroups(d: Definition, owned: seq<Uid>) returns (b: bool)
    ensures b == AppliesToGroups(d, set g | g in owned)
  {
    if |d.groupUids| == 0 {
      return true;
    }
    for i := 0 to |d.groupUids|
      invariant forall k :: 0 <= k < i ==> d.groupUids[k] !in owned
    {
      for j := 0 to |owned|
        invariant forall k :: 0 <= k < j ==> owned[k] != d.groupUids[i]
      {
        if d.groupUids[i] == owned[j] {
          assert owned[j] in d.groupUids && owned[j] in set g | g in owned;
          return true;
        }
      }
    }
    return false;
  }

  method SearchDatabases(d: Definition, database: Uid) returns (b: bool)
    ensures b == AppliesToDatabase(d, database)
  {
    if |d.databaseUids| == 0 {
      return true;
    }
    for i := 0 to |d.databaseUids|
      invariant database !in d.databaseUids[..i]
    {
      if d.databaseUids[i] == database {
        return true;
      }
    }
    return false;
  }

  function GroupsOf(s: State, user: Uid): set<Uid> {
    set m | m in s.members && m.1 == user :: m.0
  }

  /** The user is within the definition's scope on this database, as things stand. */
  predicate InScope(s: State, definition: Uid, user: Uid, database: Uid) {
    definition in s.definitions && AppliesTo(s.definitions[definition], GroupsOf(s, user), database)
  }

  // ---------------------------------------------------------------- handlers

  function Build(d: Definition, user: Uid, database: Uid, grantedBy: Uid, now: int): Grant {
    Grant(user, database, d.controls, grantedBy, now, now + d.durationSeconds, d.maxQueries, d.maxBytes, None, None)
  }

  /** The approval transaction. */
  function ApproveTx(s: State, uid: Uid, decidedBy: Option<Uid>, grantedBy: Uid, grant: Uid, now: int)
    : (State, Outcome)
  {
    if uid !in s.requests then (s, Rejected(NotFound))
    else
      var r := s.requests[uid];
      if r.status != Pending then (s, Rejected(NotPending))
      else if r.definition !in s.definitions then (s, Rejected(NoDefinition))
      else if !s.definitions[r.definition].isActive then (s, Rejected(Inactive))
      else
        var g := Build(s.definitions[r.definition], r.user, r.database, grantedBy, now);
        (s.(grants := s.grants[grant := g],
            requests := s.requests[uid := r.(status := Approved, decidedAt := Some(now), decidedBy := decidedBy,
                                             grant := Some(grant))]),
         Done)
  }

  /** Deny and cancel. */
  function TransitionTx(s: State, uid: Uid, target: Status, actor: Uid, why: string, now: int): (State, Outcome) {
    if uid !in s.requests then (s, Rejected(NotFound))
    else
      var r := s.requests[uid];
      if r.status != Pending then (s, Rejected(NotPending))
      else (s.(requests := s.requests[uid := r.(status := target, decidedAt := Some(now), decidedBy := Some(actor),
                                                reason := if why != "" then Some(why) else r.reason)]), Done)
  }

  predicate HasPending(s: State, user: Uid, definition: Uid, database: Uid) {
    exists u :: u in s.requests && Same(s.requests[u], user, definition, database) && s.requests[u].status == Pending
  }

  predicate Same(r: Request, user: Uid, definition: Uid, database: Uid) {
    r.user == user && r.definition == definition && r.database == database
  }

  predicate LiveSsh(s: State, database: Uid) {
    database in s.servers && !s.servers[database].deleted && s.servers[database].ssh
  }

  function WhyNotCreate(s: State, e: Event): Option<Reason>
    requires e.Create?
  {
    if |e.justification| > MAX_JUSTIFICATION then Some(TooLong)
    else if e.definition !in s.definitions then Some(NoDefinition)
    else
      var d := s.definitions[e.definition];
      if !d.isActive then Some(Inactive)
      else if d.autoApprove && e.justification == "" then Some(JustificationRequired)
      else if !AppliesTo(d, GroupsOf(s, e.user), e.database) then Some(OutOfScope)
      else if LiveSsh(s, e.database) then Some(SshTarget)
      else if HasPending(s, e.user, e.definition, e.database) then Some(Duplicate)
      else if e.database !in s.servers then Some(NoDatabase)
      else None
  }

  function Filed(s: State, e: Event): State
    requires e.Create?
  {
    s.(requests := s.requests[e.uid := Request(e.user, e.definition, e.database, e.justification, Pending,
                                               None, None, None, None)])
  }

  /** Uids are random: new ones are not in use. */
  predicate Enabled(s: State, e: Event) {
    match e
    case Create(uid, grant, _, _, _, _, _) => uid !in s.requests && grant !in s.grants
    case Approve(_, grant, _, _) => grant !in s.grants
    case AddDefinition(uid, _) => uid !in s.definitions
    case AddGroup(uid) => uid !in s.usedGroups
    case DirectGrant(grant, _) => grant !in s.grants
    case _ => true
  }

  /** Only these events write to the requests table. */
  predicate WritesRequests(e: Event) {
    e.Create? || e.Approve? || e.Deny? || e.Cancel?
  }

  function HandleRequest(s: State, e: Event): (State, Outcome)
    requires Enabled(s, e) && WritesRequests(e)
  {
    match e
    case Create(uid, grant, user, definition, _, _, now) =>
      (match WhyNotCreate(s, e)
       case Some(why) => (s, Rejected(why))
       case None =>
         if s.definitions[definition].autoApprove
         then ApproveTx(Filed(s, e), uid, None, user, grant, now)
         else (Filed(s, e), Done))
    case Approve(uid, grant, decider, now) =>
      if uid in s.requests && s.requests[uid].definition in s.definitions
         && !InScope(s, s.requests[uid].definition, s.requests[uid].user, s.requests[uid].database)
      then (s, Rejected(OutOfScope))
      else ApproveTx(s, uid, Some(decider), decider, grant, now)
    case Deny(uid, actor, why, now) => TransitionTx(s, uid, Denied, actor, why, now)
    case Cancel(uid, actor, now) => TransitionTx(s, uid, Cancelled, actor, "", now)
  }

  function HandleOther(s: State, e: Event): (State, Outcome)
    requires Enabled(s, e) && !WritesRequests(e)
  {
    match e
    case AddDefinition(uid, def) => (s.(definitions := s.definitions[uid := def]), Done)
    case EditDefinition(uid, def) =>
      if uid !in s.definitions then (s, Rejected(NoDefinition))
      else (s.(definitions := s.definitions[uid := def.(isActive := s.definitions[uid].isActive)]), Done)
    case Deactivate(uid) =>
      if uid !in s.definitions then (s, Rejected(NoDefinition))
      else (s.(definitions := s.definitions[uid := s.definitions[uid].(isActive := false)]), Done)
    case AddGroup(uid) => (s.(groups := s.groups + {uid}, usedGroups := s.usedGroups + {uid}), Done)
    case DeleteGroup(uid) =>
      if uid !in s.groups then (s, Rejected(NoGroup))
      else (s.(groups := s.groups - {uid}, members := set m | m in s.members && m.0 != uid), Done)
    case AddMember(group, user) =>
      if group !in s.groups then (s, Rejected(NoGroup)) else (s.(members := s.members + {(group, user)}), Done)
    case RemoveMember(group, user) => (s.(members := s.members - {(group, user)}), Done)
    case SetGroupMembers(group, users) =>
      if group !in s.groups && users != [] then (s, Rejected(NoGroup))
      else (s.(members := (set m | m in s.members && m.0 != group) + (set u | u in users :: (group, u))), Done)
    case SetUserGroups(user, groupList) =>
      if exists g :: g in groupList && g !in s.groups then (s, Rejected(NoGroup))
      else (s.(members := (set m | m in s.members && m.1 != user) + (set g | g in groupList :: (g, user))), Done)
    case Revoke(grant, actor, now) =>
      if grant !in s.grants || s.grants[grant].revokedAt.Some? then (s, Rejected(AlreadyRevoked))
      else (s.(grants := s.grants[grant := s.grants[grant].(revokedAt := Some(now), revokedBy := Some(actor))]), Done)
    case DirectGrant(grant, row) => (s.(grants := s.grants[grant := row]), Done)
    case SetServer(uid, server) => (s.(servers := s.servers[uid := server]), Done)
  }

  function Handle(s: State, e: Event): (State, Outcome)
    requires Enabled(s, e)
  {
    if WritesRequests(e) then HandleRequest(s, e) else HandleOther(s, e)
  }

  function Apply(s: State, e: Event): State
    requires Enabled(s, e)
  {
    Handle(s, e).0
  }

  /** A rejected call changes nothing. */
  lemma RejectionChangesNothing(s: State, e: Event)
    requires Enabled(s, e)
    ensures Handle(s, e).1.Rejected? ==> Apply(s, e) == s
  {
  }

  // ---------------------------------------------------------------- invariant

  predicate GrantOk(s: State, r: Request) {
    && (r.status == Approved <==> r.grant.Some?)
    && (r.grant.Some? ==> r.grant.value in s.grants && s.grants[r.grant.value].user == r.user
                          && s.grants[r.grant.value].database == r.database)
  }

  predicate RequestOk(s: State, r: Request) {
    r.definition in s.definitions && GrantOk(s, r)
  }

  ghost predicate RequestsOk(s: State) {
    forall u :: u in s.requests ==> RequestOk(s, s.requests[u])
  }

  ghost predicate DistinctGrants(s: State) {
    forall u, v ::
      (u in s.requests && v in s.requests && s.requests[u].grant.Some? && s.requests[u].grant == s.requests[v].grant)
      ==> u == v
  }

  ghost predicate NoDuplicates(s: State) {
    forall u, v ::
      (&& u in s.requests && v in s.requests && s.requests[u].status == Pending && s.requests[v].status == Pending
       && Same(s.requests[u], s.requests[v].user, s.requests[v].definition, s.requests[v].database))
      ==> u == v
  }

  ghost predicate GroupsOk(s: State) {
    s.groups <= s.usedGroups && forall m :: m in s.members ==> m.0 in s.groups
  }

  ghost predicate Core(s: State) {
    RequestsOk(s) && DistinctGrants(s) && GroupsOk(s)
  }

  ghost predicate Inv(s: State) {
    Core(s) && NoDuplicates(s)
  }

  /** The grant gives this user this database, on the definition's terms, from `now` on. */
  predicate OnTermsOf(g: Grant, d: Definition, r: Request, grantedBy: Uid, now: int) {
    && g.user == r.user && g.database == r.database && g.grantedBy == grantedBy
    && g.controls == d.controls && g.maxQueries == d.maxQueries && g.maxBytes == d.maxBytes
    && g.startsAt == now && g.expiresAt - g.startsAt == d.durationSeconds && g.revokedAt.None? && g.revokedBy.None?
  }

  /** The event that approves request `u`, with everything the grant depends on as it then stands. */
  predicate Births(s: State, e: Event, u: Uid) {
    && (e.Create? || e.Approve?) && e.uid == u && Enabled(s, e)
    && u in Apply(s, e).requests
    && (u in s.requests ==> s.requests[u].status == Pending)
    && var r := Apply(s, e).requests[u];
       && r.status == Approved && r.grant == Some(e.grant)
       && InScope(s, r.definition, r.user, r.database) && s.definitions[r.definition].isActive
       && (e.Create? ==> s.definitions[r.definition].autoApprove && r.decidedBy == None)
       && (e.Approve? ==> r.decidedBy == Some(e.decider))
       && e.grant in Apply(s, e).grants
       && OnTermsOf(Apply(s, e).grants[e.grant], s.definitions[r.definition], r,
                    if e.Create? then r.user else e.decider, e.now)
  }

  lemma OtherEventsLeaveRequests(s: State, e: Event)
    requires Enabled(s, e) && !WritesRequests(e)
    ensures Apply(s, e).requests == s.requests && s.definitions.Keys <= Apply(s, e).definitions.Keys
  {
  }

  /** From `s` to `t` request `u` is kept, is final once decided, and is approved only if `born`. */
  predicate Moves(s: State, t: State, u: Uid, born: bool) {
    && (u in s.requests ==>
          && u in t.requests
          && (s.requests[u].status != Pending ==> t.requests[u] == s.requests[u])
          && Same(t.requests[u], s.requests[u].user, s.requests[u].definition, s.requests[u].database))
    && ((u in t.requests && t.requests[u].status == Approved) ==>
          born || (u in s.requests && s.requests[u] == t.requests[u]))
  }

  lemma ApproveMoves(s: State, e: Event, u: Uid)
    requires Core(s) && Enabled(s, e) && e.Approve?
    ensures Moves(s, Apply(s, e), u, Births(s, e, u))
  {
    if u in s.requests {
      assert RequestOk(s, s.requests[u]);
    }
  }

  /** What one event can do to one request. */
  lemma ApplyRequest(s: State, e: Event, u: Uid)
    requires Core(s) && Enabled(s, e)
    ensures Moves(s, Apply(s, e), u, Births(s, e, u))
  {
    if e.Approve? {
      ApproveMoves(s, e, u);
    } else if !WritesRequests(e) {
      OtherEventsLeaveRequests(s, e);
    }
  }

  /** A grant never changes except to be revoked. */
  predicate SameGrant(a: Grant, b: Grant) {
    a == b.(revokedAt := a.revokedAt, revokedBy := a.revokedBy)
  }

  lemma ApplyGrant(s: State, e: Event, g: Uid)
    requires Enabled(s, e) && g in s.grants
    ensures g in Apply(s, e).grants && SameGrant(Apply(s, e).grants[g], s.grants[g])
  {
  }

  lemma ApplyKeepsDefinition(s: State, e: Event, u: Uid)
    requires Core(s) && Enabled(s, e) && u in Apply(s, e).requests
    ensures Apply(s, e).requests[u].definition in Apply(s, e).definitions
  {
    if u in s.requests {
      assert RequestOk(s, s.requests[u]);
    }
    if !WritesRequests(e) {
      OtherEventsLeaveRequests(s, e);
    } else {
      WritesKeepDefinition(s, e, u);
    }
  }

  lemma WritesKeepDefinition(s: State, e: Event, u: Uid)
    requires Core(s) && Enabled(s, e) && WritesRequests(e) && u in Apply(s, e).requests
    ensures Apply(s, e).requests[u].definition in Apply(s, e).definitions
  {
    if u in s.requests {
      assert RequestOk(s, s.requests[u]);
    }
  }

  lemma OldRequestGrantOk(s: State, e: Event, u: Uid)
    requires Core(s) && Enabled(s, e) && u in s.requests
    ensures u in Apply(s, e).requests && GrantOk(Apply(s, e), Apply(s, e).requests[u])
  {
    var r := s.requests[u];
    assert RequestOk(s, r);
    if r.grant.Some? {
      ApplyGrant(s, e, r.grant.value);
    }
    if WritesRequests(e) {
      WrittenGrantOk(s, e, u);
    } else {
      OtherEventsLeaveRequests(s, e);
    }
  }

  lemma WrittenGrantOk(s: State, e: Event, u: Uid)
    requires Core(s) && Enabled(s, e) && u in s.requests && WritesRequests(e)
    ensures u in Apply(s, e).requests && GrantOk(Apply(s, e), Apply(s, e).requests[u])
  {
    assert RequestOk(s, s.requests[u]);
  }

  /** A request's grant is the one it had, or the one that this event issues. */
  predicate Comes(s: State, e: Event, u: Uid, g: Option<Uid>) {
    || (u in s.requests && s.requests[u].grant == g && g.Some? && g.value in s.grants)
    || ((e.Create? || e.Approve?) && u == e.uid && g == Some(e.grant))
  }

  lemma WrittenGrantOrigin(s: State, e: Event, u: Uid)
    requires Core(s) && Enabled(s, e) && WritesRequests(e)
    requires u in Apply(s, e).requests && Apply(s, e).requests[u].grant.Some?
    ensures Comes(s, e, u, Apply(s, e).requests[u].grant)
  {
    if u in s.requests {
      assert RequestOk(s, s.requests[u]);
    }
  }

  lemma GrantOrigin(s: State, e: Event, u: Uid)
    requires Core(s) && Enabled(s, e) && u in Apply(s, e).requests && Apply(s, e).requests[u].grant.Some?
    ensures Comes(s, e, u, Apply(s, e).requests[u].grant)
  {
    if WritesRequests(e) {
      WrittenGrantOrigin(s, e, u);
    } else {
      OtherEventsLeaveRequests(s, e);
      assert RequestOk(s, s.requests[u]);
    }
  }

  lemma ApplyKeepsDistinct(s: State, e: Event)
    requires Core(s) && Enabled(s, e)
    ensures DistinctGrants(Apply(s, e))
  {
    var t := Apply(s, e);
    forall u, v | u in t.requests && v in t.requests && t.requests[u].grant.Some?
                  && t.requests[u].grant == t.requests[v].grant
      ensures u == v
    {
      GrantOrigin(s, e, u);
      GrantOrigin(s, e, v);
    }
  }

  lemma ApplyKeepsNoDuplicates(s: State, e: Event)
    requires Inv(s) && Enabled(s, e)
    ensures NoDuplicates(Apply(s, e))
  {
    if !WritesRequests(e) {
      OtherEventsLeaveRequests(s, e);
    }
  }

  lemma ApplyKeepsCore(s: State, e: Event)
    requires Core(s) && Enabled(s, e)
    ensures Core(Apply(s, e))
  {
    forall u | u in Apply(s, e).requests ensures RequestOk(Apply(s, e), Apply(s, e).requests[u]) {
      ApplyKeepsDefinition(s, e, u);
      if u in s.requests {
        OldRequestGrantOk(s, e, u);
      } else {
        if !WritesRequests(e) {
          OtherEventsLeaveRequests(s, e);
        }
      }
    }
    ApplyKeepsDistinct(s, e);
  }

  lemma ApplyKeepsInv(s: State, e: Event)
    requires Inv(s) && Enabled(s, e)
    ensures Inv(Apply(s, e))
  {
    ApplyKeepsCore(s, e);
    ApplyKeepsNoDuplicates(s, e);
  }

  // ---------------------------------------------------------------- runs

  datatype Run = Run(states: seq<State>, events: seq<Event>) {
    ghost predicate Valid() {
      && |states| == |events| + 1
      && Inv(states[0]) && states[0].requests == map[]
      && forall i {:trigger events[i]} :: 0 <= i < |events| ==> Follows(states[i], events[i], states[i + 1])
    }
  }

  predicate Follows(s: State, e: Event, t: State) {
    Enabled(s, e) && t == Apply(s, e)
  }

  /** In every reachable state: approved exactly with a grant, grants distinct, no duplicate pending request. */
  lemma {:induction false} InvAt(r: Run, i: nat)
    requires r.Valid() && i < |r.states|
    ensures Inv(r.states[i])
  {
    if i > 0 {
      InvAt(r, i - 1);
      InvStep(r.states[i - 1], r.events[i - 1], r.states[i]);
    }
  }

  lemma InvStep(s: State, e: Event, t: State)
    requires Inv(s) && Follows(s, e, t)
    ensures Inv(t)
  {
    ApplyKeepsInv(s, e);
  }

  lemma DecidedStep(s: State, e: Event, t: State, u: Uid)
    requires Inv(s) && Follows(s, e, t) && u in s.requests && s.requests[u].status != Pending
    ensures u in t.requests && t.requests[u] == s.requests[u]
  {
    ApplyRequest(s, e, u);
  }

  lemma GrantStep(s: State, e: Event, t: State, g: Uid)
    requires Follows(s, e, t) && g in s.grants
    ensures g in t.grants && SameGrant(t.grants[g], s.grants[g])
  {
    ApplyGrant(s, e, g);
  }

  lemma RequestStep(s: State, e: Event, t: State, u: Uid)
    requires Inv(s) && Follows(s, e, t)
    ensures Moves(s, t, u, Births(s, e, u))
  {
    ApplyRequest(s, e, u);
  }

  /** A decided request never changes again. */
  lemma {:induction false} DecidedIsFinal(r: Run, i: nat, j: nat, u: Uid)
    requires r.Valid() && i <= j < |r.states|
    requires u in r.states[i].requests && r.states[i].requests[u].status != Pending
    ensures u in r.states[j].requests && r.states[j].requests[u] == r.states[i].requests[u]
  {
    if i < j {
      DecidedIsFinal(r, i, j - 1, u);
      InvAt(r, j - 1);
      DecidedStep(r.states[j - 1], r.events[j - 1], r.states[j], u);
    }
  }

  lemma {:induction false} GrantIsFinal(r: Run, i: nat, j: nat, g: Uid)
    requires r.Valid() && i <= j < |r.states| && g in r.states[i].grants
    ensures g in r.states[j].grants && SameGrant(r.states[j].grants[g], r.states[i].grants[g])
  {
    if i < j {
      GrantIsFinal(r, i, j - 1, g);
      GrantStep(r.states[j - 1], r.events[j - 1], r.states[j], g);
    }
  }

  /**
   Every approved request was approved by exactly one event, at which time its user and
   database were within the definition's scope and the definition was active; the grant was
   built from the definition as of that moment and has not changed since, revocation aside.
   */
  lemma {:induction false} ApprovedWasInScope(r: Run, j: nat, u: Uid) returns (i: nat)
    requires r.Valid() && j < |r.states| && u in r.states[j].requests && r.states[j].requests[u].status == Approved
    ensures i < j && Births(r.states[i], r.events[i], u)
    ensures r.states[j].requests[u] == r.states[i + 1].requests[u]
    ensures r.events[i].grant in r.states[j].grants
    ensures SameGrant(r.states[j].grants[r.events[i].grant], r.states[i + 1].grants[r.events[i].grant])
  {
    if j == 0 {
      assert false;
    }
    InvAt(r, j - 1);
    RequestStep(r.states[j - 1], r.events[j - 1], r.states[j], u);
    if Births(r.states[j - 1], r.events[j - 1], u) {
      i := j - 1;
    } else {
      i := ApprovedWasInScope(r, j - 1, u);
      GrantIsFinal(r, i + 1, j, r.events[i].grant);
    }
  }

  /** No request is approved twice. */
  lemma ApprovedOnce(r: Run, i: nat, j: nat, u: Uid)
    requires r.Valid() && i < |r.events| && j < |r.events|
    requires Births(r.states[i], r.events[i], u) && Births(r.states[j], r.events[j], u)
    ensures i == j
  {
    if i < j {
      DecidedIsFinal(r, i + 1, j, u);
    } else if j < i {
      DecidedIsFinal(r, j + 1, i, u);
    }
  }

  // ---------------------------------------------------------------- deleted groups fail closed

  /** Restricted to groups, all of which are deleted. */
  predicate Dead(s: State, d: Uid) {
    && d in s.definitions && s.definitions[d].groupUids != []
    && forall g :: g in s.definitions[d].groupUids ==> g in s.usedGroups && g !in s.groups
  }

  predicate Edits(e: Event, d: Uid) {
    e.EditDefinition? && e.uid == d
  }

  /** Group uids are used once, so one that was issued and is gone stays gone. */
  lemma DeletedStep(s: State, e: Event, t: State)
    requires Follows(s, e, t)
    ensures s.usedGroups <= t.usedGroups && s.usedGroups - s.groups <= t.usedGroups - t.groups
  {
  }

  lemma ScopeStep(s: State, e: Event, t: State, d: Uid)
    requires Follows(s, e, t) && d in s.definitions && !Edits(e, d)
    ensures d in t.definitions && t.definitions[d].groupUids == s.definitions[d].groupUids
  {
  }

  lemma DeadStep(s: State, e: Event, t: State, d: Uid)
    requires Follows(s, e, t) && Dead(s, d) && !Edits(e, d)
    ensures Dead(t, d)
  {
    DeletedStep(s, e, t);
    ScopeStep(s, e, t, d);
  }

  lemma DeadIsOutOfScope(s: State, d: Uid, user: Uid, database: Uid)
    requires Inv(s) && Dead(s, d)
    ensures !InScope(s, d, user, database)
  {
  }

  /** Until an admin edits it, a definition scoped only to deleted groups yields no further grant. */
  lemma {:induction false} DeadDefinitionYieldsNothing(r: Run, i: nat, j: nat, d: Uid, u: Uid)
    requires r.Valid() && i <= j < |r.states| && Dead(r.states[i], d)
    requires forall k :: i <= k < j ==> !Edits(r.events[k], d)
    requires u in r.states[j].requests && r.states[j].requests[u].definition == d
    requires r.states[j].requests[u].status == Approved
    ensures u in r.states[i].requests && r.states[i].requests[u] == r.states[j].requests[u]
    ensures Dead(r.states[j], d)
  {
    DeadStaysDead(r, i, j, d);
    if i < j {
      InvAt(r, j - 1);
      DeadStaysDead(r, i, j - 1, d);
      RequestStep(r.states[j - 1], r.events[j - 1], r.states[j], u);
      if Births(r.states[j - 1], r.events[j - 1], u) {
        DeadIsOutOfScope(r.states[j - 1], d, r.states[j].requests[u].user, r.states[j].requests[u].database);
      } else {
        DeadDefinitionYieldsNothing(r, i, j - 1, d, u);
      }
    }
  }

  lemma {:induction false} DeadStaysDead(r: Run, i: nat, j: nat, d: Uid)
    requires r.Valid() && i <= j < |r.states| && Dead(r.states[i], d)
    requires forall k :: i <= k < j ==> !Edits(r.events[k], d)
    ensures Dead(r.states[j], d)
  {
    if i < j {
      DeadStaysDead(r, i, j - 1, d);
      DeadStep(r.states[j - 1], r.events[j - 1], r.states[j], d);
    }
  }

  // ---------------------------------------------------------------- revocation

  /** Revoking answers Done exactly for a grant that is there and not revoked, and marks that one alone. */
  lemma RevokeMeans(s: State, g: Uid, actor: Uid, now: int)
    ensures var (t, o) := Handle(s, Revoke(g, actor, now));
            && (o == Done <==> g in s.grants && s.grants[g].revokedAt == None)
            && (o == Done ==>
                  && g in t.grants && t.grants[g].revokedAt == Some(now) && t.grants[g].revokedBy == Some(actor)
                  && t.grants.Keys == s.grants.Keys
                  && (forall x :: x in s.grants && x != g ==> t.grants[x] == s.grants[x])
                  && SameGrant(t.grants[g], s.grants[g]) && t == s.(grants := t.grants))
            && (o != Done ==> t == s)
  {
  }

  predicate RevokedBy(s: State, g: Uid, actor: Option<Uid>, at: int) {
    g in s.grants && s.grants[g].revokedAt == Some(at) && s.grants[g].revokedBy == actor
  }

  lemma RevokedStep(s: State, e: Event, t: State, g: Uid, actor: Option<Uid>, at: int)
    requires Follows(s, e, t) && RevokedBy(s, g, actor, at)
    ensures RevokedBy(t, g, actor, at)
  {
  }

  /** Once revoked, a grant keeps its revocation for ever, and a second one is rejected. */
  lemma {:induction false} RevocationIsFinal(r: Run, i: nat, j: nat, g: Uid, actor: Option<Uid>, at: int)
    requires r.Valid() && i <= j < |r.states| && RevokedBy(r.states[i], g, actor, at)
    ensures RevokedBy(r.states[j], g, actor, at)
    ensures forall x, now :: Handle(r.states[j], Revoke(g, x, now)) == (r.states[j], Rejected(AlreadyRevoked))
  {
    if i < j {
      RevocationIsFinal(r, i, j - 1, g, actor, at);
      RevokedStep(r.states[j - 1], r.events[j - 1], r.states[j], g, actor, at);
    }
  }

  // ---------------------------------------------------------------- what the handlers do

  /** The user is in a group of the definition, or it has none; and likewise for the database. */
  predicate Covers(s: State, d: Definition, user: Uid, database: Uid) {
    && (|d.groupUids| == 0 || exists g :: (g, user) in s.members && g in d.groupUids)
    && (|d.databaseUids| == 0 || exists i :: 0 <= i < |d.databaseUids| && d.databaseUids[i] == database)
  }

  lemma ScopeMeans(s: State, d: Definition, user: Uid, database: Uid)
    ensures AppliesTo(d, GroupsOf(s, user), database) <==> Covers(s, d, user, database)
  {
    if g :| g in d.groupUids && g in GroupsOf(s, user) {
      assert (g, user) in s.members;
    }
    if g: Uid :| (g, user) in s.members && g in d.groupUids {
      assert g in GroupsOf(s, user);
    }
  }

  /** Everything that the create handler asks for. */
  predicate MayCreate(s: State, e: Event) {
    && e.Create? && |e.justification| <= 1000 && e.definition in s.definitions && s.definitions[e.definition].isActive
    && (s.definitions[e.definition].autoApprove ==> e.justification != "")
    && Covers(s, s.definitions[e.definition], e.user, e.database)
    && e.database in s.servers && (s.servers[e.database].ssh ==> s.servers[e.database].deleted)
    && !exists u :: u in s.requests && s.requests[u].status == Pending && s.requests[u].user == e.user
                    && s.requests[u].definition == e.definition && s.requests[u].database == e.database
  }

  /** The reason that is given for a rejected create is true. */
  predicate TrueReason(s: State, e: Event, why: Reason) {
    && e.Create?
    && match why
       case TooLong => |e.justification| > 1000
       case NoDefinition => e.definition !in s.definitions
       case Inactive => e.definition in s.definitions && !s.definitions[e.definition].isActive
       case JustificationRequired =>
         e.definition in s.definitions && s.definitions[e.definition].autoApprove && e.justification == ""
       case OutOfScope =>
         e.definition in s.definitions && !Covers(s, s.definitions[e.definition], e.user, e.database)
       case SshTarget => e.database in s.servers && s.servers[e.database].ssh && !s.servers[e.database].deleted
       case Duplicate =>
         exists u :: u in s.requests && s.requests[u].status == Pending && s.requests[u].user == e.user
                     && s.requests[u].definition == e.definition && s.requests[u].database == e.database
       case NoDatabase => e.database !in s.servers
       case _ => false
  }

  lemma CreateIsJudged(s: State, e: Event)
    requires Enabled(s, e) && e.Create?
    ensures WhyNotCreate(s, e).None? <==> MayCreate(s, e)
    ensures WhyNotCreate(s, e).Some? ==> TrueReason(s, e, WhyNotCreate(s, e).value)
  {
    if e.definition in s.definitions {
      ScopeMeans(s, s.definitions[e.definition], e.user, e.database);
    }
    assert HasPending(s, e.user, e.definition, e.database)
           <==> exists u :: u in s.requests && s.requests[u].status == Pending && s.requests[u].user == e.user
                            && s.requests[u].definition == e.definition && s.requests[u].database == e.database;
  }

  /** `r` is what its user asked for. */
  predicate AskedBy(r: Request, e: Event) {
    && e.Create? && r.user == e.user && r.definition == e.definition && r.database == e.database
    && r.justification == e.justification
  }

  predicate Undecided(r: Request) {
    r.status == Pending && r.decidedAt == None && r.decidedBy == None && r.reason == None && r.grant == None
  }

  /** Decided at `now`, and what was asked for is unchanged. */
  predicate DecidedAs(r: Request, was: Request, status: Status, decider: Option<Uid>, why: Option<string>, now: int)
  {
    && r.status == status && r.decidedAt == Some(now) && r.decidedBy == decider && r.reason == why
    && r.user == was.user && r.definition == was.definition && r.database == was.database
    && r.justification == was.justification
  }

  /** From `s` to `t` the row of one request, and at most the one grant, are written. */
  predicate WritesOnly(s: State, t: State, uid: Uid, grant: Option<Uid>) {
    && t == s.(requests := t.requests, grants := t.grants)
    && uid in t.requests && t.requests - {uid} == s.requests - {uid}
    && match grant
       case None => t.grants == s.grants
       case Some(g) => g in t.grants && t.grants - {g} == s.grants - {g}
  }

  /**
   A create is accepted exactly when `MayCreate` says so. The request then waits as it was asked
   for, or, if the definition approves by itself, is approved at once by nobody with a grant to its user.
   */
  lemma CreateMeans(s: State, e: Event)
    requires Enabled(s, e) && e.Create?
    ensures var (t, o) := Handle(s, e);
            && (o == Done <==> MayCreate(s, e))
            && (o != Done ==> t == s && TrueReason(s, e, o.reason))
            && (o == Done ==>
                  && var auto := s.definitions[e.definition].autoApprove;
                     && WritesOnly(s, t, e.uid, if auto then Some(e.grant) else None) && AskedBy(t.requests[e.uid], e)
                     && (!auto ==> Undecided(t.requests[e.uid]))
                     && (auto ==>
                           && DecidedAs(t.requests[e.uid], t.requests[e.uid], Approved, None, None, e.now)
                           && t.requests[e.uid].grant == Some(e.grant)
                           && var r := t.requests[e.uid];
                              OnTermsOf(t.grants[e.grant], s.definitions[e.definition], r, e.user, e.now)))
  {
    CreateIsJudged(s, e);
    var (t, o) := Handle(s, e);
    if o == Done {
      assert t.requests - {e.uid} == s.requests - {e.uid};
      assert t.grants - {e.grant} == s.grants - {e.grant};
    }
  }

  predicate MayApprove(s: State, uid: Uid) {
    && uid in s.requests && s.requests[uid].status == Pending && s.requests[uid].definition in s.definitions
    && var d := s.definitions[s.requests[uid].definition];
       d.isActive && Covers(s, d, s.requests[uid].user, s.requests[uid].database)
  }

  /** The reason that is given for a rejected approval is true. */
  predicate ApproveReason(s: State, uid: Uid, why: Reason) {
    if uid !in s.requests then why == NotFound
    else
      var r := s.requests[uid];
      match why
      case NotPending => r.status != Pending
      case NoDefinition => r.definition !in s.definitions
      case Inactive => r.definition in s.definitions && !s.definitions[r.definition].isActive
      case OutOfScope => r.definition in s.definitions && !Covers(s, s.definitions[r.definition], r.user, r.database)
      case _ => false
  }

  /** An approval goes through exactly when the request is pending and in the scope of its active definition. */
  lemma ApproveMeans(s: State, e: Event)
    requires Enabled(s, e) && e.Approve?
    ensures var (t, o) := Handle(s, e);
            && (o == Done <==> MayApprove(s, e.uid))
            && (o != Done ==> t == s)
            && (o == Done ==>
                  && WritesOnly(s, t, e.uid, Some(e.grant))
                  && var was, r := s.requests[e.uid], t.requests[e.uid];
                     && DecidedAs(r, was, Approved, Some(e.decider), was.reason, e.now) && r.grant == Some(e.grant)
                     && OnTermsOf(t.grants[e.grant], s.definitions[was.definition], r, e.decider, e.now))
            && (o != Done ==> ApproveReason(s, e.uid, o.reason))
  {
    if e.uid in s.requests && s.requests[e.uid].definition in s.definitions {
      var r := s.requests[e.uid];
      ScopeMeans(s, s.definitions[r.definition], r.user, r.database);
    }
    var (t, o) := Handle(s, e);
    if o == Done {
      assert t.requests - {e.uid} == s.requests - {e.uid};
      assert t.grants - {e.grant} == s.grants - {e.grant};
    }
  }

  /** Denying and cancelling go through exactly for a pending request, and create no grant. */
  lemma DecisionMeans(s: State, e: Event)
    requires e.Deny? || e.Cancel?
    ensures var (t, o) := Handle(s, e);
            && (o == Done <==> e.uid in s.requests && s.requests[e.uid].status == Pending)
            && (o != Done ==>
                  t == s && o == Rejected(if e.uid in s.requests then NotPending else NotFound))
            && (o == Done ==>
                  && WritesOnly(s, t, e.uid, None) && t.requests[e.uid].grant == s.requests[e.uid].grant
                  && var why := if e.Deny? && e.why != "" then Some(e.why) else s.requests[e.uid].reason;
                     DecidedAs(t.requests[e.uid], s.requests[e.uid], if e.Deny? then Denied else Cancelled,
                               Some(e.actor), why, e.now))
  {
    var (t, o) := Handle(s, e);
    if o == Done {
      assert t.requests - {e.uid} == s.requests - {e.uid};
    }
  }

  /** Which memberships there are after an event. */
  lemma MembershipMeans(s: State, e: Event, g: Uid, u: Uid)
    requires Enabled(s, e)
    ensures (g, u) in Apply(s, e).members <==>
            match e
            case DeleteGroup(x) => (g, u) in s.members && !(g == x && x in s.groups)
            case AddMember(x, y) => (g, u) in s.members || (g == x && u == y && x in s.groups)
            case RemoveMember(x, y) => (g, u) in s.members && !(g == x && u == y)
            case SetGroupMembers(x, users) =>
              if g == x && (x in s.groups || |users| == 0) then u in users else (g, u) in s.members
            case SetUserGroups(y, list) =>
              if u == y && (forall i :: 0 <= i < |list| ==> list[i] in s.groups) then g in list else (g, u) in s.members
            case _ => (g, u) in s.members
  {
    if e.SetUserGroups? {
      assert (exists x :: x in e.groupList && x !in s.groups)
             <==> !forall i :: 0 <= i < |e.groupList| ==> e.groupList[i] in s.groups;
    }
  }

  /** Which groups there are after an event, and that uids of groups are remembered. */
  lemma GroupsMean(s: State, e: Event, g: Uid)
    requires Enabled(s, e)
    ensures g in Apply(s, e).groups <==> e == AddGroup(g) || (g in s.groups && e != DeleteGroup(g))
    ensures g in Apply(s, e).usedGroups <==> e == AddGroup(g) || g in s.usedGroups
  {
  }

  /** Definitions are added and edited as given; editing does not reactivate, and deactivating changes only that. */
  lemma DefinitionsMean(s: State, e: Event, d: Uid)
    requires Enabled(s, e)
    ensures d in Apply(s, e).definitions <==> d in s.definitions || (e.AddDefinition? && e.uid == d)
    ensures d in Apply(s, e).definitions ==>
              Apply(s, e).definitions[d] ==
              if e.AddDefinition? && e.uid == d then e.def
              else if e.EditDefinition? && e.uid == d then e.def.(isActive := s.definitions[d].isActive)
              else if e.Deactivate? && e.uid == d then s.definitions[d].(isActive := false)
              else s.definitions[d]
  {
  }

  /** The other handlers fail exactly on a missing group, definition or grant. */
  lemma OthersFailIff(s: State, e: Event)
    requires Enabled(s, e) && !WritesRequests(e)
    ensures Handle(s, e).1 ==
            match e
            case EditDefinition(d, _) => if d in s.definitions then Done else Rejected(NoDefinition)
            case Deactivate(d) => if d in s.definitions then Done else Rejected(NoDefinition)
            case DeleteGroup(g) => if g in s.groups then Done else Rejected(NoGroup)
            case AddMember(g, _) => if g in s.groups then Done else Rejected(NoGroup)
            case SetGroupMembers(g, users) => if g in s.groups || |users| == 0 then Done else Rejected(NoGroup)
            case SetUserGroups(_, list) =>
              if forall i :: 0 <= i < |list| ==> list[i] in s.groups then Done else Rejected(NoGroup)
            case Revoke(g, _, _) =>
              if g in s.grants && s.grants[g].revokedAt == None then Done else Rejected(AlreadyRevoked)
            case _ => Done
  {
    if e.SetUserGroups? {
      assert (exists x :: x in e.groupList && x !in s.groups)
             <==> !forall i :: 0 <= i < |e.groupList| ==> e.groupList[i] in s.groups;
    }
  }

  /** Grants made directly and servers are stored as given. */
  lemma StoredAsGiven(s: State, e: Event)
    ensures e.DirectGrant? && Enabled(s, e) ==> Apply(s, e) == s.(grants := s.grants[e.grant := e.row])
    ensures e.SetServer? ==> Apply(s, e) == s.(servers := s.servers[e.uid := e.server])
    ensures !e.SetServer? && Enabled(s, e) ==> Apply(s, e).servers == s.servers
  {
  }

  // ---------------------------------------------------------------- the store

  class Store {
    var definitions: map<Uid, Definition>
    var requests: map<Uid, Request>
    var grants: map<Uid, Grant>
    var groups: set<Uid>
    var members: set<(Uid, Uid)>
    var servers: map<Uid, Server>
    ghost var usedGroups: set<Uid>

    ghost function Snapshot(): State
      reads this
    {
      State(definitions, requests, grants, groups, usedGroups, members, servers)
    }

    constructor ()
      ensures Snapshot() == State(map[], map[], map[], {}, {}, {}, map[])
    {
      definitions, requests, grants, servers := map[], map[], map[], map[];
      groups, members, usedGroups := {}, {}, {};
    }

    method ListUserGroupUIDs(user: Uid) returns (owned: set<Uid>)
      ensures owned == GroupsOf(Snapshot(), user)
    {
      owned := set m | m in members && m.1 == user :: m.0;
    }

    method ApproveGrantRequestTx(uid: Uid, decidedBy: Option<Uid>, grantedBy: Uid, grant: Uid, now: int)
      returns (o: Outcome)
      modifies this`requests, this`grants
      ensures (Snapshot(), o) == ApproveTx(old(Snapshot()), uid, decidedBy, grantedBy, grant, now)
    {
      if uid !in requests {
        return Rejected(NotFound);
      }
      var req := requests[uid];
      if req.status != Pending {
        return Rejected(NotPending);
      }
      if req.definition !in definitions {
        return Rejected(NoDefinition);
      }
      var def := definitions[req.definition];
      if !def.isActive {
        return Rejected(Inactive);
      }
      grants := grants[grant := Build(def, req.user, req.database, grantedBy, now)];
      req := req.(status := Approved, decidedAt := Some(now), decidedBy := decidedBy, grant := Some(grant));
      requests := requests[uid := req];
      return Done;
    }

    method Transition(uid: Uid, target: Status, actor: Uid, why: string, now: int) returns (o: Outcome)
      modifies this`requests
      ensures (Snapshot(), o) == TransitionTx(old(Snapshot()), uid, target, actor, why, now)
    {
      if uid !in requests {
        return Rejected(NotFound);
      }
      var req := requests[uid];
      if req.status != Pending {
        return Rejected(NotPending);
      }
      req := req.(status := target, decidedAt := Some(now), decidedBy := Some(actor));
      if why != "" {
        req := req.(reason := Some(why));
      }
      requests := requests[uid := req];
      return Done;
    }

    method HandleCreateGrantRequest(uid: Uid, grant: Uid, user: Uid, definition: Uid, database: Uid,
                                    justification: string, now: int) returns (o: Outcome)
      requires uid !in requests && grant !in grants
      modifies this`requests, this`grants
      ensures (Snapshot(), o)
              == Handle(old(Snapshot()), Create(uid, grant, user, definition, database, justification, now))
    {
      if |justification| > MAX_JUSTIFICATION {
        return Rejected(TooLong);
      }
      if definition !in definitions {
        return Rejected(NoDefinition);
      }
      var def := definitions[definition];
      if !def.isActive {
        return Rejected(Inactive);
      }
      if def.autoApprove && justification == "" {
        return Rejected(JustificationRequired);
      }
      var owned := ListUserGroupUIDs(user);
      if !AppliesToGroups(def, owned) || !AppliesToDatabase(def, database) {
        return Rejected(OutOfScope);
      }
      if database in servers && !servers[database].deleted && servers[database].ssh {
        return Rejected(SshTarget);
      }
      if exists u :: u in requests && Same(requests[u], user, definition, database) && requests[u].status == Pending {
        return Rejected(Duplicate);
      }
      if database !in servers {
        return Rejected(NoDatabase);
      }
      requests := requests[uid := Request(user, definition, database, justification, Pending, None, None, None, None)];
      o := Done;
      if def.autoApprove {
        o := ApproveGrantRequestTx(uid, None, user, grant, now);
      }
    }

    method ApproveGrantRequest(uid: Uid, grant: Uid, decider: Uid, now: int) returns (o: Outcome)
      requires grant !in grants
      modifies this`requests, this`grants
      ensures (Snapshot(), o) == Handle(old(Snapshot()), Approve(uid, grant, decider, now))
    {
      if uid in requests && requests[uid].definition in definitions {
        var owned := ListUserGroupUIDs(requests[uid].user);
        if !AppliesTo(definitions[requests[uid].definition], owned, requests[uid].database) {
          return Rejected(OutOfScope);
        }
      }
      o := ApproveGrantRequestTx(uid, Some(decider), decider, grant, now);
    }

    /** Memberships cascade away; definition scopes keep the dangling uid. */
    method DeleteUserGroup(uid: Uid) returns (o: Outcome)
      modifies this`groups, this`members
      ensures (Snapshot(), o) == Handle(old(Snapshot()), DeleteGroup(uid))
    {
      if uid !in groups {
        return Rejected(NoGroup);
      }
      groups := groups - {uid};
      members := set m | m in members && m.0 != uid;
      return Done;
    }

    /** Clear, then insert one by one; a missing group rolls the transaction back. */
    method SetGroupMembers(group: Uid, users: seq<Uid>) returns (o: Outcome)
      modifies this`members
      ensures (Snapshot(), o) == Handle(old(Snapshot()), Event.SetGroupMembers(group, users))
    {
      var rows := set m | m in members && m.0 != group;
      ghost var rest := rows;
      for i := 0 to |users|
        invariant members == old(members) && (i > 0 ==> group in groups)
        invariant rows == rest + set u | u in users[..i] :: (group, u)
      {
        if group !in groups {
          return Rejected(NoGroup);
        }
        rows := rows + {(group, users[i])};
        assert users[..i + 1] == users[..i] + [users[i]];
      }
      assert users[..|users|] == users;
      members := rows;
      return Done;
    }

    method SetUserGroups(user: Uid, groupList: seq<Uid>) returns (o: Outcome)
      modifies this`members
      ensures (Snapshot(), o) == Handle(old(Snapshot()), Event.SetUserGroups(user, groupList))
    {
      var rows := set m | m in members && m.1 != user;
      ghost var rest := rows;
      for i := 0 to |groupList|
        invariant members == old(members) && forall g :: g in groupList[..i] ==> g in groups
        invariant rows == rest + set g | g in groupList[..i] :: (g, user)
      {
        if groupList[i] !in groups {
          return Rejected(NoGroup);
        }
        rows := rows + {(groupList[i], user)};
        assert groupList[..i + 1] == groupList[..i] + [groupList[i]];
      }
      assert groupList[..|groupList|] == groupList;
      members := rows;
      return Done;
    }

    method RevokeGrant(grant: Uid, actor: Uid, now: int) returns (o: Outcome)
      modifies this`grants
      ensures (Snapshot(), o) == Handle(old(Snapshot()), Revoke(grant, actor, now))
    {
      if grant !in grants || grants[grant].revokedAt.Some? {
        return Rejected(AlreadyRevoked);
      }
      grants := grants[grant := grants[grant].(revokedAt := Some(now), revokedBy := Some(actor))];
      return Done;
    }
  }
}
