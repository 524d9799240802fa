/** The caches in front of the session query: what a fast-path hit says about the database.

    An authentication runs in stretches between awaits, and other requests, database writes and invalidations run in
    between; every event sequence is a run. Times are milliseconds, and process and database read the same clock. */
module SessionCache {
  import opened Wrappers

  const MAX_SESSION_CACHE_SIZE := 2000
  const MAX_ROLE_CACHE_SIZE := 50
  const FAST_PATH_TTL_MS := 3000
  const ROLE_TTL_MS := 5 * 60 * 1000
  const EVICTION_BATCH := 200

  /** SESSION_TTL_HOURS in milliseconds; any value will do. */
  datatype Settings = Settings(sessionTtl: nat)

  datatype Session = Session(user: nat, expiresAt: nat, revoked: bool)

  datatype Account = Account(active: bool, deleted: bool, role: nat)

  /** The tables the two queries read; grants are the permissions of each role. */
  datatype Db = Db(sessions: map<nat, Session>, accounts: map<nat, Account>, grants: map<nat, set<nat>>)

  datatype AuthUser = AuthUser(id: nat, role: nat, permissions: set<nat>)

  datatype CachedSession = CachedSession(hash: nat, authUser: AuthUser, expiresAt: nat)

  datatype CachedRole = CachedRole(permissions: set<nat>, expiresAt: nat)

  /** The session query's condition */
  predicate Live(db: Db, hash: nat, now: nat) {
    && hash in db.sessions && !db.sessions[hash].revoked && db.sessions[hash].expiresAt > now
    && db.sessions[hash].user in db.accounts
    && db.accounts[db.sessions[hash].user].active && !db.accounts[db.sessions[hash].user].deleted
  }

  function Granted(db: Db, role: nat): set<nat> {
    if role in db.grants then db.grants[role] else {}
  }

  // ---- The session cache: a Map in insertion order ----

  function Find(cache: seq<CachedSession>, hash: nat): (k: nat)
    ensures k <= |cache|
    ensures k < |cache| ==> cache[k].hash == hash
    ensures forall j :: 0 <= j < k ==> cache[j].hash != hash
  {
    if cache == [] || cache[0].hash == hash then 0 else 1 + Find(cache[1..], hash)
  }

  function Drop(cache: seq<CachedSession>, hash: nat): (r: seq<CachedSession>)
    ensures |r| <= |cache|
    ensures forall e :: e in r <==> e in cache && e.hash != hash
  {
    if cache == [] then []
    else if cache[0].hash == hash then Drop(cache[1..], hash)
    else [cache[0]] + Drop(cache[1..], hash)
  }

  function DropUser(cache: seq<CachedSession>, user: nat): (r: seq<CachedSession>)
    ensures |r| <= |cache|
    ensures forall e :: e in r <==> e in cache && e.authUser.id != user
  {
    if cache == [] then []
    else if cache[0].authUser.id == user then DropUser(cache[1..], user)
    else [cache[0]] + DropUser(cache[1..], user)
  }

  /** What remains when expired entries and, up to a batch's worth of deletions, the oldest entries are deleted */
  function Pruned(cache: seq<CachedSession>, now: nat, deleted: nat): (r: seq<CachedSession>)
    ensures |r| <= |cache| && (deleted < EVICTION_BATCH && cache != [] ==> |r| < |cache|)
    ensures forall e :: e in r ==> e in cache
  {
    if cache == [] then []
    else if cache[0].expiresAt <= now || deleted < EVICTION_BATCH then Pruned(cache[1..], now, deleted + 1)
    else [cache[0]] + Pruned(cache[1..], now, deleted)
  }

  function Put(cache: seq<CachedSession>, e: CachedSession): (r: seq<CachedSession>)
    ensures |r| <= |cache| + 1
    ensures forall f :: f in r ==> f == e || f in cache
  {
    var k := Find(cache, e.hash);
    if k < |cache| then cache[k := e] else cache + [e]
  }

  function Insert(cache: seq<CachedSession>, e: CachedSession, now: nat): (r: seq<CachedSession>)
    ensures |cache| <= MAX_SESSION_CACHE_SIZE ==> |r| <= MAX_SESSION_CACHE_SIZE
    ensures forall f :: f in r ==> f == e || f in cache
  {
    Put(if |cache| >= MAX_SESSION_CACHE_SIZE then Pruned(cache, now, 0) else cache, e)
  }

  function InsertRole(cache: map<nat, CachedRole>, role: nat, e: CachedRole): (r: map<nat, CachedRole>)
    ensures |cache| <= MAX_ROLE_CACHE_SIZE ==> |r| <= MAX_ROLE_CACHE_SIZE
    ensures forall k :: k in r ==> (k == role && r[k] == e) || (k in cache && r[k] == cache[k])
  {
    var room := if |cache| >= MAX_ROLE_CACHE_SIZE then map[] else cache;
    assert room[role := e].Keys == room.Keys + {role};
    room[role := e]
  }

  /** The map itself, updated in place as the middleware does */
  class FastPathCache {
    var entries: seq<CachedSession>

    constructor ()
      ensures entries == []
    {
      entries := [];
    }

    method Invalidate(hash: Option<nat>)
      modifies this
      ensures entries == if hash.Some? then Drop(old(entries), hash.value) else []
    {
      entries := if hash.Some? then Drop(entries, hash.value) else [];
    }

    /** invalidateUserSessionCache */
    method InvalidateUser(user: nat)
      modifies this
      ensures entries == DropUser(old(entries), user)
    {
      var kept := [];
      for k := 0 to |entries|
        invariant entries == old(entries)
        invariant kept + DropUser(entries[k..], user) == DropUser(entries, user)
      {
        if entries[k].authUser.id != user {
          kept := kept + [entries[k]];
        }
      }
      entries := kept;
    }

    /** Makes room when the cache is full, in two passes as the middleware does, and stores the entry. */
    method Store(e: CachedSession, now: nat)
      modifies this
      ensures entries == Insert(old(entries), e, now)
    {
      if |entries| >= MAX_SESSION_CACHE_SIZE {
        var kept, deleted := [], 0;
        for k := 0 to |entries|
          invariant entries == old(entries)
          invariant kept + Pruned(entries[k..], now, deleted) == Pruned(entries, now, 0)
        {
          assert entries[k..][1..] == entries[k + 1..];
          if entries[k].expiresAt <= now || deleted < EVICTION_BATCH {
            deleted := deleted + 1;
          } else {
            kept := kept + [entries[k]];
          }
        }
        assert Pruned(entries[|entries|..], now, deleted) == [] && kept + [] == kept;
        entries := kept;
      }
      entries := Put(entries, e);
    }
  }

  // ---- Authentications in flight ----

  datatype Row = Row(user: nat, role: nat, expiresAt: nat)

  /** Waiting for the session query; holding its answer; waiting for the role query; holding its answer; about to
      cache */
  datatype Stage =
    | AwaitingSession
    | SessionAnswered(answer: Option<Row>)
    | AwaitingRole(row: Row, roleAskedAt: nat)
    | RoleAnswered(row: Row, roleAskedAt: nat, permissions: set<nat>)
    | Authorized(row: Row, permissions: set<nat>)

  datatype Authentication = Authentication(hash: nat, startedAt: nat, stage: Stage)

  datatype Instant = Instant(db: Db, now: nat)

  /** instants records every state of the database with its time; the program does not keep it. */
  datatype State = State(
    settings: Settings,
    db: Db,
    now: nat,
    sessions: seq<CachedSession>,
    roles: map<nat, CachedRole>,
    inFlight: map<nat, Authentication>,
    instants: seq<Instant>)

  datatype Event =
    | Tick(ms: nat)
    | Authenticate(id: nat, hash: nat)
    | QuerySession(id: nat)
    | ReceiveSession(id: nat)
    | QueryRole(id: nat)
    | ReceiveRole(id: nat)
    | CacheSession(id: nat)
    | InvalidateSession(target: Option<nat>)
    | InvalidateUser(user: nat)
    | InvalidateRoles(roleCode: Option<nat>)
    | Login(newHash: nat, loginUser: nat)
    | Refresh(session: nat)
    | RevokeSession(session: nat)
    | RevokeUser(user: nat)
    | SetAccount(user: nat, account: Account)
    | SetGrants(grantRole: nat, permissions: set<nat>)

  /** authenticate finds a cached session that has not expired, and answers with it. */
  predicate FastPathHit(s: State, hash: nat) {
    var k := Find(s.sessions, hash);
    k < |s.sessions| && s.sessions[k].expiresAt > s.now
  }

  function Proceed(s: State, id: nat, stage: Stage): State
    requires id in s.inFlight
  {
    s.(inFlight := s.inFlight[id := s.inFlight[id].(stage := stage)])
  }

  function Reject(s: State, id: nat): State
    requires id in s.inFlight
  {
    s.(inFlight := s.inFlight - {id}, sessions := Drop(s.sessions, s.inFlight[id].hash))
  }

  function Min(a: nat, b: nat): nat {
    if a < b then a else b
  }

  function RevokedFor(sessions: map<nat, Session>, user: nat): map<nat, Session> {
    map h | h in sessions :: if sessions[h].user == user then sessions[h].(revoked := true) else sessions[h]
  }

  /** The stretches of an authentication */
  function AuthStep(s: State, e: Event): State
    requires e.QuerySession? || e.ReceiveSession? || e.QueryRole? || e.ReceiveRole? || e.CacheSession?
    requires e.id in s.inFlight
  {
    var a := s.inFlight[e.id];
    match e
    case QuerySession(id) =>
      if !a.stage.AwaitingSession? then s
      else Proceed(s, id, SessionAnswered(
                     if Live(s.db, a.hash, s.now) then
                       var user := s.db.sessions[a.hash].user;
                       Some(Row(user, s.db.accounts[user].role, s.db.sessions[a.hash].expiresAt))
                     else None))
    case ReceiveSession(id) =>
      if !a.stage.SessionAnswered? then s
      else if a.stage.answer.None? || a.stage.answer.value.expiresAt <= a.startedAt then Reject(s, id)
      else
        var row := a.stage.answer.value;
        if row.role in s.roles && s.roles[row.role].expiresAt > s.now
        then Proceed(s, id, Authorized(row, s.roles[row.role].permissions))
        else Proceed(s, id, AwaitingRole(row, s.now))
    case QueryRole(id) =>
      if !a.stage.AwaitingRole? then s
      else Proceed(s, id, RoleAnswered(a.stage.row, a.stage.roleAskedAt, Granted(s.db, a.stage.row.role)))
    case ReceiveRole(id) =>
      if !a.stage.RoleAnswered? then s
      else
        Proceed(s, id, Authorized(a.stage.row, a.stage.permissions)).(
        roles := InsertRole(s.roles, a.stage.row.role,
            CachedRole(a.stage.permissions, a.stage.roleAskedAt + ROLE_TTL_MS)))
    case CacheSession(id) =>
      if !a.stage.Authorized? then s
      else
        var row := a.stage.row;
        var entry := CachedSession(a.hash, AuthUser(row.user, row.role, a.stage.permissions),
                                   Min(a.startedAt + FAST_PATH_TTL_MS, row.expiresAt));
        s.(inFlight := s.inFlight - {id}, sessions := Insert(s.sessions, entry, a.startedAt))
  }

  /** Everything else: the clock, the start of an authentication, invalidations and database writes */
  function OtherStep(s: State, e: Event): State
    requires !(e.QuerySession? || e.ReceiveSession? || e.QueryRole? || e.ReceiveRole? || e.CacheSession?)
  {
    match e
    case Tick(ms) => s.(now := s.now + ms)
    case Authenticate(id, hash) =>
      if id in s.inFlight || FastPathHit(s, hash) then s
      else s.(sessions := Drop(s.sessions, hash),
              inFlight := s.inFlight[id := Authentication(hash, s.now, AwaitingSession)])
    case InvalidateSession(target) =>
      s.(sessions := if target.Some? then Drop(s.sessions, target.value) else [])
    case InvalidateUser(user) => s.(sessions := DropUser(s.sessions, user))
    case InvalidateRoles(roleCode) => s.(roles := if roleCode.Some? then s.roles - {roleCode.value} else map[])
    case Login(hash, user) =>
      if hash in s.db.sessions then s
      else s.(db := s.db.(sessions := s.db.sessions[hash := Session(user, s.now + s.settings.sessionTtl, false)]))
    case Refresh(hash) =>
      if hash !in s.db.sessions || s.db.sessions[hash].revoked then s
      else
        var refreshed := s.db.sessions[hash].(expiresAt := s.now + s.settings.sessionTtl);
        s.(db := s.db.(sessions := s.db.sessions[hash := refreshed]))
    case RevokeSession(hash) =>
      if hash !in s.db.sessions then s
      else s.(db := s.db.(sessions := s.db.sessions[hash := s.db.sessions[hash].(revoked := true)]))
    case RevokeUser(user) => s.(db := s.db.(sessions := RevokedFor(s.db.sessions, user)))
    case SetAccount(user, account) => s.(db := s.db.(accounts := s.db.accounts[user := account]))
    case SetGrants(role, permissions) => s.(db := s.db.(grants := s.db.grants[role := permissions]))
  }

  predicate InAuthentication(e: Event) {
    e.QuerySession? || e.ReceiveSession? || e.QueryRole? || e.ReceiveRole? || e.CacheSession?
  }

  function Effect(s: State, e: Event): State {
    if InAuthentication(e) then if e.id in s.inFlight then AuthStep(s, e) else s else OtherStep(s, e)
  }

  function Step(s: State, e: Event): State {
    var s' := Effect(s, e);
    s'.(instants := s.instants + [Instant(s'.db, s'.now)])
  }

  function Run(s: State, events: seq<Event>): State
    decreases |events|
  {
    if events == [] then s else Run(Step(s, events[0]), events[1..])
  }

  /** A process that has just started, over a database whose sessions do not outlast their lifetime */
  ghost predicate Initial(s: State) {
    && s.sessions == [] && s.roles == map[] && s.inFlight == map[] && s.instants == [Instant(s.db, s.now)]
    && forall h :: h in s.db.sessions ==> s.db.sessions[h].expiresAt <= s.now + s.settings.sessionTtl
  }

  // ---- The invariant ----

  /** At this instant the query would have returned this user and role for the session. */
  ghost predicate Answered(i: Instant, hash: nat, user: nat, role: nat) {
    Live(i.db, hash, i.now) && i.db.sessions[hash].user == user && i.db.accounts[user].role == role
  }

  ghost predicate SessionWitness(instants: seq<Instant>, hash: nat, user: nat, role: nat, notBefore: int) {
    exists i :: i in instants && i.now >= notBefore && Answered(i, hash, user, role)
  }

  /** The role had exactly these permissions at an instant after the given time. */
  ghost predicate GrantWitness(instants: seq<Instant>, role: nat, permissions: set<nat>, after: int) {
    exists i :: i in instants && i.now > after && Granted(i.db, role) == permissions
  }

  ghost predicate EntryOk(s: State, e: CachedSession) {
    && SessionWitness(s.instants, e.hash, e.authUser.id, e.authUser.role, e.expiresAt - FAST_PATH_TTL_MS)
    && GrantWitness(s.instants, e.authUser.role, e.authUser.permissions, e.expiresAt - FAST_PATH_TTL_MS - ROLE_TTL_MS)
    && e.hash in s.db.sessions && e.expiresAt <= s.db.sessions[e.hash].expiresAt
  }

  ghost predicate RoleOk(s: State, role: nat, e: CachedRole) {
    GrantWitness(s.instants, role, e.permissions, e.expiresAt - ROLE_TTL_MS - 1)
  }

  ghost predicate RowOk(s: State, a: Authentication, row: Row) {
    && SessionWitness(s.instants, a.hash, row.user, row.role, a.startedAt)
    && a.hash in s.db.sessions && row.expiresAt <= s.db.sessions[a.hash].expiresAt
  }

  ghost predicate StageOk(s: State, a: Authentication) {
    && a.startedAt <= s.now
    && match a.stage
       case AwaitingSession => true
       case SessionAnswered(row) => row.Some? ==> RowOk(s, a, row.value)
       case AwaitingRole(row, asked) => RowOk(s, a, row) && a.startedAt <= asked <= s.now
       case RoleAnswered(row, asked, permissions) =>
         RowOk(s, a, row) && a.startedAt <= asked && GrantWitness(s.instants, row.role, permissions, asked - 1)
       case Authorized(row, permissions) =>
         RowOk(s, a, row) && GrantWitness(s.instants, row.role, permissions, a.startedAt - ROLE_TTL_MS)
  }

  ghost predicate Inv(s: State) {
    && s.instants != [] && s.instants[|s.instants| - 1] == Instant(s.db, s.now)
    && (forall i :: i in s.instants ==> i.now <= s.now)
    && (forall h :: h in s.db.sessions ==> s.db.sessions[h].expiresAt <= s.now + s.settings.sessionTtl)
    && |s.sessions| <= MAX_SESSION_CACHE_SIZE && |s.roles| <= MAX_ROLE_CACHE_SIZE
    && (forall e :: e in s.sessions ==> EntryOk(s, e))
    && (forall r :: r in s.roles ==> RoleOk(s, r, s.roles[r]))
    && (forall id :: id in s.inFlight ==> StageOk(s, s.inFlight[id]))
  }

  /** Time goes on, instants are only added, and no session is dropped or shortened. */
  ghost predicate Extends(s: State, t: State) {
    && s.now <= t.now && s.settings == t.settings
    && (forall i :: i in s.instants ==> i in t.instants)
    && (forall h :: h in s.db.sessions ==>
            h in t.db.sessions && s.db.sessions[h].expiresAt <= t.db.sessions[h].expiresAt)
  }

  lemma EntryStays(s: State, t: State, e: CachedSession)
    requires Extends(s, t) && EntryOk(s, e)
    ensures EntryOk(t, e)
  {
  }

  lemma RoleStays(s: State, t: State, role: nat, e: CachedRole)
    requires Extends(s, t) && RoleOk(s, role, e)
    ensures RoleOk(t, role, e)
  {
  }

  lemma StageStays(s: State, t: State, a: Authentication)
    requires Extends(s, t) && StageOk(s, a)
    ensures StageOk(t, a)
  {
  }

  lemma StepExtends(s: State, e: Event)
    requires Inv(s)
    ensures Extends(s, Step(s, e))
    ensures forall h :: h in Step(s, e).db.sessions ==>
              Step(s, e).db.sessions[h].expiresAt <= Step(s, e).now + s.settings.sessionTtl
  {
    if InAuthentication(e) {
      AuthenticationLeavesDb(s, e);
    } else {
      OtherStepExtends(s, e);
    }
    assert Step(s, e).instants == s.instants + [Instant(Step(s, e).db, Step(s, e).now)];
  }

  lemma AuthenticationLeavesDb(s: State, e: Event)
    requires InAuthentication(e)
    ensures Effect(s, e).db == s.db && Effect(s, e).now == s.now && Effect(s, e).settings == s.settings
  {
  }

  lemma OtherStepExtends(s: State, e: Event)
    requires !InAuthentication(e)
    requires forall h :: h in s.db.sessions ==> s.db.sessions[h].expiresAt <= s.now + s.settings.sessionTtl
    ensures var t := OtherStep(s, e);
            && s.now <= t.now && t.settings == s.settings
            && (forall h :: h in s.db.sessions ==>
                    h in t.db.sessions && s.db.sessions[h].expiresAt <= t.db.sessions[h].expiresAt)
            && (forall h :: h in t.db.sessions ==> t.db.sessions[h].expiresAt <= t.now + s.settings.sessionTtl)
  {
  }

  /** What each stretch establishes for the one thing it adds */
  lemma AuthStepOk(s: State, e: Event)
    requires Inv(s) && InAuthentication(e) && e.id in s.inFlight
    ensures var s' := Step(s, e);
            && (e.id in s'.inFlight ==> StageOk(s', s'.inFlight[e.id]))
            && (forall c :: c in s'.sessions ==> c in s.sessions || EntryOk(s', c))
            && (forall r :: r in s'.roles ==> (r in s.roles && s'.roles[r] == s.roles[r]) || RoleOk(s', r, s'.roles[r]))
  {
    StageStepOk(s, e);
    match e
    case QuerySession(id) =>
    case ReceiveSession(id) =>
    case QueryRole(id) =>
    case ReceiveRole(id) => ReceiveRoleOk(s, id);
    case CacheSession(id) => CacheSessionOk(s, id);
  }

  lemma ReceiveRoleOk(s: State, id: nat)
    requires Inv(s) && id in s.inFlight
    ensures var s' := Step(s, ReceiveRole(id));
            && s'.sessions == s.sessions
            && (forall r :: r in s'.roles ==> (r in s.roles && s'.roles[r] == s.roles[r]) || RoleOk(s', r, s'.roles[r]))
  {
    StepExtends(s, ReceiveRole(id));
    StageStays(s, Step(s, ReceiveRole(id)), s.inFlight[id]);
  }

  lemma CacheSessionOk(s: State, id: nat)
    requires Inv(s) && id in s.inFlight
    ensures var s' := Step(s, CacheSession(id));
            s'.roles == s.roles && (forall c :: c in s'.sessions ==> c in s.sessions || EntryOk(s', c))
  {
    StepExtends(s, CacheSession(id));
    StageStays(s, Step(s, CacheSession(id)), s.inFlight[id]);
  }

  lemma StageStepOk(s: State, e: Event)
    requires Inv(s) && InAuthentication(e) && e.id in s.inFlight
    ensures var s' := Step(s, e); e.id in s'.inFlight ==> StageOk(s', s'.inFlight[e.id])
  {
    StepExtends(s, e);
    var a, s' := s.inFlight[e.id], Step(s, e);
    StageStays(s, s', a);
    var here := Instant(s'.db, s'.now);
    assert here in s'.instants;
    match e
    case QuerySession(id) =>
      if a.stage.AwaitingSession? && Live(s.db, a.hash, s.now) {
        var row := s'.inFlight[id].stage.answer.value;
        assert Answered(here, a.hash, row.user, row.role);
      }
    case ReceiveSession(id) =>
      if id in s'.inFlight && s'.inFlight[id].stage.Authorized? && a.stage.SessionAnswered? {
        RoleStays(s, s', a.stage.answer.value.role, s.roles[a.stage.answer.value.role]);
      }
    case QueryRole(id) =>
    case ReceiveRole(id) =>
    case CacheSession(id) =>
  }

  lemma OtherStepOk(s: State, e: Event)
    requires !(InAuthentication(e) && e.id in s.inFlight)
    ensures var s' := Step(s, e);
            && (forall c :: c in s'.sessions ==> c in s.sessions)
            && (forall r :: r in s'.roles ==> r in s.roles && s'.roles[r] == s.roles[r])
            && (forall id :: id in s'.inFlight ==>
                               (id in s.inFlight && s'.inFlight[id] == s.inFlight[id]) || StageOk(s', s'.inFlight[id]))
  {
  }

  lemma OthersKept(s: State, e: Event)
    requires InAuthentication(e) && e.id in s.inFlight
    ensures forall id :: id in Step(s, e).inFlight && id != e.id ==>
              id in s.inFlight && Step(s, e).inFlight[id] == s.inFlight[id]
  {
  }

  lemma BoundsKept(s: State, e: Event)
    requires |s.sessions| <= MAX_SESSION_CACHE_SIZE && |s.roles| <= MAX_ROLE_CACHE_SIZE
    ensures |Step(s, e).sessions| <= MAX_SESSION_CACHE_SIZE && |Step(s, e).roles| <= MAX_ROLE_CACHE_SIZE
  {
    if InAuthentication(e) {
      AuthenticationKeepsBounds(s, e);
    } else if e.InvalidateRoles? && e.roleCode.Some? {
      SubsetSize((s.roles - {e.roleCode.value}).Keys, s.roles.Keys);
    }
  }

  lemma AuthenticationKeepsBounds(s: State, e: Event)
    requires InAuthentication(e)
    requires |s.sessions| <= MAX_SESSION_CACHE_SIZE && |s.roles| <= MAX_ROLE_CACHE_SIZE
    ensures |Effect(s, e).sessions| <= MAX_SESSION_CACHE_SIZE && |Effect(s, e).roles| <= MAX_ROLE_CACHE_SIZE
  {
  }

  lemma SubsetSize(a: set<nat>, b: set<nat>)
    requires a <= b
    ensures |a| <= |b|
  {
    assert b == a + (b - a);
  }

  lemma StepKeepsInv(s: State, e: Event)
    requires Inv(s)
    ensures Inv(Step(s, e))
  {
    var s' := Step(s, e);
    StepExtends(s, e);
    BoundsKept(s, e);
    if InAuthentication(e) && e.id in s.inFlight {
      AuthStepOk(s, e);
      OthersKept(s, e);
    } else {
      OtherStepOk(s, e);
    }
    InvFromParts(s, s');
    assert forall i :: i in s'.instants ==> i in s.instants || i == Instant(s'.db, s'.now);
  }

  lemma InvFromParts(s: State, s': State)
    requires Inv(s) && Extends(s, s')
    requires forall c :: c in s'.sessions ==> c in s.sessions || EntryOk(s', c)
    requires forall r :: r in s'.roles ==> (r in s.roles && s'.roles[r] == s.roles[r]) || RoleOk(s', r, s'.roles[r])
    requires forall id :: id in s'.inFlight ==>
                            (id in s.inFlight && s'.inFlight[id] == s.inFlight[id]) || StageOk(s', s'.inFlight[id])
    ensures forall e :: e in s'.sessions ==> EntryOk(s', e)
    ensures forall r :: r in s'.roles ==> RoleOk(s', r, s'.roles[r])
    ensures forall id :: id in s'.inFlight ==> StageOk(s', s'.inFlight[id])
  {
    forall c | c in s'.sessions ensures EntryOk(s', c) {
      if c in s.sessions {
        EntryStays(s, s', c);
      }
    }
    forall r | r in s'.roles ensures RoleOk(s', r, s'.roles[r]) {
      if r in s.roles && s'.roles[r] == s.roles[r] {
        RoleStays(s, s', r, s.roles[r]);
      }
    }
    forall id | id in s'.inFlight ensures StageOk(s', s'.inFlight[id]) {
      if id in s.inFlight && s'.inFlight[id] == s.inFlight[id] {
        StageStays(s, s', s.inFlight[id]);
      }
    }
  }

  lemma {:induction false} RunKeepsInv(s: State, events: seq<Event>)
    requires Inv(s)
    ensures Inv(Run(s, events))
    decreases |events|
  {
    if events != [] {
      StepKeepsInv(s, events[0]);
      RunKeepsInv(Step(s, events[0]), events[1..]);
    }
  }

  // ---- What a hit says ----

  /** The run's state after its first k events, as the database shows it */
  function StateAfter(s0: State, events: seq<Event>, k: nat): Instant
    requires k <= |events|
  {
    var s := Run(s0, events[..k]);
    Instant(s.db, s.now)
  }

  lemma {:induction false} RunSnoc(s: State, events: seq<Event>, e: Event)
    ensures Run(s, events + [e]) == Step(Run(s, events), e)
    decreases |events|
  {
    if events == [] {
      assert [e][1..] == [];
    } else {
      assert (events + [e])[1..] == events[1..] + [e];
      RunSnoc(Step(s, events[0]), events[1..], e);
    }
  }

  /** The recorded instants are the states that the run went through. */
  lemma {:induction false} InstantsAreStates(s0: State, events: seq<Event>, i: Instant) returns (k: nat)
    requires Initial(s0) && i in Run(s0, events).instants
    ensures k <= |events| && StateAfter(s0, events, k) == i
    decreases |events|
  {
    var n := |events|;
    if n == 0 {
      k := 0;
    } else {
      var before := events[..n - 1];
      assert events == before + [events[n - 1]];
      RunSnoc(s0, before, events[n - 1]);
      if i in Run(s0, before).instants {
        k := InstantsAreStates(s0, before, i);
        assert events[..k] == before[..k];
      } else {
        k := n;
        assert events[..n] == events;
      }
    }
  }

  /** In every run, a fast-path hit serves a session that was live in the database, for the user and with the role it
      serves, less than three seconds earlier; that has not expired by now according to the database; and with the
      permissions that the role had less than 303 seconds earlier. */
  lemma HitIsRecent(s0: State, events: seq<Event>, hash: nat)
    requires Initial(s0)
    requires FastPathHit(Run(s0, events), hash)
    ensures var s := Run(s0, events);
            var user := s.sessions[Find(s.sessions, hash)].authUser;
            && (exists k: nat :: k <= |events| && s.now - 3000 < StateAfter(s0, events, k).now <= s.now
                                 && Answered(StateAfter(s0, events, k), hash, user.id, user.role))
            && hash in s.db.sessions && s.now < s.db.sessions[hash].expiresAt
            && (exists k: nat :: k <= |events| && s.now - 303000 < StateAfter(s0, events, k).now <= s.now
                                 && Granted(StateAfter(s0, events, k).db, user.role) == user.permissions)
  {
    RunKeepsInv(s0, events);
    var s := Run(s0, events);
    var e := s.sessions[Find(s.sessions, hash)];
    assert EntryOk(s, e);
    var k := WasLive(s0, events, e);
    var l := WereGranted(s0, events, e);
  }

  lemma WasLive(s0: State, events: seq<Event>, e: CachedSession) returns (k: nat)
    requires Initial(s0) && EntryOk(Run(s0, events), e)
    requires forall i :: i in Run(s0, events).instants ==> i.now <= Run(s0, events).now
    ensures k <= |events|
    ensures var i := StateAfter(s0, events, k);
            e.expiresAt - FAST_PATH_TTL_MS <= i.now <= Run(s0, events).now
                && Answered(i, e.hash, e.authUser.id, e.authUser.role)
  {
    var instants := Run(s0, events).instants;
    var i :| i in instants && i.now >= e.expiresAt - FAST_PATH_TTL_MS
        && Answered(i, e.hash, e.authUser.id, e.authUser.role);
    k := InstantsAreStates(s0, events, i);
  }

  lemma WereGranted(s0: State, events: seq<Event>, e: CachedSession) returns (k: nat)
    requires Initial(s0) && EntryOk(Run(s0, events), e)
    requires forall i :: i in Run(s0, events).instants ==> i.now <= Run(s0, events).now
    ensures k <= |events|
    ensures var i := StateAfter(s0, events, k);
            && e.expiresAt - FAST_PATH_TTL_MS - ROLE_TTL_MS < i.now <= Run(s0, events).now
            && Granted(i.db, e.authUser.role) == e.authUser.permissions
  {
    var instants := Run(s0, events).instants;
    var i :| i in instants && i.now > e.expiresAt - FAST_PATH_TTL_MS - ROLE_TTL_MS
             && Granted(i.db, e.authUser.role) == e.authUser.permissions;
    k := InstantsAreStates(s0, events, i);
  }

  /** The caches stay within their sizes. */
  lemma CachesStayBounded(s0: State, events: seq<Event>)
    requires Initial(s0)
    ensures |Run(s0, events).sessions| <= 2000 && |Run(s0, events).roles| <= 50
  {
    RunKeepsInv(s0, events);
  }
}
