/** What logging out and revoking sessions do to the fast path: when a session that was ended can still be served, and
    that others are not touched. */
module SessionEnd {
  import opened Wrappers
  import opened SessionCache

  /** The row an authentication carries once its session query has found one */
  function RowOf(stage: Stage): Option<Row> {
    match stage
    case AwaitingSession => None
    case SessionAnswered(answer) => answer
    case AwaitingRole(row, _) => Some(row)
    case RoleAnswered(row, _, _) => Some(row)
    case Authorized(row, _) => Some(row)
  }

  function Revoked(db: Db, hash: nat): bool {
    hash in db.sessions && db.sessions[hash].revoked
  }

  ghost predicate NotCached(s: State, hash: nat) {
    forall e :: e in s.sessions && e.hash == hash ==> e.expiresAt <= s.now
  }

  /** An authentication of the session that would put an entry in the cache which is not yet over */
  predicate Late(s: State, a: Authentication, hash: nat) {
    && a.hash == hash && RowOf(a.stage).Some?
    && a.startedAt + 3000 > s.now && RowOf(a.stage).value.expiresAt > s.now
  }

  ghost predicate SomeLate(s: State, hash: nat) {
    exists id :: id in s.inFlight && Late(s, s.inFlight[id], hash)
  }

  /** Nothing in the cache and nothing on its way there */
  ghost predicate Ended(s: State, hash: nat) {
    Revoked(s.db, hash) && NotCached(s, hash) && !SomeLate(s, hash)
  }

  lemma AuthStepKeepsEnded(s: State, e: Event, hash: nat)
    requires Ended(s, hash) && InAuthentication(e) && e.id in s.inFlight
    ensures Ended(Step(s, e), hash)
  {
    assert !Late(s, s.inFlight[e.id], hash);
    var s' := Step(s, e);
    assert s'.now == s.now && s'.db == s.db;
    forall id | id in s'.inFlight ensures !Late(s', s'.inFlight[id], hash) {
      assert id != e.id ==> id in s.inFlight && s'.inFlight[id] == s.inFlight[id] && !Late(s, s.inFlight[id], hash);
    }
  }

  lemma OtherStepKeepsEnded(s: State, e: Event, hash: nat)
    requires Ended(s, hash) && !InAuthentication(e)
    ensures Ended(Step(s, e), hash)
  {
  }

  lemma {:induction false} EndedStays(s: State, events: seq<Event>, hash: nat)
    requires Ended(s, hash)
    ensures Ended(Run(s, events), hash) && !FastPathHit(Run(s, events), hash)
    decreases |events|
  {
    if events == [] {
      var k := Find(s.sessions, hash);
      assert k < |s.sessions| ==> s.sessions[k] in s.sessions;
    } else {
      if InAuthentication(events[0]) && events[0].id in s.inFlight {
        AuthStepKeepsEnded(s, events[0], hash);
      } else if !InAuthentication(events[0]) {
        OtherStepKeepsEnded(s, events[0], hash);
      }
      EndedStays(Step(s, events[0]), events[1..], hash);
    }
  }

  // ---- An authentication on its way arrives ----

  lemma FindPut(cache: seq<CachedSession>, e: CachedSession)
    ensures var k := Find(Put(cache, e), e.hash); k < |Put(cache, e)| && Put(cache, e)[k] == e
  {
    var i := Find(cache, e.hash);
    var after := Put(cache, e);
    assert forall j :: 0 <= j < i ==> after[j] == cache[j];
    assert after[i] == e;
    assert Find(after, e.hash) <= i;
  }

  lemma CachingHits(s: State, id: nat, hash: nat)
    requires id in s.inFlight && Late(s, s.inFlight[id], hash) && s.inFlight[id].stage.Authorized?
    ensures FastPathHit(Step(s, CacheSession(id)), hash)
  {
    var a := s.inFlight[id];
    var row := a.stage.row;
    var e := CachedSession(a.hash, AuthUser(row.user, row.role, a.stage.permissions),
                           Min(a.startedAt + FAST_PATH_TTL_MS, row.expiresAt));
    FindPut(if |s.sessions| >= MAX_SESSION_CACHE_SIZE then Pruned(s.sessions, a.startedAt, 0) else s.sessions, e);
  }

  function Rank(stage: Stage): nat {
    match stage
    case AwaitingSession => 4
    case SessionAnswered(_) => 3
    case AwaitingRole(_, _) => 2
    case RoleAnswered(_, _, _) => 1
    case Authorized(_, _) => 0
  }

  function NextStretch(id: nat, stage: Stage): Event {
    match stage
    case AwaitingSession => QuerySession(id)
    case SessionAnswered(_) => ReceiveSession(id)
    case AwaitingRole(_, _) => QueryRole(id)
    case RoleAnswered(_, _, _) => ReceiveRole(id)
    case Authorized(_, _) => CacheSession(id)
  }

  lemma StretchAdvances(s: State, id: nat, hash: nat)
    requires id in s.inFlight && Late(s, s.inFlight[id], hash) && !s.inFlight[id].stage.Authorized?
    requires s.inFlight[id].startedAt <= s.now
    ensures var s' := Step(s, NextStretch(id, s.inFlight[id].stage));
            && s'.now == s.now && id in s'.inFlight && s'.inFlight[id].startedAt == s.inFlight[id].startedAt
            && Late(s', s'.inFlight[id], hash)
            && Rank(s'.inFlight[id].stage) < Rank(s.inFlight[id].stage)
  {
  }

  lemma {:induction false} LateArrives(s: State, id: nat, hash: nat) returns (events: seq<Event>)
    requires id in s.inFlight && Late(s, s.inFlight[id], hash) && s.inFlight[id].startedAt <= s.now
    ensures FastPathHit(Run(s, events), hash)
    decreases Rank(s.inFlight[id].stage)
  {
    var e := NextStretch(id, s.inFlight[id].stage);
    var rest: seq<Event> := [];
    if s.inFlight[id].stage.Authorized? {
      CachingHits(s, id, hash);
    } else {
      StretchAdvances(s, id, hash);
      rest := LateArrives(Step(s, e), id, hash);
    }
    events := [e] + rest;
    RunCons(s, e, rest);
  }

  lemma RunCons(s: State, e: Event, rest: seq<Event>)
    ensures Run(s, [e] + rest) == Run(Step(s, e), rest)
  {
    assert ([e] + rest)[1..] == rest;
  }

  // ---- Logging out and revoking ----

  ghost predicate EverServed(s: State, hash: nat) {
    exists events :: FastPathHit(Run(s, events), hash)
  }

  lemma SomeLateIsServed(s: State, hash: nat)
    requires Inv(s) && SomeLate(s, hash)
    ensures EverServed(s, hash)
  {
    var id :| id in s.inFlight && Late(s, s.inFlight[id], hash);
    assert StageOk(s, s.inFlight[id]);
    var events := LateArrives(s, id, hash);
  }

  lemma EndedIsNeverServed(s: State, hash: nat)
    requires Ended(s, hash)
    ensures !EverServed(s, hash)
  {
    forall events ensures !FastPathHit(Run(s, events), hash) {
      EndedStays(s, events, hash);
    }
  }

  /** Once a revoked session is out of the cache, it is ever served again if and only if an authentication that found it
      before the revocation is still on its way and not too old. */
  lemma ServedAgainIff(s: State, hash: nat)
    requires Inv(s) && Revoked(s.db, hash) && NotCached(s, hash)
    ensures SomeLate(s, hash) <==> EverServed(s, hash)
  {
    if SomeLate(s, hash) {
      SomeLateIsServed(s, hash);
    } else {
      EndedIsNeverServed(s, hash);
    }
  }

  function AfterLogout(s: State, hash: nat): State {
    Step(Step(s, InvalidateSession(Some(hash))), RevokeSession(hash))
  }

  /** Logout deletes the entry and revokes the session: the token is ever served again if and only if such an
      authentication is on its way; in particular never if none of the session is. */
  lemma LogoutIsFinalIff(s: State, hash: nat)
    requires Inv(s) && hash in s.db.sessions
    ensures var s' := AfterLogout(s, hash);
            && (SomeLate(s', hash) <==> EverServed(s', hash))
            && ((forall id :: id in s.inFlight ==> s.inFlight[id].hash != hash) ==> !EverServed(s', hash))
  {
    KeepsInvTwice(s, InvalidateSession(Some(hash)), RevokeSession(hash));
    LoggedOutIsGone(s, hash);
    ServedAgainIff(AfterLogout(s, hash), hash);
  }

  lemma LoggedOutIsGone(s: State, hash: nat)
    requires hash in s.db.sessions
    ensures var s' := AfterLogout(s, hash);
            && Revoked(s'.db, hash) && NotCached(s', hash)
            && (SomeLate(s', hash) <==> SomeLate(s, hash))
  {
    var s' := AfterLogout(s, hash);
    assert s'.inFlight == s.inFlight && s'.now == s.now;
  }

  /** The user of a session is the one that entries and authentications of it carry. */
  ghost predicate UsersMatch(s: State) {
    && (forall e :: e in s.sessions ==> e.hash in s.db.sessions && s.db.sessions[e.hash].user == e.authUser.id)
    && (forall id :: id in s.inFlight && RowOf(s.inFlight[id].stage).Some? ==>
          s.inFlight[id].hash in s.db.sessions
          && s.db.sessions[s.inFlight[id].hash].user == RowOf(s.inFlight[id].stage).value.user)
  }

  lemma AuthStepKeepsUsers(s: State, e: Event)
    requires UsersMatch(s) && InAuthentication(e) && e.id in s.inFlight
    ensures UsersMatch(Step(s, e))
  {
  }

  lemma OtherStepKeepsUsers(s: State, e: Event)
    requires UsersMatch(s) && !InAuthentication(e)
    ensures UsersMatch(Step(s, e))
  {
  }

  lemma {:induction false} RunKeepsUsers(s: State, events: seq<Event>)
    requires UsersMatch(s)
    ensures UsersMatch(Run(s, events))
    decreases |events|
  {
    if events != [] {
      if InAuthentication(events[0]) && events[0].id in s.inFlight {
        AuthStepKeepsUsers(s, events[0]);
      } else if !InAuthentication(events[0]) {
        OtherStepKeepsUsers(s, events[0]);
      }
      RunKeepsUsers(Step(s, events[0]), events[1..]);
    }
  }

  function AfterRevocation(s: State, user: nat): State {
    Step(Step(s, RevokeUser(user)), InvalidateUser(user))
  }

  /** A password change, an access change or a lock revokes all sessions of the user and deletes their entries: each of
      them is ever served again if and only if an authentication that found it earlier is on its way. */
  lemma RevocationIsFinalIff(s0: State, before: seq<Event>, user: nat, hash: nat)
    requires Initial(s0)
    requires var s := Run(s0, before); hash in s.db.sessions && s.db.sessions[hash].user == user
    ensures var s := Run(s0, before);
            var s' := AfterRevocation(s, user);
            && (SomeLate(s', hash) <==> EverServed(s', hash))
            && ((forall id :: id in s.inFlight ==> s.inFlight[id].hash != hash) ==> !EverServed(s', hash))
  {
    RunKeepsInv(s0, before);
    RunKeepsUsers(s0, before);
    RevokedUserIsGone(Run(s0, before), user, hash);
    KeepsInvTwice(Run(s0, before), RevokeUser(user), InvalidateUser(user));
    ServedAgainIff(AfterRevocation(Run(s0, before), user), hash);
  }

  lemma KeepsInvTwice(s: State, e1: Event, e2: Event)
    requires Inv(s)
    ensures Inv(Step(Step(s, e1), e2))
  {
    StepKeepsInv(s, e1);
    StepKeepsInv(Step(s, e1), e2);
  }

  lemma RevokedUserIsGone(s: State, user: nat, hash: nat)
    requires UsersMatch(s) && hash in s.db.sessions && s.db.sessions[hash].user == user
    ensures var s' := AfterRevocation(s, user);
            && Revoked(s'.db, hash) && NotCached(s', hash)
            && (SomeLate(s', hash) <==> SomeLate(s, hash))
  {
    OtherStepKeepsUsers(s, RevokeUser(user));
    var s' := AfterRevocation(s, user);
    assert s'.inFlight == s.inFlight && s'.now == s.now;
  }

  // ---- Other sessions are not touched ----

  lemma FindCons(first: CachedSession, rest: seq<CachedSession>, hash: nat)
    ensures Find([first] + rest, hash) == if first.hash == hash then 0 else 1 + Find(rest, hash)
  {
    assert ([first] + rest)[1..] == rest;
  }

  /** Both caches have the same first entry for the hash, or none. */
  ghost predicate SameEntry(before: seq<CachedSession>, after: seq<CachedSession>, hash: nat) {
    var (k, j) := (Find(before, hash), Find(after, hash));
    (k < |before| <==> j < |after|) && (k < |before| ==> after[j] == before[k])
  }

  lemma SameEntryCons(first: CachedSession, before: seq<CachedSession>, after: seq<CachedSession>, hash: nat)
    requires SameEntry(before, after, hash)
    ensures SameEntry([first] + before, [first] + after, hash)
    ensures first.hash != hash ==> SameEntry([first] + before, after, hash)
  {
    FindCons(first, before, hash);
    FindCons(first, after, hash);
  }

  lemma {:induction false} FindDrop(cache: seq<CachedSession>, hash: nat, other: nat)
    requires hash != other
    ensures SameEntry(cache, Drop(cache, hash), other)
    decreases |cache|
  {
    if cache != [] {
      FindDrop(cache[1..], hash, other);
      SameEntryCons(cache[0], cache[1..], Drop(cache[1..], hash), other);
      assert cache == [cache[0]] + cache[1..];
    }
  }

  lemma {:induction false} FindDropUser(cache: seq<CachedSession>, user: nat, hash: nat)
    requires forall e :: e in cache && e.hash == hash ==> e.authUser.id != user
    ensures SameEntry(cache, DropUser(cache, user), hash)
    decreases |cache|
  {
    if cache != [] {
      FindDropUser(cache[1..], user, hash);
      SameEntryCons(cache[0], cache[1..], DropUser(cache[1..], user), hash);
      assert cache == [cache[0]] + cache[1..] && cache[0] in cache;
    }
  }

  /** The entry that a hit serves */
  function Served(s: State, hash: nat): CachedSession
    requires FastPathHit(s, hash)
  {
    s.sessions[Find(s.sessions, hash)]
  }

  /** Deleting one session's entry leaves the hits of all others as they are; clearing the cache leaves none. */
  lemma OtherHitsStay(s: State, hash: nat, other: nat)
    requires hash != other
    ensures var s' := Step(s, InvalidateSession(Some(hash)));
            && (FastPathHit(s', other) <==> FastPathHit(s, other))
            && (FastPathHit(s, other) ==> Served(s', other) == Served(s, other))
    ensures !FastPathHit(Step(s, InvalidateSession(None)), other)
  {
    FindDrop(s.sessions, hash, other);
  }

  /** Deleting a user's entries leaves the hits of other users' sessions as they are. */
  lemma OtherUsersHitsStay(s: State, user: nat, other: nat)
    requires UsersMatch(s) && other in s.db.sessions && s.db.sessions[other].user != user
    ensures var s' := Step(s, InvalidateUser(user));
            && (FastPathHit(s', other) <==> FastPathHit(s, other))
            && (FastPathHit(s, other) ==> Served(s', other) == Served(s, other))
  {
    FindDropUser(s.sessions, user, other);
  }

  // ---- The stretches of an authentication ----

  /** An expired entry is deleted when its token is used again; a rejected one too. */
  lemma UselessEntriesGo(s: State, id: nat, hash: nat)
    ensures id !in s.inFlight && !FastPathHit(s, hash) ==>
              var s' := Step(s, Authenticate(id, hash));
              id in s'.inFlight && s'.inFlight[id] == Authentication(hash, s.now, AwaitingSession)
              && forall e :: e in s'.sessions ==> e.hash != hash
    ensures id in s.inFlight && s.inFlight[id].stage.SessionAnswered?
            && (var answer := s.inFlight[id].stage.answer;
                answer.None? || answer.value.expiresAt <= s.inFlight[id].startedAt) ==>
              var s' := Step(s, ReceiveSession(id));
              id !in s'.inFlight && forall e :: e in s'.sessions ==> e.hash != s.inFlight[id].hash
  {
  }

  /** The query finds exactly an unrevoked session that is not over, of an active user who is not deleted, with the
      user's current role. */
  lemma QueryFinds(s: State, id: nat)
    requires id in s.inFlight && s.inFlight[id].stage.AwaitingSession?
    ensures var (hash, stage) := (s.inFlight[id].hash, Step(s, QuerySession(id)).inFlight[id].stage);
            && stage.SessionAnswered?
            && (stage.answer.Some? <==>
                  && hash in s.db.sessions && !s.db.sessions[hash].revoked && s.now < s.db.sessions[hash].expiresAt
                  && s.db.sessions[hash].user in s.db.accounts
                  && s.db.accounts[s.db.sessions[hash].user].active
                  && !s.db.accounts[s.db.sessions[hash].user].deleted)
            && (stage.answer.Some? ==>
                  var user := s.db.sessions[hash].user;
                  stage.answer.value == Row(user, s.db.accounts[user].role, s.db.sessions[hash].expiresAt))
  {
  }

  /** The entry that is cached lasts 3000 ms from the start of the authentication, or as long as the session was to
      last. */
  lemma EntryCached(s: State, id: nat)
    requires id in s.inFlight && s.inFlight[id].stage.Authorized?
    ensures var (a, s') := (s.inFlight[id], Step(s, CacheSession(id)));
            var end := if a.startedAt + 3000 < a.stage.row.expiresAt then a.startedAt + 3000 else a.stage.row.expiresAt;
            var k := Find(s'.sessions, a.hash);
            && k < |s'.sessions|
            && s'.sessions[k]
               == CachedSession(a.hash, AuthUser(a.stage.row.user, a.stage.row.role, a.stage.permissions), end)
  {
    var a := s.inFlight[id];
    var e := CachedSession(a.hash, AuthUser(a.stage.row.user, a.stage.row.role, a.stage.permissions),
                           Min(a.startedAt + FAST_PATH_TTL_MS, a.stage.row.expiresAt));
    FindPut(if |s.sessions| >= MAX_SESSION_CACHE_SIZE then Pruned(s.sessions, a.startedAt, 0) else s.sessions, e);
  }

  // ---- What the session table says ----

  /** A hit serves a user who, less than 3000 ms ago, was active and not deleted, with a session that was neither
      revoked nor over. */
  lemma HitUserWasActive(s0: State, events: seq<Event>, hash: nat)
    requires Initial(s0) && FastPathHit(Run(s0, events), hash)
    ensures var s := Run(s0, events);
            var user := Served(s, hash).authUser;
            exists k: nat :: k <= |events| && s.now - 3000 < StateAfter(s0, events, k).now <= s.now
              && var i := StateAfter(s0, events, k);
                 && hash in i.db.sessions && !i.db.sessions[hash].revoked && i.now < i.db.sessions[hash].expiresAt
                 && i.db.sessions[hash].user == user.id && user.id in i.db.accounts
                 && i.db.accounts[user.id].active && !i.db.accounts[user.id].deleted
                 && i.db.accounts[user.id].role == user.role
  {
    HitIsRecent(s0, events, hash);
  }

  /** A login gives a session that the query finds until its lifetime is over; a refresh gives an unrevoked one as much
      again. */
  lemma SessionsLiveForTheirLifetime(s: State, hash: nat, user: nat, t: nat)
    requires s.now <= t < s.now + s.settings.sessionTtl
    requires user in s.db.accounts && s.db.accounts[user].active && !s.db.accounts[user].deleted
    ensures hash !in s.db.sessions ==> Live(Step(s, Login(hash, user)).db, hash, t)
    ensures hash in s.db.sessions && s.db.sessions[hash].user == user && !s.db.sessions[hash].revoked
            ==> Live(Step(s, Refresh(hash)).db, hash, t)
  {
  }

  /** From the moment an account is suspended or deleted, the query finds none of its sessions; a role's permissions are
      the ones last granted. */
  lemma AccountsAndGrants(s: State, user: nat, account: Account, hash: nat, role: nat, permissions: set<nat>, t: nat)
    ensures hash in s.db.sessions && s.db.sessions[hash].user == user && (!account.active || account.deleted)
            ==> !Live(Step(s, SetAccount(user, account)).db, hash, t)
    ensures Granted(Step(s, SetGrants(role, permissions)).db, role) == permissions
    ensures role !in Step(s, InvalidateRoles(Some(role))).roles && Step(s, InvalidateRoles(None)).roles == map[]
    ensures forall other :: other != role && other in s.roles ==>
              other in Step(s, InvalidateRoles(Some(role))).roles
              && Step(s, InvalidateRoles(Some(role))).roles[other] == s.roles[other]
  {
  }

  /** A full cache whose entries all have time left loses its 200 oldest entries. */
  lemma PruningTakesTheOldest(cache: seq<CachedSession>, now: nat)
    requires forall e :: e in cache ==> e.expiresAt > now
    ensures Pruned(cache, now, 0) == if |cache| >= 200 then cache[200..] else []
  {
    PrunedFrom(cache, now, 0);
  }

  lemma {:induction false} PrunedFrom(cache: seq<CachedSession>, now: nat, deleted: nat)
    requires forall e :: e in cache ==> e.expiresAt > now
    ensures Pruned(cache, now, deleted)
            == if deleted >= 200 then cache else if |cache| >= 200 - deleted then cache[200 - deleted..] else []
    decreases |cache|
  {
    if cache != [] {
      var (first, rest) := (cache[0], cache[1..]);
      assert first in cache && cache == [first] + rest;
      if deleted < 200 {
        PrunedFrom(rest, now, deleted + 1);
        if |cache| >= 200 - deleted {
          DropFromRest(first, rest, 200 - deleted);
        }
      } else {
        PrunedFrom(rest, now, deleted);
      }
    }
  }

  lemma DropFromRest(first: CachedSession, rest: seq<CachedSession>, n: nat)
    requires 0 < n <= |rest| + 1
    ensures ([first] + rest)[n..] == rest[n - 1..]
  {}
}
