/** Access and status changes of user accounts at the same time, and the guard on the last active director.

    A change locks the target's row joined with its role's row, checks, counts the other active directors, updates and
    commits. FOR UPDATE on the join takes both locks, one after the other; the role's row is shared by all users of
    the role. A statement that meets a lock waits: here it does nothing and can be tried again. */
module RoleAdministration {
  import opened Workflow

  datatype AccountStatus = Active | Disabled | Locked

  datatype User = User(role: Role, status: AccountStatus, deleted: bool)

  datatype Change = Access(role: Role) | SetStatus(status: AccountStatus)

  function Level(role: Role): nat {
    match role
    case Citizen => 0
    case GovWorker => 1
    case GovAdmin => 2
    case Approver => 3
    case Superior => 4
  }

  predicate IsManager(role: Role) {
    role == Approver || role == Superior
  }

  /** The hierarchy checks: neither the target nor a requested role above the actor */
  predicate WithinLevel(actor: Role, target: Role, change: Change) {
    Level(target) <= Level(actor) && (change.Access? ==> Level(change.role) <= Level(actor))
  }

  predicate ActiveDirector(u: User) {
    u.role == Superior && u.status == Active && !u.deleted
  }

  function Changed(u: User, change: Change): User {
    match change
    case Access(role) => u.(role := role)
    case SetStatus(status) => u.(status := status)
  }

  /** The change takes an active director's role or activity away. */
  predicate Removes(u: User, change: Change) {
    u.role == Superior && u.status == Active
    && match change
       case Access(role) => role != Superior
       case SetStatus(status) => status != Active
  }

  /** Begun; holding the user's row, as found; holding the role's row too; past the count of other directors */
  datatype Phase = Begun | HoldsUser(seen: User) | HoldsRole(seen: User) | Guarded(seen: User)

  datatype Tx = Tx(actorRole: Role, target: nat, change: Change, phase: Phase)

  datatype State = State(users: map<nat, User>, txs: map<nat, Tx>)

  datatype Event =
    | Begin(id: nat, actor: nat, actorRole: Role, target: nat, change: Change)
    | LockUser(id: nat)
    | LockRole(id: nat)
    | CountOthers(id: nat)
    | Commit(id: nat)
    | Abort(id: nat)
    | Register(user: nat, role: Role)

  predicate OnUser(tx: Tx, user: nat) {
    !tx.phase.Begun? && tx.target == user
  }

  predicate OnRole(tx: Tx, role: Role) {
    (tx.phase.HoldsRole? || tx.phase.Guarded?) && tx.phase.seen.role == role
  }

  ghost predicate UserFree(s: State, user: nat) {
    forall t :: t in s.txs ==> !OnUser(s.txs[t], user)
  }

  ghost predicate RoleFree(s: State, role: Role) {
    forall t :: t in s.txs ==> !OnRole(s.txs[t], role)
  }

  ghost predicate OtherDirector(s: State, user: nat) {
    exists u :: u in s.users && u != user && ActiveDirector(s.users[u])
  }

  ghost predicate HasDirector(s: State) {
    exists u :: u in s.users && ActiveDirector(s.users[u])
  }

  function Leave(s: State, t: nat): State {
    s.(txs := s.txs - {t})
  }

  function To(s: State, t: nat, phase: Phase): State
    requires t in s.txs
  {
    s.(txs := s.txs[t := s.txs[t].(phase := phase)])
  }

  /** shared says whether the lock on the join includes the role's row, as it does in the program. */
  ghost function Step(shared: bool, s: State, e: Event): State {
    match e
    case Begin(t, actor, actorRole, target, change) =>
      if t in s.txs || !IsManager(actorRole) || actor == target then s
      else s.(txs := s.txs[t := Tx(actorRole, target, change, Begun)])
    case LockUser(t) =>
      if t !in s.txs || !s.txs[t].phase.Begun? || !UserFree(s, s.txs[t].target) then s
      else if s.txs[t].target !in s.users || s.users[s.txs[t].target].deleted then Leave(s, t)
      else To(s, t, HoldsUser(s.users[s.txs[t].target]))
    case LockRole(t) =>
      if t !in s.txs || !s.txs[t].phase.HoldsUser? || (shared && !RoleFree(s, s.txs[t].phase.seen.role)) then s
      else if WithinLevel(s.txs[t].actorRole, s.txs[t].phase.seen.role, s.txs[t].change)
      then To(s, t, HoldsRole(s.txs[t].phase.seen))
      else Leave(s, t)
    case CountOthers(t) =>
      if t !in s.txs || !s.txs[t].phase.HoldsRole? then s
      else if Removes(s.txs[t].phase.seen, s.txs[t].change) && !OtherDirector(s, s.txs[t].target) then Leave(s, t)
      else To(s, t, Guarded(s.txs[t].phase.seen))
    case Commit(t) =>
      if t !in s.txs || !s.txs[t].phase.Guarded? then s
      else Leave(s, t).(users := s.users[s.txs[t].target := Changed(s.txs[t].phase.seen, s.txs[t].change)])
    case Abort(t) => Leave(s, t)
    case Register(user, role) =>
      if user in s.users then s else s.(users := s.users[user := User(role, Active, false)])
  }

  ghost function Run(shared: bool, s: State, events: seq<Event>): State
    decreases |events|
  {
    if events == [] then s else Run(shared, Step(shared, s, events[0]), events[1..])
  }

  ghost predicate TxOk(s: State, tx: Tx) {
    && (!tx.phase.Begun? ==> tx.target in s.users && s.users[tx.target] == tx.phase.seen && !tx.phase.seen.deleted)
    && (tx.phase.HoldsRole? || tx.phase.Guarded? ==> WithinLevel(tx.actorRole, tx.phase.seen.role, tx.change))
    && (tx.phase.Guarded? && Removes(tx.phase.seen, tx.change) ==> OtherDirector(s, tx.target))
  }

  ghost predicate Inv(s: State) {
    && HasDirector(s)
    && (forall t :: t in s.txs ==> TxOk(s, s.txs[t]))
    && (forall t, u, user: nat :: t in s.txs && u in s.txs && t != u ==>
            !(OnUser(s.txs[t], user) && OnUser(s.txs[u], user)))
    && (forall t, u, role: Role :: t in s.txs && u in s.txs && t != u ==>
            !(OnRole(s.txs[t], role) && OnRole(s.txs[u], role)))
  }

  lemma CommitKeepsInv(s: State, t: nat)
    requires Inv(s) && t in s.txs && s.txs[t].phase.Guarded?
    ensures Inv(Step(true, s, Commit(t)))
  {
    var tx := s.txs[t];
    var s' := Step(true, s, Commit(t));
    assert OnUser(tx, tx.target) && OnRole(tx, tx.phase.seen.role);
    if Removes(tx.phase.seen, tx.change) {
      var u :| u in s.users && u != tx.target && ActiveDirector(s.users[u]);
      assert u in s'.users && ActiveDirector(s'.users[u]);
    } else {
      var u :| u in s.users && ActiveDirector(s.users[u]);
      assert u in s'.users && ActiveDirector(s'.users[u]);
    }
    forall v | v in s'.txs ensures TxOk(s', s'.txs[v]) {
      var other := s.txs[v];
      assert !OnUser(other, tx.target) && !OnRole(other, tx.phase.seen.role);
      if other.phase.Guarded? && Removes(other.phase.seen, other.change) {
        assert OnRole(other, Superior);
        var u :| u in s.users && u != other.target && ActiveDirector(s.users[u]);
        assert u in s'.users && ActiveDirector(s'.users[u]);
      }
    }
  }

  lemma MoveKeepsInv(s: State, t: nat, phase: Phase)
    requires Inv(s) && t in s.txs
    requires !phase.Begun? && TxOk(s, s.txs[t].(phase := phase))
    requires s.txs[t].phase.Begun? ==> UserFree(s, s.txs[t].target)
    requires phase.HoldsRole? || phase.Guarded? ==> OnRole(s.txs[t], phase.seen.role) || RoleFree(s, phase.seen.role)
    ensures Inv(To(s, t, phase))
  {
    var s' := To(s, t, phase);
    forall v | v in s'.txs ensures TxOk(s', s'.txs[v]) {
      if v != t {
        assert TxOk(s, s.txs[v]);
        assert OtherDirector(s, s.txs[v].target) ==> OtherDirector(s', s.txs[v].target);
      }
    }
  }

  lemma RegisterKeepsInv(s: State, user: nat, role: Role)
    requires Inv(s)
    ensures Inv(Step(true, s, Register(user, role)))
  {
    var s' := Step(true, s, Register(user, role));
    var d :| d in s.users && ActiveDirector(s.users[d]);
    assert d in s'.users && ActiveDirector(s'.users[d]);
    forall v | v in s'.txs ensures TxOk(s', s'.txs[v]) {
      assert TxOk(s, s.txs[v]);
      if OtherDirector(s, s.txs[v].target) {
        var u :| u in s.users && u != s.txs[v].target && ActiveDirector(s.users[u]);
        assert u in s'.users && ActiveDirector(s'.users[u]);
      }
    }
  }

  lemma StepKeepsInv(s: State, e: Event)
    requires Inv(s)
    ensures Inv(Step(true, s, e))
  {
    var s' := Step(true, s, e);
    match e
    case LockUser(t) =>
      if t in s.txs && s.txs[t].phase.Begun? && s.txs[t].target in s.users
         && s' == To(s, t, HoldsUser(s.users[s.txs[t].target]))
      {
        MoveKeepsInv(s, t, HoldsUser(s.users[s.txs[t].target]));
      }
    case LockRole(t) =>
      if t in s.txs && s.txs[t].phase.HoldsUser? && s' == To(s, t, HoldsRole(s.txs[t].phase.seen)) {
        MoveKeepsInv(s, t, HoldsRole(s.txs[t].phase.seen));
      }
    case CountOthers(t) =>
      if t in s.txs && s.txs[t].phase.HoldsRole? && s' == To(s, t, Guarded(s.txs[t].phase.seen)) {
        MoveKeepsInv(s, t, Guarded(s.txs[t].phase.seen));
      }
    case Commit(t) => if t in s.txs && s.txs[t].phase.Guarded? { CommitKeepsInv(s, t); }
    case Register(user, role) => RegisterKeepsInv(s, user, role);
    case Begin(_, _, _, _, _) => DirectorsStay(s, s');
    case Abort(_) => DirectorsStay(s, s');
  }

  lemma DirectorsStay(s: State, s': State)
    requires s.users == s'.users
    ensures HasDirector(s) == HasDirector(s') && forall u :: OtherDirector(s, u) == OtherDirector(s', u)
  {
  }

  lemma {:induction false} RunKeepsInv(s: State, events: seq<Event>)
    requires Inv(s)
    ensures Inv(Run(true, s, events))
    decreases |events|
  {
    if events != [] {
      StepKeepsInv(s, events[0]);
      RunKeepsInv(Step(true, s, events[0]), events[1..]);
    }
  }

  /** Once there is an active director, there is one after every commit of every run, whoever demotes, disables or locks
      whom at the same time. */
  lemma ADirectorAlwaysRemains(users: map<nat, User>, events: seq<Event>)
    requires HasDirector(State(users, map[]))
    ensures HasDirector(Run(true, State(users, map[]), events))
  {
    RunKeepsInv(State(users, map[]), events);
  }

  /** What holds of locked users with or without the shared lock, and with or without a director */
  ghost predicate Held(s: State, tx: Tx) {
    && (!tx.phase.Begun? ==> tx.target in s.users && s.users[tx.target] == tx.phase.seen)
    && (tx.phase.HoldsRole? || tx.phase.Guarded? ==> WithinLevel(tx.actorRole, tx.phase.seen.role, tx.change))
    && tx.actorRole in {Approver, Superior}
  }

  ghost predicate UsersHeld(s: State) {
    && (forall t :: t in s.txs ==> Held(s, s.txs[t]))
    && (forall t, u, user: nat :: t in s.txs && u in s.txs && t != u
                                  ==> !(OnUser(s.txs[t], user) && OnUser(s.txs[u], user)))
  }

  lemma StepKeepsHeld(shared: bool, s: State, e: Event)
    requires UsersHeld(s)
    ensures UsersHeld(Step(shared, s, e))
  {
    if e.Commit? && e.id in s.txs && s.txs[e.id].phase.Guarded? {
      var target := s.txs[e.id].target;
      assert OnUser(s.txs[e.id], target);
      forall v | v in s.txs && v != e.id ensures !OnUser(s.txs[v], target) {
      }
    }
  }

  lemma {:induction false} RunKeepsHeld(shared: bool, s: State, events: seq<Event>)
    requires UsersHeld(s)
    ensures UsersHeld(Run(shared, s, events))
    decreases |events|
  {
    if events != [] {
      StepKeepsHeld(shared, s, events[0]);
      RunKeepsHeld(shared, Step(shared, s, events[0]), events[1..]);
    }
  }

  /** What a commit changes is within the actor's level, before and after, and it changes nobody else. */
  lemma CommitsRespectTheHierarchy(shared: bool, users: map<nat, User>, events: seq<Event>, t: nat)
    ensures var s := Run(shared, State(users, map[]), events);
            var s' := Step(shared, s, Commit(t));
            t in s.txs && s'.users != s.users ==>
              && s.txs[t].target in s.users
              && s'.users == s.users[s.txs[t].target := s'.users[s.txs[t].target]]
              && Level(s.users[s.txs[t].target].role) <= Level(s.txs[t].actorRole)
              && Level(s'.users[s.txs[t].target].role) <= Level(s.txs[t].actorRole)
  {
    RunKeepsHeld(shared, State(users, map[]), events);
  }

  // ---- The roles by name ----

  /** In every run, shared lock or not: only approvers and directors change accounts, and who is a director before or
      after a change was changed by a director. */
  lemma OnlyDirectorsTouchDirectors(shared: bool, users: map<nat, User>, events: seq<Event>, t: nat)
    ensures var s := Run(shared, State(users, map[]), events);
            var s' := Step(shared, s, Commit(t));
            t in s.txs && s'.users != s.users ==>
              && s.txs[t].actorRole in {Approver, Superior}
              && s.txs[t].target in s.users && s.txs[t].target in s'.users
              && (s.users[s.txs[t].target].role == Superior || s'.users[s.txs[t].target].role == Superior
                  ==> s.txs[t].actorRole == Superior)
  {
    RunKeepsHeld(shared, State(users, map[]), events);
  }

  /** A change begins exactly for an approver or a director who does not name their own account. */
  lemma WhoMayBegin(shared: bool, s: State, t: nat, actor: nat, actorRole: Role, target: nat, change: Change)
    requires t !in s.txs
    ensures t in Step(shared, s, Begin(t, actor, actorRole, target, change)).txs
            <==> actorRole in {Approver, Superior} && actor != target
  {
  }

  /** It goes on with the row of a user who is there and not deleted, as it is when the lock is free, and ends
      otherwise. */
  lemma TargetIsLocked(shared: bool, s: State, t: nat)
    requires t in s.txs && s.txs[t].phase.Begun? && UserFree(s, s.txs[t].target)
    ensures var (target, s') := (s.txs[t].target, Step(shared, s, LockUser(t)));
            if target in s.users && !s.users[target].deleted
            then t in s'.txs && s'.txs[t].phase == HoldsUser(s.users[target]) && s'.users == s.users
            else t !in s'.txs && s'.users == s.users
  {
  }

  /** It passes the hierarchy checks exactly when the actor is a director, or neither the target is one nor shall be. */
  lemma HierarchyPassedIff(shared: bool, s: State, t: nat)
    requires t in s.txs && s.txs[t].phase.HoldsUser? && s.txs[t].actorRole in {Approver, Superior}
    requires RoleFree(s, s.txs[t].phase.seen.role)
    ensures var (tx, s') := (s.txs[t], Step(shared, s, LockRole(t)));
            if tx.actorRole == Superior || (tx.phase.seen.role != Superior && tx.change != Access(Superior))
            then t in s'.txs && s'.txs[t].phase == HoldsRole(tx.phase.seen)
            else t !in s'.txs && s'.users == s.users
  {
  }

  /** The guard ends a change exactly when it takes an active director's role or activity and no other one is active. */
  lemma GuardStopsIff(shared: bool, s: State, t: nat)
    requires t in s.txs && s.txs[t].phase.HoldsRole?
    ensures var (seen, change) := (s.txs[t].phase.seen, s.txs[t].change);
            t !in Step(shared, s, CountOthers(t)).txs
            <==> && seen.role == Superior && seen.status == Active
                 && change != Access(Superior) && change != SetStatus(Active)
                 && forall u :: u in s.users && u != s.txs[t].target ==>
                          s.users[u].deleted || s.users[u].role != Superior || s.users[u].status != Active
  {
  }

  /** A commit sets the role or the status, and nothing else. */
  lemma CommitSetsOneColumn(shared: bool, s: State, t: nat)
    requires UsersHeld(s) && t in s.txs && s.txs[t].phase.Guarded?
    ensures var (tx, s') := (s.txs[t], Step(shared, s, Commit(t)));
            && tx.target in s.users && tx.target in s'.users
            && match tx.change
               case Access(role) => s'.users[tx.target]
                   == User(role, s.users[tx.target].status, s.users[tx.target].deleted)
               case SetStatus(status) =>
                 s'.users[tx.target] == User(s.users[tx.target].role, status, s.users[tx.target].deleted)
  {
  }

  // ---- Why the shared row matters ----

  const DIRECTOR := User(Superior, Active, false)

  function TwoDirectors(first: Phase, second: Phase): State {
    State(map[1 := DIRECTOR, 2 := DIRECTOR],
          map[1 := Tx(Superior, 2, Access(Citizen), first), 2 := Tx(Superior, 1, SetStatus(Disabled), second)])
  }

  lemma BothLock(events: seq<Event>)
    requires events == [Begin(1, 1, Superior, 2, Access(Citizen)), Begin(2, 2, Superior, 1, SetStatus(Disabled)),
                        LockUser(1), LockUser(2)]
    ensures Run(false, State(map[1 := DIRECTOR, 2 := DIRECTOR], map[]), events)
        == TwoDirectors(HoldsUser(DIRECTOR), HoldsUser(DIRECTOR))
  {
    var s0 := State(map[1 := DIRECTOR, 2 := DIRECTOR], map[]);
    RunOfFour(false, s0, events);
    var s2 := Step(false, Step(false, s0, events[0]), events[1]);
    assert s2 == TwoDirectors(Begun, Begun);
    var s3 := Step(false, s2, events[2]);
    assert s3 == TwoDirectors(HoldsUser(DIRECTOR), Begun);
  }

  lemma BothCount(events: seq<Event>)
    requires events == [LockRole(1), LockRole(2), CountOthers(1), CountOthers(2)]
    ensures Run(false, TwoDirectors(HoldsUser(DIRECTOR), HoldsUser(DIRECTOR)), events)
        == TwoDirectors(Guarded(DIRECTOR), Guarded(DIRECTOR))
  {
    var s0 := TwoDirectors(HoldsUser(DIRECTOR), HoldsUser(DIRECTOR));
    RunOfFour(false, s0, events);
    BothTakeRoles();
    BothPassCounts();
  }

  lemma BothTakeRoles()
    ensures Step(false, Step(false, TwoDirectors(HoldsUser(DIRECTOR), HoldsUser(DIRECTOR)), LockRole(1)), LockRole(2))
            == TwoDirectors(HoldsRole(DIRECTOR), HoldsRole(DIRECTOR))
  {
    var s0 := TwoDirectors(HoldsUser(DIRECTOR), HoldsUser(DIRECTOR));
    assert Step(false, s0, LockRole(1)) == TwoDirectors(HoldsRole(DIRECTOR), HoldsUser(DIRECTOR));
  }

  lemma BothPassCounts()
    ensures var s0 := TwoDirectors(HoldsRole(DIRECTOR), HoldsRole(DIRECTOR));
            Step(false, Step(false, s0, CountOthers(1)), CountOthers(2))
                == TwoDirectors(Guarded(DIRECTOR), Guarded(DIRECTOR))
  {
    var s0 := TwoDirectors(HoldsRole(DIRECTOR), HoldsRole(DIRECTOR));
    assert 1 in s0.users && ActiveDirector(s0.users[1]);
    var s1 := Step(false, s0, CountOthers(1));
    assert s1 == TwoDirectors(Guarded(DIRECTOR), HoldsRole(DIRECTOR));
    assert 2 in s1.users && ActiveDirector(s1.users[2]);
  }

  lemma BothCommit(events: seq<Event>)
    requires events == [Commit(1), Commit(2)]
    ensures !HasDirector(Run(false, TwoDirectors(Guarded(DIRECTOR), Guarded(DIRECTOR)), events))
  {
    var s0 := TwoDirectors(Guarded(DIRECTOR), Guarded(DIRECTOR));
    RunOfTwo(false, s0, events);
    var s1 := Step(false, s0, events[0]);
    assert s1.users == map[1 := DIRECTOR, 2 := User(Citizen, Active, false)] && s1.txs[2] == s0.txs[2];
    var s2 := Step(false, s1, events[1]);
    assert s2.users == map[1 := User(Superior, Disabled, false), 2 := User(Citizen, Active, false)];
  }

  /** The role's row is what serializes the counts: if the lock covered only the user's row, two directors removing each
      other would leave none. */
  lemma UserLocksAloneLoseTheLastDirector() returns (users: map<nat, User>, events: seq<Event>)
    ensures HasDirector(State(users, map[]))
    ensures !HasDirector(Run(false, State(users, map[]), events))
  {
    users := map[1 := DIRECTOR, 2 := DIRECTOR];
    assert 1 in State(users, map[]).users && ActiveDirector(State(users, map[]).users[1]);
    var lock := [Begin(1, 1, Superior, 2, Access(Citizen)), Begin(2, 2, Superior, 1, SetStatus(Disabled)),
                 LockUser(1), LockUser(2)];
    var count := [LockRole(1), LockRole(2), CountOthers(1), CountOthers(2)];
    var commit := [Commit(1), Commit(2)];
    BothLock(lock);
    BothCount(count);
    BothCommit(commit);
    events := lock + (count + commit);
    RunConcat(false, State(users, map[]), lock, count + commit);
    RunConcat(false, TwoDirectors(HoldsUser(DIRECTOR), HoldsUser(DIRECTOR)), count, commit);
  }

  lemma RunOfTwo(shared: bool, s: State, es: seq<Event>)
    requires |es| == 2
    ensures Run(shared, s, es) == Step(shared, Step(shared, s, es[0]), es[1])
  {
    assert es[1..][1..] == [];
    var s1 := Step(shared, s, es[0]);
    assert Run(shared, s, es) == Run(shared, s1, es[1..]) == Run(shared, Step(shared, s1, es[1]), []);
  }

  lemma RunOfFour(shared: bool, s: State, es: seq<Event>)
    requires |es| == 4
    ensures Run(shared, s, es) ==
            Step(shared, Step(shared, Step(shared, Step(shared, s, es[0]), es[1]), es[2]), es[3])
  {
    RunConcat(shared, s, es[..2], es[2..]);
    assert es == es[..2] + es[2..];
    RunOfTwo(shared, s, es[..2]);
    RunOfTwo(shared, Run(shared, s, es[..2]), es[2..]);
  }

  lemma {:induction false} RunConcat(shared: bool, s: State, a: seq<Event>, b: seq<Event>)
    ensures Run(shared, s, a + b) == Run(shared, Run(shared, s, a), b)
    decreases |a|
  {
    if a == [] {
      assert a + b == b;
    } else {
      assert (a + b)[1..] == a[1..] + b;
      RunConcat(shared, Step(shared, s, a[0]), a[1..], b);
    }
  }
}
