/** Handlers that work on one service request at the same time, statement by statement, under READ COMMITTED.

    A handler reads the row outside a transaction, checks what it read, and then runs a transaction: an UPDATE or a
    SELECT FOR UPDATE takes the row's lock and sees the row as last committed; what the transaction writes becomes
    visible when it commits, and it may abort at any moment. A statement that meets a lock waits, so here it does
    nothing and can be tried again. Every event sequence is a run. */
module RequestInterleaving {
  import opened Wrappers
  import opened Workflow

  /** How an inspection PATCH moves the inspection */
  datatype InspectionMove = Starting | Completing | CancellingInspection | Staying

  /** A handler's route and body */
  datatype Op =
    | Edit(title: Option<string>, description: Option<string>, priority: Option<Priority>, contact: Option<Contact>,
        version: nat)
    | Assign(worker: nat, workerDepartment: Option<nat>, department: Option<nat>, version: nat)
    | Transition(to: Status, version: nat)
    | Cancel(version: nat)
    | FieldCompletion
    | Resolve
    | Delete
    | SubmitApproval(approver: Option<nat>)
    | Decide(approval: nat, decision: Decision)
    | ScheduleInspection
    | PatchInspection(move: InspectionMove)

  /** version is the row version that the same transaction wrote, or read when it wrote none; it is not a column. */
  datatype HistoryRow = HistoryRow(from: Option<Status>, to: Status, origin: Origin, version: nat)

  datatype Origin = Creation | By(op: Op)

  /** The committed tables, with every committed version of the row in past */
  datatype Db = Db(
    row: Request,
    past: seq<Request>,
    history: seq<HistoryRow>,
    assignments: seq<Assignment>,
    approvals: seq<Approval>)

  /** How far a handler has come: it has passed its checks, it holds its approval's lock, it holds the row's lock on
      the row it found there, or it goes on without touching the row. */
  datatype Phase = Checked | HoldsApproval | HoldsRow(base: Request) | WithoutRow

  datatype Handler = Handler(actor: Actor, op: Op, seen: Request, phase: Phase)

  datatype State = State(db: Db, handlers: map<nat, Handler>)

  // ---- Checks ----

  /** The checks on the request row as first read. Checks on rows of other tables are the answer of a Start event. */
  predicate Admits(actor: Actor, op: Op, row: Request) {
    match op
    case Edit(_, _, priority, _, version) =>
      && Visible(row, actor)
      && (if row.creator == actor.id then Fresh(row.status) && priority.None?
          else Update in actor.permissions && actor.role != GovWorker)
      && row.version == version
    case Assign(_, _, _, version) =>
      Visible(row, actor) && row.version == version && !Finished(row.status)
    case Transition(to, version) =>
      && Visible(row, actor)
      && row.version == version
      && to in AllowedTransitions(row.status)
      && (actor.role == GovWorker ==> row.assignee == Some(actor.id))
      && to != AwaitingApproval
    case Cancel(version) =>
      Visible(row, actor) && row.creator == actor.id && Fresh(row.status) && row.version == version
    case FieldCompletion =>
      actor.role == GovWorker && Visible(row, actor) && row.assignee == Some(actor.id) && !Finished(row.status)
    case Resolve =>
      actor.role == GovAdmin && Visible(row, actor) && !Finished(row.status)
    case Delete =>
      Visible(row, actor)
    case SubmitApproval(_) =>
      !row.deleted && !Terminal(row.status)
    case Decide(_, _) =>
      true
    case ScheduleInspection =>
      && !row.deleted
      && (actor.role == GovWorker ==> row.assignee == Some(actor.id))
      && row.assignee.Some?
      && !Terminal(row.status)
    case PatchInspection(_) =>
      !row.deleted && !Terminal(row.status)
  }

  predicate AdmitsApproval(actor: Actor, op: Op, approvals: seq<Approval>) {
    op.Decide? ==>
      op.approval < |approvals| && Undecided(approvals[op.approval].status) && MayDecide(actor, approvals[op.approval])
  }

  /** The UPDATE compares the version. */
  predicate ComparesVersion(op: Op) {
    op.Edit? || op.Assign? || op.Transition? || op.Cancel?
  }

  function VersionOf(op: Op): nat
    requires ComparesVersion(op)
  {
    op.version
  }

  /** The status that the request shall have after a move of its inspection */
  function StatusForMove(move: InspectionMove): Option<Status> {
    match move
    case Starting => Some(Inspecting)
    case Completing => Some(InProgress)
    case CancellingInspection => Some(Assigned)
    case Staying => None
  }

  /** The status that the handler's UPDATE gives the row; None when it has no such UPDATE */
  function Target(op: Op, seen: Request): Option<Status> {
    match op
    case Edit(_, _, _, _, _) => None
    case Assign(_, _, _, _) => Some(Assigned)
    case Transition(to, _) => Some(to)
    case Cancel(_) => Some(Cancelled)
    case FieldCompletion => Some(InProgress)
    case Resolve => Some(Resolved)
    case Delete => None
    case SubmitApproval(_) => Some(AwaitingApproval)
    case Decide(_, decision) => Some(RequestAfter(decision))
    case ScheduleInspection => if seen.status == InspectionScheduled then None else Some(InspectionScheduled)
    case PatchInspection(move) =>
      var to := StatusForMove(move);
      if to == Some(seen.status) then None else to
  }

  /** Handlers whose UPDATE is conditional on what they read, and do without it otherwise */
  predicate UpdatesRow(op: Op, seen: Request) {
    op.Edit? || op.Delete? || Target(op, seen).Some?
  }

  /** What the transaction requires of the row once it has the row's lock. A conditional UPDATE that affects no row
      makes the handler give up; cancel does not look, and goes on without the row instead. */
  predicate Rechecks(h: Handler, base: Request) {
    match h.op
    case FieldCompletion => !base.deleted && base.assignee == Some(h.actor.id) && !Finished(base.status)
    case Resolve => !base.deleted && !Finished(base.status)
    case _ => ComparesVersion(h.op) ==> base.version == VersionOf(h.op)
  }

  // ---- Writes ----

  function AssignedDepartment(op: Op, seen: Request): Option<nat>
    requires op.Assign?
  {
    if op.department.Some? then op.department
    else if op.workerDepartment.Some? then op.workerDepartment
    else seen.department
  }

  function Or<T>(changed: Option<T>, current: T): T {
    if changed.Some? then changed.value else current
  }

  function WrittenRow(h: Handler, base: Request): Request {
    var bumped := base.(version := base.version + 1);
    match h.op
    case Edit(title, description, priority, contact, _) =>
      bumped.(content := Content(Or(title, base.content.title), Or(description, base.content.description),
                                 Or(priority, base.content.priority), Or(contact, base.content.contact)))
    case Assign(worker, _, _, _) =>
      bumped.(status := Assigned, assignee := Some(worker), department := AssignedDepartment(h.op, h.seen))
    case Delete => bumped.(deleted := true)
    case _ =>
      var target := Target(h.op, h.seen);
      if target.Some? then bumped.(status := target.value) else bumped
  }

  /** The from_status is the one first read; only a decision logs the one it finds under the lock. */
  function WrittenHistory(h: Handler, base: Request, version: nat): seq<HistoryRow> {
    var target := Target(h.op, h.seen);
    if target.None? then []
    else [HistoryRow(Some(if h.op.Decide? then base.status else h.seen.status), target.value, By(h.op), version)]
  }

  function WrittenAssignments(h: Handler, assignments: seq<Assignment>): seq<Assignment> {
    if h.op.Assign? then
      CloseOpen(assignments)
      + [Assignment(h.seen.assignee, h.op.worker, h.seen.department, AssignedDepartment(h.op, h.seen), true)]
    else assignments
  }

  function WrittenApprovals(h: Handler, approvals: seq<Approval>, now: nat): seq<Approval> {
    match h.op
    case SubmitApproval(approver) => approvals + [Approval(Pending, None, approver, [])]
    case Decide(k, decision) =>
      if k < |approvals| then
        var status := ApprovalAfter(decision);
        approvals[k := Approval(status, if status == Approved || status == Refused then Some(now) else None,
                                approvals[k].assignedTo, approvals[k].decisions + [decision])]
      else approvals
    case _ => approvals
  }

  function Committed(db: Db, h: Handler, now: nat): Db {
    match h.phase
    case HoldsRow(base) =>
      var row := WrittenRow(h, base);
      Db(row, db.past + [row], db.history + WrittenHistory(h, base, row.version),
         WrittenAssignments(h, db.assignments), WrittenApprovals(h, db.approvals, now))
    case WithoutRow =>
      // Only cancel still logs a status change here; the other handlers write tables outside this model.
      if h.op.Cancel? then db.(history := db.history + WrittenHistory(h, db.row, db.row.version)) else db
    case _ => db
  }

  // ---- Steps ----

  /** A Start's and a LockRow's answer stands for all checks on rows of tables outside this model, such as
      the assigned worker's account or the latest inspection: a run may take any answers. */
  datatype Event =
    | Start(id: nat, actor: Actor, op: Op, answer: bool)
    | LockApproval(id: nat)
    | LockRow(id: nat, answer: bool)
    | SkipRow(id: nat)
    | Commit(id: nat, now: nat)
    | Abort(id: nat)

  ghost predicate RowFree(s: State) {
    forall t :: t in s.handlers ==> !s.handlers[t].phase.HoldsRow?
  }

  predicate LocksApproval(h: Handler, k: nat) {
    h.op.Decide? && h.op.approval == k && (h.phase.HoldsApproval? || h.phase.HoldsRow?)
  }

  ghost predicate ApprovalFree(s: State, k: nat) {
    forall t :: t in s.handlers ==> !LocksApproval(s.handlers[t], k)
  }

  function Without(s: State, t: nat): State {
    s.(handlers := s.handlers - {t})
  }

  function To(s: State, t: nat, phase: Phase): State
    requires t in s.handlers
  {
    s.(handlers := s.handlers[t := s.handlers[t].(phase := phase)])
  }

  ghost function Step(s: State, e: Event): State {
    if e.Start? then
      if e.id !in s.handlers && e.answer && Admits(e.actor, e.op, s.db.row)
          && AdmitsApproval(e.actor, e.op, s.db.approvals)
      then s.(handlers := s.handlers[e.id := Handler(e.actor, e.op, s.db.row, Checked)])
      else s
    else if e.id !in s.handlers then s
    else
      var h := s.handlers[e.id];
      match e
      case LockApproval(t) =>
        if !h.op.Decide? || !h.phase.Checked? || !ApprovalFree(s, h.op.approval) then s
        else if AdmitsApproval(h.actor, h.op, s.db.approvals) then To(s, t, HoldsApproval)
        else Without(s, t)
      case LockRow(t, answer) =>
        var ready := if h.op.Decide? then h.phase.HoldsApproval? else h.phase.Checked?;
        if !ready || !UpdatesRow(h.op, h.seen) || !RowFree(s) then s
        else if Rechecks(h, s.db.row) && answer then To(s, t, HoldsRow(s.db.row))
        else if h.op.Cancel? then s
        else Without(s, t)
      case SkipRow(t) =>
        if h.phase.Checked? && (!UpdatesRow(h.op, h.seen) || (h.op.Cancel? && s.db.row.version != h.op.version))
        then To(s, t, WithoutRow)
        else s
      case Commit(t, now) =>
        if h.phase.HoldsRow? || h.phase.WithoutRow? then Without(s, t).(db := Committed(s.db, h, now)) else s
      case Abort(t) => Without(s, t)
  }

  ghost function Run(s: State, events: seq<Event>): State
    decreases |events|
  {
    if events == [] then s else Run(Step(s, events[0]), events[1..])
  }

  /** A request as POST /requests leaves it */
  function Initial(creator: nat, content: Content): State {
    var row := Request(creator, Created, content, None, None, false, 1);
    State(Db(row, [row], [HistoryRow(None, Created, Creation, 1)], [], []), map[])
  }

  // ---- The invariant ----

  /** The committed versions of the row are numbered 1, 2, 3, ... and the row is the last of them. */
  ghost predicate LogOk(db: Db) {
    && |db.past| == db.row.version > 0
    && db.past[|db.past| - 1] == db.row
    && forall i :: 0 <= i < |db.past| ==> db.past[i].version == i + 1
  }

  ghost predicate SeenOk(db: Db, h: Handler) {
    0 < h.seen.version <= |db.past| && db.past[h.seen.version - 1] == h.seen && Admits(h.actor, h.op, h.seen)
  }

  ghost predicate PhaseOk(db: Db, h: Handler) {
    match h.phase
    case HoldsRow(base) => base == db.row && Rechecks(h, base) && UpdatesRow(h.op, h.seen)
    case WithoutRow => h.op.Cancel? ==> h.op.version < db.row.version
    case _ => true
  }

  ghost predicate DecisionOk(db: Db, h: Handler) {
    && (h.op.Decide? ==> h.op.approval < |db.approvals| && !h.phase.WithoutRow?)
    && (h.op.Decide? && (h.phase.HoldsApproval? || h.phase.HoldsRow?) ==> Undecided(db.approvals[h.op.approval].status))
  }

  ghost predicate LocksExclusive(s: State) {
    && (forall t, u :: t in s.handlers && u in s.handlers && t != u
                       ==> !(s.handlers[t].phase.HoldsRow? && s.handlers[u].phase.HoldsRow?))
    && (forall t, u, k: nat :: t in s.handlers && u in s.handlers && t != u
                          ==> !(LocksApproval(s.handlers[t], k) && LocksApproval(s.handlers[u], k)))
  }

  /** At most the last assignment is open, each starts where the one before it ended up, and the row names the last. */
  ghost predicate AssignmentsOk(row: Request, assignments: seq<Assignment>) {
    if assignments == [] then row.assignee.None? && row.department.None?
    else
      var last := assignments[|assignments| - 1];
      && last.open && row.assignee == Some(last.toUser) && row.department == last.toDepartment
      && (forall i :: 0 <= i < |assignments| - 1 ==> !assignments[i].open)
      && assignments[0].fromUser.None? && assignments[0].fromDepartment.None?
      && (forall i :: 0 < i < |assignments| ==>
                        && assignments[i].fromUser == Some(assignments[i - 1].toUser)
                        && assignments[i].fromDepartment == assignments[i - 1].toDepartment)
  }

  ghost predicate ApprovalOk(a: Approval) {
    && WellFormedLog(a.decisions)
    && a.status == Fold(a.decisions)
    && (a.decidedAt.Some? <==> a.decisions != [] && a.decisions[|a.decisions| - 1] != RequestInfo)
  }

  /** The row says what happened: the version it wrote and the one before it have the statuses it names. */
  ghost predicate Truthful(past: seq<Request>, r: HistoryRow) {
    && 2 <= r.version <= |past|
    && r.from == Some(past[r.version - 2].status)
    && r.to == past[r.version - 1].status
  }

  predicate AlwaysTruthful(op: Op) {
    op.Transition? || op.Assign? || op.Decide?
  }

  ghost predicate HistoryOk(past: seq<Request>, r: HistoryRow) {
    r.origin.By? && AlwaysTruthful(r.origin.op) ==>
      Truthful(past, r) && (r.origin.op.Transition? ==> r.from.Some? && r.to in AllowedTransitions(r.from.value))
  }

  ghost predicate Inv(s: State) {
    && LogOk(s.db)
    && (forall t :: t in s.handlers ==>
                      SeenOk(s.db, s.handlers[t]) && PhaseOk(s.db, s.handlers[t]) && DecisionOk(s.db, s.handlers[t]))
    && LocksExclusive(s)
    && AssignmentsOk(s.db.row, s.db.assignments)
    && (forall k :: 0 <= k < |s.db.approvals| ==> ApprovalOk(s.db.approvals[k]))
    && (forall r :: r in s.db.history ==> HistoryOk(s.db.past, r))
  }

  /** A handler that compared the version and holds the row's lock has seen the very row it is about to replace. */
  lemma SeenIsCurrent(db: Db, h: Handler)
    requires LogOk(db) && SeenOk(db, h) && PhaseOk(db, h)
    requires h.phase.HoldsRow? && ComparesVersion(h.op)
    ensures h.seen == db.row == h.phase.base
  {
  }

  ghost predicate Committing(s: State, t: nat) {
    t in s.handlers && (s.handlers[t].phase.HoldsRow? || s.handlers[t].phase.WithoutRow?)
  }

  lemma CommitKeepsLog(db: Db, h: Handler, now: nat)
    requires LogOk(db) && PhaseOk(db, h)
    ensures LogOk(Committed(db, h, now))
    ensures db.past <= Committed(db, h, now).past
  {
  }

  lemma CommitKeepsAssignments(db: Db, h: Handler, now: nat)
    requires LogOk(db) && SeenOk(db, h) && PhaseOk(db, h)
    requires AssignmentsOk(db.row, db.assignments)
    ensures AssignmentsOk(Committed(db, h, now).row, Committed(db, h, now).assignments)
  {
    if h.phase.HoldsRow? && h.op.Assign? {
      SeenIsCurrent(db, h);
      var after := WrittenAssignments(h, db.assignments);
      var n := |db.assignments|;
      assert forall i :: 0 <= i < n ==> after[i] == db.assignments[i].(open := false);
      if n > 0 {
        assert after[n].fromUser == Some(after[n - 1].toUser);
      }
    }
  }

  lemma CommitKeepsApprovals(db: Db, h: Handler, now: nat)
    requires PhaseOk(db, h) && DecisionOk(db, h)
    requires forall k :: 0 <= k < |db.approvals| ==> ApprovalOk(db.approvals[k])
    ensures var after := Committed(db, h, now).approvals; forall k :: 0 <= k < |after| ==> ApprovalOk(after[k])
  {
    if h.phase.HoldsRow? && h.op.Decide? {
      DecideKeepsOk(db.approvals[h.op.approval], h.op.decision, now);
    }
  }

  lemma DecideKeepsOk(a: Approval, decision: Decision, now: nat)
    requires ApprovalOk(a) && Undecided(a.status)
    ensures var status := ApprovalAfter(decision);
            ApprovalOk(Approval(status, if status == Approved || status == Refused then Some(now) else None,
                                a.assignedTo, a.decisions + [decision]))
  {
    var all := a.decisions + [decision];
    forall i | 0 <= i < |all| - 1 ensures all[i] == RequestInfo {
      assert all[i] == a.decisions[i];
    }
  }

  lemma CommitKeepsHistory(db: Db, h: Handler, now: nat)
    requires LogOk(db) && SeenOk(db, h) && PhaseOk(db, h) && DecisionOk(db, h)
    requires forall r :: r in db.history ==> HistoryOk(db.past, r)
    ensures var after := Committed(db, h, now); forall r :: r in after.history ==> HistoryOk(after.past, r)
  {
    var after := Committed(db, h, now);
    CommitKeepsLog(db, h, now);
    forall r | r in db.history ensures HistoryOk(after.past, r) {
      assert HistoryOk(db.past, r);
    }
    if h.phase.HoldsRow? {
      WrittenHistoryOk(db, h, now);
    }
  }

  lemma WrittenHistoryOk(db: Db, h: Handler, now: nat)
    requires LogOk(db) && SeenOk(db, h) && PhaseOk(db, h) && h.phase.HoldsRow?
    ensures var after := Committed(db, h, now);
            forall r :: r in WrittenHistory(h, db.row, after.row.version) ==> HistoryOk(after.past, r)
  {
    if ComparesVersion(h.op) {
      SeenIsCurrent(db, h);
    }
    var after := Committed(db, h, now);
    assert after.past[after.row.version - 1] == after.row && after.past[after.row.version - 2] == db.row;
  }

  lemma CommitKeepsOthers(s: State, t: nat, now: nat, u: nat)
    requires Inv(s) && Committing(s, t) && u in s.handlers && u != t
    ensures var db := Committed(s.db, s.handlers[t], now);
            SeenOk(db, s.handlers[u]) && PhaseOk(db, s.handlers[u]) && DecisionOk(db, s.handlers[u])
  {
    var h, g := s.handlers[t], s.handlers[u];
    CommitKeepsLog(s.db, h, now);
    if h.phase.HoldsRow? && h.op.Decide? {
      assert LocksApproval(h, h.op.approval) && !LocksApproval(g, h.op.approval);
    }
  }

  lemma CommitKeepsInv(s: State, t: nat, now: nat)
    requires Inv(s) && Committing(s, t)
    ensures Inv(Step(s, Commit(t, now)))
  {
    var h := s.handlers[t];
    CommitKeepsLog(s.db, h, now);
    CommitKeepsAssignments(s.db, h, now);
    CommitKeepsApprovals(s.db, h, now);
    CommitKeepsHistory(s.db, h, now);
    var s' := Step(s, Commit(t, now));
    forall u | u in s'.handlers
      ensures SeenOk(s'.db, s'.handlers[u]) && PhaseOk(s'.db, s'.handlers[u]) && DecisionOk(s'.db, s'.handlers[u])
    {
      CommitKeepsOthers(s, t, now, u);
    }
  }

  lemma PhaseChangeKeepsInv(s: State, t: nat, phase: Phase)
    requires Inv(s) && t in s.handlers
    requires var g := s.handlers[t].(phase := phase); PhaseOk(s.db, g) && DecisionOk(s.db, g)
    requires phase.HoldsRow? ==> RowFree(s)
    requires phase.HoldsApproval? ==> !s.handlers[t].op.Decide? || ApprovalFree(s, s.handlers[t].op.approval)
    requires phase.HoldsRow? && s.handlers[t].op.Decide? ==> s.handlers[t].phase.HoldsApproval?
    ensures Inv(To(s, t, phase))
  {
  }

  lemma StepKeepsInv(s: State, e: Event)
    requires Inv(s)
    ensures Inv(Step(s, e))
  {
    if e.Start? || e.id !in s.handlers {
      StartKeepsInv(s, e);
    } else {
      match e
      case LockApproval(t) =>
        if Step(s, e) == To(s, t, HoldsApproval) != s {
          PhaseChangeKeepsInv(s, t, HoldsApproval);
        }
      case LockRow(t, _) =>
        if Step(s, e) == To(s, t, HoldsRow(s.db.row)) != s {
          PhaseChangeKeepsInv(s, t, HoldsRow(s.db.row));
        }
      case SkipRow(t) =>
        if Step(s, e) == To(s, t, WithoutRow) != s {
          PhaseChangeKeepsInv(s, t, WithoutRow);
        }
      case Commit(t, now) =>
        if Committing(s, t) {
          CommitKeepsInv(s, t, now);
        }
      case Abort(_) =>
    }
  }

  lemma StartKeepsInv(s: State, e: Event)
    requires Inv(s) && (e.Start? || e.id !in s.handlers)
    ensures Inv(Step(s, e))
  {
    if Step(s, e) != s {
      StartedOk(s.db, e);
      StartKeepsLocks(s, e);
    }
  }

  lemma StartedOk(db: Db, e: Event)
    requires LogOk(db) && e.Start? && Admits(e.actor, e.op, db.row) && AdmitsApproval(e.actor, e.op, db.approvals)
    ensures var h := Handler(e.actor, e.op, db.row, Checked); SeenOk(db, h) && PhaseOk(db, h) && DecisionOk(db, h)
  {
  }

  lemma StartKeepsLocks(s: State, e: Event)
    requires LocksExclusive(s) && e.Start?
    ensures LocksExclusive(Step(s, e))
  {
  }

  lemma {:induction false} RunKeepsInv(s: State, events: seq<Event>)
    requires Inv(s)
    ensures Inv(Run(s, events))
    decreases |events|
  {
    if events != [] {
      StepKeepsInv(s, events[0]);
      RunKeepsInv(Step(s, events[0]), events[1..]);
    }
  }

  lemma InitialOk(creator: nat, content: Content)
    ensures Inv(Initial(creator, content))
  {
  }

  lemma ReachableOk(creator: nat, content: Content, events: seq<Event>)
    ensures Inv(Run(Initial(creator, content), events))
  {
    InitialOk(creator, content);
    RunKeepsInv(Initial(creator, content), events);
  }

  // ---- What every run keeps ----

  /** No ABA: whatever ran in between, a handler that compares the version and holds the lock replaces exactly the row
      it read, so a committed transition follows an edge of the table from the true status and logs that status. */
  lemma NoAba(creator: nat, content: Content, events: seq<Event>, t: nat, now: nat)
    ensures var s := Run(Initial(creator, content), events);
            var s' := Step(s, Commit(t, now));
            t in s.handlers && s.handlers[t].phase.HoldsRow?
            && (var op := s.handlers[t].op; op.Edit? || op.Assign? || op.Transition? || op.Cancel?) ==>
              var op := s.handlers[t].op;
              && s.handlers[t].seen == s.db.row
              && s'.db.row.version == op.version + 1
              && (op.Transition? ==>
                    && op.to in AllowedTransitions(s.db.row.status)
                    && s'.db.row == s.db.row.(status := op.to, version := op.version + 1)
                    && s'.db.history
                        == s.db.history + [HistoryRow(Some(s.db.row.status), op.to, By(op), op.version + 1)])
              && (op.Assign? ==>
                    && !Finished(s.db.row.status)
                    && s'.db.row.status == Assigned && s'.db.row.assignee == Some(op.worker)
                    && s'.db.history
                        == s.db.history + [HistoryRow(Some(s.db.row.status), Assigned, By(op), op.version + 1)])
  {
    ReachableOk(creator, content, events);
    var s := Run(Initial(creator, content), events);
    if t in s.handlers && s.handlers[t].phase.HoldsRow? && ComparesVersion(s.handlers[t].op) {
      SeenIsCurrent(s.db, s.handlers[t]);
    }
  }

  /** Every row that a transition, an assignment or a decision ever wrote to the history names the true statuses on
      either side, and those of transitions are edges of the table. */
  lemma HistoryOfTransitionsIsTrue(creator: nat, content: Content, events: seq<Event>, r: HistoryRow)
    requires var db := Run(Initial(creator, content), events).db; r in db.history
    requires r.origin.By? && (r.origin.op.Transition? || r.origin.op.Assign? || r.origin.op.Decide?)
    ensures var db := Run(Initial(creator, content), events).db;
            && Truthful(db.past, r)
            && (r.origin.op.Transition? ==> r.to in AllowedTransitions(r.from.value))
  {
    ReachableOk(creator, content, events);
  }

  /** At most one assignment is open, one is exactly when the request has an assignee, it names the assignee, and
      successive assignments form an unbroken chain of users and departments. */
  lemma AssignmentsFormAChain(creator: nat, content: Content, events: seq<Event>)
    ensures var db := Run(Initial(creator, content), events).db;
            && (forall i, j :: 0 <= i < j < |db.assignments| ==> !db.assignments[i].open || !db.assignments[j].open)
            && (db.row.assignee.Some? <==> exists i :: 0 <= i < |db.assignments| && db.assignments[i].open)
            && (forall i :: 0 <= i < |db.assignments| && db.assignments[i].open ==>
                              db.row.assignee == Some(db.assignments[i].toUser)
                                  && db.row.department == db.assignments[i].toDepartment)
            && (forall i :: 0 < i < |db.assignments| ==>
                              && db.assignments[i].fromUser == Some(db.assignments[i - 1].toUser)
                              && db.assignments[i].fromDepartment == db.assignments[i - 1].toDepartment)
  {
    ReachableOk(creator, content, events);
    var db := Run(Initial(creator, content), events).db;
    if db.assignments != [] {
      assert db.assignments[|db.assignments| - 1].open;
    }
  }

  /** An approval's log is requests for information followed by at most one final decision; its status is what the log
      amounts to, and it has a decision time exactly when a final decision is in the log. */
  lemma ApprovalsFollowTheirLog(creator: nat, content: Content, events: seq<Event>, k: nat)
    requires k < |Run(Initial(creator, content), events).db.approvals|
    ensures var a := Run(Initial(creator, content), events).db.approvals[k];
            && WellFormedLog(a.decisions)
            && a.status == Fold(a.decisions)
            && (a.decidedAt.Some? <==> Approve in a.decisions || Reject in a.decisions)
  {
    ReachableOk(creator, content, events);
    var a := Run(Initial(creator, content), events).db.approvals[k];
    if a.decidedAt.Some? {
      assert a.decisions[|a.decisions| - 1] in a.decisions;
    }
  }

  // ---- Lost updates ----

  lemma VersionNeverFalls(s: State, e: Event)
    requires Inv(s)
    ensures s.db.row.version <= Step(s, e).db.row.version
  {
    if e.id in s.handlers && e.Commit? {
      CommitKeepsLog(s.db, s.handlers[e.id], e.now);
    }
  }

  lemma {:induction false} VersionNeverFallsInRun(s: State, events: seq<Event>)
    requires Inv(s)
    ensures s.db.row.version <= Run(s, events).db.row.version
    decreases |events|
  {
    if events != [] {
      VersionNeverFalls(s, events[0]);
      StepKeepsInv(s, events[0]);
      VersionNeverFallsInRun(Step(s, events[0]), events[1..]);
    }
  }

  /** Of all handlers that sent the same version, at most one ever replaces the row: after its commit, no handler that
      compares with that version gets to hold the row again. */
  lemma OneWinnerPerVersion(creator: nat, content: Content, before: seq<Event>, t: nat, now: nat, after: seq<Event>,
      u: nat)
    requires var s := Run(Initial(creator, content), before);
             t in s.handlers && s.handlers[t].phase.HoldsRow?
             && (var op := s.handlers[t].op; op.Edit? || op.Assign? || op.Transition? || op.Cancel?)
    ensures var s := Run(Initial(creator, content), before);
            var s' := Run(Step(s, Commit(t, now)), after);
            u in s'.handlers && s'.handlers[u].phase.HoldsRow?
            && (var op := s'.handlers[u].op; op.Edit? || op.Assign? || op.Transition? || op.Cancel?) ==>
              s'.handlers[u].op.version != s.handlers[t].op.version
  {
    ReachableOk(creator, content, before);
    var s := Run(Initial(creator, content), before);
    StepKeepsInv(s, Commit(t, now));
    SeenIsCurrent(s.db, s.handlers[t]);
    var mid := Step(s, Commit(t, now));
    RunKeepsInv(mid, after);
    VersionNeverFallsInRun(mid, after);
  }

  // ---- Terminal statuses ----

  /** The handlers of the request's own routes; approvals and inspections are the others. */
  predicate OwnRoute(op: Op) {
    op.Edit? || op.Assign? || op.Transition? || op.Cancel? || op.FieldCompletion? || op.Resolve? || op.Delete?
  }

  ghost predicate OnlyOwnRoutes(events: seq<Event>) {
    forall e :: e in events && e.Start? ==> OwnRoute(e.op)
  }

  ghost predicate HandlersOnOwnRoutes(s: State) {
    forall t :: t in s.handlers ==> OwnRoute(s.handlers[t].op)
  }

  lemma TerminalStep(s: State, e: Event)
    requires Inv(s) && HandlersOnOwnRoutes(s) && (e.Start? ==> OwnRoute(e.op))
    ensures HandlersOnOwnRoutes(Step(s, e))
    ensures Terminal(s.db.row.status) ==> Step(s, e).db.row.status == s.db.row.status
  {
    if e.Commit? && e.id in s.handlers && s.handlers[e.id].phase.HoldsRow? {
      var h := s.handlers[e.id];
      if ComparesVersion(h.op) {
        SeenIsCurrent(s.db, h);
      }
    }
  }

  lemma {:induction false} TerminalRun(s: State, events: seq<Event>)
    requires Inv(s) && HandlersOnOwnRoutes(s) && OnlyOwnRoutes(events)
    ensures HandlersOnOwnRoutes(Run(s, events))
    ensures Terminal(s.db.row.status) ==> Run(s, events).db.row.status == s.db.row.status
    decreases |events|
  {
    if events != [] {
      TerminalStep(s, events[0]);
      StepKeepsInv(s, events[0]);
      TerminalRun(Step(s, events[0]), events[1..]);
    }
  }

  /** Among the request's own routes, a closed, rejected, cancelled or duplicate request keeps its status in every
      run. */
  lemma TerminalIsAbsorbing(creator: nat, content: Content, before: seq<Event>, after: seq<Event>)
    requires forall e :: e in before + after && e.Start? ==>
               || e.op.Edit? || e.op.Assign? || e.op.Transition? || e.op.Cancel? || e.op.FieldCompletion?
               || e.op.Resolve? || e.op.Delete?
    ensures var s := Run(Initial(creator, content), before);
            Terminal(s.db.row.status) ==> Run(s, after).db.row.status == s.db.row.status
  {
    assert forall e :: e in before || e in after ==> e in before + after;
    var s0 := Initial(creator, content);
    InitialOk(creator, content);
    TerminalRun(s0, before);
    RunKeepsInv(s0, before);
    TerminalRun(Run(s0, before), after);
  }

  // ---- Runs put together ----

  lemma {:induction false} RunConcat(s: State, a: seq<Event>, b: seq<Event>)
    ensures Run(s, a + b) == Run(Run(s, a), b)
    decreases |a|
  {
    if a == [] {
      assert a + b == b;
    } else {
      assert (a + b)[1..] == a[1..] + b;
      RunConcat(Step(s, a[0]), a[1..], b);
    }
  }

  lemma RunOfTwo(s: State, e1: Event, e2: Event)
    ensures Run(s, [e1, e2]) == Step(Step(s, e1), e2)
  {
    assert [e1, e2][1..] == [e2] && [e2][1..] == [];
    assert Run(s, [e1, e2]) == Run(Step(s, e1), [e2]) == Run(Step(Step(s, e1), e2), []);
  }

  lemma RunOfFour(s: State, e1: Event, e2: Event, e3: Event, e4: Event)
    ensures Run(s, [e1, e2, e3, e4]) == Step(Step(Step(Step(s, e1), e2), e3), e4)
  {
    assert [e1, e2, e3, e4][1..][1..] == [e3, e4];
    RunOfTwo(Step(Step(s, e1), e2), e3, e4);
  }
}
