/** One request with its inspections, when every handler runs alone: all it reads and writes happens at one moment.

    What a handler does to the request's own tables is what it does in RequestInterleaving when nobody interferes. */
module CaseRules {
  import opened Wrappers
  import opened Workflow
  import opened Inspections
  import R = RequestInterleaving

  datatype Case = Case(db: R.Db, inspections: seq<Inspection>)

  /** found: whether the user named in the body is an active field worker, or an active approver.
      latest, existing: what the database answers to the handler's lookup of an inspection. */
  datatype Command =
    | OnRequest(op: R.Op, found: bool)
    | CompleteField(latest: Option<nat>, summary: string)
    | Finish(latest: Option<nat>)
    | Schedule(existing: Option<nat>)
    | PatchOne(index: nat, patch: Patch)

  datatype Served = Served(actor: Actor, command: Command, now: nat)

  predicate OnOwnRoute(op: R.Op) {
    op.Edit? || op.Assign? || op.Transition? || op.Cancel? || op.Delete? || op.SubmitApproval? || op.Decide?
  }

  function MoveOf(p: Patch, i: Inspection): R.InspectionMove {
    if ChangesTo(p, i, Ongoing) then R.Starting
    else if ChangesTo(p, i, Completed) then R.Completing
    else if ChangesTo(p, i, CalledOff) then R.CancellingInspection
    else R.Staying
  }

  /** The handler that a command starts */
  function OpOf(c: Case, cmd: Command): R.Op {
    match cmd
    case OnRequest(op, _) => op
    case CompleteField(_, _) => R.FieldCompletion
    case Finish(_) => R.Resolve
    case Schedule(_) => R.ScheduleInspection
    case PatchOne(k, p) =>
      R.PatchInspection(if k < |c.inspections| then MoveOf(p, c.inspections[k]) else R.Staying)
  }

  /** The lookup of the latest inspection returned a row with this status. */
  ghost predicate Found(rows: seq<Inspection>, latest: Option<nat>, s: InspectionStatus) {
    Answers(rows, ANY, latest) && latest.Some? && rows[latest.value].status == s
  }

  /** The checks on rows of other tables than the request's own */
  ghost predicate OthersAdmit(c: Case, actor: Actor, cmd: Command) {
    match cmd
    case OnRequest(op, found) =>
      && OnOwnRoute(op)
      && (op.Assign? || (op.SubmitApproval? && op.approver.Some?) ==> found)
      && R.AdmitsApproval(actor, op, c.db.approvals)
    case CompleteField(latest, _) => Found(c.inspections, latest, Ongoing)
    case Finish(latest) => Found(c.inspections, latest, Completed)
    case Schedule(existing) => Answers(c.inspections, ACTIVE, existing) && existing.None?
    case PatchOne(k, p) =>
      && k < |c.inspections|
      && (p.latitude.Some? == p.longitude.Some?)
      && (actor.role == GovWorker ==> c.inspections[k].officer == actor.id)
      && PatchAllowed(p, c.inspections[k])
  }

  /** Whether the handler gets to its writes */
  ghost predicate Accepts(c: Case, actor: Actor, cmd: Command) {
    R.Admits(actor, OpOf(c, cmd), c.db.row) && OthersAdmit(c, actor, cmd)
  }

  /** The handler at its commit: it has read the row as it is, and holds its lock if it updates it. */
  function Alone(c: Case, actor: Actor, cmd: Command): R.Handler {
    var (op, row) := (OpOf(c, cmd), c.db.row);
    R.Handler(actor, op, row, if R.UpdatesRow(op, row) then R.HoldsRow(row) else R.WithoutRow)
  }

  function InspectionsAfter(c: Case, cmd: Command, now: nat): seq<Inspection>
    requires cmd.PatchOne? ==> cmd.index < |c.inspections|
    requires cmd.CompleteField? ==> cmd.latest.Some? && cmd.latest.value < |c.inspections|
    requires cmd.Schedule? ==> c.db.row.assignee.Some?
  {
    match cmd
    case CompleteField(latest, summary) =>
      var k := latest.value;
      c.inspections[k := CompletedBy(c.inspections[k], summary, now)]
    case Schedule(_) => c.inspections + [NewInspection(c.db.row.assignee.value, now)]
    case PatchOne(k, p) => c.inspections[k := Patched(p, c.inspections[k], now)]
    case _ => c.inspections
  }

  ghost function After(c: Case, actor: Actor, cmd: Command, now: nat): Case {
    if Accepts(c, actor, cmd)
    then Case(R.Committed(c.db, Alone(c, actor, cmd), now), InspectionsAfter(c, cmd, now))
    else c
  }

  ghost function Run(c: Case, served: seq<Served>): Case
    decreases |served|
  {
    if served == [] then c else Run(After(c, served[0].actor, served[0].command, served[0].now), served[1..])
  }

  function Opened(creator: nat, content: Content): Case {
    Case(R.Initial(creator, content).db, [])
  }

  /** The clock never goes back. */
  ghost predicate Ticking(clock: int, served: seq<Served>)
    decreases |served|
  {
    served != [] ==> clock <= served[0].now && Ticking(served[0].now, served[1..])
  }

  // ---- A handler alone is a run of the interleaved handlers ----

  function EventsOf(c: Case, actor: Actor, cmd: Command, now: nat): seq<R.Event> {
    var (op, row) := (OpOf(c, cmd), c.db.row);
    [R.Start(0, actor, op, true),
     if op.Decide? then R.LockApproval(0) else R.SkipRow(0),
     if R.UpdatesRow(op, row) then R.LockRow(0, true) else R.SkipRow(0),
     R.Commit(0, now)]
  }

  lemma AloneIsAnInterleaving(c: Case, actor: Actor, cmd: Command, now: nat)
    requires Accepts(c, actor, cmd)
    ensures R.Run(R.State(c.db, map[]), EventsOf(c, actor, cmd, now)) == R.State(After(c, actor, cmd, now).db, map[])
  {
    var events := EventsOf(c, actor, cmd, now);
    var s0 := R.State(c.db, map[]);
    var op := OpOf(c, cmd);
    var s1 := R.Step(s0, events[0]);
    var h := R.Handler(actor, op, c.db.row, R.Checked);
    assert s1 == R.State(c.db, map[0 := h]);
    var s2 := R.Step(s1, events[1]);
    assert op.Decide? ==> s2 == R.State(c.db, map[0 := h.(phase := R.HoldsApproval)]);
    var s3 := R.Step(s2, events[2]);
    assert s3 == R.State(c.db, map[0 := Alone(c, actor, cmd)]);
    R.RunOfFour(s0, events[0], events[1], events[2], events[3]);
  }

  /** So everything proved of interleaved handlers also holds of the request's tables here. */
  lemma AfterKeepsTables(c: Case, actor: Actor, cmd: Command, now: nat)
    requires R.Inv(R.State(c.db, map[]))
    ensures R.Inv(R.State(After(c, actor, cmd, now).db, map[]))
  {
    if Accepts(c, actor, cmd) {
      AloneIsAnInterleaving(c, actor, cmd, now);
      R.RunKeepsInv(R.State(c.db, map[]), EventsOf(c, actor, cmd, now));
    }
  }

  lemma {:induction false} RunKeepsTables(c: Case, served: seq<Served>)
    requires R.Inv(R.State(c.db, map[]))
    ensures R.Inv(R.State(Run(c, served).db, map[]))
    decreases |served|
  {
    if served != [] {
      var s := served[0];
      AfterKeepsTables(c, s.actor, s.command, s.now);
      RunKeepsTables(After(c, s.actor, s.command, s.now), served[1..]);
    }
  }

  // ---- The history ----

  /** A path that starts with the creation, every row going on from where the last one ended, up to the status */
  ghost predicate Path(history: seq<R.HistoryRow>, status: Status) {
    && history != []
    && history[0].from.None? && history[0].to == Created
    && (forall i :: 0 < i < |history| ==> history[i].from == Some(history[i - 1].to))
    && history[|history| - 1].to == status
  }

  predicate Unlogged(cmd: Command) {
    cmd.OnRequest? && (cmd.op.Edit? || cmd.op.Delete?)
  }

  lemma HistoryAfter(c: Case, actor: Actor, cmd: Command, now: nat)
    requires Path(c.db.history, c.db.row.status)
    ensures var after := After(c, actor, cmd, now);
            && Path(after.db.history, after.db.row.status)
            && after.db.row.version - |after.db.history|
               == c.db.row.version - |c.db.history| + if Accepts(c, actor, cmd) && Unlogged(cmd) then 1 else 0
  {
  }

  ghost function LastTick(clock: int, served: seq<Served>): int {
    if served == [] then clock else served[|served| - 1].now
  }

  /** Accepted edits and deletions */
  ghost function UnloggedIn(c: Case, served: seq<Served>): nat
    decreases |served|
  {
    if served == [] then 0
    else
      var s := served[0];
      (if Accepts(c, s.actor, s.command) && Unlogged(s.command) then 1 else 0)
      + UnloggedIn(After(c, s.actor, s.command, s.now), served[1..])
  }

  lemma {:induction false} RunKeepsPath(c: Case, served: seq<Served>)
    requires Path(c.db.history, c.db.row.status)
    ensures var end := Run(c, served);
            && Path(end.db.history, end.db.row.status)
            && end.db.row.version - |end.db.history| == c.db.row.version - |c.db.history| + UnloggedIn(c, served)
    decreases |served|
  {
    if served != [] {
      var s := served[0];
      HistoryAfter(c, s.actor, s.command, s.now);
      RunKeepsPath(After(c, s.actor, s.command, s.now), served[1..]);
    }
  }

  /** After any handlers, one at a time, the history leads from the creation to the current status, and the version is
      the number of its rows plus the edits and deletions. */
  lemma HistoryIsAPath(creator: nat, content: Content, served: seq<Served>)
    ensures var c := Opened(creator, content);
            var end := Run(c, served);
            && Path(end.db.history, end.db.row.status)
            && end.db.row.version == |end.db.history| + UnloggedIn(c, served)
  {
    RunKeepsPath(Opened(creator, content), served);
  }

  // ---- Inspections ----

  lemma InspectionsStayOk(c: Case, actor: Actor, cmd: Command, clock: int, now: nat)
    requires RowsOk(c.inspections, clock) && clock <= now
    ensures RowsOk(After(c, actor, cmd, now).inspections, now)
  {
    LaterClock(c.inspections, clock, now);
    if Accepts(c, actor, cmd) {
      match cmd {
        case CompleteField(latest, summary) =>
          var k := latest.value;
          CompletionKeepsWellTimed(c.inspections[k], summary, clock, now);
          ReplaceKeepsRows(c.inspections, k, CompletedBy(c.inspections[k], summary, now), clock, now);
        case Schedule(_) =>
          InsertKeepsRows(c.inspections, c.db.row.assignee.value, clock, now);
        case PatchOne(k, p) =>
          PatchKeepsWellTimed(p, c.inspections[k], clock, now);
          ReplaceKeepsRows(c.inspections, k, Patched(p, c.inspections[k], now), clock, now);
        case _ =>
      }
    }
  }

  lemma {:induction false} RunKeepsRows(c: Case, clock: int, served: seq<Served>)
    requires RowsOk(c.inspections, clock) && Ticking(clock, served)
    ensures RowsOk(Run(c, served).inspections, LastTick(clock, served))
    decreases |served|
  {
    if served != [] {
      var s := served[0];
      InspectionsStayOk(c, s.actor, s.command, clock, s.now);
      RunKeepsRows(After(c, s.actor, s.command, s.now), s.now, served[1..]);
    }
  }

  /** With a clock that never goes back, in every run: all times are in order, at most one inspection is active and it
      is the last, and a search for active rows finds it or nothing. A lookup of the latest row of any status is sure
      to return the last row exactly when the last two rows were not created at the same time. */
  lemma InspectionsAreOrdered(creator: nat, content: Content, clock: int, served: seq<Served>)
    requires Ticking(clock, served)
    ensures var rows := Run(Opened(creator, content), served).inspections;
            && (forall i :: 0 <= i < |rows| ==> WellTimed(rows[i], LastTick(clock, served)))
            && (forall i :: 0 <= i < |rows| && Active(rows[i].status) ==> i == |rows| - 1)
            && (forall r :: Answers(rows, ACTIVE, r) <==> r == LastIfActive(rows))
            && (rows != [] ==> (!Tie(rows) <==> forall r :: Answers(rows, ANY, r) ==> r == Some(|rows| - 1)))
  {
    RunKeepsRows(Opened(creator, content), clock, served);
    var rows := Run(Opened(creator, content), served).inspections;
    forall r ensures Answers(rows, ACTIVE, r) <==> r == LastIfActive(rows) {
      ActiveSearchFindsLast(rows, LastTick(clock, served), r);
    }
    if rows != [] {
      LatestIsLastIffNoTie(rows, LastTick(clock, served));
    }
  }

  /** Rows are never removed, and the time of the first check-in stays. */
  ghost predicate KeepsCheckIns(before: seq<Inspection>, after: seq<Inspection>) {
    && |before| <= |after|
    && forall i :: 0 <= i < |before| ==>
                     && after[i].createdAt == before[i].createdAt
                     && (before[i].checkedInAt.Some? ==> after[i].checkedInAt == before[i].checkedInAt)
  }

  lemma AfterKeepsCheckIns(c: Case, actor: Actor, cmd: Command, now: nat)
    ensures KeepsCheckIns(c.inspections, After(c, actor, cmd, now).inspections)
  {
  }

  lemma {:induction false} CheckInTimesNeverChange(c: Case, served: seq<Served>)
    ensures KeepsCheckIns(c.inspections, Run(c, served).inspections)
    decreases |served|
  {
    if served != [] {
      var s := served[0];
      AfterKeepsCheckIns(c, s.actor, s.command, s.now);
      CheckInTimesNeverChange(After(c, s.actor, s.command, s.now), served[1..]);
    }
  }

  // ---- Terminal statuses ----

  ghost predicate NothingUndecided(approvals: seq<Approval>) {
    forall k :: 0 <= k < |approvals| ==> !Undecided(approvals[k].status)
  }

  ghost predicate Settled(c: Case) {
    Terminal(c.db.row.status) && NothingUndecided(c.db.approvals)
  }

  lemma SettledStep(c: Case, actor: Actor, cmd: Command, now: nat)
    requires Settled(c)
    ensures var after := After(c, actor, cmd, now);
            Settled(after) && after.db.row.status == c.db.row.status
  {
  }

  /** A terminal request without an undecided approval keeps its status forever. */
  lemma {:induction false} SettledForever(c: Case, served: seq<Served>)
    requires Settled(c)
    ensures Settled(Run(c, served)) && Run(c, served).db.row.status == c.db.row.status
    decreases |served|
  {
    if served != [] {
      var s := served[0];
      SettledStep(c, s.actor, s.command, s.now);
      SettledForever(After(c, s.actor, s.command, s.now), served[1..]);
    }
  }

  /** A superior approving, who may decide every approval */
  function Approving(k: nat): (Actor, Command) {
    (Actor(0, Superior, {}), OnRequest(R.Decide(k, Approve), true))
  }

  lemma ApprovingMoves(c: Case, k: nat, now: nat)
    requires k < |c.db.approvals| && Undecided(c.db.approvals[k].status)
    ensures After(c, Approving(k).0, Approving(k).1, now).db.row.status == InProgress
  {
    assert Accepts(c, Approving(k).0, Approving(k).1);
  }

  /** The condition is exact: a terminal request leaves its status by some handler if and only if it has an undecided
      approval. */
  lemma TerminalIsLeftIff(c: Case, now: nat)
    requires Terminal(c.db.row.status)
    ensures !NothingUndecided(c.db.approvals)
            <==> exists actor, cmd :: After(c, actor, cmd, now).db.row.status != c.db.row.status
  {
    if !NothingUndecided(c.db.approvals) {
      var k :| 0 <= k < |c.db.approvals| && Undecided(c.db.approvals[k].status);
      ApprovingMoves(c, k, now);
    } else {
      forall actor, cmd ensures After(c, actor, cmd, now).db.row.status == c.db.row.status {
        SettledStep(c, actor, cmd, now);
      }
    }
  }

  /** Such requests do occur: submitted for approval, rejected by a status transition, and then approved. */
  lemma RejectedRequestReopens(creator: nat, content: Content) returns (before: seq<Served>, last: Served)
    ensures Ticking(0, before + [last])
    ensures var c := Run(Opened(creator, content), before);
            && c.db.row.status == Rejected
            && After(c, last.actor, last.command, last.now).db.row.status == InProgress
  {
    var admin := Actor(creator + 1, GovAdmin, {AllRead, Update});
    var submit := Served(admin, OnRequest(R.SubmitApproval(None), true), 1);
    var reject := Served(admin, OnRequest(R.Transition(Rejected, 2), true), 2);
    var (actor, cmd) := Approving(0);
    before, last := [submit, reject], Served(actor, cmd, 3);
    var c0 := Opened(creator, content);
    var c1 := SubmittedAndRejected(c0, submit, reject);
    var c2 := After(c1, admin, reject.command, 2);
    RunOfTwo(c0, submit, reject);
    ApprovingMoves(c2, 0, 3);
    TickingOfThree(0, submit, reject, last);
    assert before + [last] == [submit, reject, last];
  }

  lemma SubmittedAndRejected(c0: Case, submit: Served, reject: Served) returns (c1: Case)
    requires c0.db.row.status == Created && c0.db.row.version == 1 && !c0.db.row.deleted && c0.db.approvals == []
    requires submit.command == OnRequest(R.SubmitApproval(None), true)
    requires reject.command == OnRequest(R.Transition(Rejected, 2), true)
    requires reject.actor.role == GovAdmin && reject.actor.permissions == {AllRead, Update}
    ensures c1 == After(c0, submit.actor, submit.command, submit.now)
    ensures var c2 := After(c1, reject.actor, reject.command, reject.now);
            c2.db.row.status == Rejected && c2.db.approvals == [Approval(Pending, None, None, [])]
  {
    c1 := After(c0, submit.actor, submit.command, submit.now);
    assert c1.db.row.status == AwaitingApproval && c1.db.row.version == 2 && !c1.db.row.deleted;
    assert Rejected in AllowedTransitions(AwaitingApproval);
  }

  lemma RunOfTwo(c: Case, s1: Served, s2: Served)
    ensures Run(c, [s1, s2]) == After(After(c, s1.actor, s1.command, s1.now), s2.actor, s2.command, s2.now)
  {
    assert [s1, s2][1..] == [s2] && [s2][1..] == [];
    var c1 := After(c, s1.actor, s1.command, s1.now);
    assert Run(c, [s1, s2]) == Run(c1, [s2]);
    assert Run(c1, [s2]) == Run(After(c1, s2.actor, s2.command, s2.now), []);
  }

  lemma TickingOfThree(clock: int, s1: Served, s2: Served, s3: Served)
    requires clock <= s1.now <= s2.now <= s3.now
    ensures Ticking(clock, [s1, s2, s3])
  {
    assert [s1, s2, s3][1..] == [s2, s3] && [s2, s3][1..] == [s3] && [s3][1..] == [];
    assert Ticking(s3.now, []) && Ticking(s2.now, [s3]) && Ticking(s1.now, [s2, s3]);
  }
}
