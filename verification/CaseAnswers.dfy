/** What each handler accepts and does when it runs alone, with statuses, roles and permissions by name. */
module CaseAnswers {
  import opened Wrappers
  import opened Workflow
  import opened Inspections
  import opened CaseRules
  import opened RequestStatuses
  import R = RequestInterleaving

  /** The request is there and the actor may read all. */
  predicate Sees(c: Case, actor: Actor) {
    !c.db.row.deleted && AllRead in actor.permissions
  }

  lemma OpenOrResolved(s: Status)
    ensures s in OPEN + {Resolved} <==> !Terminal(s)
  {
    match s
    case Created =>
    case UnderReview =>
    case Assigned =>
    case InspectionScheduled =>
    case Inspecting =>
    case ActionRequired =>
    case InProgress =>
    case NeedsApproval =>
    case AwaitingApproval =>
    case Resolved =>
    case Closed =>
    case Rejected =>
    case Cancelled =>
    case Duplicate =>
  }

  // ---- Who sees a request ----

  /** The widest permission decides: all requests, else the assigned ones, else the own ones, else none; and nobody
      sees a deleted one. A deletion shows it, as it needs nothing else. */
  lemma WhoSees(c: Case, actor: Actor)
    ensures var row := c.db.row;
            var sees := Accepts(c, actor, OnRequest(R.Delete, false));
            && (row.deleted ==> !sees)
            && (!row.deleted && AllRead in actor.permissions ==> sees)
            && (!row.deleted && AllRead !in actor.permissions && AssignedRead in actor.permissions
                ==> (sees <==> row.assignee == Some(actor.id)))
            && (!row.deleted && AllRead !in actor.permissions && AssignedRead !in actor.permissions
                ==> (sees <==> OwnRead in actor.permissions && row.creator == actor.id))
  {
  }

  /** A deletion takes effect at once, and of a deleted request only its approvals can still be decided. */
  lemma DeletedIsGone(c: Case, actor: Actor, now: nat, other: Actor, cmd: Command)
    ensures Accepts(c, actor, OnRequest(R.Delete, false)) ==>
              var after := After(c, actor, OnRequest(R.Delete, false), now);
              after.db.row.deleted && after.db.row.status == c.db.row.status
    ensures c.db.row.deleted && Accepts(c, other, cmd) ==> cmd.OnRequest? && cmd.op.Decide?
  {
  }

  // ---- Statuses in which a handler works ----

  /** Whoever sees the request and sends its version may move it exactly along these edges. */
  lemma AdminTransitions(c: Case, actor: Actor, to: Status)
    requires Sees(c, actor) && actor.role != GovWorker
    ensures var (from, ok) := (c.db.row.status,
        Accepts(c, actor, OnRequest(R.Transition(to, c.db.row.version), false)));
            && (ok <==> from in Sources(to) && to != AwaitingApproval)
            && (from == Created ==> (ok <==> to in {UnderReview, Cancelled}))
            && (from == UnderReview ==> (ok <==> to in {Assigned, Rejected, Duplicate, Cancelled}))
            && (from == InProgress ==> (ok <==> to in {NeedsApproval, Resolved}))
            && (from == Resolved ==> (ok <==> to in {Closed, InProgress}))
            && (from in {Closed, Rejected, Cancelled, Duplicate} ==> !ok)
  {
    TableBothWays(c.db.row.status, to);
  }

  /** A field worker moves only requests that are assigned to them. */
  lemma WorkerTransitions(c: Case, actor: Actor, to: Status)
    requires Sees(c, actor) && actor.role == GovWorker
    ensures Accepts(c, actor, OnRequest(R.Transition(to, c.db.row.version), false))
            <==> && c.db.row.assignee == Some(actor.id)
                 && c.db.row.status in Sources(to) && to != AwaitingApproval
  {
    TableBothWays(c.db.row.status, to);
  }

  /** The creator edits and cancels only a request that is new or under review, and never sets its priority; an
      administrator with the permission edits in every status. */
  lemma EditsAndCancellations(c: Case, actor: Actor, title: Option<string>, priority: Option<Priority>)
    requires Sees(c, actor)
    ensures var row := c.db.row;
            var edit := OnRequest(R.Edit(title, None, priority, None, row.version), false);
            var cancel := OnRequest(R.Cancel(row.version), false);
            && (row.creator == actor.id ==>
                  && (Accepts(c, actor, edit) <==> row.status in {Created, UnderReview} && priority.None?)
                  && (Accepts(c, actor, cancel) <==> row.status in {Created, UnderReview}))
            && (row.creator != actor.id ==>
                  && (Accepts(c, actor, edit) <==> Update in actor.permissions && actor.role != GovWorker)
                  && !Accepts(c, actor, cancel))
  {
  }

  /** Requests are assigned in the nine open statuses, submitted for approval in those and when resolved. */
  lemma AssignmentsAndSubmissions(c: Case, actor: Actor, worker: nat, department: Option<nat>)
    requires Sees(c, actor)
    ensures Accepts(c, actor, OnRequest(R.Assign(worker, None, department, c.db.row.version), true))
            <==> c.db.row.status in OPEN
    ensures !Accepts(c, actor, OnRequest(R.Assign(worker, None, department, c.db.row.version), false))
    ensures Accepts(c, actor, OnRequest(R.SubmitApproval(None), false)) <==> c.db.row.status in OPEN + {Resolved}
    ensures !Accepts(c, actor, OnRequest(R.SubmitApproval(Some(worker)), false))
  {
  }

  /** A version that is not the current one is never accepted. */
  lemma StaleVersions(c: Case, actor: Actor, op: R.Op, found: bool)
    requires (op.Edit? || op.Assign? || op.Transition? || op.Cancel?) && op.version != c.db.row.version
    ensures !Accepts(c, actor, OnRequest(op, found))
  {
  }

  /** Field work is completed by the assigned worker during an inspection, and resolved by an administrator after one.
      */
  lemma CompletionsAndResolutions(c: Case, actor: Actor, latest: Option<nat>, summary: string)
    requires Sees(c, actor) && Answers(c.inspections, ANY, latest)
    ensures Accepts(c, actor, CompleteField(latest, summary))
            <==> && actor.role == GovWorker && c.db.row.assignee == Some(actor.id) && c.db.row.status in OPEN
                 && latest.Some? && c.inspections[latest.value].status == Ongoing
    ensures Accepts(c, actor, Finish(latest))
            <==> && actor.role == GovAdmin && c.db.row.status in OPEN
                 && latest.Some? && c.inspections[latest.value].status == Completed
  {
  }

  /** Inspections are scheduled for an assigned request that is open or resolved and has no active one, by the assigned
      worker or anybody who is not a field worker. */
  lemma Scheduling(c: Case, actor: Actor, existing: Option<nat>)
    requires Sees(c, actor) && Answers(c.inspections, ACTIVE, existing)
    ensures Accepts(c, actor, Schedule(existing))
            <==> && c.db.row.assignee.Some? && (actor.role == GovWorker ==> c.db.row.assignee.value == actor.id)
                 && c.db.row.status in OPEN + {Resolved}
                 && forall i :: 0 <= i < |c.inspections| ==> c.inspections[i].status in {Completed, CalledOff}
  {
    OpenOrResolved(c.db.row.status);
    forall i | 0 <= i < |c.inspections|
      ensures c.inspections[i].status in ACTIVE <==> c.inspections[i].status !in {Completed, CalledOff}
    {
      match c.inspections[i].status
      case Scheduled =>
      case Ongoing =>
      case Completed =>
      case CalledOff =>
    }
  }

  /** A PATCH with a new status starts a scheduled inspection, completes one in progress with a summary, or calls either
      off; and only for a request that is open or resolved. */
  lemma MovingAnInspection(c: Case, actor: Actor, k: nat, status: InspectionStatus, summary: string)
    requires Sees(c, actor) && actor.role != GovWorker && k < |c.inspections| && c.inspections[k].status != status
    ensures Accepts(c, actor, PatchOne(k, Patch(Some(status), None, None, Some(summary))))
            <==> && c.db.row.status in OPEN + {Resolved}
                 && match status
                    case Scheduled => false
                    case Ongoing => c.inspections[k].status == Scheduled
                    case Completed => c.inspections[k].status == Ongoing && summary != ""
                    case CalledOff => c.inspections[k].status in {Scheduled, Ongoing}
  {
    OpenOrResolved(c.db.row.status);
  }

  /** Coordinates come as a pair and only while the inspection is in progress; a field worker patches only their own. */
  lemma CheckingIn(c: Case, actor: Actor, k: nat, latitude: real, longitude: real)
    requires Sees(c, actor) && k < |c.inspections| && c.db.row.status in OPEN
    ensures Accepts(c, actor, PatchOne(k, Patch(None, Some(latitude), Some(longitude), None)))
            <==> && c.inspections[k].status == Ongoing
                 && (actor.role == GovWorker ==> c.inspections[k].officer == actor.id)
    ensures !Accepts(c, actor, PatchOne(k, Patch(None, Some(latitude), None, None)))
    ensures !Accepts(c, actor, PatchOne(k, Patch(None, None, Some(longitude), None)))
  {
  }

  // ---- What they do ----

  /** An edit replaces exactly what it names. */
  lemma EditReplacesWhatItNames(c: Case, actor: Actor, title: Option<string>, description: Option<string>,
                                priority: Option<Priority>, contact: Option<Contact>, now: nat)
    requires Accepts(c, actor, OnRequest(R.Edit(title, description, priority, contact, c.db.row.version), false))
    ensures var cmd := OnRequest(R.Edit(title, description, priority, contact, c.db.row.version), false);
            var (before, after) := (c.db.row, After(c, actor, cmd, now).db.row);
            && after.content.title == (if title.Some? then title.value else before.content.title)
            && after.content.description
                == (if description.Some? then description.value else before.content.description)
            && after.content.priority == (if priority.Some? then priority.value else before.content.priority)
            && after.content.contact == (if contact.Some? then contact.value else before.content.contact)
            && after.status == before.status && after.assignee == before.assignee && after.version == before.version + 1
  {
  }

  /** An assignment names the worker, takes the department of the body, else of the worker, else leaves it, and adds a
      row from the former assignee. */
  lemma AssignmentNamesTheWorker(c: Case, actor: Actor, worker: nat, own: Option<nat>, department: Option<nat>,
      now: nat)
    requires Accepts(c, actor, OnRequest(R.Assign(worker, own, department, c.db.row.version), true))
    ensures var cmd := OnRequest(R.Assign(worker, own, department, c.db.row.version), true);
            var (before, db) := (c.db.row, After(c, actor, cmd, now).db);
            var chosen := if department.Some? then department else if own.Some? then own else before.department;
            && db.row.status == Assigned && db.row.assignee == Some(worker) && db.row.department == chosen
            && |db.assignments| == |c.db.assignments| + 1
            && db.assignments[|c.db.assignments|]
               == Assignment(before.assignee, worker, before.department, chosen, true)
            && forall i :: 0 <= i < |c.db.assignments| ==> !db.assignments[i].open
  {
  }

  /** A decision is accepted while the approval is pending or more information was asked for, from anybody but an
      approver it is not assigned to; and it gives approval and request these statuses. */
  lemma Decisions(c: Case, actor: Actor, k: nat, decision: Decision, now: nat)
    requires k < |c.db.approvals|
    ensures var (a, cmd) := (c.db.approvals[k], OnRequest(R.Decide(k, decision), false));
            var db := After(c, actor, cmd, now).db;
            && (Accepts(c, actor, cmd) <==>
                  && a.status in {Pending, InfoRequested}
                  && (actor.role != Approver || a.assignedTo.None? || a.assignedTo.value == actor.id))
            && (Accepts(c, actor, cmd) ==>
                  && db.approvals[k].decisions == a.decisions + [decision]
                  && match decision
                     case Approve =>
                       db.row.status == InProgress && db.approvals[k].status == Approved
                       && db.approvals[k].decidedAt == Some(now)
                     case Reject =>
                       db.row.status == Rejected && db.approvals[k].status == Refused
                       && db.approvals[k].decidedAt == Some(now)
                     case RequestInfo =>
                       db.row.status == NeedsApproval && db.approvals[k].status == InfoRequested
                       && db.approvals[k].decidedAt == None)
  {
  }

  /** The statuses that the other handlers give a request */
  lemma StatusesGiven(c: Case, actor: Actor, cmd: Command, now: nat)
    requires Accepts(c, actor, cmd)
    ensures var after := After(c, actor, cmd, now).db.row.status;
            match cmd
            case OnRequest(Transition(to, _), _) => after == to
            case OnRequest(Cancel(_), _) => after == Cancelled
            case OnRequest(SubmitApproval(_), _) => after == AwaitingApproval
            case CompleteField(_, _) => after == InProgress
            case Finish(_) => after == Resolved
            case Schedule(_) => after == InspectionScheduled
            case PatchOne(k, p) =>
              if p.status.None? || p.status.value == c.inspections[k].status then after == c.db.row.status
              else (match p.status.value
                    case Ongoing => after == Inspecting
                    case Completed => after == InProgress
                    case CalledOff => after == Assigned
                    case Scheduled => true)
            case OnRequest(_, _) => true
  {
  }

  /** A new approval is pending; a new inspection is scheduled for the assignee. */
  lemma NewRows(c: Case, actor: Actor, approver: Option<nat>, existing: Option<nat>, now: nat)
    ensures Accepts(c, actor, OnRequest(R.SubmitApproval(approver), true)) ==>
              var db := After(c, actor, OnRequest(R.SubmitApproval(approver), true), now).db;
              db.approvals == c.db.approvals + [Approval(Pending, None, approver, [])]
    ensures Accepts(c, actor, Schedule(existing)) ==>
              var rows := After(c, actor, Schedule(existing), now).inspections;
              && |rows| == |c.inspections| + 1 && rows[..|c.inspections|] == c.inspections
              && rows[|c.inspections|].officer == c.db.row.assignee.value
              && rows[|c.inspections|].status == Scheduled && rows[|c.inspections|].createdAt == now
  {
  }

  /** Field completion completes the latest inspection, with its summary and time, and touches no other. */
  lemma CompletionColumns(c: Case, actor: Actor, k: nat, summary: string, now: nat)
    requires Accepts(c, actor, CompleteField(Some(k), summary))
    ensures var (i, rows) := (c.inspections[k], After(c, actor, CompleteField(Some(k), summary), now).inspections);
            && rows[k].status == Completed && rows[k].completedAt == Some(now) && rows[k].summary == Some(summary)
            && rows[k].startedAt == i.startedAt && rows[k].checkedInAt == i.checkedInAt
            && rows[k].latitude == i.latitude && rows[k].longitude == i.longitude && rows[k].officer == i.officer
            && |rows| == |c.inspections| && forall j :: 0 <= j < |rows| && j != k ==> rows[j] == c.inspections[j]
  {
  }

  /** What a PATCH writes: the first check-in and the start keep their times, coordinates are the latest, and the
      summary stays unless a new one is sent. */
  lemma PatchedColumns(c: Case, actor: Actor, k: nat, p: Patch, now: nat)
    requires Accepts(c, actor, PatchOne(k, p))
    ensures var (i, j) := (c.inspections[k], After(c, actor, PatchOne(k, p), now).inspections[k]);
            && (p.status.Some? ==> j.status == p.status.value) && (p.status.None? ==> j.status == i.status)
            && (p.latitude.Some? ==> j.latitude == p.latitude && j.longitude == p.longitude
                                     && j.checkedInAt == (if i.checkedInAt.Some? then i.checkedInAt else Some(now)))
            && (p.latitude.None? ==> j.latitude == i.latitude && j.longitude == i.longitude
                                     && j.checkedInAt == i.checkedInAt)
            && (i.status == Scheduled && j.status == Ongoing ==> j.startedAt.Some?)
            && (i.startedAt.Some? ==> j.startedAt == i.startedAt)
            && (i.status == Ongoing && j.status == Completed ==> j.completedAt == Some(now) && j.summary == p.summary)
            && (p.summary.None? ==> j.summary == i.summary)
  {
  }

  // ---- From the first to the last status ----

  /** An administrator's transition along an edge of the table */
  lemma Moves(c: Case, admin: Actor, to: Status, now: nat)
    requires Sees(c, admin) && admin.role == GovAdmin && c.db.row.status in Sources(to) && to != AwaitingApproval
    ensures var after := After(c, admin, OnRequest(R.Transition(to, c.db.row.version), false), now);
            after.db.row.status == to && after.db.row.version == c.db.row.version + 1 && Sees(after, admin)
  {
    AdminTransitions(c, admin, to);
  }

  function Along(admin: Actor, path: seq<Status>, version: nat, now: nat): seq<Served> {
    if path == [] then []
    else [Served(admin, OnRequest(R.Transition(path[0], version), false), now)]
         + Along(admin, path[1..], version + 1, now + 1)
  }

  ghost predicate Edges(from: Status, path: seq<Status>)
    decreases |path|
  {
    path != [] ==> from in Sources(path[0]) && path[0] != AwaitingApproval && Edges(path[0], path[1..])
  }

  /** Every path along the table that does not go through AWAITING_APPROVAL can be taken by an administrator. */
  lemma {:induction false} PathsCanBeTaken(c: Case, admin: Actor, path: seq<Status>, now: nat)
    requires Sees(c, admin) && admin.role == GovAdmin && Edges(c.db.row.status, path)
    ensures var end := Run(c, Along(admin, path, c.db.row.version, now));
            && end.db.row.status == (if path == [] then c.db.row.status else path[|path| - 1])
            && end.db.row.version == c.db.row.version + |path|
    decreases |path|
  {
    if path != [] {
      Moves(c, admin, path[0], now);
      var served := Along(admin, path, c.db.row.version, now);
      assert served[1..] == Along(admin, path[1..], c.db.row.version + 1, now + 1);
      PathsCanBeTaken(After(c, admin, served[0].command, now), admin, path[1..], now + 1);
    }
  }

  /** Such as the full life of a request, from its creation to its closing */
  lemma FullLife(creator: nat, content: Content, admin: Actor)
    requires admin.role == GovAdmin && AllRead in admin.permissions
    ensures var path := [UnderReview, Assigned, InspectionScheduled, Inspecting, ActionRequired, NeedsApproval,
        InProgress,
                         Resolved, Closed];
            Run(Opened(creator, content), Along(admin, path, 1, 0)).db.row.status == Closed
  {
    var path := [UnderReview, Assigned, InspectionScheduled, Inspecting, ActionRequired, NeedsApproval, InProgress,
                 Resolved, Closed];
    EdgesOfFullLife();
    PathsCanBeTaken(Opened(creator, content), admin, path, 0);
  }

  lemma EdgesCons(from: Status, to: Status, path: seq<Status>)
    requires from in Sources(to) && to != AwaitingApproval && Edges(to, path)
    ensures Edges(from, [to] + path)
  {
    assert ([to] + path)[1..] == path;
  }

  lemma EdgesOfFullLife()
    ensures Edges(Created, [UnderReview, Assigned, InspectionScheduled, Inspecting, ActionRequired, NeedsApproval,
                            InProgress, Resolved, Closed])
  {
    EdgesCons(Resolved, Closed, []);
    EdgesCons(InProgress, Resolved, [Closed]);
    EdgesCons(NeedsApproval, InProgress, [Resolved, Closed]);
    EdgesCons(ActionRequired, NeedsApproval, [InProgress, Resolved, Closed]);
    EdgesCons(Inspecting, ActionRequired, [NeedsApproval, InProgress, Resolved, Closed]);
    EdgesCons(InspectionScheduled, Inspecting, [ActionRequired, NeedsApproval, InProgress, Resolved, Closed]);
    EdgesCons(Assigned, InspectionScheduled, [Inspecting, ActionRequired, NeedsApproval, InProgress, Resolved, Closed]);
    EdgesCons(UnderReview, Assigned,
              [InspectionScheduled, Inspecting, ActionRequired, NeedsApproval, InProgress, Resolved, Closed]);
    EdgesCons(Created, UnderReview,
              [Assigned, InspectionScheduled, Inspecting, ActionRequired, NeedsApproval, InProgress, Resolved, Closed]);
    assert [UnderReview]
        + [Assigned, InspectionScheduled, Inspecting, ActionRequired, NeedsApproval, InProgress, Resolved,
                            Closed]
           == [UnderReview, Assigned, InspectionScheduled, Inspecting, ActionRequired, NeedsApproval, InProgress,
               Resolved,
               Closed];
  }
}
