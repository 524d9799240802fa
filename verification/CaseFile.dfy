/** The tables of one request and the handlers that update them, one handler at a time.

    Every handler does what After of CaseRules says, so what holds after every run there holds of these tables. */
module CaseFile {
  import opened Wrappers
  import opened Workflow
  import opened Inspections
  import opened CaseRules
  import R = RequestInterleaving

  /** The answer to the caller; Existing returns the inspection that is already active. */
  datatype Outcome = Done | Existing | BadRequest | Forbidden | NotFound | Conflict | Unprocessable

  /** validTransitions, the check-in and the summary of a PATCH */
  method CheckPatch(i: Inspection, p: Patch) returns (ok: bool)
    ensures ok == PatchAllowed(p, i)
  {
    var statusChanged := p.status.Some? && p.status.value != i.status;
    if statusChanged && p.status.value !in AllowedMoves(i.status) {
      return false;
    }
    var effectiveStatus := if p.status.Some? then p.status.value else i.status;
    var hasCheckInLocation := p.latitude.Some? && p.longitude.Some?;
    if hasCheckInLocation && effectiveStatus != Ongoing {
      return false;
    }
    if p.status == Some(Completed) && (p.summary.None? || p.summary.value == "") {
      return false;
    }
    return true;
  }

  /** The row with another status, and the history of that */
  function Moved(db: R.Db, to: Status, op: R.Op): R.Db {
    var row := db.row.(status := to, version := db.row.version + 1);
    db.(row := row, past := db.past + [row],
        history := db.history + [R.HistoryRow(Some(db.row.status), to, R.By(op), row.version)])
  }

  lemma AfterPatch(c: Case, actor: Actor, k: nat, p: Patch, now: nat)
    requires Accepts(c, actor, PatchOne(k, p))
    ensures var rows := c.inspections[k := Patched(p, c.inspections[k], now)];
            var move := MoveOf(p, c.inspections[k]);
            var to := R.StatusForMove(move);
            After(c, actor, PatchOne(k, p), now)
            == Case(if to.Some? && to.value != c.db.row.status then Moved(c.db, to.value, R.PatchInspection(move))
                else c.db, rows)
  {
  }

  /** The UPDATE of the inspection, and the status that the request shall have */
  method WritePatch(i: Inspection, p: Patch, now: nat) returns (updated: Inspection, to: Option<Status>)
    ensures updated == Patched(p, i, now) && to == R.StatusForMove(MoveOf(p, i))
  {
    var statusChanged := p.status.Some? && p.status.value != i.status;
    var starting := statusChanged && p.status.value == Ongoing;
    var completing := statusChanged && p.status.value == Completed;
    var cancelling := statusChanged && p.status.value == CalledOff;
    var hasCheckInLocation := p.latitude.Some? && p.longitude.Some?;
    var firstCheckIn := hasCheckInLocation && i.checkedInAt.None?;
    updated := i;
    if p.status.Some? {
      updated := updated.(status := p.status.value);
    }
    if hasCheckInLocation {
      updated := updated.(latitude := p.latitude, longitude := p.longitude);
    }
    if firstCheckIn {
      updated := updated.(checkedInAt := Coalesce(i.checkedInAt, Some(now)));
    }
    if starting {
      updated := updated.(startedAt := Coalesce(i.startedAt, Some(now)));
    }
    if completing {
      updated := updated.(completedAt := Some(now));
    }
    updated := updated.(summary := Coalesce(p.summary, i.summary));
    to := if starting then Some(Inspecting) else if completing then Some(InProgress)
        else if cancelling then Some(Assigned) else None;
  }

  class CaseTables {
    var row: Request
    var history: seq<R.HistoryRow>
    var assignments: seq<Assignment>
    var approvals: seq<Approval>
    var inspections: seq<Inspection>
    /** Every version of the row */
    ghost var past: seq<Request>

    ghost function Contents(): Case
      reads this
    {
      Case(R.Db(row, past, history, assignments, approvals), inspections)
    }

    /** POST /requests */
    constructor (creator: nat, content: Content)
      ensures Contents() == Opened(creator, content)
    {
      row := Request(creator, Created, content, None, None, false, 1);
      history := [R.HistoryRow(None, Created, R.Creation, 1)];
      assignments, approvals, inspections := [], [], [];
      past := [Request(creator, Created, content, None, None, false, 1)];
    }

    /** The UPDATE of the request row that every handler has */
    method UpdateRow(updated: Request)
      modifies this
      ensures row == updated.(version := old(row.version) + 1)
      ensures past == old(past) + [row]
      ensures history == old(history) && assignments == old(assignments) && approvals == old(approvals)
      ensures inspections == old(inspections)
    {
      row := updated.(version := row.version + 1);
      past := past + [row];
    }

    /** INSERT INTO request_status_history; op stands for the label. */
    method Log(from: Status, to: Status, op: R.Op)
      modifies this`history
      ensures history == old(history) + [R.HistoryRow(Some(from), to, R.By(op), row.version)]
    {
      history := history + [R.HistoryRow(Some(from), to, R.By(op), row.version)];
    }

    /** The UPDATE that gives the row another status, with the row it adds to the history */
    method MoveTo(from: Status, to: Status, op: R.Op)
      modifies this
      ensures row == old(row).(status := to, version := old(row.version) + 1)
      ensures past == old(past) + [row]
      ensures history == old(history) + [R.HistoryRow(Some(from), to, R.By(op), row.version)]
      ensures assignments == old(assignments) && approvals == old(approvals)
      ensures inspections == old(inspections)
    {
      UpdateRow(row.(status := to));
      Log(from, to, op);
    }

    method Edit(actor: Actor, title: Option<string>, description: Option<string>, priority: Option<Priority>,
                contact: Option<Contact>, version: nat, now: nat)
      returns (outcome: Outcome)
      modifies this
      ensures var cmd := OnRequest(R.Edit(title, description, priority, contact, version), false);
              && (outcome.Done? <==> Accepts(old(Contents()), actor, cmd))
              && (!outcome.Done? ==> Contents() == old(Contents()))
              && Contents() == After(old(Contents()), actor, cmd, now)
    {
      var current := row;
      if !Visible(current, actor) {
        return NotFound;
      }
      if current.creator == actor.id {
        if !Fresh(current.status) {
          return Unprocessable;
        }
        if priority.Some? {
          return Forbidden;
        }
      } else if Update !in actor.permissions || actor.role == GovWorker {
        return Forbidden;
      }
      if current.version != version {
        return Conflict;
      }
      var content := current.content;
      if title.Some? {
        content := content.(title := title.value);
      }
      if description.Some? {
        content := content.(description := description.value);
      }
      if priority.Some? {
        content := content.(priority := priority.value);
      }
      if contact.Some? {
        content := content.(contact := contact.value);
      }
      UpdateRow(row.(content := content));
      return Done;
    }

    method Assign(actor: Actor, worker: nat, workerDepartment: Option<nat>, found: bool, department: Option<nat>,
                  version: nat, now: nat)
      returns (outcome: Outcome)
      modifies this
      ensures var cmd := OnRequest(R.Assign(worker, workerDepartment, department, version), found);
              && (outcome.Done? <==> Accepts(old(Contents()), actor, cmd))
              && (!outcome.Done? ==> Contents() == old(Contents()))
              && Contents() == After(old(Contents()), actor, cmd, now)
    {
      var op := R.Assign(worker, workerDepartment, department, version);
      var current := row;
      if !Visible(current, actor) {
        return NotFound;
      }
      if current.version != version {
        return Conflict;
      }
      if Finished(current.status) {
        return Unprocessable;
      }
      if !found {
        return BadRequest;
      }
      var chosen := Coalesce(department, Coalesce(workerDepartment, current.department));
      UpdateRow(row.(assignee := Some(worker), department := chosen, status := Assigned));
      assignments := CloseOpen(assignments);
      assignments := assignments + [Assignment(current.assignee, worker, current.department, chosen, true)];
      Log(current.status, Assigned, op);
      return Done;
    }

    method Transition(actor: Actor, to: Status, version: nat, now: nat) returns (outcome: Outcome)
      modifies this
      ensures var cmd := OnRequest(R.Transition(to, version), false);
              && (outcome.Done? <==> Accepts(old(Contents()), actor, cmd))
              && (!outcome.Done? ==> Contents() == old(Contents()))
              && Contents() == After(old(Contents()), actor, cmd, now)
    {
      var op := R.Transition(to, version);
      var current := row;
      if !Visible(current, actor) {
        return NotFound;
      }
      if current.version != version {
        return Conflict;
      }
      if to !in AllowedTransitions(current.status) {
        return Unprocessable;
      }
      if actor.role == GovWorker && current.assignee != Some(actor.id) {
        return Forbidden;
      }
      if to == AwaitingApproval {
        return Unprocessable;
      }
      MoveTo(current.status, to, op);
      return Done;
    }

    method Cancel(actor: Actor, version: nat, now: nat) returns (outcome: Outcome)
      modifies this
      ensures var cmd := OnRequest(R.Cancel(version), false);
              && (outcome.Done? <==> Accepts(old(Contents()), actor, cmd))
              && (!outcome.Done? ==> Contents() == old(Contents()))
              && Contents() == After(old(Contents()), actor, cmd, now)
    {
      var current := row;
      if !Visible(current, actor) {
        return NotFound;
      }
      if current.creator != actor.id {
        return Forbidden;
      }
      if !Fresh(current.status) {
        return Unprocessable;
      }
      if current.version != version {
        return Conflict;
      }
      MoveTo(current.status, Cancelled, R.Cancel(version));
      return Done;
    }

    method CompleteFieldWork(actor: Actor, latest: Option<nat>, summary: string, now: nat) returns (outcome: Outcome)
      requires Answers(inspections, ANY, latest)
      modifies this
      ensures var cmd := CompleteField(latest, summary);
              && (outcome.Done? <==> Accepts(old(Contents()), actor, cmd))
              && (!outcome.Done? ==> Contents() == old(Contents()))
              && Contents() == After(old(Contents()), actor, cmd, now)
    {
      var current := row;
      if actor.role != GovWorker {
        return Forbidden;
      }
      if !Visible(current, actor) {
        return NotFound;
      }
      if current.assignee != Some(actor.id) {
        return Forbidden;
      }
      if Finished(current.status) {
        return Unprocessable;
      }
      if latest.None? {
        return Unprocessable;
      }
      var k := latest.value;
      if inspections[k].status != Ongoing {
        return Unprocessable;
      }
      inspections := inspections[k := CompletedBy(inspections[k], summary, now)];
      MoveTo(current.status, InProgress, R.FieldCompletion);
      return Done;
    }

    method Resolve(actor: Actor, latest: Option<nat>, now: nat) returns (outcome: Outcome)
      requires Answers(inspections, ANY, latest)
      modifies this
      ensures outcome.Done? <==> Accepts(old(Contents()), actor, Finish(latest))
      ensures !outcome.Done? ==> Contents() == old(Contents())
      ensures Contents() == After(old(Contents()), actor, Finish(latest), now)
    {
      var current := row;
      if actor.role != GovAdmin {
        return Forbidden;
      }
      if !Visible(current, actor) {
        return NotFound;
      }
      if Finished(current.status) {
        return Unprocessable;
      }
      if latest.None? || inspections[latest.value].status != Completed {
        return Unprocessable;
      }
      MoveTo(current.status, Resolved, R.Resolve);
      return Done;
    }

    method Delete(actor: Actor, now: nat) returns (outcome: Outcome)
      modifies this
      ensures outcome.Done? <==> Accepts(old(Contents()), actor, OnRequest(R.Delete, false))
      ensures !outcome.Done? ==> Contents() == old(Contents())
      ensures Contents() == After(old(Contents()), actor, OnRequest(R.Delete, false), now)
    {
      if !Visible(row, actor) {
        return NotFound;
      }
      UpdateRow(row.(deleted := true));
      return Done;
    }

    method SubmitApproval(actor: Actor, approver: Option<nat>, found: bool, now: nat) returns (outcome: Outcome)
      modifies this
      ensures var cmd := OnRequest(R.SubmitApproval(approver), found);
              && (outcome.Done? <==> Accepts(old(Contents()), actor, cmd))
              && (!outcome.Done? ==> Contents() == old(Contents()))
              && Contents() == After(old(Contents()), actor, cmd, now)
    {
      var op := R.SubmitApproval(approver);
      var request := row;
      if request.deleted {
        return NotFound;
      }
      if Terminal(request.status) {
        return Unprocessable;
      }
      if approver.Some? && !found {
        return BadRequest;
      }
      approvals := approvals + [Approval(Pending, None, approver, [])];
      MoveTo(request.status, AwaitingApproval, op);
      return Done;
    }

    method Decide(actor: Actor, k: nat, decision: Decision, now: nat) returns (outcome: Outcome)
      modifies this
      ensures var cmd := OnRequest(R.Decide(k, decision), false);
              && (outcome.Done? <==> Accepts(old(Contents()), actor, cmd))
              && (!outcome.Done? ==> Contents() == old(Contents()))
              && Contents() == After(old(Contents()), actor, cmd, now)
    {
      var op := R.Decide(k, decision);
      if k >= |approvals| {
        return NotFound;
      }
      var approval := approvals[k];
      if !Undecided(approval.status) {
        return Unprocessable;
      }
      if actor.role == Approver && approval.assignedTo.Some? && approval.assignedTo.value != actor.id {
        return Unprocessable;
      }
      var status := if decision == Approve then Approved else if decision == Reject then Refused else InfoRequested;
      var requestStatus := if decision == Approve then InProgress else if decision == Reject then Rejected
          else NeedsApproval;
      var fromStatus := row.status;
      approval := approval.(decisions := approval.decisions + [decision]);
      approval := approval.(status := status,
          decidedAt := if status == Approved || status == Refused then Some(now) else None);
      approvals := approvals[k := approval];
      MoveTo(fromStatus, requestStatus, op);
      return Done;
    }

    method ScheduleInspection(actor: Actor, existing: Option<nat>, now: nat) returns (outcome: Outcome)
      requires Answers(inspections, ACTIVE, existing)
      modifies this
      ensures outcome.Done? <==> Accepts(old(Contents()), actor, Schedule(existing))
      ensures !outcome.Done? ==> Contents() == old(Contents())
      ensures Contents() == After(old(Contents()), actor, Schedule(existing), now)
    {
      var request := row;
      if request.deleted {
        return NotFound;
      }
      if actor.role == GovWorker && request.assignee != Some(actor.id) {
        return Forbidden;
      }
      if request.assignee.None? {
        return Unprocessable;
      }
      if Terminal(request.status) {
        return Unprocessable;
      }
      if existing.Some? {
        return Existing;
      }
      inspections := inspections + [NewInspection(request.assignee.value, now)];
      if request.status != InspectionScheduled {
        MoveTo(request.status, InspectionScheduled, R.ScheduleInspection);
      }
      return Done;
    }

    /** The checks of PATCH /inspections/:id */
    method CheckPatchInspection(actor: Actor, k: nat, p: Patch) returns (outcome: Outcome)
      ensures outcome.Done? <==> Accepts(Contents(), actor, PatchOne(k, p))
    {
      if p.latitude.Some? != p.longitude.Some? {
        return BadRequest;
      }
      if k >= |inspections| || row.deleted {
        return NotFound;
      }
      if actor.role == GovWorker && inspections[k].officer != actor.id {
        return Forbidden;
      }
      if Terminal(row.status) {
        return Unprocessable;
      }
      var allowed := CheckPatch(inspections[k], p);
      return if allowed then Done else Unprocessable;
    }

    method PatchInspection(actor: Actor, k: nat, p: Patch, now: nat) returns (outcome: Outcome)
      modifies this
      ensures outcome.Done? <==> Accepts(old(Contents()), actor, PatchOne(k, p))
      ensures !outcome.Done? ==> Contents() == old(Contents())
      ensures Contents() == After(old(Contents()), actor, PatchOne(k, p), now)
    {
      outcome := CheckPatchInspection(actor, k, p);
      if outcome == Done {
        AfterPatch(Contents(), actor, k, p, now);
        var inspection, requestStatus := inspections[k], row.status;
        var op := R.PatchInspection(MoveOf(p, inspection));
        var updated, to := WritePatch(inspection, p, now);
        inspections := inspections[k := updated];
        if to.Some? && to.value != requestStatus {
          MoveTo(requestStatus, to.value, op);
        }
      }
    }
  }
}
