/** The vocabulary of the service-request workflow: statuses, the transition table, actors and rows. */
module Workflow {
  import opened Wrappers

  datatype Status =
    | Created | UnderReview | Assigned | InspectionScheduled | Inspecting | ActionRequired | InProgress
    | NeedsApproval | AwaitingApproval | Resolved | Closed | Rejected | Cancelled | Duplicate

  function AllowedTransitions(from: Status): set<Status> {
    match from
    case Created => {UnderReview, Cancelled}
    case UnderReview => {Assigned, Rejected, Duplicate, Cancelled}
    case Assigned => {InspectionScheduled, Inspecting, InProgress}
    case InspectionScheduled => {Inspecting, InProgress}
    case Inspecting => {ActionRequired, InProgress, Resolved}
    case ActionRequired => {InProgress, NeedsApproval, Resolved}
    case InProgress => {NeedsApproval, Resolved}
    case NeedsApproval => {AwaitingApproval, InProgress}
    case AwaitingApproval => {InProgress, Rejected, Resolved}
    case Resolved => {Closed, InProgress}
    case Closed => {}
    case Rejected => {}
    case Cancelled => {}
    case Duplicate => {}
  }

  predicate Terminal(s: Status) {
    s in {Closed, Rejected, Cancelled, Duplicate}
  }

  /** Terminal or resolved: no more assignment or field work */
  predicate Finished(s: Status) {
    s == Resolved || Terminal(s)
  }

  /** A citizen may still edit or cancel. */
  predicate Fresh(s: Status) {
    s in {Created, UnderReview}
  }

  datatype Role = Citizen | GovWorker | GovAdmin | Approver | Superior

  datatype Permission = AllRead | AssignedRead | OwnRead | Update

  datatype Actor = Actor(id: nat, role: Role, permissions: set<Permission>)

  datatype Priority = Low | Normal | High | Urgent

  datatype Contact = Portal | Email

  datatype Content = Content(title: string, description: string, priority: Priority, contact: Contact)

  datatype Request = Request(
    creator: nat,
    status: Status,
    content: Content,
    assignee: Option<nat>,
    department: Option<nat>,
    deleted: bool,
    version: nat)

  /** The row is not deleted and in the actor's read scope; the widest permission decides. */
  predicate Visible(row: Request, actor: Actor) {
    && !row.deleted
    && if AllRead in actor.permissions then true
       else if AssignedRead in actor.permissions then row.assignee == Some(actor.id)
       else OwnRead in actor.permissions && row.creator == actor.id
  }

  /** An open assignment has not ended. */
  datatype Assignment = Assignment(
    fromUser: Option<nat>, toUser: nat, fromDepartment: Option<nat>, toDepartment: Option<nat>, open: bool)

  function CloseOpen(assignments: seq<Assignment>): (r: seq<Assignment>)
    ensures |r| == |assignments|
    ensures forall i :: 0 <= i < |r| ==> r[i] == assignments[i].(open := false)
  {
    seq(|assignments|, i requires 0 <= i < |assignments| => assignments[i].(open := false))
  }

  datatype Decision = Approve | Reject | RequestInfo

  datatype ApprovalStatus = Pending | Approved | Refused | InfoRequested

  /** An approval with the decisions recorded for it, in order */
  datatype Approval = Approval(
    status: ApprovalStatus, decidedAt: Option<nat>, assignedTo: Option<nat>, decisions: seq<Decision>)

  predicate Undecided(s: ApprovalStatus) {
    s == Pending || s == InfoRequested
  }

  function ApprovalAfter(decision: Decision): ApprovalStatus {
    match decision
    case Approve => Approved
    case Reject => Refused
    case RequestInfo => InfoRequested
  }

  function RequestAfter(decision: Decision): Status {
    match decision
    case Approve => InProgress
    case Reject => Rejected
    case RequestInfo => NeedsApproval
  }

  /** Approvers only decide what is assigned to them or to nobody. */
  predicate MayDecide(actor: Actor, approval: Approval) {
    actor.role == Approver && approval.assignedTo.Some? ==> approval.assignedTo.value == actor.id
  }

  /** The status that a log of decisions amounts to */
  function Fold(decisions: seq<Decision>): ApprovalStatus {
    if decisions == [] then Pending else ApprovalAfter(decisions[|decisions| - 1])
  }

  /** Any number of requests for information, then at most one final decision */
  predicate WellFormedLog(decisions: seq<Decision>) {
    forall i :: 0 <= i < |decisions| - 1 ==> decisions[i] == RequestInfo
  }
}
