/** The statuses of a request by name: from which status each can be entered, in every interleaving of all handlers. */
module RequestStatuses {
  import opened Wrappers
  import opened Workflow
  import opened RequestInterleaving

  /** The nine statuses in which a request is neither resolved nor terminal */
  const OPEN: set<Status> := {Created, UnderReview, Assigned, InspectionScheduled, Inspecting, ActionRequired,
      InProgress,
                              NeedsApproval, AwaitingApproval}

  /** The table the other way round: the statuses that a transition may leave for this one */
  function Sources(to: Status): set<Status> {
    match to
    case Created => {}
    case UnderReview => {Created}
    case Assigned => {UnderReview}
    case InspectionScheduled => {Assigned}
    case Inspecting => {Assigned, InspectionScheduled}
    case ActionRequired => {Inspecting}
    case InProgress =>
      {Assigned, InspectionScheduled, Inspecting, ActionRequired, NeedsApproval, AwaitingApproval, Resolved}
    case NeedsApproval => {ActionRequired, InProgress}
    case AwaitingApproval => {NeedsApproval}
    case Resolved => {Inspecting, ActionRequired, InProgress, AwaitingApproval}
    case Closed => {Resolved}
    case Rejected => {UnderReview, AwaitingApproval}
    case Cancelled => {Created, UnderReview}
    case Duplicate => {UnderReview}
  }

  lemma TableBothWays(from: Status, to: Status)
    ensures to in AllowedTransitions(from) <==> from in Sources(to)
  {
  }

  /** How one committed version of the row may follow another. Approvals and inspections move a request from any status;
      these statuses they never give. */
  predicate Follows(a: Request, b: Request) {
    a.status != b.status ==>
      && b.status != Created
      && (b.status == UnderReview ==> a.status == Created)
      && (b.status == ActionRequired ==> a.status == Inspecting)
      && (b.status == Resolved ==> a.status in OPEN)
      && (b.status == Closed ==> a.status == Resolved)
      && (b.status == Cancelled ==> a.status == Created || a.status == UnderReview)
      && (b.status == Duplicate ==> a.status == UnderReview)
  }

  ghost predicate PastFollows(past: seq<Request>) {
    forall i :: 0 < i < |past| ==> Follows(past[i - 1], past[i])
  }

  lemma CommitFollows(db: Db, h: Handler, now: nat)
    requires LogOk(db) && SeenOk(db, h) && PhaseOk(db, h)
    ensures Follows(db.row, Committed(db, h, now).row)
  {
    if h.phase.HoldsRow? {
      if ComparesVersion(h.op) {
        SeenIsCurrent(db, h);
      }
      if h.op.Transition? {
        TableBothWays(db.row.status, h.op.to);
      }
    }
  }

  lemma StepFollows(s: State, e: Event)
    requires Inv(s) && PastFollows(s.db.past)
    ensures PastFollows(Step(s, e).db.past)
  {
    if e.Commit? && Committing(s, e.id) {
      var after := Committed(s.db, s.handlers[e.id], e.now);
      CommitFollows(s.db, s.handlers[e.id], e.now);
      assert after.past == s.db.past || after.past == s.db.past + [after.row];
    }
  }

  lemma {:induction false} RunFollows(s: State, events: seq<Event>)
    requires Inv(s) && PastFollows(s.db.past)
    ensures PastFollows(Run(s, events).db.past)
    decreases |events|
  {
    if events != [] {
      StepFollows(s, events[0]);
      StepKeepsInv(s, events[0]);
      RunFollows(Step(s, events[0]), events[1..]);
    }
  }

  /** In every interleaving: a request that is closed was resolved just before, a duplicate was under review, a
      cancelled one was new or under review, one that requires action was being inspected, and none becomes new again.
      */
  lemma StatusesAreEnteredFrom(creator: nat, content: Content, events: seq<Event>, i: nat)
    requires 0 < i < |Run(Initial(creator, content), events).db.past|
    ensures var past := Run(Initial(creator, content), events).db.past;
            Follows(past[i - 1], past[i])
  {
    InitialOk(creator, content);
    RunFollows(Initial(creator, content), events);
  }

  /** A transition that commits, by name; approvals are only submitted on their own route. */
  lemma TransitionsByName(creator: nat, content: Content, events: seq<Event>, t: nat, now: nat)
    requires var s := Run(Initial(creator, content), events);
             t in s.handlers && s.handlers[t].phase.HoldsRow? && s.handlers[t].op.Transition?
    ensures var s := Run(Initial(creator, content), events);
            var row := Step(s, Commit(t, now)).db.row;
            && row.status == s.handlers[t].op.to
            && s.db.row.status in Sources(row.status)
            && row.status != AwaitingApproval
  {
    NoAba(creator, content, events, t, now);
    var s := Run(Initial(creator, content), events);
    ReachableOk(creator, content, events);
    TableBothWays(s.db.row.status, s.handlers[t].op.to);
  }

  /** What a status that both transitions and decisions give was given by: a transition from one of these statuses, or
      the decision */
  predicate GivenBy(h: Handler, before: Status, from: set<Status>, decision: Decision) {
    (h.op.Transition? && before in from) || (h.op.Decide? && h.op.decision == decision)
  }

  lemma WhoRejects(creator: nat, content: Content, events: seq<Event>, e: Event)
    ensures var s := Run(Initial(creator, content), events);
            var before := s.db.row.status;
            before != Rejected && Step(s, e).db.row.status == Rejected ==>
              && e.Commit? && e.id in s.handlers
              && GivenBy(s.handlers[e.id], before, {UnderReview, AwaitingApproval}, Reject)
  {
    ReachableOk(creator, content, events);
    var s := Run(Initial(creator, content), events);
    if e.Commit? && e.id in s.handlers && s.handlers[e.id].phase.HoldsRow? && s.handlers[e.id].op.Transition? {
      TransitionsByName(creator, content, events, e.id, e.now);
    }
  }

  lemma WhoNeedsApproval(creator: nat, content: Content, events: seq<Event>, e: Event)
    ensures var s := Run(Initial(creator, content), events);
            var before := s.db.row.status;
            before != NeedsApproval && Step(s, e).db.row.status == NeedsApproval ==>
              && e.Commit? && e.id in s.handlers
              && GivenBy(s.handlers[e.id], before, {ActionRequired, InProgress}, RequestInfo)
  {
    ReachableOk(creator, content, events);
    var s := Run(Initial(creator, content), events);
    if e.Commit? && e.id in s.handlers && s.handlers[e.id].phase.HoldsRow? && s.handlers[e.id].op.Transition? {
      TransitionsByName(creator, content, events, e.id, e.now);
    }
  }

  /** In every interleaving, field work is only completed by the worker the request is assigned to at the commit, and
      only resolved by an administrator, and then the request is not deleted and in an open status. */
  lemma FinishedWhileOpen(creator: nat, content: Content, events: seq<Event>, t: nat, now: nat)
    requires var s := Run(Initial(creator, content), events);
             Committing(s, t) && (s.handlers[t].op.FieldCompletion? || s.handlers[t].op.Resolve?)
    ensures var s := Run(Initial(creator, content), events);
            var (h, row) := (s.handlers[t], Step(s, Commit(t, now)).db.row);
            && s.db.row.status in OPEN && !s.db.row.deleted
            && (h.op.FieldCompletion? ==>
                  h.actor.role == GovWorker && s.db.row.assignee == Some(h.actor.id) && row.status == InProgress)
            && (h.op.Resolve? ==> h.actor.role == GovAdmin && row.status == Resolved)
  {
    ReachableOk(creator, content, events);
    SkippedNothing(creator, content, events, t);
  }

  /** Handlers that always update the row never go on without it. */
  ghost predicate HoldsIfUpdates(h: Handler) {
    h.op.FieldCompletion? || h.op.Resolve? ==> !h.phase.WithoutRow?
  }

  ghost predicate AllHold(s: State) {
    forall t :: t in s.handlers ==> HoldsIfUpdates(s.handlers[t])
  }

  lemma StepHolds(s: State, e: Event)
    requires AllHold(s)
    ensures AllHold(Step(s, e))
  {
    var s' := Step(s, e);
    forall t | t in s'.handlers ensures HoldsIfUpdates(s'.handlers[t]) {
      assert t in s.handlers ==> HoldsIfUpdates(s.handlers[t]);
    }
  }

  lemma {:induction false} RunHolds(s: State, events: seq<Event>)
    requires AllHold(s)
    ensures AllHold(Run(s, events))
    decreases |events|
  {
    if events != [] {
      StepHolds(s, events[0]);
      RunHolds(Step(s, events[0]), events[1..]);
    }
  }

  lemma SkippedNothing(creator: nat, content: Content, events: seq<Event>, t: nat)
    requires t in Run(Initial(creator, content), events).handlers
    ensures HoldsIfUpdates(Run(Initial(creator, content), events).handlers[t])
  {
    RunHolds(Initial(creator, content), events);
  }
}
