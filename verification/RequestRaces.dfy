/** What goes wrong when handlers on one request race, and exactly when: history rows that name a status the request did
    not have, and terminal requests that come back. */
module RequestRaces {
  import opened Wrappers
  import opened Workflow
  import opened RequestInterleaving

  // ---- History rows ----

  /** Most handlers log the status they read before they had the lock. Exactly when the row that such a handler adds is
      true: when that is still the status of the request, or when the handler is a decision, which reads it again. */
  lemma LoggedRowIsTrueIff(creator: nat, content: Content, events: seq<Event>, t: nat, now: nat)
    requires var s := Run(Initial(creator, content), events);
             t in s.handlers && s.handlers[t].phase.HoldsRow? && Target(s.handlers[t].op, s.handlers[t].seen).Some?
    ensures var s := Run(Initial(creator, content), events);
            var (h, after) := (s.handlers[t], Step(s, Commit(t, now)).db);
            && |after.history| == |s.db.history| + 1
            && (Truthful(after.past, after.history[|s.db.history|])
                <==> h.op.Decide? || h.seen.status == s.db.row.status)
  {
    ReachableOk(creator, content, events);
  }

  /** A cancellation that lost a race changes nothing and logs all the same. Exactly when its row is true by accident:
      when the last handler before it cancelled the request from the same status. */
  lemma LostCancelIsTrueIff(creator: nat, content: Content, events: seq<Event>, t: nat, now: nat)
    requires var s := Run(Initial(creator, content), events);
             t in s.handlers && s.handlers[t].phase.WithoutRow? && s.handlers[t].op.Cancel?
    ensures var s := Run(Initial(creator, content), events);
            var (h, after) := (s.handlers[t], Step(s, Commit(t, now)).db);
            && after.row == s.db.row && after.past == s.db.past
            && |after.history| == |s.db.history| + 1
            && (Truthful(after.past, after.history[|s.db.history|])
                <==> && |s.db.past| >= 2 && s.db.row.status == Cancelled
                     && s.db.past[|s.db.past| - 2].status == h.seen.status)
  {
    ReachableOk(creator, content, events);
  }

  /** Every other commit adds no history row. */
  lemma OtherCommitsLogNothing(s: State, t: nat, now: nat)
    requires t in s.handlers
    requires var h := s.handlers[t];
             !(h.phase.HoldsRow? && Target(h.op, h.seen).Some?) && !(h.phase.WithoutRow? && h.op.Cancel?)
    ensures Step(s, Commit(t, now)).db.history == s.db.history
  {
  }

  /** A cancellation that commits takes effect if the version it sent is still the current one, and then its history
      row is true; otherwise the row stays as it is, and the history row is added all the same. */
  lemma CancelTakesEffectIffCurrent(creator: nat, content: Content, events: seq<Event>, t: nat, now: nat)
    requires var s := Run(Initial(creator, content), events); Committing(s, t) && s.handlers[t].op.Cancel?
    ensures var s := Run(Initial(creator, content), events);
            var s' := Step(s, Commit(t, now));
            var h := s.handlers[t];
            && |s'.db.history| == |s.db.history| + 1
            && (h.op.version == s.db.row.version ==>
                  && s'.db.row == s.db.row.(status := Cancelled, version := h.op.version + 1)
                  && Truthful(s'.db.past, s'.db.history[|s.db.history|]))
            && (h.op.version != s.db.row.version ==> s'.db.row == s.db.row)
  {
    ReachableOk(creator, content, events);
    var s := Run(Initial(creator, content), events);
    if s.handlers[t].phase.HoldsRow? {
      SeenIsCurrent(s.db, s.handlers[t]);
    }
  }

  function CitizenActor(id: nat): Actor {
    Actor(id, Citizen, {OwnRead})
  }

  function AdminActor(id: nat): Actor {
    Actor(id, GovAdmin, {AllRead, Update})
  }

  /** Cancel ignores that its UPDATE affected no row: racing with a transition, it reports and logs a
      cancellation that did not happen. */
  lemma CancelRaceLogsWhatDidNotHappen(creator: nat, content: Content) returns (events: seq<Event>)
    ensures var db := Run(Initial(creator, content), events).db;
            && db.row.status == UnderReview
            && |db.history| == 3
            && db.history[2] == HistoryRow(Some(Created), Cancelled, By(Cancel(1)), 2)
            && !Truthful(db.past, db.history[2])
  {
    var s0 := Initial(creator, content);
    var e1 := Start(1, CitizenActor(creator), Cancel(1), true);
    var e2 := Start(2, AdminActor(0), Transition(UnderReview, 1), true);
    var (e3, e4) := (LockRow(2, true), Commit(2, 0));
    var (e5, e6) := (SkipRow(1), Commit(1, 0));
    var s1 := Step(s0, e1);
    assert s1.db == s0.db && 1 in s1.handlers;
    var s2 := Step(s1, e2);
    assert s2.db == s0.db && s2.handlers.Keys == {1, 2};
    var s3 := Step(s2, e3);
    assert s3.handlers[2].phase == HoldsRow(s0.db.row) && s3.handlers[1] == s1.handlers[1];
    var s4 := Step(s3, e4);
    assert s4.db.row.status == UnderReview && s4.db.row.version == 2 && s4.handlers[1] == s1.handlers[1];
    var s5 := Step(s4, e5);
    assert s5.handlers[1].phase == WithoutRow;
    var s6 := Step(s5, e6);
    events := [e1, e2, e3, e4, e5, e6];
    RunOfFour(s0, e1, e2, e3, e4);
    RunOfTwo(s4, e5, e6);
    RunConcat(s0, [e1, e2, e3, e4], [e5, e6]);
    assert events == [e1, e2, e3, e4] + [e5, e6];
  }

  // ---- Terminal requests ----

  /** Handlers that change the status without looking at it again under the lock */
  predicate Reopener(h: Handler) {
    && (h.phase.Checked? || h.phase.HoldsRow?)
    && (h.op.SubmitApproval? || h.op.ScheduleInspection? || h.op.PatchInspection?)
    && Target(h.op, h.seen).Some?
  }

  /** Some approval can still be decided, or some handler that read the request before it was terminal is on its way. */
  ghost predicate Threatened(s: State) {
    || (exists k :: 0 <= k < |s.db.approvals| && Undecided(s.db.approvals[k].status))
    || (exists t :: t in s.handlers && Reopener(s.handlers[t]))
  }

  lemma CommitStaysSafe(s: State, t: nat, now: nat)
    requires Inv(s) && Terminal(s.db.row.status) && !Threatened(s) && t in s.handlers
    ensures var s' := Step(s, Commit(t, now)); s'.db.row.status == s.db.row.status && s'.db.approvals == s.db.approvals
  {
    var h := s.handlers[t];
    assert !Reopener(h);
    if h.phase.HoldsRow? && ComparesVersion(h.op) {
      SeenIsCurrent(s.db, h);
    }
  }

  lemma StepStaysSafe(s: State, e: Event)
    requires Inv(s) && Terminal(s.db.row.status) && !Threatened(s)
    ensures Step(s, e).db.row.status == s.db.row.status && !Threatened(Step(s, e))
  {
    if e.Commit? && e.id in s.handlers {
      CommitStaysSafe(s, e.id, e.now);
    }
    var s' := Step(s, e);
    forall t | t in s'.handlers ensures !Reopener(s'.handlers[t]) {
      assert t in s.handlers ==> !Reopener(s.handlers[t]);
    }
  }

  lemma {:induction false} RunStaysSafe(s: State, events: seq<Event>)
    requires Inv(s) && Terminal(s.db.row.status) && !Threatened(s)
    ensures Run(s, events).db.row.status == s.db.row.status
    decreases |events|
  {
    if events != [] {
      StepStaysSafe(s, events[0]);
      StepKeepsInv(s, events[0]);
      RunStaysSafe(Step(s, events[0]), events[1..]);
    }
  }

  /** The same database and handlers, but for some that were aborted */
  ghost predicate Fewer(s: State, s': State) {
    && Inv(s') && s'.db == s.db
    && forall t :: t in s'.handlers ==> t in s.handlers && s'.handlers[t] == s.handlers[t]
  }

  lemma AbortOne(s: State, t: nat)
    requires Inv(s)
    ensures Fewer(s, Run(s, [Abort(t)])) && Run(s, [Abort(t)]).handlers == s.handlers - {t}
  {
    assert [Abort(t)][1..] == [];
    assert Run(s, [Abort(t)]) == Run(Step(s, Abort(t)), []);
    StepKeepsInv(s, Abort(t));
  }

  lemma FreeRow(s: State) returns (events: seq<Event>)
    requires Inv(s)
    ensures var s' := Run(s, events);
            && Fewer(s, s') && RowFree(s')
            && forall t :: t in s.handlers && !s.handlers[t].phase.HoldsRow? ==> t in s'.handlers
  {
    events := [];
    if u :| u in s.handlers && s.handlers[u].phase.HoldsRow? {
      events := [Abort(u)];
      AbortOne(s, u);
    }
  }

  lemma FreeApproval(s: State, k: nat) returns (events: seq<Event>)
    requires Inv(s)
    ensures var s' := Run(s, events); Fewer(s, s') && ApprovalFree(s', k)
  {
    events := [];
    if u :| u in s.handlers && LocksApproval(s.handlers[u], k) {
      events := [Abort(u)];
      AbortOne(s, u);
    }
  }

  lemma ReopenerCommits(s: State, t: nat)
    requires Terminal(s.db.row.status) && t in s.handlers && Reopener(s.handlers[t]) && s.handlers[t].phase.HoldsRow?
    ensures Step(s, Commit(t, 0)).db.row.status != s.db.row.status
  {
  }

  lemma ReopenerTakesTwo(s: State, t: nat)
    requires RowFree(s) && Terminal(s.db.row.status)
    requires t in s.handlers && Reopener(s.handlers[t]) && s.handlers[t].phase.Checked?
    ensures Run(s, [LockRow(t, true), Commit(t, 0)]).db.row.status != s.db.row.status
  {
    var s2 := Step(s, LockRow(t, true));
    assert s2 == To(s, t, HoldsRow(s.db.row));
    ReopenerCommits(s2, t);
    RunOfTwo(s, LockRow(t, true), Commit(t, 0));
  }

  /** A handler that holds the row commits; one that has passed its checks takes the lock from an aborted holder. */
  lemma ReopenerReopens(s: State, t: nat) returns (events: seq<Event>)
    requires Inv(s) && Terminal(s.db.row.status) && t in s.handlers && Reopener(s.handlers[t])
    ensures Run(s, events).db.row.status != s.db.row.status
  {
    if s.handlers[t].phase.HoldsRow? {
      events := [Commit(t, 0)];
      ReopenerCommits(s, t);
      assert [Commit(t, 0)][1..] == [];
      assert Run(s, events) == Run(Step(s, Commit(t, 0)), []);
    } else {
      var free := FreeRow(s);
      var s1 := Run(s, free);
      assert s1.handlers[t] == s.handlers[t];
      ReopenerTakesTwo(s1, t);
      events := free + [LockRow(t, true), Commit(t, 0)];
      RunConcat(s, free, [LockRow(t, true), Commit(t, 0)]);
    }
  }

  const DIRECTOR := Actor(0, Superior, {})

  lemma ApprovingStarts(s: State, k: nat)
    requires k < |s.db.approvals| && Undecided(s.db.approvals[k].status) && 0 !in s.handlers
    ensures Step(s, Start(0, DIRECTOR, Decide(k, Approve), true))
            == s.(handlers := s.handlers[0 := Handler(DIRECTOR, Decide(k, Approve), s.db.row, Checked)])
  {
  }

  lemma ApprovingLocks(s: State, k: nat)
    requires 0 in s.handlers && s.handlers[0] == Handler(DIRECTOR, Decide(k, Approve), s.db.row, Checked)
    requires k < |s.db.approvals| && Undecided(s.db.approvals[k].status) && RowFree(s) && ApprovalFree(s, k)
    ensures Step(Step(s, LockApproval(0)), LockRow(0, true)) == To(s, 0, HoldsRow(s.db.row))
  {
    assert Step(s, LockApproval(0)) == To(s, 0, HoldsApproval);
  }

  lemma ApprovingTakesFour(s: State, k: nat)
    requires k < |s.db.approvals| && Undecided(s.db.approvals[k].status)
    requires RowFree(s) && ApprovalFree(s, k) && 0 !in s.handlers
    ensures Run(s, [Start(0, DIRECTOR, Decide(k, Approve), true), LockApproval(0), LockRow(0, true), Commit(0, 0)])
              .db.row.status == InProgress
  {
    var start := Start(0, DIRECTOR, Decide(k, Approve), true);
    ApprovingStarts(s, k);
    ApprovingLocks(Step(s, start), k);
    RunOfFour(s, start, LockApproval(0), LockRow(0, true), Commit(0, 0));
  }

  lemma UndecidedReopens(s: State, k: nat) returns (events: seq<Event>)
    requires Inv(s) && Terminal(s.db.row.status) && k < |s.db.approvals| && Undecided(s.db.approvals[k].status)
    ensures Run(s, events).db.row.status != s.db.row.status
  {
    var a := FreeRow(s);
    var s1 := Run(s, a);
    var b := FreeApproval(s1, k);
    var s2 := Run(s1, b);
    AbortOne(s2, 0);
    var s3 := Run(s2, [Abort(0)]);
    var approve := [Start(0, DIRECTOR, Decide(k, Approve), true), LockApproval(0), LockRow(0, true), Commit(0, 0)];
    ApprovingTakesFour(s3, k);
    RunConcat(s, a, b);
    RunConcat(s, a + b, [Abort(0)]);
    RunConcat(s, a + b + [Abort(0)], approve);
    events := a + b + [Abort(0)] + approve;
  }

  /** Exactly when a terminal status survives every interleaving that may follow: when no approval can still be decided
      and no submission, scheduling or patch of an inspection that read the request earlier is under way. */
  lemma TerminalIsLeftIffThreatened(creator: nat, content: Content, before: seq<Event>)
    requires Terminal(Run(Initial(creator, content), before).db.row.status)
    ensures var s := Run(Initial(creator, content), before);
            Threatened(s) <==> exists after :: Run(s, after).db.row.status != s.db.row.status
  {
    ReachableOk(creator, content, before);
    var s := Run(Initial(creator, content), before);
    if Threatened(s) {
      var after: seq<Event>;
      if t :| t in s.handlers && Reopener(s.handlers[t]) {
        after := ReopenerReopens(s, t);
      } else {
        var k :| 0 <= k < |s.db.approvals| && Undecided(s.db.approvals[k].status);
        after := UndecidedReopens(s, k);
      }
      assert Run(s, after).db.row.status != s.db.row.status;
    } else {
      forall after ensures Run(s, after).db.row.status == s.db.row.status {
        RunStaysSafe(s, after);
      }
    }
  }

  /** Approval submission does not recheck the status under the lock: racing with a cancellation, it takes a cancelled
      request out of its terminal status. */
  lemma SubmissionRaceReopensCancelled(creator: nat, content: Content) returns (before: seq<Event>, after: seq<Event>)
    ensures Run(Initial(creator, content), before).db.row.status == Cancelled
    ensures Run(Run(Initial(creator, content), before), after).db.row.status == AwaitingApproval
  {
    var s0 := Initial(creator, content);
    var e1 := Start(1, AdminActor(0), SubmitApproval(None), true);
    var e2 := Start(2, CitizenActor(creator), Cancel(1), true);
    var (e3, e4) := (LockRow(2, true), Commit(2, 0));
    var (e5, e6) := (LockRow(1, true), Commit(1, 0));
    var s1 := Step(s0, e1);
    assert s1.db == s0.db && 1 in s1.handlers;
    var s2 := Step(s1, e2);
    assert s2.db == s0.db && s2.handlers.Keys == {1, 2};
    var s3 := Step(s2, e3);
    assert s3.handlers[2].phase == HoldsRow(s0.db.row) && s3.handlers[1] == s1.handlers[1];
    var s4 := Step(s3, e4);
    assert s4.db.row.status == Cancelled && s4.handlers.Keys == {1} && s4.handlers[1] == s1.handlers[1];
    var s5 := Step(s4, e5);
    assert s5.handlers[1].phase == HoldsRow(s4.db.row);
    var s6 := Step(s5, e6);
    assert s6.db.row.status == AwaitingApproval;
    before, after := [e1, e2, e3, e4], [e5, e6];
    RunOfFour(s0, e1, e2, e3, e4);
    RunOfTwo(s4, e5, e6);
  }
}
