/** Inspection rows of one request, what a PATCH writes to one, and the lookups by creation time. */
module Inspections {
  import opened Wrappers

  /** SCHEDULED, IN_PROGRESS, COMPLETED, CANCELLED */
  datatype InspectionStatus = Scheduled | Ongoing | Completed | CalledOff

  datatype Inspection = Inspection(
    officer: nat,
    status: InspectionStatus,
    createdAt: int,
    startedAt: Option<int>,
    checkedInAt: Option<int>,
    completedAt: Option<int>,
    latitude: Option<real>,
    longitude: Option<real>,
    summary: Option<string>)

  function NewInspection(officer: nat, now: int): Inspection {
    Inspection(officer, Scheduled, now, None, None, None, None, None, None)
  }

  predicate Active(s: InspectionStatus) {
    s == Scheduled || s == Ongoing
  }

  function AllowedMoves(s: InspectionStatus): set<InspectionStatus> {
    match s
    case Scheduled => {Ongoing, CalledOff}
    case Ongoing => {Completed, CalledOff}
    case Completed => {}
    case CalledOff => {}
  }

  /** The body of a PATCH; the summary is trimmed. */
  datatype Patch = Patch(
    status: Option<InspectionStatus>, latitude: Option<real>, longitude: Option<real>, summary: Option<string>)

  predicate ChecksIn(p: Patch) {
    p.latitude.Some? && p.longitude.Some?
  }

  predicate Changes(p: Patch, i: Inspection) {
    p.status.Some? && p.status.value != i.status
  }

  predicate ChangesTo(p: Patch, i: Inspection, s: InspectionStatus) {
    Changes(p, i) && p.status.value == s
  }

  function Coalesce<T>(a: Option<T>, b: Option<T>): Option<T> {
    if a.Some? then a else b
  }

  /** The checks on the inspection and the body that come after those on the user and the request */
  predicate PatchAllowed(p: Patch, i: Inspection) {
    && (Changes(p, i) ==> p.status.value in AllowedMoves(i.status))
    && (ChecksIn(p) ==> (if p.status.Some? then p.status.value else i.status) == Ongoing)
    && (p.status == Some(Completed) ==> p.summary.Some? && p.summary.value != "")
  }

  function Patched(p: Patch, i: Inspection, now: int): Inspection {
    i.(status := if p.status.Some? then p.status.value else i.status,
       latitude := if ChecksIn(p) then p.latitude else i.latitude,
       longitude := if ChecksIn(p) then p.longitude else i.longitude,
       checkedInAt := if ChecksIn(p) then Coalesce(i.checkedInAt, Some(now)) else i.checkedInAt,
       startedAt := if ChangesTo(p, i, Ongoing) then Coalesce(i.startedAt, Some(now)) else i.startedAt,
       completedAt := if ChangesTo(p, i, Completed) then Some(now) else i.completedAt,
       summary := Coalesce(p.summary, i.summary))
  }

  /** What field completion writes */
  function CompletedBy(i: Inspection, summary: string, now: int): Inspection {
    i.(status := Completed, completedAt := Some(now), summary := Some(summary))
  }

  // ---- ORDER BY created_at DESC LIMIT 1 ----

  const ANY := {Scheduled, Ongoing, Completed, CalledOff}
  const ACTIVE := {Scheduled, Ongoing}

  /** What the database may answer when asked for the row created last of those with a wanted status. Of several created
      at the same time it may return any. */
  ghost predicate Answers(rows: seq<Inspection>, wanted: set<InspectionStatus>, r: Option<nat>) {
    match r
    case None => forall i :: 0 <= i < |rows| ==> rows[i].status !in wanted
    case Some(k) =>
      && k < |rows| && rows[k].status in wanted
      && forall i :: 0 <= i < |rows| && rows[i].status in wanted ==> rows[i].createdAt <= rows[k].createdAt
  }

  /** There always is an answer. */
  lemma {:induction false} AnswerExists(rows: seq<Inspection>, wanted: set<InspectionStatus>) returns (r: Option<nat>)
    ensures Answers(rows, wanted, r)
    decreases |rows|
  {
    r := None;
    if rows != [] {
      var n := |rows| - 1;
      r := AnswerExists(rows[..n], wanted);
      assert forall i :: 0 <= i < n ==> rows[..n][i] == rows[i];
      if rows[n].status in wanted && (r.None? || rows[r.value].createdAt <= rows[n].createdAt) {
        r := Some(n);
      }
    }
  }

  // ---- The invariant of the rows ----

  predicate NotLater(a: Option<int>, b: Option<int>) {
    a.Some? && b.Some? ==> a.value <= b.value
  }

  /** Times come in order, and each is there when the status says so. */
  predicate WellTimed(i: Inspection, clock: int) {
    && (i.status == Scheduled ==> i.startedAt.None?)
    && (i.status == Ongoing ==> i.startedAt.Some?)
    && (i.status == Completed <==> i.completedAt.Some?)
    && (i.checkedInAt.Some? || i.completedAt.Some? ==> i.startedAt.Some?)
    && NotLater(i.startedAt, i.checkedInAt)
    && NotLater(i.startedAt, i.completedAt)
    && NotLater(i.checkedInAt, i.completedAt)
    && NotLater(i.startedAt, Some(clock)) && NotLater(i.checkedInAt, Some(clock))
        && NotLater(i.completedAt, Some(clock))
    && (i.latitude.Some? <==> i.checkedInAt.Some?)
    && (i.longitude.Some? <==> i.checkedInAt.Some?)
  }

  /** Rows come in the order of their creation, and only the last one may be active. */
  ghost predicate RowsOk(rows: seq<Inspection>, clock: int) {
    && (forall i :: 0 <= i < |rows| ==> WellTimed(rows[i], clock) && rows[i].createdAt <= clock)
    && (forall i, j :: 0 <= i < j < |rows| ==> rows[i].createdAt <= rows[j].createdAt)
    && (forall i :: 0 <= i < |rows| - 1 ==> !Active(rows[i].status))
  }

  lemma PatchKeepsWellTimed(p: Patch, i: Inspection, clock: int, now: int)
    requires WellTimed(i, clock) && clock <= now && PatchAllowed(p, i)
    ensures WellTimed(Patched(p, i, now), now)
    ensures Active(Patched(p, i, now).status) ==> Active(i.status)
    ensures i.checkedInAt.Some? ==> Patched(p, i, now).checkedInAt == i.checkedInAt
  {}

  lemma CompletionKeepsWellTimed(i: Inspection, summary: string, clock: int, now: int)
    requires WellTimed(i, clock) && clock <= now && i.status == Ongoing
    ensures WellTimed(CompletedBy(i, summary, now), now)
  {}

  lemma ReplaceKeepsRows(rows: seq<Inspection>, k: nat, row: Inspection, clock: int, now: int)
    requires RowsOk(rows, clock) && clock <= now && k < |rows|
    requires WellTimed(row, now) && row.createdAt == rows[k].createdAt
        && (Active(row.status) ==> Active(rows[k].status))
    ensures RowsOk(rows[k := row], now)
  {}

  lemma InsertKeepsRows(rows: seq<Inspection>, officer: nat, clock: int, now: int)
    requires RowsOk(rows, clock) && clock <= now
    requires Answers(rows, ACTIVE, None)
    ensures RowsOk(rows + [NewInspection(officer, now)], now)
  {
    var after := rows + [NewInspection(officer, now)];
    assert forall i :: 0 <= i < |rows| ==> after[i] == rows[i] && !Active(rows[i].status);
  }

  lemma LaterClock(rows: seq<Inspection>, clock: int, now: int)
    requires RowsOk(rows, clock) && clock <= now
    ensures RowsOk(rows, now)
  {}

  // ---- Lookups ----

  /** Never two active inspections, and only the last row can be one. */
  lemma AtMostOneActive(rows: seq<Inspection>, clock: int, i: nat, j: nat)
    requires RowsOk(rows, clock) && i < |rows| && j < |rows| && Active(rows[i].status) && Active(rows[j].status)
    ensures i == j == |rows| - 1
  {}

  function LastIfActive(rows: seq<Inspection>): Option<nat> {
    if rows != [] && Active(rows[|rows| - 1].status) then Some(|rows| - 1) else None
  }

  /** A search for the latest active row has one answer, the last row if it is active. */
  lemma ActiveSearchFindsLast(rows: seq<Inspection>, clock: int, r: Option<nat>)
    requires RowsOk(rows, clock)
    ensures Answers(rows, ACTIVE, r) <==> r == LastIfActive(rows)
  {
    assert forall i :: 0 <= i < |rows| ==> (rows[i].status in ACTIVE <==> Active(rows[i].status));
    if Answers(rows, ACTIVE, r) && LastIfActive(rows).Some? {
      assert rows[|rows| - 1].status in ACTIVE;
    }
  }

  /** The last two rows were created at the same time. */
  predicate Tie(rows: seq<Inspection>) {
    |rows| >= 2 && rows[|rows| - 2].createdAt == rows[|rows| - 1].createdAt
  }

  /** A lookup of the latest row of any status can only return the last row if and only if the last two were not created
      at the same time. */
  lemma LatestIsLastIffNoTie(rows: seq<Inspection>, clock: int)
    requires RowsOk(rows, clock) && rows != []
    ensures !Tie(rows) <==> forall r :: Answers(rows, ANY, r) ==> r == Some(|rows| - 1)
  {
    var n := |rows|;
    assert forall i :: 0 <= i < n ==> rows[i].status in ANY;
    if Tie(rows) {
      assert Answers(rows, ANY, Some(n - 2));
    } else {
      forall r: Option<nat> | Answers(rows, ANY, r) ensures r == Some(n - 1) {
        assert rows[0].status in ANY && rows[n - 1].status in ANY;
        assert rows[r.value].createdAt >= rows[n - 1].createdAt;
      }
    }
  }

  /** What a lookup of the latest row tells: if that row is active, no other is, and without a tie it is in progress
      exactly when some row is, and completed only when no row is active. */
  lemma LatestDecides(rows: seq<Inspection>, clock: int, k: nat)
    requires RowsOk(rows, clock) && Answers(rows, ANY, Some(k))
    ensures Active(rows[k].status) ==> forall i :: 0 <= i < |rows| && Active(rows[i].status) ==> i == k
    ensures !Tie(rows) ==> (rows[k].status == Ongoing <==> exists i :: 0 <= i < |rows| && rows[i].status == Ongoing)
    ensures !Tie(rows) && rows[k].status == Completed ==> forall i :: 0 <= i < |rows| ==> !Active(rows[i].status)
  {
    LatestIsLastIffNoTie(rows, clock);
    assert forall i :: 0 <= i < |rows| && Active(rows[i].status) ==> i == |rows| - 1;
    if !Tie(rows) {
      assert k == |rows| - 1;
      assert forall i :: 0 <= i < |rows| && rows[i].status == Ongoing ==> Active(rows[i].status);
    }
  }
}
