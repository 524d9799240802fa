/** Any number of POST /bookings transactions, cancellations and status patches at the same time.

    A booking transaction locks the facility's row, looks for colliding bookings, inserts, and commits or aborts; an
    insert becomes visible at the commit. Cancelling and patching are single UPDATEs. A statement that meets a lock
    waits: here it does nothing and can be tried again. Every event sequence is a run. */
module BookingAllocator {
  import opened Wrappers

  datatype BookingStatus = Pending | Confirmed | Completed | Cancelled | Rejected

  /** Neither cancelled nor rejected */
  predicate Active(s: BookingStatus) {
    s != Cancelled && s != Rejected
  }

  /** A booking_details row; times are seconds of the day. */
  datatype Booking = Booking(facility: nat, date: nat, start: Option<nat>, end: Option<nat>, status: BookingStatus)

  datatype Slot = Slot(facility: nat, date: nat, start: nat, end: nat)

  datatype Facility = Facility(bookable: bool, active: bool, deleted: bool)

  /** The collision query's condition */
  predicate Collides(b: Booking, r: Slot) {
    && b.facility == r.facility && b.date == r.date && Active(b.status)
    && (b.start.None? || b.end.None? || (b.start.value < r.end && b.end.value > r.start))
  }

  /** Two half-open intervals share an instant. */
  ghost predicate Overlap(start1: nat, end1: nat, start2: nat, end2: nat) {
    exists t: nat :: Covers(start1, end1, t) && Covers(start2, end2, t)
  }

  predicate Covers(start: nat, end: nat, t: nat) {
    start <= t < end
  }

  /** Both active, at the same place and day, with times that share an instant */
  ghost predicate DoubleBooked(a: Booking, b: Booking) {
    && a.facility == b.facility && a.date == b.date
    && Active(a.status) && Active(b.status)
    && a.start.Some? && a.end.Some? && b.start.Some? && b.end.Some?
    && Overlap(a.start.value, a.end.value, b.start.value, b.end.value)
  }

  ghost predicate NoDoubleBooking(bookings: seq<Booking>) {
    forall i, j :: 0 <= i < j < |bookings| ==> !DoubleBooked(bookings[i], bookings[j])
  }

  /** How far a transaction has come: begun, holding its facility's lock, past the collision query */
  datatype Phase = Begun | Locked | Clear

  datatype Tx = Tx(slot: Slot, phase: Phase)

  /** won and refused are the transactions that committed and those that met a collision. */
  datatype State = State(
    facilities: map<nat, Facility>,
    bookings: seq<Booking>,
    txs: map<nat, Tx>,
    won: set<nat>,
    refused: set<nat>)

  datatype Event =
    | Begin(id: nat, slot: Slot)
    | Lock(id: nat)
    | CheckCollisions(id: nat)
    | InsertAndCommit(id: nat)
    | Abort(id: nat)
    | SetStatus(row: nat, status: BookingStatus)

  ghost predicate FacilityFree(s: State, facility: nat) {
    forall t :: t in s.txs && s.txs[t].slot.facility == facility ==> s.txs[t].phase.Begun?
  }

  predicate Available(s: State, facility: nat) {
    && facility in s.facilities && !s.facilities[facility].deleted
    && s.facilities[facility].bookable && s.facilities[facility].active
  }

  ghost predicate Taken(s: State, slot: Slot) {
    exists b :: b in s.bookings && Collides(b, slot)
  }

  function Inserted(slot: Slot): Booking {
    Booking(slot.facility, slot.date, Some(slot.start), Some(slot.end), Confirmed)
  }

  function Leave(s: State, t: nat): State {
    s.(txs := s.txs - {t})
  }

  ghost function Step(s: State, e: Event): State {
    match e
    case Begin(t, slot) =>
      if t in s.txs || t in s.won || t in s.refused then s else s.(txs := s.txs[t := Tx(slot, Begun)])
    case Lock(t) =>
      if t !in s.txs || !s.txs[t].phase.Begun? || !FacilityFree(s, s.txs[t].slot.facility) then s
      else if Available(s, s.txs[t].slot.facility) then s.(txs := s.txs[t := s.txs[t].(phase := Locked)])
      else Leave(s, t)
    case CheckCollisions(t) =>
      if t !in s.txs || !s.txs[t].phase.Locked? then s
      else if Taken(s, s.txs[t].slot) then Leave(s, t).(refused := s.refused + {t})
      else s.(txs := s.txs[t := s.txs[t].(phase := Clear)])
    case InsertAndCommit(t) =>
      if t !in s.txs || !s.txs[t].phase.Clear? then s
      else Leave(s, t).(bookings := s.bookings + [Inserted(s.txs[t].slot)], won := s.won + {t})
    case Abort(t) => Leave(s, t)
    case SetStatus(i, status) =>
      if i >= |s.bookings| then s else s.(bookings := s.bookings[i := s.bookings[i].(status := status)])
  }

  ghost function Run(s: State, events: seq<Event>): State
    decreases |events|
  {
    if events == [] then s else Run(Step(s, events[0]), events[1..])
  }

  /** The row as the status write would leave it */
  function Patched(s: State, row: nat, status: BookingStatus): Booking
    requires row < |s.bookings|
  {
    s.bookings[row].(status := status)
  }

  /** Some other row is double-booked with b. */
  ghost predicate ClashesWithRow(s: State, row: nat, b: Booking) {
    exists j :: 0 <= j < |s.bookings| && j != row && DoubleBooked(s.bookings[j], b)
  }

  /** Some transaction that is past its collision query is about to insert a row that is double-booked with b. */
  ghost predicate ClashesWithTx(s: State, b: Booking) {
    exists t :: t in s.txs && s.txs[t].phase.Clear? && DoubleBooked(b, Inserted(s.txs[t].slot))
  }

  /** A status write that leaves the row inactive, or clashes with nothing; every other event is safe. */
  ghost predicate Safe(s: State, e: Event) {
    e.SetStatus? && e.row < |s.bookings| && Active(e.status) ==>
      !ClashesWithRow(s, e.row, Patched(s, e.row, e.status)) && !ClashesWithTx(s, Patched(s, e.row, e.status))
  }

  ghost predicate AllSafe(s: State, events: seq<Event>)
    decreases |events|
  {
    events != [] ==> Safe(s, events[0]) && AllSafe(Step(s, events[0]), events[1..])
  }

  /** A status write that takes a cancelled or rejected booking back into use */
  predicate Reactivates(s: State, e: Event) {
    e.SetStatus? && e.row < |s.bookings| && !Active(s.bookings[e.row].status) && Active(e.status)
  }

  ghost predicate NeverReactivates(s: State, events: seq<Event>)
    decreases |events|
  {
    events != [] ==> !Reactivates(s, events[0]) && NeverReactivates(Step(s, events[0]), events[1..])
  }

  /** A table that no allocator transaction is at work on */
  predicate Quiet(s: State) {
    s.txs == map[] && s.won == {} && s.refused == {}
  }

  // ---- Safety ----

  lemma NoCollisionNoOverlap(b: Booking, slot: Slot)
    requires !Collides(b, slot)
    ensures !DoubleBooked(b, Inserted(slot))
  {
  }

  /** What a row with times and a slot that collide have in common: an instant, if both start before they end; if one of
      them is reversed, it lies strictly inside the other; two reversed ones never collide. */
  ghost predicate Meets(start1: nat, end1: nat, start2: nat, end2: nat) {
    if start1 < end1 && start2 < end2 then Overlap(start1, end1, start2, end2)
    else if start1 < end1 then start1 < end2 && start2 < end1
    else if start2 < end2 then start2 < end1 && start1 < end2
    else false
  }

  lemma CollisionMeansMeeting(b: Booking, slot: Slot)
    requires b.facility == slot.facility && b.date == slot.date && Active(b.status) && b.start.Some? && b.end.Some?
    ensures Collides(b, slot) <==> Meets(b.start.value, b.end.value, slot.start, slot.end)
  {
    var t := if b.start.value < slot.start then slot.start else b.start.value;
    assert Covers(b.start.value, b.end.value, t) && Covers(slot.start, slot.end, t)
           <==> b.start.value <= t < b.end.value && slot.start <= t < slot.end;
  }

  lemma DoubleBookedSymmetric(a: Booking, b: Booking)
    ensures DoubleBooked(a, b) == DoubleBooked(b, a)
  {
    if a.start.Some? && a.end.Some? && b.start.Some? && b.end.Some? {
      assert forall t: nat :: Covers(a.start.value, a.end.value, t) && Covers(b.start.value, b.end.value, t)
                              <==> Covers(b.start.value, b.end.value, t) && Covers(a.start.value, a.end.value, t);
    }
  }

  ghost predicate Inv(s: State) {
    && NoDoubleBooking(s.bookings)
    && (forall t, u :: t in s.txs && u in s.txs && t != u && s.txs[t].slot.facility == s.txs[u].slot.facility
                       ==> s.txs[t].phase.Begun? || s.txs[u].phase.Begun?)
    && (forall t, j :: t in s.txs && s.txs[t].phase.Clear? && 0 <= j < |s.bookings|
                       ==> !DoubleBooked(s.bookings[j], Inserted(s.txs[t].slot)))
  }

  lemma CommitKeepsInv(s: State, t: nat)
    requires Inv(s) && t in s.txs && s.txs[t].phase.Clear?
    ensures Inv(Step(s, InsertAndCommit(t)))
  {
    var slot := s.txs[t].slot;
    var s' := Step(s, InsertAndCommit(t));
    forall u, j | u in s'.txs && s'.txs[u].phase.Clear? && 0 <= j < |s'.bookings|
      ensures !DoubleBooked(s'.bookings[j], Inserted(s'.txs[u].slot))
    {
      assert s.txs[u].slot.facility != slot.facility;
    }
  }

  lemma CheckKeepsInv(s: State, t: nat)
    requires Inv(s) && t in s.txs && s.txs[t].phase.Locked? && !Taken(s, s.txs[t].slot)
    ensures Inv(Step(s, CheckCollisions(t)))
  {
    forall j | 0 <= j < |s.bookings| ensures !DoubleBooked(s.bookings[j], Inserted(s.txs[t].slot)) {
      assert s.bookings[j] in s.bookings;
      NoCollisionNoOverlap(s.bookings[j], s.txs[t].slot);
    }
  }

  /** With no transaction under way: a status write keeps the table free of double bookings exactly when it leaves the
      row inactive or no other row clashes with it. */
  lemma StatusWriteKeepsTableIff(s: State, row: nat, status: BookingStatus)
    requires NoDoubleBooking(s.bookings) && row < |s.bookings|
    ensures NoDoubleBooking(Step(s, SetStatus(row, status)).bookings)
            <==> (Active(status) ==> !ClashesWithRow(s, row, Patched(s, row, status)))
  {
    var (after, b) := (Step(s, SetStatus(row, status)).bookings, Patched(s, row, status));
    if Active(status) && ClashesWithRow(s, row, b) {
      var j :| 0 <= j < |s.bookings| && j != row && DoubleBooked(s.bookings[j], b);
      DoubleBookedSymmetric(s.bookings[j], b);
      assert after[j] == s.bookings[j] && after[row] == b;
    } else {
      forall i, j | 0 <= i < j < |after| ensures !DoubleBooked(after[i], after[j]) {
        assert !DoubleBooked(s.bookings[i], s.bookings[j]);
        if i == row {
          DoubleBookedSymmetric(s.bookings[j], b);
        }
      }
    }
  }

  lemma StatusKeepsInv(s: State, row: nat, status: BookingStatus)
    requires Inv(s) && Safe(s, SetStatus(row, status))
    ensures Inv(Step(s, SetStatus(row, status)))
  {
    if row < |s.bookings| {
      StatusWriteKeepsTableIff(s, row, status);
    }
  }

  lemma StepKeepsInv(s: State, e: Event)
    requires Inv(s) && Safe(s, e)
    ensures Inv(Step(s, e))
  {
    match e
    case CheckCollisions(t) =>
      if t in s.txs && s.txs[t].phase.Locked? && !Taken(s, s.txs[t].slot) {
        CheckKeepsInv(s, t);
      }
    case InsertAndCommit(t) =>
      if t in s.txs && s.txs[t].phase.Clear? {
        CommitKeepsInv(s, t);
      }
    case SetStatus(row, status) => StatusKeepsInv(s, row, status);
    case _ =>
  }

  lemma {:induction false} RunKeepsInv(s: State, events: seq<Event>)
    requires Inv(s) && AllSafe(s, events)
    ensures Inv(Run(s, events))
    decreases |events|
  {
    if events != [] {
      StepKeepsInv(s, events[0]);
      RunKeepsInv(Step(s, events[0]), events[1..]);
    }
  }

  /** However the transactions, cancellations and patches interleave, a table without double bookings keeps being one,
      as long as every status write is safe. */
  lemma NoDoubleBookingInAnyRun(s: State, events: seq<Event>)
    requires Quiet(s) && NoDoubleBooking(s.bookings)
    requires AllSafe(s, events)
    ensures NoDoubleBooking(Run(s, events).bookings)
  {
    RunKeepsInv(s, events);
  }

  /** And safe is the exact condition: after a status write that is not, a double booking is there at once or appears
      with a commit; after one that is, none ever appears without another unsafe write. */
  lemma StatusWriteIsHarmlessIff(s: State, row: nat, status: BookingStatus)
    requires Inv(s)
    ensures var s' := Step(s, SetStatus(row, status));
            Safe(s, SetStatus(row, status))
            <==> forall events :: AllSafe(s', events) ==> NoDoubleBooking(Run(s', events).bookings)
  {
    var s' := Step(s, SetStatus(row, status));
    if Safe(s, SetStatus(row, status)) {
      StatusKeepsInv(s, row, status);
      forall events | AllSafe(s', events) ensures NoDoubleBooking(Run(s', events).bookings) {
        RunKeepsInv(s', events);
      }
    } else {
      var events := UnsafeWriteDoubleBooks(s, row, status);
      assert AllSafe(s', events) && !NoDoubleBooking(Run(s', events).bookings);
    }
  }

  lemma UnsafeWriteDoubleBooks(s: State, row: nat, status: BookingStatus) returns (events: seq<Event>)
    requires Inv(s) && !Safe(s, SetStatus(row, status))
    ensures var s' := Step(s, SetStatus(row, status));
            AllSafe(s', events) && !NoDoubleBooking(Run(s', events).bookings)
  {
    var (s', b) := (Step(s, SetStatus(row, status)), Patched(s, row, status));
    if ClashesWithRow(s, row, b) {
      events := [];
      StatusWriteKeepsTableIff(s, row, status);
    } else {
      var t :| t in s.txs && s.txs[t].phase.Clear? && DoubleBooked(b, Inserted(s.txs[t].slot));
      events := [InsertAndCommit(t)];
      assert [InsertAndCommit(t)][1..] == [];
      var s'' := Step(s', InsertAndCommit(t));
      assert Run(s', events) == Run(s'', []);
      assert s''.bookings[row] == b && s''.bookings[|s.bookings|] == Inserted(s.txs[t].slot);
    }
  }

  /** A write that does not take a cancelled or rejected booking back into use is safe. */
  lemma OnlyReactivationIsUnsafe(s: State, e: Event)
    requires Inv(s) && !Reactivates(s, e)
    ensures Safe(s, e)
  {
    if e.SetStatus? && e.row < |s.bookings| && Active(e.status) {
      var (before, b) := (s.bookings[e.row], Patched(s, e.row, e.status));
      forall j | 0 <= j < |s.bookings| && j != e.row ensures !DoubleBooked(s.bookings[j], b) {
        DoubleBookedSymmetric(s.bookings[j], before);
        assert !DoubleBooked(s.bookings[j], before);
      }
      forall t | t in s.txs && s.txs[t].phase.Clear? ensures !DoubleBooked(b, Inserted(s.txs[t].slot)) {
        assert !DoubleBooked(before, Inserted(s.txs[t].slot));
      }
    }
  }

  lemma {:induction false} NoReactivationIsSafe(s: State, events: seq<Event>)
    requires Inv(s) && NeverReactivates(s, events)
    ensures AllSafe(s, events)
    decreases |events|
  {
    if events != [] {
      OnlyReactivationIsUnsafe(s, events[0]);
      StepKeepsInv(s, events[0]);
      NoReactivationIsSafe(Step(s, events[0]), events[1..]);
    }
  }

  /** In particular, there is never a double booking if no status write reactivates a row. */
  lemma NoDoubleBookingWithoutReactivation(s: State, events: seq<Event>)
    requires Quiet(s) && NoDoubleBooking(s.bookings)
    requires NeverReactivates(s, events)
    ensures NoDoubleBooking(Run(s, events).bookings)
  {
    NoReactivationIsSafe(s, events);
    NoDoubleBookingInAnyRun(s, events);
  }

  /** The condition is needed: patching a cancelled booking back to confirmed double-books its slot. */
  lemma ReactivationDoubleBooks(s: State) returns (events: seq<Event>)
    requires Quiet(s) && Available(s, 1)
    requires s.bookings == [Booking(1, 1, Some(36000), Some(39600), Cancelled)]
    ensures NoDoubleBooking(s.bookings)
    ensures !NoDoubleBooking(Run(s, events).bookings)
  {
    var slot := Slot(1, 1, 36000, 39600);
    var s1 := Step(s, Begin(1, slot));
    var s2 := Step(s1, Lock(1));
    assert s2.txs[1] == Tx(slot, Locked);
    var s3 := Step(s2, CheckCollisions(1));
    assert s3.txs[1] == Tx(slot, Clear);
    var s4 := Step(s3, InsertAndCommit(1));
    var s5 := Step(s4, SetStatus(0, Confirmed));
    assert s5.bookings == [Booking(1, 1, Some(36000), Some(39600), Confirmed), Inserted(slot)];
    assert Covers(36000, 39600, 36000);
    events := [Begin(1, slot), Lock(1), CheckCollisions(1), InsertAndCommit(1), SetStatus(0, Confirmed)];
    assert events[1..][1..] == [CheckCollisions(1), InsertAndCommit(1), SetStatus(0, Confirmed)];
    assert Run(s, events) == Run(s1, events[1..]) == Run(s2, events[1..][1..]);
    assert [CheckCollisions(1), InsertAndCommit(1), SetStatus(0, Confirmed)][1..]
        == [InsertAndCommit(1), SetStatus(0, Confirmed)];
    assert [InsertAndCommit(1), SetStatus(0, Confirmed)][1..] == [SetStatus(0, Confirmed)];
    assert Run(s2, events[1..][1..]) == Run(s3, [InsertAndCommit(1), SetStatus(0, Confirmed)])
        == Run(s4, [SetStatus(0, Confirmed)]);
    assert [SetStatus(0, Confirmed)][1..] == [];
    assert Run(s4, [SetStatus(0, Confirmed)]) == Run(s5, []);
    assert DoubleBooked(s5.bookings[0], s5.bookings[1]);
  }

  // ---- Every refusal is justified, and one of n identical requests wins ----

  /** An active booking of the slot's facility and day that has no times or meets the slot */
  ghost predicate Justifies(b: Booking, slot: Slot) {
    && Active(b.status) && b.facility == slot.facility && b.date == slot.date
    && (b.start.Some? && b.end.Some? ==> Meets(b.start.value, b.end.value, slot.start, slot.end))
  }

  /** A transaction is refused exactly when, at that moment, some booking justifies it; if it is not, no booking is
      double-booked with its slot. */
  lemma RefusalIsJustified(s: State, t: nat)
    requires t in s.txs && s.txs[t].phase.Locked? && t !in s.refused
    ensures t in Step(s, CheckCollisions(t)).refused <==> exists b :: b in s.bookings && Justifies(b, s.txs[t].slot)
    ensures t !in Step(s, CheckCollisions(t)).refused ==>
              forall b :: b in s.bookings ==> !DoubleBooked(b, Inserted(s.txs[t].slot))
  {
    var slot := s.txs[t].slot;
    forall b | b in s.bookings ensures Collides(b, slot) == Justifies(b, slot) {
      JustifiesIffCollides(b, slot);
    }
    if !Taken(s, slot) {
      forall b | b in s.bookings ensures !DoubleBooked(b, Inserted(slot)) {
        NoCollisionNoOverlap(b, slot);
      }
    }
  }

  lemma JustifiesIffCollides(b: Booking, slot: Slot)
    ensures Collides(b, slot) == Justifies(b, slot)
  {
    if b.facility == slot.facility && b.date == slot.date && Active(b.status) && b.start.Some? && b.end.Some? {
      CollisionMeansMeeting(b, slot);
    }
  }

  // ---- The statuses and facilities by name ----

  /** Two bookings of one facility and day whose times share an instant, whatever their statuses */
  ghost predicate SameTime(a: Booking, b: Booking) {
    && a.facility == b.facility && a.date == b.date
    && a.start.Some? && a.end.Some? && b.start.Some? && b.end.Some?
    && exists t: nat :: Covers(a.start.value, a.end.value, t) && Covers(b.start.value, b.end.value, t)
  }

  lemma SameTimeIsOverlap(a: Booking, b: Booking)
    requires a.status !in {Cancelled, Rejected} && b.status !in {Cancelled, Rejected} && SameTime(a, b)
    ensures DoubleBooked(a, b)
  {
  }

  /** In every run of safe status writes, of two bookings of a facility and day with an instant in common at least one
      is cancelled or rejected. */
  lemma OneOfTwoIsCancelled(s: State, events: seq<Event>, i: nat, j: nat)
    requires Quiet(s) && NoDoubleBooking(s.bookings) && AllSafe(s, events)
    requires i < j < |Run(s, events).bookings|
    ensures var (a, b) := (Run(s, events).bookings[i], Run(s, events).bookings[j]);
            SameTime(a, b) ==> a.status in {Cancelled, Rejected} || b.status in {Cancelled, Rejected}
  {
    NoDoubleBookingInAnyRun(s, events);
    var (a, b) := (Run(s, events).bookings[i], Run(s, events).bookings[j]);
    if SameTime(a, b) && a.status !in {Cancelled, Rejected} && b.status !in {Cancelled, Rejected} {
      SameTimeIsOverlap(a, b);
    }
  }

  /** A pending, confirmed or completed booking with an instant in common with the slot refuses it; so does one without
      times. */
  lemma LiveBookingRefuses(s: State, t: nat, b: Booking)
    requires t in s.txs && s.txs[t].phase.Locked? && t !in s.refused
    requires b in s.bookings && b.status in {Pending, Confirmed, Completed}
    requires b.facility == s.txs[t].slot.facility && b.date == s.txs[t].slot.date
    requires b.start.None? || b.end.None? || SameTime(b, Inserted(s.txs[t].slot))
    ensures t in Step(s, CheckCollisions(t)).refused
  {
    var slot := s.txs[t].slot;
    if b.start.Some? && b.end.Some? {
      SameTimeIsOverlap(b, Inserted(slot));
    }
    assert Collides(b, slot);
  }

  /** If all bookings of the facility and day are cancelled or rejected, nothing refuses a slot. */
  lemma DeadBookingsNeverRefuse(s: State, t: nat)
    requires t in s.txs && s.txs[t].phase.Locked? && t !in s.refused
    requires forall b :: b in s.bookings && b.facility == s.txs[t].slot.facility && b.date == s.txs[t].slot.date
                         ==> b.status in {Cancelled, Rejected}
    ensures t !in Step(s, CheckCollisions(t)).refused
    ensures t in Step(s, CheckCollisions(t)).txs && Step(s, CheckCollisions(t)).txs[t].phase == Clear
  {
    forall b | b in s.bookings ensures !Collides(b, s.txs[t].slot) {
      assert b.facility == s.txs[t].slot.facility && b.date == s.txs[t].slot.date ==> b.status in {Cancelled, Rejected};
    }
  }

  /** Cancelling or rejecting is safe, and so is moving a booking between the other statuses. */
  lemma SafeWritesByName(s: State, row: nat, status: BookingStatus)
    requires Inv(s) && row < |s.bookings|
    requires status in {Cancelled, Rejected} || s.bookings[row].status in {Pending, Confirmed, Completed}
    ensures Safe(s, SetStatus(row, status))
  {
    OnlyReactivationIsUnsafe(s, SetStatus(row, status));
  }

  /** A booking is only made at a facility that is there, bookable and active when its row is locked; at any other the
      transaction ends. */
  lemma OnlyAvailableFacilities(s: State, t: nat)
    requires t in s.txs && s.txs[t].phase.Begun? && FacilityFree(s, s.txs[t].slot.facility)
    ensures var f := s.txs[t].slot.facility;
            var s' := Step(s, Lock(t));
            if f in s.facilities && s.facilities[f].bookable && s.facilities[f].active && !s.facilities[f].deleted
            then t in s'.txs && s'.txs[t].phase == Locked
            else t !in s'.txs && s'.bookings == s.bookings
  {
  }

  /** The row that a winning transaction adds */
  lemma WinnerIsConfirmed(s: State, t: nat)
    requires t in s.txs && s.txs[t].phase.Clear?
    ensures var (s', slot) := (Step(s, InsertAndCommit(t)), s.txs[t].slot);
            && t in s'.won && s'.bookings[..|s.bookings|] == s.bookings && |s'.bookings| == |s.bookings| + 1
            && s'.bookings[|s.bookings|]
               == Booking(slot.facility, slot.date, Some(slot.start), Some(slot.end), Confirmed)
  {
  }

  /** A run in which every request is for the same slot, none aborts and no booking changes status */
  ghost predicate Contest(events: seq<Event>, slot: Slot) {
    forall e :: e in events ==> !e.Abort? && !e.SetStatus? && (e.Begin? ==> e.slot == slot)
  }

  /** Nothing but the contest's own rows takes the slot: winners are the rows added, and whoever was refused lost to
      one. */
  ghost predicate Fair(s: State, before: nat, slot: Slot) {
    && before <= |s.bookings|
    && (forall i :: 0 <= i < before ==> !Collides(s.bookings[i], slot))
    && (forall i :: before <= i < |s.bookings| ==> s.bookings[i] == Inserted(slot))
    && |s.won| == |s.bookings| - before
    && (s.refused != {} ==> s.won != {})
  }

  ghost predicate Entered(s: State, slot: Slot) {
    && Available(s, slot.facility)
    && (forall t :: t in s.txs ==> s.txs[t].slot == slot)
    && s.won !! s.txs.Keys && s.refused !! s.txs.Keys && s.won !! s.refused
  }

  /** The transactions that ever began */
  function Attempts(s: State): set<nat> {
    s.txs.Keys + s.won + s.refused
  }

  lemma EnteredStep(s: State, e: Event, slot: Slot)
    requires Entered(s, slot)
    requires !e.Abort? && !e.SetStatus? && (e.Begin? ==> e.slot == slot)
    ensures Entered(Step(s, e), slot)
    ensures Attempts(Step(s, e)) == Attempts(s) + if e.Begin? then {e.id} else {}
  {
  }

  lemma FairStep(s: State, e: Event, before: nat, slot: Slot)
    requires Entered(s, slot) && Fair(s, before, slot)
    requires !e.Abort? && !e.SetStatus? && (e.Begin? ==> e.slot == slot)
    ensures Fair(Step(s, e), before, slot)
  {
    if e.CheckCollisions? && Step(s, e).refused != s.refused {
      RefusedToAWinner(s, before, slot);
    }
    if e.InsertAndCommit? && e.id in s.txs && s.txs[e.id].phase.Clear? {
      WinnerCounts(s, e.id, before, slot);
    }
  }

  lemma RefusedToAWinner(s: State, before: nat, slot: Slot)
    requires Fair(s, before, slot) && Taken(s, slot)
    ensures s.won != {}
  {
    var b :| b in s.bookings && Collides(b, slot);
    assert |s.bookings| > before;
    assert |s.won| > 0;
  }

  lemma WinnerCounts(s: State, t: nat, before: nat, slot: Slot)
    requires Entered(s, slot) && Fair(s, before, slot) && t in s.txs && s.txs[t].phase.Clear?
    ensures Fair(Step(s, InsertAndCommit(t)), before, slot)
  {
    assert t !in s.won;
    assert s.txs[t].slot == slot;
    var after := s.bookings + [Inserted(slot)];
    assert forall i :: before <= i < |after| ==> after[i] == Inserted(slot);
  }

  function Entrants(events: seq<Event>): set<nat>
    decreases |events|
  {
    if events == [] then {} else Entrants(events[1..]) + if events[0].Begin? then {events[0].id} else {}
  }

  lemma ContestTail(events: seq<Event>, slot: Slot)
    requires Contest(events, slot) && events != []
    ensures Contest(events[1..], slot)
    ensures !events[0].Abort? && !events[0].SetStatus? && (events[0].Begin? ==> events[0].slot == slot)
  {
  }

  lemma {:induction false} ContestRun(s: State, events: seq<Event>, before: nat, slot: Slot)
    requires Entered(s, slot) && Fair(s, before, slot) && Contest(events, slot)
    ensures Entered(Run(s, events), slot) && Fair(Run(s, events), before, slot)
    decreases |events|
  {
    if events != [] {
      ContestTail(events, slot);
      var s1 := Step(s, events[0]);
      assert Entered(s1, slot) && Fair(s1, before, slot) by {
        EnteredStep(s, events[0], slot);
        FairStep(s, events[0], before, slot);
      }
      ContestRun(s1, events[1..], before, slot);
      assert Run(s, events) == Run(s1, events[1..]);
    }
  }

  lemma {:induction false} ContestAttempts(s: State, events: seq<Event>, slot: Slot)
    requires Entered(s, slot) && Contest(events, slot)
    ensures Attempts(Run(s, events)) == Attempts(s) + Entrants(events)
    decreases |events|
  {
    if events != [] {
      ContestTail(events, slot);
      EnteredStep(s, events[0], slot);
      ContestAttempts(Step(s, events[0]), events[1..], slot);
    }
  }

  lemma {:induction false} ContestIsSafe(s: State, events: seq<Event>, slot: Slot)
    requires Contest(events, slot)
    ensures AllSafe(s, events)
    decreases |events|
  {
    if events != [] {
      ContestTail(events, slot);
      ContestIsSafe(Step(s, events[0]), events[1..], slot);
    }
  }

  lemma {:induction false} ContestKeepsRows(s: State, events: seq<Event>, slot: Slot)
    requires Contest(events, slot)
    ensures s.bookings <= Run(s, events).bookings
    decreases |events|
  {
    if events != [] {
      ContestTail(events, slot);
      ContestKeepsRows(Step(s, events[0]), events[1..], slot);
    }
  }

  /** n identical requests for a free slot of an available facility: when all have been answered, exactly one has won
      and all the others were refused. */
  lemma ExactlyOneWinner(s: State, events: seq<Event>, slot: Slot)
    requires Quiet(s) && NoDoubleBooking(s.bookings) && Available(s, slot.facility)
    requires slot.start < slot.end && !Taken(s, slot)
    requires Contest(events, slot) && Entrants(events) != {}
    requires Run(s, events).txs == map[]
    ensures |Run(s, events).won| == 1
    ensures Run(s, events).refused == Entrants(events) - Run(s, events).won
    ensures Run(s, events).bookings == s.bookings + [Inserted(slot)]
  {
    ContestEnds(s, events, slot);
    ContestAttempts(s, events, slot);
    OneWinnerAmong(s, Run(s, events), Entrants(events), slot);
  }

  lemma OneWinnerAmong(s: State, end: State, entrants: set<nat>, slot: Slot)
    requires Entered(end, slot) && Fair(end, |s.bookings|, slot) && NoDoubleBooking(end.bookings)
        && s.bookings <= end.bookings
    requires end.txs == map[] && Attempts(end) == entrants && entrants != {} && slot.start < slot.end
    ensures |end.won| == 1 && end.refused == entrants - end.won && end.bookings == s.bookings + [Inserted(slot)]
  {
    assert entrants == end.won + end.refused;
    OneWinner(end, |s.bookings|, slot);
  }

  lemma ContestEnds(s: State, events: seq<Event>, slot: Slot)
    requires Quiet(s) && NoDoubleBooking(s.bookings) && Available(s, slot.facility)
    requires !Taken(s, slot) && Contest(events, slot)
    ensures var end := Run(s, events);
            Entered(end, slot) && Fair(end, |s.bookings|, slot) && NoDoubleBooking(end.bookings)
                && s.bookings <= end.bookings
  {
    var n := |s.bookings|;
    forall i | 0 <= i < n ensures !Collides(s.bookings[i], slot) {
      assert s.bookings[i] in s.bookings;
    }
    ContestRun(s, events, n, slot);
    ContestKeepsRows(s, events, slot);
    ContestIsSafe(s, events, slot);
    NoDoubleBookingInAnyRun(s, events);
  }

  lemma OneWinner(end: State, before: nat, slot: Slot)
    requires Fair(end, before, slot) && NoDoubleBooking(end.bookings)
    requires slot.start < slot.end && end.won + end.refused != {}
    ensures |end.won| == 1 && |end.bookings| == before + 1
  {
    if |end.bookings| > before + 1 {
      assert Covers(slot.start, slot.end, slot.start);
      assert DoubleBooked(end.bookings[before], end.bookings[before + 1]);
    }
    assert end.won == {} ==> end.refused == {};
  }
}
