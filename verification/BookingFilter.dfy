/** The filter of the list of bookings: conditions and their values are pushed on two lists side by side. */
module BookingFilter {
  import opened Workflow
  import opened Placeholders

  /** Query parameters as the handler sees them: 0 and "" stand for a missing, empty or unreadable one. */
  datatype Query = Query(facility: int, facilityCode: string, status: string, startDate: string, endDate: string)

  datatype Value = Id(id: int) | Str(s: string)

  /** A condition with a marker between two pieces of text */
  function Marked(pre: string, post: string): string {
    pre + ("?" + post)
  }

  function Optional(wanted: bool, text: string, value: Value): seq<Clause<Value>> {
    if wanted then [Clause(text, [value])] else []
  }

  /** Citizens see their own bookings, workers the assigned ones, all others everything. */
  function ForRole(role: Role, user: int): seq<Clause<Value>> {
    match role
    case Citizen => [Clause(Marked("(bd.user_id = ", Marked(" OR sr.created_by_user_id = ", ")")),
        [Id(user), Id(user)])]
    case GovWorker => [Clause(Marked("sr.assigned_to_user_id = ", ""), [Id(user)])]
    case _ => []
  }

  function AddComparisons(c: seq<Clause<Value>>, q: Query): seq<Clause<Value>> {
    c
    + Optional(q.facility != 0, Marked("bd.facility_building_id = ", ""), Id(q.facility))
    + Optional(q.facilityCode != "", Marked("b.building_code = ", ""), Str(q.facilityCode))
    + Optional(q.status != "" && q.status != "ALL", Marked("bd.status = ", ""), Str(q.status))
  }

  function AddDates(c: seq<Clause<Value>>, q: Query): seq<Clause<Value>> {
    c
    + Optional(q.startDate != "", Marked("bd.booking_date >= ", "::DATE"), Str(q.startDate))
    + Optional(q.endDate != "", Marked("bd.booking_date <= ", "::DATE"), Str(q.endDate))
  }

  /** The conditions that every row of the list meets */
  function Conditions(role: Role, user: int, q: Query): seq<Clause<Value>> {
    AddDates(AddComparisons(ForRole(role, user), q), q)
  }

  method BuildFilter(role: Role, user: int, q: Query) returns (where: seq<string>, params: seq<Value>)
    ensures where == Texts(Conditions(role, user, q))
    ensures params == AllValues(Conditions(role, user, q))
  {
    where, params := StartFilter(role, user);
    where, params := PushComparisons(where, params, ForRole(role, user), q);
    where, params := PushDates(where, params, AddComparisons(ForRole(role, user), q), q);
  }

  method PushComparisons(where0: seq<string>, params0: seq<Value>, ghost c: seq<Clause<Value>>, q: Query)
    returns (where: seq<string>, params: seq<Value>)
    requires where0 == Texts(c) && params0 == AllValues(c)
    ensures where == Texts(AddComparisons(c, q)) && params == AllValues(AddComparisons(c, q))
  {
    ghost var done;
    where, params, done :=
      PushIf(q.facility != 0, where0, params0, c, Marked("bd.facility_building_id = ", ""), Id(q.facility));
    where, params, done :=
      PushIf(q.facilityCode != "", where, params, done, Marked("b.building_code = ", ""), Str(q.facilityCode));
    where, params, done :=
      PushIf(q.status != "" && q.status != "ALL", where, params, done, Marked("bd.status = ", ""), Str(q.status));
  }

  method PushDates(where0: seq<string>, params0: seq<Value>, ghost c: seq<Clause<Value>>, q: Query)
    returns (where: seq<string>, params: seq<Value>)
    requires where0 == Texts(c) && params0 == AllValues(c)
    ensures where == Texts(AddDates(c, q)) && params == AllValues(AddDates(c, q))
  {
    ghost var done;
    where, params, done :=
      PushIf(q.startDate != "", where0, params0, c, Marked("bd.booking_date >= ", "::DATE"), Str(q.startDate));
    where, params, done :=
      PushIf(q.endDate != "", where, params, done, Marked("bd.booking_date <= ", "::DATE"), Str(q.endDate));
  }

  method StartFilter(role: Role, user: int) returns (where: seq<string>, params: seq<Value>)
    ensures where == Texts(ForRole(role, user)) && params == AllValues(ForRole(role, user))
  {
    where, params := [], [];
    match role {
      case Citizen =>
        where := where + [Marked("(bd.user_id = ", Marked(" OR sr.created_by_user_id = ", ")"))];
        params := params + [Id(user), Id(user)];
      case GovWorker =>
        where := where + [Marked("sr.assigned_to_user_id = ", "")];
        params := params + [Id(user)];
      case _ =>
    }
    ghost var done := ForRole(role, user);
    assert done != [] ==> AllValues(done[1..]) == [] && params + [] == params;
  }

  /** If a filter is given, its condition and its value go on the two lists. */
  method PushIf(wanted: bool, where: seq<string>, params: seq<Value>, ghost done: seq<Clause<Value>>, text: string,
      value: Value)
    returns (where': seq<string>, params': seq<Value>, ghost done': seq<Clause<Value>>)
    requires where == Texts(done) && params == AllValues(done)
    ensures done' == done + Optional(wanted, text, value)
    ensures where' == Texts(done') && params' == AllValues(done')
  {
    where', params', done' := where, params, done;
    if wanted {
      where', params' := where + [text], params + [value];
      done' := done + [Clause(text, [value])];
      AllValuesSnoc(done, Clause(text, [value]));
    }
  }

  lemma {:induction false} AllValuesSnoc<V>(clauses: seq<Clause<V>>, c: Clause<V>)
    ensures AllValues(clauses + [c]) == AllValues(clauses) + c.values
    decreases |clauses|
  {
    if clauses == [] {
      assert clauses + [c] == [c];
      assert AllValues<V>([c][1..]) == [];
    } else {
      assert (clauses + [c])[1..] == clauses[1..] + [c];
      AllValuesSnoc(clauses[1..], c);
    }
  }

  // ---- The conditions by name ----

  function Given(wanted: bool): nat {
    if wanted then 1 else 0
  }

  /** Every filter that is given adds this condition with this value, and nothing else is there. */
  lemma FiltersByName(role: Role, user: int, q: Query)
    ensures var c := Conditions(role, user, q);
            && (q.facility != 0 ==> Clause("bd.facility_building_id = ?", [Id(q.facility)]) in c)
            && (q.facilityCode != "" ==> Clause("b.building_code = ?", [Str(q.facilityCode)]) in c)
            && (q.status != "" && q.status != "ALL" ==> Clause("bd.status = ?", [Str(q.status)]) in c)
            && (q.startDate != "" ==> Clause("bd.booking_date >= ?::DATE", [Str(q.startDate)]) in c)
            && (q.endDate != "" ==> Clause("bd.booking_date <= ?::DATE", [Str(q.endDate)]) in c)
            && |c| == Given(role in {Citizen, GovWorker}) + Given(q.facility != 0) + Given(q.facilityCode != "")
                      + Given(q.status != "" && q.status != "ALL") + Given(q.startDate != "") + Given(q.endDate != "")
  {
    ComparisonTexts();
    DateTexts();
  }

  lemma ComparisonTexts()
    ensures Marked("bd.facility_building_id = ", "") == "bd.facility_building_id = ?"
    ensures Marked("b.building_code = ", "") == "b.building_code = ?"
    ensures Marked("bd.status = ", "") == "bd.status = ?"
  {}

  lemma DateTexts()
    ensures Marked("bd.booking_date >= ", "::DATE") == "bd.booking_date >= ?::DATE"
    ensures Marked("bd.booking_date <= ", "::DATE") == "bd.booking_date <= ?::DATE"
  {}

  /** Citizens get the condition on their own bookings, field workers the one on assigned requests, others none. */
  lemma RolesByName(role: Role, user: int, q: Query)
    ensures var c := Conditions(role, user, q);
            && (role == Citizen ==>
                  c != [] && c[0] == Clause("(bd.user_id = ?" + " OR sr.created_by_user_id = ?)", [Id(user), Id(user)]))
            && (role == GovWorker ==> c != [] && c[0] == Clause("sr.assigned_to_user_id = ?", [Id(user)]))
            && (role !in {Citizen, GovWorker} ==> Conditions(role, user, Query(0, "", "", "", "")) == [])
  {
    OwnText();
    assert Marked("sr.assigned_to_user_id = ", "") == "sr.assigned_to_user_id = ?";
  }

  lemma OwnText()
    ensures Marked("(bd.user_id = ", Marked(" OR sr.created_by_user_id = ", ")"))
            == "(bd.user_id = ?" + " OR sr.created_by_user_id = ?)"
  {
    var second := " OR sr.created_by_user_id = ?)";
    assert Marked(" OR sr.created_by_user_id = ", ")") == second;
    assert "(bd.user_id = " + "?" == "(bd.user_id = ?";
    Associative("(bd.user_id = ", "?", second);
  }

  // ---- The conditions are well-formed ----

  predicate WellFormed(c: Clause<Value>) {
    Matched(c) && Readable(c) && '$' !in c.text
  }

  /** Text without quotes, markers, dollar signs and backslashes */
  predicate Quiet(s: string) {
    forall c :: c in s ==> !IsQuote(c) && c != '?' && c != '$' && c != '\\'
  }

  lemma {:induction false} QuietText(s: string)
    requires Quiet(s)
    ensures Markers(s, OUTSIDE) == 0 && Final(s, OUTSIDE) == OUTSIDE && NoDigitBehind(s, OUTSIDE)
    decreases |s|
  {
    if s != "" {
      assert s[0] in s;
      QuietText(s[1..]);
    }
  }

  /** A marker with quiet text on both sides, followed by more text */
  lemma OneMarker(pre: string, post: string)
    requires Quiet(pre) && !StartsWithDigit(post) && NoDigitBehind(post, OUTSIDE) && Final(post, OUTSIDE) == OUTSIDE
    requires '$' !in post
    ensures var s := Marked(pre, post);
            && Markers(s, OUTSIDE) == 1 + Markers(post, OUTSIDE)
            && Final(s, OUTSIDE) == OUTSIDE && NoDigitBehind(s, OUTSIDE) && '$' !in s
  {
    QuietText(pre);
    var tail := "?" + post;
    assert tail[1..] == post;
    MarkersConcat(pre, tail, OUTSIDE);
    NoDigitConcat(pre, tail, OUTSIDE);
  }

  lemma OneIsWellFormed(pre: string, post: string, v: Value, wanted: bool)
    requires Quiet(pre) && Quiet(post) && !StartsWithDigit(post)
    ensures AllWellFormed(Optional(wanted, Marked(pre, post), v))
  {
    QuietText(post);
    OneMarker(pre, post);
  }

  lemma TwoAreWellFormed(pre: string, mid: string, post: string, v: Value)
    requires Quiet(pre) && Quiet(mid) && Quiet(post) && !StartsWithDigit(mid) && !StartsWithDigit(post)
    requires mid != ""
    ensures WellFormed(Clause(Marked(pre, Marked(mid, post)), [v, v]))
  {
    QuietText(post);
    OneMarker(mid, post);
    OneMarker(pre, Marked(mid, post));
  }

  predicate AllWellFormed(clauses: seq<Clause<Value>>) {
    forall c :: c in clauses ==> WellFormed(c)
  }

  lemma OwnIsWellFormed(user: int)
    ensures AllWellFormed(ForRole(Citizen, user))
  {
    CreatorIsQuiet();
    TwoAreWellFormed("(bd.user_id = ", " OR sr.created_by_user_id = ", ")", Id(user));
  }

  lemma CreatorIsQuiet()
    ensures Quiet(" OR sr.created_by_user_id = ")
  {}

  lemma RoleIsWellFormed(role: Role, user: int)
    ensures AllWellFormed(ForRole(role, user))
  {
    match role {
      case Citizen => OwnIsWellFormed(user);
      case GovWorker => OneIsWellFormed("sr.assigned_to_user_id = ", "", Id(user), true);
      case _ =>
    }
  }

  lemma ConditionsAreWellFormed(role: Role, user: int, q: Query)
    ensures AllWellFormed(Conditions(role, user, q))
  {
    RoleIsWellFormed(role, user);
    ComparisonsAreWellFormed(ForRole(role, user), q);
    DatesAreWellFormed(AddComparisons(ForRole(role, user), q), q);
  }

  lemma ComparisonsAreWellFormed(c: seq<Clause<Value>>, q: Query)
    requires AllWellFormed(c)
    ensures AllWellFormed(AddComparisons(c, q))
  {
    FacilityIsWellFormed(q);
    CodeIsWellFormed(q);
    OneIsWellFormed("bd.status = ", "", Str(q.status), q.status != "" && q.status != "ALL");
  }

  lemma FacilityIsWellFormed(q: Query)
    ensures AllWellFormed(Optional(q.facility != 0, Marked("bd.facility_building_id = ", ""), Id(q.facility)))
  {
    OneIsWellFormed("bd.facility_building_id = ", "", Id(q.facility), q.facility != 0);
  }

  lemma CodeIsWellFormed(q: Query)
    ensures AllWellFormed(Optional(q.facilityCode != "", Marked("b.building_code = ", ""), Str(q.facilityCode)))
  {
    OneIsWellFormed("b.building_code = ", "", Str(q.facilityCode), q.facilityCode != "");
  }

  lemma DatesAreWellFormed(c: seq<Clause<Value>>, q: Query)
    requires AllWellFormed(c)
    ensures AllWellFormed(AddDates(c, q))
  {
    OneIsWellFormed("bd.booking_date >= ", "::DATE", Str(q.startDate), q.startDate != "");
    OneIsWellFormed("bd.booking_date <= ", "::DATE", Str(q.endDate), q.endDate != "");
  }

  /** Whichever filters are given, the database compares every column with the value meant for it. */
  lemma FilterBindsItsValues(role: Role, user: int, q: Query)
    ensures var conditions := Conditions(role, user, q);
            && AllWellFormed(conditions)
            && Read(Convert(JoinAnd(Texts(conditions))), AllValues(conditions)) == JoinMeant(conditions)
  {
    ConditionsAreWellFormed(role, user, q);
    assert forall c :: c in Conditions(role, user, q) ==> WellFormed(c) && Matched(c);
    ClausesKeepTheirValuesIff(Conditions(role, user, q));
  }
}
