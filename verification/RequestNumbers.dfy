/** Request codes from a counter row per year, drawn by any number of transactions at the same time.

    A transaction makes sure that its year's row exists, locks it, reads the last number, writes the next one, and
    commits with its request or rolls back. A statement that meets a lock waits: here it does nothing and can be tried
    again. */
module RequestNumbers {
  import opened Decimal

  /** Begun in a year; holding the year's row with the number it drew */
  datatype Phase = Begun | Drawn(number: nat)

  datatype Tx = Tx(year: nat, phase: Phase)

  /** issued are the committed requests, in the order of their commits. */
  datatype State = State(lastNumber: map<nat, nat>, txs: map<nat, Tx>, issued: seq<(nat, nat)>)

  datatype Event =
    | Begin(id: nat, year: nat)
    | Draw(id: nat)
    | Commit(id: nat)
    | Rollback(id: nat)

  ghost predicate RowFree(s: State, year: nat) {
    forall t :: t in s.txs && s.txs[t].year == year ==> s.txs[t].phase.Begun?
  }

  function Last(s: State, year: nat): nat {
    if year in s.lastNumber then s.lastNumber[year] else 0
  }

  ghost function Step(s: State, e: Event): State {
    match e
    case Begin(t, year) =>
      if t in s.txs then s else s.(txs := s.txs[t := Tx(year, Begun)])
    case Draw(t) =>
      if t !in s.txs || !s.txs[t].phase.Begun? || !RowFree(s, s.txs[t].year) then s
      else s.(txs := s.txs[t := s.txs[t].(phase := Drawn(Last(s, s.txs[t].year) + 1))])
    case Commit(t) =>
      if t !in s.txs || !s.txs[t].phase.Drawn? then s
      else
        var (year, number) := (s.txs[t].year, s.txs[t].phase.number);
        State(s.lastNumber[year := number], s.txs - {t}, s.issued + [(year, number)])
    case Rollback(t) => s.(txs := s.txs - {t})
  }

  ghost function Run(s: State, events: seq<Event>): State
    decreases |events|
  {
    if events == [] then s else Run(Step(s, events[0]), events[1..])
  }

  /** The numbers issued in a year, in order */
  function Issued(issued: seq<(nat, nat)>, year: nat): seq<nat> {
    if issued == [] then []
    else
      var last := issued[|issued| - 1];
      Issued(issued[..|issued| - 1], year) + if last.0 == year then [last.1] else []
  }

  function UpTo(n: nat): (r: seq<nat>)
    ensures |r| == n && forall i :: 0 <= i < n ==> r[i] == i + 1
  {
    seq(n, i => i + 1)
  }

  ghost predicate Inv(s: State) {
    && (forall year :: Issued(s.issued, year) == UpTo(Last(s, year)))
    && (forall t :: t in s.txs && s.txs[t].phase.Drawn? ==> s.txs[t].phase.number == Last(s, s.txs[t].year) + 1)
    && (forall t, u :: t in s.txs && u in s.txs && t != u && s.txs[t].year == s.txs[u].year
                       ==> s.txs[t].phase.Begun? || s.txs[u].phase.Begun?)
  }

  lemma StepKeepsInv(s: State, e: Event)
    requires Inv(s)
    ensures Inv(Step(s, e))
  {
    if e.Commit? && e.id in s.txs && s.txs[e.id].phase.Drawn? {
      CommitExtendsList(s, e.id);
    }
  }

  lemma CommitExtendsList(s: State, t: nat)
    requires Inv(s) && t in s.txs && s.txs[t].phase.Drawn?
    ensures var s' := Step(s, Commit(t)); forall year :: Issued(s'.issued, year) == UpTo(Last(s', year))
  {
    var s' := Step(s, Commit(t));
    var (year, number) := (s.txs[t].year, s.txs[t].phase.number);
    forall y ensures Issued(s'.issued, y) == UpTo(Last(s', y)) {
      OneMoreIssued(s.issued, year, number, y, Last(s, y));
    }
  }

  /** A number that is added to the list of its year, which reached up to last */
  lemma OneMoreIssued(issued: seq<(nat, nat)>, year: nat, number: nat, y: nat, last: nat)
    requires Issued(issued, y) == UpTo(last) && (y == year ==> number == last + 1)
    ensures Issued(issued + [(year, number)], y) == UpTo(if y == year then number else last)
  {
    assert (issued + [(year, number)])[..|issued|] == issued;
    if y == year {
      assert UpTo(number) == UpTo(last) + [number];
    }
  }

  lemma {:induction false} RunKeepsInv(s: State, events: seq<Event>)
    requires Inv(s)
    ensures Inv(Run(s, events))
    decreases |events|
  {
    if events != [] {
      StepKeepsInv(s, events[0]);
      RunKeepsInv(Step(s, events[0]), events[1..]);
    }
  }

  const EMPTY := State(map[], map[], [])

  /** Whatever is rolled back, the committed numbers of every year are 1, 2, 3, ... up to the counter, without gap or
      repeat. */
  lemma NumbersAreConsecutive(events: seq<Event>, year: nat)
    ensures var s := Run(EMPTY, events); Issued(s.issued, year) == UpTo(Last(s, year))
  {
    RunKeepsInv(EMPTY, events);
  }

  /** A transaction that finds its year's row unlocked gets the next number; one that rolls back leaves no trace. */
  lemma NextNumberIsIssued(s: State, t: nat, year: nat)
    requires t !in s.txs && RowFree(s, year)
    ensures var drawn := Step(Step(s, Begin(t, year)), Draw(t));
            && Step(drawn, Commit(t)).issued == s.issued + [(year, Last(s, year) + 1)]
            && Last(Step(drawn, Commit(t)), year) == Last(s, year) + 1
            && Step(drawn, Rollback(t)) == s
  {
    var begun := Step(s, Begin(t, year));
    assert RowFree(begun, year);
    assert Step(begun, Draw(t)).txs - {t} == s.txs;
  }

  // ---- Codes ----

  function Code(year: nat, number: nat): string {
    "LGS-" + Dec(year) + "-" + PadStart(Dec(number), 6)
  }

  /** A code is LGS, the year, and the number with at least six digits. */
  lemma CodeLooksLike(year: nat, number: nat)
    ensures var padded := PadStart(Dec(number), 6);
            && Code(year, number) == "LGS-" + Dec(year) + "-" + padded
            && |padded| >= 6 && Value(padded) == number && (number < 1000000 ==> |padded| == 6)
  {
    PaddedValue(number, 6);
    if number < 1000000 {
      assert Power(2) == 100 && Power(4) == 10000 && Power(6) == 1000000;
      DigitsOf(number, 6);
    }
  }

  lemma CodeExample()
    ensures Code(2026, 42) == "LGS-2026-000042"
  {
    DecOf2026();
    assert Dec(4) == "4" && Dec(42) == "42";
    assert PadStart("42", 6) == Zeros(4) + "42" && Zeros(4) == "0000";
  }

  lemma DecOf2026()
    ensures Dec(2026) == "2026"
  {
    assert Dec(2) == "2" && Dec(20) == "20" && Dec(202) == "202";
  }

  function Power(k: nat): nat {
    if k == 0 then 1 else 10 * Power(k - 1)
  }

  lemma {:induction false} DigitsOf(n: nat, k: nat)
    requires 0 < k && n < Power(k)
    ensures |Dec(n)| <= k
    decreases k
  {
    if n >= 10 {
      assert k > 1;
      DigitsOf(n / 10, k - 1);
    }
  }

  /** Different requests have different codes, also beyond six digits. */
  lemma CodeInjective(y1: nat, n1: nat, y2: nat, n2: nat)
    requires Code(y1, n1) == Code(y2, n2)
    ensures y1 == y2 && n1 == n2
  {
    var (a, b) := (Dec(y1) + "-" + PadStart(Dec(n1), 6), Dec(y2) + "-" + PadStart(Dec(n2), 6));
    assert Code(y1, n1)[4..] == a && Code(y2, n2)[4..] == b;
    DashPosition(Dec(y1), PadStart(Dec(n1), 6), Dec(y2), PadStart(Dec(n2), 6));
    ValueOfDec(y1);
    ValueOfDec(y2);
    PaddedInjective(n1, n2, 6);
  }

  lemma DashPosition(d1: string, r1: string, d2: string, r2: string)
    requires d1 + "-" + r1 == d2 + "-" + r2
    requires forall c :: c in d1 + d2 ==> IsDigit(c)
    ensures d1 == d2 && r1 == r2
  {
    DashComesAfterDigits(d1, r1, d2, r2);
    DashComesAfterDigits(d2, r2, d1, r1);
    var (a, b) := (d1 + "-" + r1, d2 + "-" + r2);
    assert d1 == a[..|d1|] && d2 == b[..|d2|];
    assert r1 == a[|d1| + 1..] && r2 == b[|d2| + 1..];
  }

  lemma DashComesAfterDigits(d1: string, r1: string, d2: string, r2: string)
    requires d1 + "-" + r1 == d2 + "-" + r2
    requires forall c :: c in d2 ==> IsDigit(c)
    ensures |d2| <= |d1|
  {
    assert (d1 + "-" + r1)[|d1|] == '-';
    DigitsComeFirst(d2, r2);
  }

  lemma DigitsComeFirst(d: string, r: string)
    requires forall c :: c in d ==> IsDigit(c)
    ensures forall k :: 0 <= k < |d| ==> IsDigit((d + "-" + r)[k])
  {
    forall k | 0 <= k < |d| ensures IsDigit((d + "-" + r)[k]) {
      assert (d + "-" + r)[k] == d[k];
    }
  }

  /** So no two committed requests ever share a code. */
  lemma CodesAreUnique(events: seq<Event>, i: nat, j: nat)
    requires i < j < |Run(EMPTY, events).issued|
    ensures var issued := Run(EMPTY, events).issued;
            Code(issued[i].0, issued[i].1) != Code(issued[j].0, issued[j].1)
  {
    var issued := Run(EMPTY, events).issued;
    if Code(issued[i].0, issued[i].1) == Code(issued[j].0, issued[j].1) {
      CodeInjective(issued[i].0, issued[i].1, issued[j].0, issued[j].1);
      NumbersAreConsecutive(events, issued[i].0);
      var pq := IssuedTwice(issued, i, j);
    }
  }

  /** Two entries with the same year stand at different places of the year's list. */
  lemma {:induction false} IssuedTwice(issued: seq<(nat, nat)>, i: nat, j: nat) returns (pq: (nat, nat))
    requires i < j < |issued| && issued[i].0 == issued[j].0
    ensures var list := Issued(issued, issued[i].0);
            pq.0 < pq.1 < |list| && list[pq.0] == issued[i].1 && list[pq.1] == issued[j].1
    decreases |issued|
  {
    var n := |issued| - 1;
    var year := issued[i].0;
    if j < n {
      pq := IssuedTwice(issued[..n], i, j);
    } else {
      var p := IssuedOnce(issued[..n], i);
      pq := (p, |Issued(issued, year)| - 1);
    }
  }

  lemma {:induction false} IssuedOnce(issued: seq<(nat, nat)>, i: nat) returns (p: nat)
    requires i < |issued|
    ensures var list := Issued(issued, issued[i].0); p < |list| && list[p] == issued[i].1
    decreases |issued|
  {
    var n := |issued| - 1;
    if i < n {
      p := IssuedOnce(issued[..n], i);
    } else {
      p := |Issued(issued, issued[i].0)| - 1;
    }
  }
}
