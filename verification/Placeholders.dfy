/** Turning the question marks of a statement into the numbered parameters of the database, $1, $2, ...

    Two scanners do it: the one that every query goes through, which toggles a flag at every quote, and a lexer that
    also knows doubled quotes, comments and dollar quoting. */
module Placeholders {
  import opened Decimal

  predicate IsQuote(c: char) {
    c == '\'' || c == '"'
  }

  // ---- The scanner of every query ----

  /** Whether the previous character was a backslash, and the two quote flags */
  datatype Quotes = Quotes(escaped: bool, single: bool, double: bool)

  const OUTSIDE := Quotes(false, false, false)

  predicate Live(q: Quotes, c: char) {
    c == '?' && !q.single && !q.double
  }

  function After(q: Quotes, c: char): Quotes {
    Quotes(c == '\\',
           if c == '\'' && !q.escaped then !q.single else q.single,
           if c == '"' && !q.escaped then !q.double else q.double)
  }

  /** What the scanner writes for a character */
  function Emit(q: Quotes, c: char, n: nat): string {
    if Live(q, c) then "$" + Dec(n) else [c]
  }

  function Next(q: Quotes, c: char, n: nat): nat {
    if Live(q, c) then n + 1 else n
  }

  function Scan(sql: string, q: Quotes, n: nat): string {
    if sql == "" then "" else Emit(q, sql[0], n) + Scan(sql[1..], After(q, sql[0]), Next(q, sql[0], n))
  }

  function Convert(sql: string): string {
    Scan(sql, OUTSIDE, 1)
  }

  /** How many question marks are live */
  function Markers(sql: string, q: Quotes): nat {
    if sql == "" then 0 else (if Live(q, sql[0]) then 1 else 0) + Markers(sql[1..], After(q, sql[0]))
  }

  function Final(sql: string, q: Quotes): Quotes {
    if sql == "" then q else Final(sql[1..], After(q, sql[0]))
  }

  method ConvertPlaceholders(sql: string) returns (result: string)
    ensures result == Convert(sql)
  {
    if '?' !in sql {
      WithoutMarks(sql, OUTSIDE, 1);
      return sql;
    }
    var index := 1;
    var inSingleQuote, inDoubleQuote := false, false;
    result := "";
    for i := 0 to |sql|
      invariant index >= 1
      invariant Convert(sql)
          == result + Scan(sql[i..], Quotes(i > 0 && sql[i - 1] == '\\', inSingleQuote, inDoubleQuote), index)
    {
      var ch := sql[i];
      ghost var (before, n) := (result, index);
      ghost var q := Quotes(i > 0 && sql[i - 1] == '\\', inSingleQuote, inDoubleQuote);
      ScanStep(sql, i, q, index, result);
      if ch == '\'' && (i == 0 || sql[i - 1] != '\\') {
        inSingleQuote := !inSingleQuote;
        result := result + [ch];
      } else if ch == '"' && (i == 0 || sql[i - 1] != '\\') {
        inDoubleQuote := !inDoubleQuote;
        result := result + [ch];
      } else if ch == '?' && !inSingleQuote && !inDoubleQuote {
        result := result + ("$" + Dec(index));
        index := index + 1;
      } else {
        result := result + [ch];
      }
      assert result == before + Emit(q, ch, n) && index == Next(q, ch, n);
      assert Quotes(ch == '\\', inSingleQuote, inDoubleQuote) == After(q, ch);
    }
  }

  lemma ScanStep(sql: string, i: nat, q: Quotes, n: nat, before: string)
    requires i < |sql|
    ensures before + Scan(sql[i..], q, n)
            == (before + Emit(q, sql[i], n)) + Scan(sql[i + 1..], After(q, sql[i]), Next(q, sql[i], n))
  {
    assert sql[i..][1..] == sql[i + 1..];
  }

  lemma {:induction false} WithoutMarks(sql: string, q: Quotes, n: nat)
    requires '?' !in sql
    ensures Scan(sql, q, n) == sql
    decreases |sql|
  {
    if sql != "" {
      WithoutMarks(sql[1..], After(q, sql[0]), n);
    }
  }

  // ---- What is numbered how ----

  function Joined(pieces: seq<string>): string
    requires pieces != []
  {
    if |pieces| == 1 then pieces[0] else pieces[0] + "?" + Joined(pieces[1..])
  }

  function Numbered(pieces: seq<string>, n: nat): string
    requires pieces != []
  {
    if |pieces| == 1 then pieces[0] else pieces[0] + "$" + Dec(n) + Numbered(pieces[1..], n + 1)
  }

  /** The text between the live question marks */
  function Pieces(sql: string, q: Quotes): (r: seq<string>)
    ensures |r| == Markers(sql, q) + 1
  {
    if sql == "" then [""]
    else
      var rest := Pieces(sql[1..], After(q, sql[0]));
      if Live(q, sql[0]) then [""] + rest else [[sql[0]] + rest[0]] + rest[1..]
  }

  /** The statement is its pieces with question marks between them, its conversion the same pieces with n, n + 1, ... in
      that order. */
  lemma {:induction false} NumberedInOrder(sql: string, q: Quotes, n: nat)
    ensures Joined(Pieces(sql, q)) == sql
    ensures Numbered(Pieces(sql, q), n) == Scan(sql, q, n)
    decreases |sql|
  {
    if sql != "" {
      var rest := Pieces(sql[1..], After(q, sql[0]));
      if Live(q, sql[0]) {
        NumberedInOrder(sql[1..], After(q, sql[0]), n + 1);
        assert ([""] + rest)[1..] == rest;
      } else {
        NumberedInOrder(sql[1..], After(q, sql[0]), n);
        GrowFirst(sql[0], rest, n);
      }
    }
  }

  lemma GrowFirst(c: char, pieces: seq<string>, n: nat)
    requires pieces != []
    ensures var grown := [[c] + pieces[0]] + pieces[1..];
            Joined(grown) == [c] + Joined(pieces) && Numbered(grown, n) == [c] + Numbered(pieces, n)
  {
    var grown := [[c] + pieces[0]] + pieces[1..];
    assert grown[1..] == pieces[1..];
  }

  // ---- Statements put together from clauses ----

  /** m is the number of the first marker in b. */
  lemma {:induction false} ScanConcat(a: string, b: string, q: Quotes, n: nat, m: nat)
    requires m == n + Markers(a, q)
    ensures Scan(a + b, q, n) == Scan(a, q, n) + Scan(b, Final(a, q), m)
    decreases |a|
  {
    if a == "" {
      assert a + b == b && "" + Scan(b, q, n) == Scan(b, q, n);
    } else {
      var (c, rest, q', n') := (a[0], a[1..], After(q, a[0]), Next(q, a[0], n));
      ScanConcat(rest, b, q', n', m);
      assert (a + b)[0] == c && (a + b)[1..] == rest + b;
      Associative(Emit(q, c, n), Scan(rest, q', n'), Scan(b, Final(rest, q'), m));
    }
  }

  lemma Associative(x: string, y: string, z: string)
    ensures x + (y + z) == (x + y) + z
  {}

  // ---- How the database reads the converted statement ----

  /** A character of the statement, the value of a parameter, or a parameter that has no value */
  datatype Piece<V> = Text(c: char) | Param(v: V) | Unbound

  predicate AllDigits(s: string) {
    forall c :: c in s ==> IsDigit(c)
  }

  /** The number of digits at the start */
  function DigitRun(s: string): (k: nat)
    ensures k <= |s| && (k < |s| ==> !IsDigit(s[k])) && AllDigits(s[..k])
  {
    if s == "" || !IsDigit(s[0]) then 0
    else
      var k := DigitRun(s[1..]);
      assert s[..1 + k] == [s[0]] + s[1..][..k];
      1 + k
  }

  function Parameter<V>(digits: string, args: seq<V>): Piece<V>
    requires AllDigits(digits)
  {
    var number := Value(digits);
    if 1 <= number <= |args| then Param(args[number - 1]) else Unbound
  }

  /** The database takes a dollar sign and all digits after it as one parameter. */
  function Read<V>(s: string, args: seq<V>): seq<Piece<V>> {
    if s == "" then []
    else
      var (rest, k) := (s[1..], DigitRun(s[1..]));
      if s[0] == '$' && k > 0 then [Parameter(rest[..k], args)] + Read(rest[k..], args)
      else [Text(s[0])] + Read(rest, args)
  }

  /** What the author of the statement means: the live question marks take the values in order. */
  function Meant<V>(sql: string, q: Quotes, args: seq<V>): (r: seq<Piece<V>>)
    requires |args| == Markers(sql, q)
    ensures |r| == |sql|
  {
    if sql == "" then []
    else if Live(q, sql[0]) then [Param(args[0])] + Meant(sql[1..], After(q, sql[0]), args[1..])
    else [Text(sql[0])] + Meant(sql[1..], After(q, sql[0]), args)
  }

  /** No live question mark has a digit right behind it. */
  predicate NoDigitBehind(sql: string, q: Quotes) {
    sql != "" ==>
      && (Live(q, sql[0]) && |sql| > 1 ==> !IsDigit(sql[1]))
      && NoDigitBehind(sql[1..], After(q, sql[0]))
  }

  /** Without dollar signs in it, a statement is read as it is meant exactly when no digit follows a marker. */
  lemma ReadAsMeantIff<V>(sql: string, args: seq<V>)
    requires '$' !in sql && |args| == Markers(sql, OUTSIDE)
    ensures Read(Convert(sql), args) == Meant(sql, OUTSIDE, args) <==> NoDigitBehind(sql, OUTSIDE)
  {
    if NoDigitBehind(sql, OUTSIDE) {
      ReadAsMeant(sql, OUTSIDE, 1, [], args);
      assert [] + args == args;
    } else {
      DigitIsSwallowed(sql, OUTSIDE, 1, args);
    }
  }

  lemma {:induction false} ReadAsMeant<V>(sql: string, q: Quotes, n: nat, before: seq<V>, args: seq<V>)
    requires '$' !in sql && |args| == Markers(sql, q) && NoDigitBehind(sql, q)
    requires |before| + 1 == n
    ensures Read(Scan(sql, q, n), before + args) == Meant(sql, q, args)
    decreases |sql|
  {
    if sql != "" {
      var rest := sql[1..];
      var q' := After(q, sql[0]);
      if Live(q, sql[0]) {
        ReadAsMeant(rest, q', n + 1, before + [args[0]], args[1..]);
        assert before + [args[0]] + args[1..] == before + args;
        ReadMarker(n, Scan(rest, q', n + 1), before + args);
      } else {
        ReadAsMeant(rest, q', n, before, args);
        assert ([sql[0]] + Scan(rest, q', n))[1..] == Scan(rest, q', n);
      }
    }
  }

  predicate StartsWithDigit(s: string) {
    s != "" && IsDigit(s[0])
  }

  lemma {:induction false} RunOverDigits(d: string, s: string)
    requires forall c :: c in d ==> IsDigit(c)
    ensures DigitRun(d + s) == |d| + DigitRun(s)
    decreases |d|
  {
    if d == "" {
      assert d + s == s;
    } else {
      assert (d + s)[1..] == d[1..] + s && IsDigit(d[0]);
      RunOverDigits(d[1..], s);
    }
  }

  lemma ReadParameter<V>(rest: string, args: seq<V>)
    requires DigitRun(rest) > 0
    ensures var k := DigitRun(rest); Read("$" + rest, args) == [Parameter(rest[..k], args)] + Read(rest[k..], args)
  {
    assert ("$" + rest)[1..] == rest;
  }

  lemma DigitsBehindMarker(d: string, s: string)
    requires AllDigits(d)
    ensures DigitRun(d + s) == |d| + DigitRun(s) && (d + s)[|d| + DigitRun(s)..] == s[DigitRun(s)..]
  {
    RunOverDigits(d, s);
  }

  /** What the database reads at a marker with the text s behind it: the digits at the start of s go with the marker. */
  lemma ReadMarkerLength<V>(d: string, s: string, args: seq<V>)
    requires d != "" && AllDigits(d)
    ensures |Read("$" + d + s, args)| == 1 + |Read(s[DigitRun(s)..], args)|
  {
    Associative("$", d, s);
    DigitsBehindMarker(d, s);
    ReadUpTo(d + s, s[DigitRun(s)..], args);
  }

  lemma ReadUpTo<V>(rest: string, tail: string, args: seq<V>)
    requires DigitRun(rest) > 0 && rest[DigitRun(rest)..] == tail
    ensures |Read("$" + rest, args)| == 1 + |Read(tail, args)|
  {
    ReadParameter(rest, args);
  }

  lemma ReadMarker<V>(n: nat, s: string, args: seq<V>)
    requires 1 <= n <= |args| && !StartsWithDigit(s)
    ensures Read("$" + Dec(n) + s, args) == [Param(args[n - 1])] + Read(s, args)
  {
    var d := Dec(n);
    Associative("$", d, s);
    DigitsBehindMarker(d, s);
    ReadParameter(d + s, args);
    assert (d + s)[..|d|] == d && (d + s)[|d|..] == s;
    ValueOfDec(n);
  }

  lemma {:induction false} DigitsPass(d: string, q: Quotes, n: nat)
    requires forall c :: c in d ==> IsDigit(c)
    ensures Scan(d, q, n) == d && Markers(d, q) == 0
    decreases |d|
  {
    if d != "" {
      assert IsDigit(d[0]);
      DigitsPass(d[1..], After(q, d[0]), n);
    }
  }

  /** The run of digits at the start of a statement is the one at the start of its conversion. */
  lemma DigitsStay(sql: string, q: Quotes, n: nat)
    ensures var k := DigitRun(sql);
            DigitRun(Scan(sql, q, n)) == k && Scan(sql, q, n)[k..] == Scan(sql[k..], Final(sql[..k], q), n)
  {
    var k := DigitRun(sql);
    var (d, rest) := (sql[..k], sql[k..]);
    assert sql == d + rest;
    assert DigitRun(rest) == 0;
    DigitsFirst(d, rest, q, n);
  }

  lemma DigitsFirst(d: string, rest: string, q: Quotes, n: nat)
    requires AllDigits(d) && DigitRun(rest) == 0
    ensures DigitRun(Scan(d + rest, q, n)) == |d| && Scan(d + rest, q, n)[|d|..] == Scan(rest, Final(d, q), n)
  {
    DigitsPass(d, q, n);
    ScanConcat(d, rest, q, n, n);
    NoDigitAppears(rest, Final(d, q), n);
    DigitsThenRest(Scan(d + rest, q, n), d, Scan(rest, Final(d, q), n));
  }

  lemma DigitsThenRest(all: string, d: string, s: string)
    requires AllDigits(d) && DigitRun(s) == 0 && all == d + s
    ensures DigitRun(all) == |d| && all[|d|..] == s
  {
    RunOverDigits(d, s);
  }

  lemma NoDigitAppears(sql: string, q: Quotes, n: nat)
    requires DigitRun(sql) == 0
    ensures DigitRun(Scan(sql, q, n)) == 0
  {}

  lemma {:induction false} ReadNeverGrows<V>(sql: string, q: Quotes, n: nat, args: seq<V>)
    requires '$' !in sql
    ensures |Read(Scan(sql, q, n), args)| <= |sql|
    decreases |sql|
  {
    if sql != "" {
      var rest := sql[1..];
      var q' := After(q, sql[0]);
      if Live(q, sql[0]) {
        var k := DigitRun(rest);
        ReadMarkerLength(Dec(n), Scan(rest, q', n + 1), args);
        DigitsStay(rest, q', n + 1);
        ReadNeverGrows(rest[k..], Final(rest[..k], q'), n + 1, args);
      } else {
        ReadNeverGrows(rest, q', n, args);
        assert ([sql[0]] + Scan(rest, q', n))[1..] == Scan(rest, q', n);
      }
    }
  }

  /** A digit behind a marker becomes part of the parameter's number. */
  lemma {:induction false} DigitIsSwallowed<V>(sql: string, q: Quotes, n: nat, args: seq<V>)
    requires '$' !in sql && !NoDigitBehind(sql, q)
    ensures |Read(Scan(sql, q, n), args)| < |sql|
    decreases |sql|
  {
    var rest := sql[1..];
    var q' := After(q, sql[0]);
    if Live(q, sql[0]) {
      var k := DigitRun(rest);
      ReadMarkerLength(Dec(n), Scan(rest, q', n + 1), args);
      DigitsStay(rest, q', n + 1);
      if k > 0 {
        ReadNeverGrows(rest[k..], Final(rest[..k], q'), n + 1, args);
      } else {
        assert rest[0..] == rest && rest[..0] == "";
        DigitIsSwallowed(rest, q', n + 1, args);
      }
    } else {
      DigitIsSwallowed(rest, q', n, args);
      assert ([sql[0]] + Scan(rest, q', n))[1..] == Scan(rest, q', n);
    }
  }

  /** Drops the numbers that a reader who counts along expects. */
  function Restore(s: string, n: nat): string
    decreases |s|
  {
    if s == "" then ""
    else if s[0] == '$' && Dec(n) <= s[1..] then "?" + Restore(s[1..][|Dec(n)|..], n + 1)
    else [s[0]] + Restore(s[1..], n)
  }

  lemma RestoreMarker(n: nat, s: string)
    ensures Restore("$" + Dec(n) + s, n) == "?" + Restore(s, n + 1)
  {
    var (all, d) := ("$" + Dec(n) + s, Dec(n));
    assert all == "$" + (d + s) && all[1..] == d + s;
    assert (d + s)[|d|..] == s;
  }

  /** Conversion loses nothing of a statement without dollar signs, whatever stands behind its markers. */
  lemma {:induction false} RestoreConvert(sql: string, q: Quotes, n: nat)
    requires '$' !in sql
    ensures Restore(Scan(sql, q, n), n) == sql
    decreases |sql|
  {
    if sql != "" {
      var (rest, q') := (sql[1..], After(q, sql[0]));
      RestoreConvert(rest, q', Next(q, sql[0], n));
      if Live(q, sql[0]) {
        RestoreMarker(n, Scan(rest, q', n + 1));
      } else {
        assert ([sql[0]] + Scan(rest, q', n))[1..] == Scan(rest, q', n);
      }
    }
  }

  // ---- Clauses joined by AND ----

  /** A condition with the values for its markers */
  datatype Clause<V> = Clause(text: string, values: seq<V>)

  /** Quotes are closed, and every marker has its value. */
  predicate Matched<V>(c: Clause<V>) {
    && !Final(c.text, OUTSIDE).single && !Final(c.text, OUTSIDE).double
    && Markers(c.text, OUTSIDE) == |c.values|
  }

  ghost predicate AllMatched<V>(clauses: seq<Clause<V>>) {
    forall c :: c in clauses ==> Matched(c)
  }

  /** The database reads the markers of the clause. */
  predicate Readable<V>(c: Clause<V>) {
    NoDigitBehind(c.text, OUTSIDE)
  }

  const AND := " AND "

  /** where.join(' AND ') */
  function JoinAnd(texts: seq<string>): string {
    if texts == [] then ""
    else if |texts| == 1 then texts[0]
    else texts[0] + (AND + JoinAnd(texts[1..]))
  }

  function Texts<V>(clauses: seq<Clause<V>>): seq<string> {
    seq(|clauses|, i requires 0 <= i < |clauses| => clauses[i].text)
  }

  function AllValues<V>(clauses: seq<Clause<V>>): seq<V> {
    if clauses == [] then [] else clauses[0].values + AllValues(clauses[1..])
  }

  /** Every clause with its own values, joined */
  function JoinMeant<V>(clauses: seq<Clause<V>>): seq<Piece<V>>
    requires AllMatched(clauses)
  {
    if clauses == [] then []
    else
      assert Matched(clauses[0]);
      var first := Meant(clauses[0].text, OUTSIDE, clauses[0].values);
      if |clauses| == 1 then first else first + Meant(AND, OUTSIDE, NoValues()) + JoinMeant(clauses[1..])
  }

  function NoValues<V>(): (r: seq<V>)
    ensures |r| == Markers(AND, OUTSIDE)
  {
    AndIsPlain();
    []
  }

  lemma AndIsPlain()
    ensures Markers(AND, OUTSIDE) == 0 && Final(AND, OUTSIDE) == OUTSIDE && NoDigitBehind(AND, OUTSIDE) && '$' !in AND
  {
    assert AND[1..] == "AND " && AND[1..][1..] == "ND " && AND[1..][1..][1..] == "D " && AND[1..][1..][1..][1..] == " ";
    assert AND[1..][1..][1..][1..][1..] == "";
  }

  lemma {:induction false} MarkersConcat(a: string, b: string, q: Quotes)
    ensures Markers(a + b, q) == Markers(a, q) + Markers(b, Final(a, q))
    ensures Final(a + b, q) == Final(b, Final(a, q))
    decreases |a|
  {
    if a == "" {
      assert a + b == b;
    } else {
      MarkersConcat(a[1..], b, After(q, a[0]));
      assert (a + b)[1..] == a[1..] + b;
    }
  }

  function FirstPiece<V>(c: char, q: Quotes, args: seq<V>): Piece<V>
    requires Live(q, c) ==> args != []
  {
    if Live(q, c) then Param(args[0]) else Text(c)
  }

  function ArgsLeft<V>(c: char, q: Quotes, args: seq<V>): seq<V>
    requires Live(q, c) ==> args != []
  {
    if Live(q, c) then args[1..] else args
  }

  lemma MeantFirst<V>(c: char, rest: string, q: Quotes, args: seq<V>)
    requires |args| == Markers([c] + rest, q)
    ensures |ArgsLeft(c, q, args)| == Markers(rest, After(q, c))
    ensures Meant([c] + rest, q, args) == [FirstPiece(c, q, args)] + Meant(rest, After(q, c), ArgsLeft(c, q, args))
  {
    assert ([c] + rest)[1..] == rest;
  }

  lemma ArgsConcat<V>(c: char, q: Quotes, av: seq<V>, bv: seq<V>)
    requires Live(q, c) ==> av != []
    ensures ArgsLeft(c, q, av + bv) == ArgsLeft(c, q, av) + bv && FirstPiece(c, q, av + bv) == FirstPiece(c, q, av)
  {}

  lemma {:induction false} MeantConcat<V>(a: string, b: string, q: Quotes, av: seq<V>, bv: seq<V>)
    requires |av| == Markers(a, q) && |bv| == Markers(b, Final(a, q))
    ensures Markers(a + b, q) == |av + bv|
    ensures Meant(a + b, q, av + bv) == Meant(a, q, av) + Meant(b, Final(a, q), bv)
    decreases |a|
  {
    MarkersConcat(a, b, q);
    if a == "" {
      assert a + b == b && av + bv == bv;
    } else {
      var (c, rest) := (a[0], a[1..]);
      assert a == [c] + rest && a + b == [c] + (rest + b);
      MeantFirst(c, rest, q, av);
      MeantFirst(c, rest + b, q, av + bv);
      ArgsConcat(c, q, av, bv);
      MeantConcat(rest, b, After(q, c), ArgsLeft(c, q, av), bv);
      AssociativePieces(FirstPiece(c, q, av), Meant(rest, After(q, c), ArgsLeft(c, q, av)), Meant(b, Final(a, q), bv));
    }
  }

  lemma AssociativePieces<V>(x: Piece<V>, y: seq<Piece<V>>, z: seq<Piece<V>>)
    ensures [x] + (y + z) == ([x] + y) + z
  {}

  lemma {:induction false} NoDigitConcat(a: string, b: string, q: Quotes)
    requires !StartsWithDigit(b)
    ensures NoDigitBehind(a + b, q) <==> NoDigitBehind(a, q) && NoDigitBehind(b, Final(a, q))
    decreases |a|
  {
    if a == "" {
      assert a + b == b;
    } else {
      NoDigitConcat(a[1..], b, After(q, a[0]));
      assert (a + b)[0] == a[0] && (a + b)[1..] == a[1..] + b;
    }
  }

  /** A backslash only matters to a quote right after it. */
  lemma EscapeMattersToQuotes<V>(s: string, q: Quotes, p: Quotes, v: seq<V>, n: nat)
    requires q.single == p.single && q.double == p.double
    requires s != "" && !IsQuote(s[0])
    ensures After(q, s[0]) == After(p, s[0])
    ensures Markers(s, q) == Markers(s, p) && Final(s, q) == Final(s, p) && NoDigitBehind(s, q) == NoDigitBehind(s, p)
    ensures |v| == Markers(s, q) ==> Meant(s, q, v) == Meant(s, p, v)
    ensures Scan(s, q, n) == Scan(s, p, n)
  {}

  /** One clause, AND, and more clauses that are matched together */
  lemma AndMore<V>(c: Clause<V>, more: Clause<V>)
    requires Matched(c) && Matched(more)
    ensures var both := Clause(c.text + (AND + more.text), c.values + more.values);
            && Matched(both)
            && (Readable(both) <==> Readable(c) && Readable(more))
            && Meant(both.text, OUTSIDE, both.values)
               == Meant(c.text, OUTSIDE, c.values) + Meant(AND, OUTSIDE, NoValues())
                   + Meant(more.text, OUTSIDE, more.values)
  {
    AndIsPlain();
    var q := Final(c.text, OUTSIDE);
    var tail := AND + more.text;
    var none: seq<V> := NoValues();
    assert none + more.values == more.values;
    MeantConcat(AND, more.text, OUTSIDE, none, more.values);
    MarkersConcat(AND, more.text, OUTSIDE);
    assert tail[0] == ' ';
    EscapeMattersToQuotes(tail, q, OUTSIDE, more.values, 0);
    MeantConcat(c.text, tail, OUTSIDE, c.values, more.values);
    MarkersConcat(c.text, tail, OUTSIDE);
    AndMoreDigits(more.text);
    NoDigitConcat(c.text, tail, OUTSIDE);
  }

  lemma AndMoreDigits(t: string)
    ensures NoDigitBehind(AND + t, OUTSIDE) == NoDigitBehind(t, OUTSIDE)
  {
    OrdinaryFirst(' ', t);
    OrdinaryFirst('D', " " + t);
    OrdinaryFirst('N', "D " + t);
    OrdinaryFirst('A', "ND " + t);
    OrdinaryFirst(' ', "AND " + t);
    assert ['D'] + (" " + t) == "D " + t && ['N'] + ("D " + t) == "ND " + t;
    assert ['A'] + ("ND " + t) == "AND " + t && [' '] + ("AND " + t) == AND + t;
  }

  lemma OrdinaryFirst(c: char, s: string)
    requires !IsQuote(c) && c != '?' && c != '\\'
    ensures NoDigitBehind([c] + s, OUTSIDE) == NoDigitBehind(s, OUTSIDE)
  {
    assert ([c] + s)[1..] == s;
  }

  /** Joined clauses are matched, mean what they mean one by one, and can be read exactly when each of them can. */
  lemma {:induction false} JoinIsMatched<V>(clauses: seq<Clause<V>>)
    requires AllMatched(clauses)
    ensures var all := Clause(JoinAnd(Texts(clauses)), AllValues(clauses));
            && Matched(all)
            && (Readable(all) <==> forall c :: c in clauses ==> Readable(c))
            && Meant(all.text, OUTSIDE, all.values) == JoinMeant(clauses)
    decreases |clauses|
  {
    if |clauses| == 1 {
      assert clauses == [clauses[0]];
      assert clauses[0].values + [] == clauses[0].values;
      assert AllValues(clauses) == clauses[0].values;
    } else if clauses != [] {
      var more := clauses[1..];
      assert clauses == [clauses[0]] + more;
      assert Texts(clauses)[1..] == Texts(more);
      JoinIsMatched(more);
      AndMore(clauses[0], Clause(JoinAnd(Texts(more)), AllValues(more)));
    }
  }

  lemma {:induction false} JoinWithoutDollars<V>(clauses: seq<Clause<V>>)
    requires forall c :: c in clauses ==> '$' !in c.text
    ensures '$' !in JoinAnd(Texts(clauses))
    decreases |clauses|
  {
    if |clauses| > 1 {
      assert Texts(clauses)[1..] == Texts(clauses[1..]);
      JoinWithoutDollars(clauses[1..]);
      AndIsPlain();
    }
  }

  /** However many clauses without dollar signs are joined: the database gives every marker the value its own clause put
      there, if and only if no clause has a digit behind a marker. */
  lemma ClausesKeepTheirValuesIff<V>(clauses: seq<Clause<V>>)
    requires AllMatched(clauses) && forall c :: c in clauses ==> '$' !in c.text
    ensures Read(Convert(JoinAnd(Texts(clauses))), AllValues(clauses)) == JoinMeant(clauses)
            <==> forall c :: c in clauses ==> Readable(c)
  {
    JoinIsMatched(clauses);
    JoinWithoutDollars(clauses);
    ReadAsMeantIff(JoinAnd(Texts(clauses)), AllValues(clauses));
  }

  /** Every clause converted by itself, numbered on from the values of the clauses before it */
  function JoinConverted<V>(clauses: seq<Clause<V>>, n: nat): string {
    if clauses == [] then ""
    else if |clauses| == 1 then Scan(clauses[0].text, OUTSIDE, n)
    else Scan(clauses[0].text, OUTSIDE, n) + (AND + JoinConverted(clauses[1..], n + |clauses[0].values|))
  }

  /** With or without dollar signs, the k-th marker of the joined clauses gets the number of the k-th value. */
  lemma {:induction false} ClausesAreNumberedOn<V>(clauses: seq<Clause<V>>, n: nat)
    requires AllMatched(clauses)
    ensures Scan(JoinAnd(Texts(clauses)), OUTSIDE, n) == JoinConverted(clauses, n)
    decreases |clauses|
  {
    if |clauses| > 1 {
      var (c, more) := (clauses[0], clauses[1..]);
      assert Matched(c);
      assert Texts(clauses)[1..] == Texts(more);
      var m := n + |c.values|;
      ClausesAreNumberedOn(more, m);
      var tail := AND + JoinAnd(Texts(more));
      ScanConcat(c.text, tail, OUTSIDE, n, m);
      assert tail[0] == ' ';
      EscapeMattersToQuotes<V>(tail, Final(c.text, OUTSIDE), OUTSIDE, [], m);
      AndIsCopied(m);
      ScanConcat(AND, JoinAnd(Texts(more)), OUTSIDE, m, m);
    }
  }

  lemma AndIsCopied(n: nat)
    ensures Scan(AND, OUTSIDE, n) == AND && Markers(AND, OUTSIDE) == 0 && Final(AND, OUTSIDE) == OUTSIDE
  {
    AndIsPlain();
    WithoutMarks(AND, OUTSIDE, n);
  }
}
