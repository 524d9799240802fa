/** The lexer that serves as the reference for the scanner of every query, and where the two agree. */
module SqlLexer {
  import opened Decimal
  import opened Placeholders

  datatype Mode = Code | Single | Double | LineComment | BlockComment | Dollar(tag: string)

  predicate ValidMode(m: Mode) {
    m.Dollar? ==> m.tag != "" && '?' !in m.tag
  }

  predicate IsWord(c: char) {
    'A' <= c <= 'Z' || 'a' <= c <= 'z' || IsDigit(c) || c == '_'
  }

  function WordRun(s: string): (k: nat)
    ensures k <= |s| && '?' !in s[..k]
  {
    if s == "" || !IsWord(s[0]) then 0
    else
      var k := WordRun(s[1..]);
      assert s[..1 + k] == [s[0]] + s[1..][..k];
      1 + k
  }

  /** The length of a dollar-quote tag at the start, such as $$ or $body$, or 0 */
  function TagLength(s: string): (k: nat)
    ensures k <= |s| && k != 1 && '?' !in s[..k]
  {
    if s == "" || s[0] != '$' then 0
    else
      var k := 1 + WordRun(s[1..]);
      assert s[..k] == [s[0]] + s[1..][..k - 1];
      if k < |s| && s[k] == '$' then assert s[..k + 1] == s[..k] + [s[k]]; k + 1 else 0
  }

  predicate Starts(s: string, a: char, b: char) {
    |s| > 1 && s[0] == a && s[1] == b
  }

  /** How many characters the lexer takes at once */
  function Width(s: string, m: Mode): (k: nat)
    requires s != "" && ValidMode(m)
    ensures 1 <= k <= |s|
  {
    match m
    case LineComment => 1
    case BlockComment => if Starts(s, '*', '/') then 2 else 1
    case Dollar(tag) => if s[0] == '$' && tag <= s then |tag| else 1
    case Single => if Starts(s, '\'', '\'') then 2 else 1
    case Double => if Starts(s, '"', '"') then 2 else 1
    case Code =>
      if Starts(s, '-', '-') || Starts(s, '/', '*') then 2
      else if TagLength(s) > 0 then TagLength(s)
      else 1
  }

  function NextMode(s: string, m: Mode): (m': Mode)
    requires s != "" && ValidMode(m)
    ensures ValidMode(m')
  {
    match m
    case LineComment => if s[0] == '\n' then Code else m
    case BlockComment => if Starts(s, '*', '/') then Code else m
    case Dollar(tag) => if s[0] == '$' && tag <= s then Code else m
    case Single => if s[0] == '\'' && !Starts(s, '\'', '\'') then Code else m
    case Double => if s[0] == '"' && !Starts(s, '"', '"') then Code else m
    case Code =>
      if Starts(s, '-', '-') then LineComment
      else if Starts(s, '/', '*') then BlockComment
      else if TagLength(s) > 0 then Dollar(s[..TagLength(s)])
      else if s[0] == '\'' then Single
      else if s[0] == '"' then Double
      else Code
  }

  predicate Marks(s: string, m: Mode) {
    m == Code && s != "" && s[0] == '?'
  }

  function LexEmit(s: string, m: Mode, n: nat): string
    requires s != "" && ValidMode(m)
  {
    if Marks(s, m) then "$" + Dec(n) else s[..Width(s, m)]
  }

  function LexNext(s: string, m: Mode, n: nat): nat {
    if Marks(s, m) then n + 1 else n
  }

  function Lex(s: string, m: Mode, n: nat): string
    requires ValidMode(m)
    decreases |s|
  {
    if s == "" then ""
    else LexEmit(s, m, n) + Lex(s[Width(s, m)..], NextMode(s, m), LexNext(s, m, n))
  }

  // ---- The lexer's loop ----

  datatype Flags = Flags(single: bool, double: bool, line: bool, block: bool, dollar: bool, tag: string)

  predicate Shows(m: Mode, f: Flags) {
    && f.single == (m == Single)
    && f.double == (m == Double)
    && f.line == (m == LineComment)
    && f.block == (m == BlockComment)
    && f.dollar == m.Dollar?
    && (m.Dollar? ==> f.tag == m.tag)
  }

  /** What is left to do after one step of the loop, which reads at i and goes on at j in mode m' with the number n' */
  lemma LexStep(sql: string, i: nat, m: Mode, n: nat, before: string, j: nat, m': Mode, n': nat, after: string)
    requires i < |sql| && ValidMode(m) && j == i + Width(sql[i..], m)
    requires m' == NextMode(sql[i..], m) && n' == LexNext(sql[i..], m, n) && after == before + LexEmit(sql[i..], m, n)
    ensures before + Lex(sql[i..], m, n) == after + Lex(sql[j..], m', n')
  {
    var s := sql[i..];
    assert s[Width(s, m)..] == sql[j..];
    Associative(before, LexEmit(s, m, n), Lex(sql[j..], m', n'));
  }

  const NO_FLAGS := Flags(false, false, false, false, false, "")

  /** Comments and dollar quotes */
  method InsideUntilEnd(s: string, ghost m: Mode, f: Flags) returns (taken: nat, g: Flags)
    requires s != "" && ValidMode(m) && Shows(m, f) && (f.line || f.block || f.dollar)
    ensures taken == Width(s, m) && Shows(NextMode(s, m), g)
  {
    taken, g := 1, f;
    if f.line {
      if s[0] == '\n' {
        g := NO_FLAGS;
      }
    } else if f.block {
      if s[0] == '*' && |s| > 1 && s[1] == '/' {
        taken, g := 2, NO_FLAGS;
      }
    } else if s[0] == '$' && f.tag <= s {
      taken, g := |f.tag|, NO_FLAGS;
    }
  }

  method InsideQuotes(s: string, ghost m: Mode, f: Flags) returns (taken: nat, g: Flags)
    requires s != "" && ValidMode(m) && Shows(m, f) && (f.single || f.double)
    ensures taken == Width(s, m) && Shows(NextMode(s, m), g)
  {
    taken, g := 1, f;
    var quote := if f.single then '\'' else '"';
    if s[0] == quote {
      if |s| > 1 && s[1] == quote {
        taken := 2;
      } else {
        g := NO_FLAGS;
      }
    }
  }

  method InsideCode(s: string, f: Flags) returns (taken: nat, g: Flags)
    requires s != "" && Shows(Code, f)
    ensures taken == Width(s, Code) && Shows(NextMode(s, Code), g)
  {
    taken, g := 1, f;
    if s[0] == '-' && |s| > 1 && s[1] == '-' {
      taken, g := 2, f.(line := true);
    } else if s[0] == '/' && |s| > 1 && s[1] == '*' {
      taken, g := 2, f.(block := true);
    } else if TagLength(s) > 0 {
      taken := TagLength(s);
      g := f.(dollar := true, tag := s[..taken]);
    } else if s[0] == '\'' {
      g := f.(single := true);
    } else if s[0] == '"' {
      g := f.(double := true);
    }
  }

  method ConvertPlaceholdersByLexer(sql: string) returns (result: string)
    ensures result == Lex(sql, Code, 1)
  {
    var paramIndex, f, i := 1, NO_FLAGS, 0;
    result := "";
    ghost var m := Code;
    ghost var converted := Lex(sql, Code, 1);
    assert sql[0..] == sql && "" + converted == converted;
    while i < |sql|
      invariant i <= |sql| && ValidMode(m) && Shows(m, f)
      invariant result + Lex(sql[i..], m, paramIndex) == converted
    {
      var s := sql[i..];
      ghost var (before, n, i0, m0) := (result, paramIndex, i, m);
      var taken, text;
      taken, text, paramIndex, f := ReadOne(s, m, f, paramIndex);
      result := result + text;
      i := i + taken;
      m := NextMode(s, m);
      LexStep(sql, i0, m0, n, before, i, m, paramIndex, result);
    }
    assert sql[i..] == "" && result + "" == result;
  }

  /** One round of the loop: what is read, and what is written for it */
  method ReadOne(s: string, ghost m: Mode, f: Flags, n: nat) returns (taken: nat, text: string, n': nat, g: Flags)
    requires s != "" && ValidMode(m) && Shows(m, f)
    ensures taken == Width(s, m) && text == LexEmit(s, m, n) && n' == LexNext(s, m, n) && Shows(NextMode(s, m), g)
  {
    n' := n;
    if f.line || f.block || f.dollar {
      taken, g := InsideUntilEnd(s, m, f);
    } else if f.single || f.double {
      taken, g := InsideQuotes(s, m, f);
    } else {
      taken, g := InsideCode(s, f);
      if s[0] == '?' {
        return taken, "$" + Dec(n), n + 1, g;
      }
    }
    text := s[..taken];
  }

  // ---- What the lexer leaves alone ----

  /** The lexer copies what it reads in any mode but Code. */
  lemma CopyOne(s: string, m: Mode, n: nat)
    requires s != "" && ValidMode(m) && m != Code
    ensures Lex(s, m, n) == s[..Width(s, m)] + Lex(s[Width(s, m)..], NextMode(s, m), n)
  {}

  /** A quoted literal: every quote of the raw text doubled */
  function Doubled(raw: string, quote: char): string {
    if raw == "" then "" else First(raw, quote) + Doubled(raw[1..], quote)
  }

  function First(raw: string, quote: char): string
    requires raw != ""
  {
    if raw[0] == quote then [quote, quote] else [raw[0]]
  }

  function QuoteMode(quote: char): Mode {
    if quote == '\'' then Single else Double
  }

  lemma FirstIsTaken(raw: string, more: string, quote: char)
    requires raw != "" && IsQuote(quote)
    ensures var (s, m) := (First(raw, quote) + more, QuoteMode(quote));
            Width(s, m) == |First(raw, quote)| && NextMode(s, m) == m
  {
  }

  /** The rest of a literal and its closing quote pass through, and the lexer is back in code behind it. */
  lemma {:induction false} RestOfLiteral(raw: string, rest: string, quote: char, n: nat)
    requires IsQuote(quote) && (rest == "" || rest[0] != quote)
    ensures Lex(Doubled(raw, quote) + ([quote] + rest), QuoteMode(quote), n)
            == Doubled(raw, quote) + ([quote] + Lex(rest, Code, n))
    decreases |raw|
  {
    var (tail, m) := ([quote] + rest, QuoteMode(quote));
    if raw == "" {
      CopyOne(tail, m, n);
      assert "" + tail == tail && tail[1..] == rest && tail[..1] == [quote];
    } else {
      var (first, others) := (First(raw, quote), Doubled(raw[1..], quote));
      RestOfLiteral(raw[1..], rest, quote, n);
      FirstIsTaken(raw, others + tail, quote);
      CopiesToken(first, others + tail, m, n);
      SplitFirst(first, others, tail);
      SplitFirst(first, others, [quote] + Lex(rest, Code, n));
    }
  }

  lemma CopiesToken(token: string, more: string, m: Mode, n: nat)
    requires token != "" && ValidMode(m) && m != Code
    requires Width(token + more, m) == |token| && NextMode(token + more, m) == m
    ensures Lex(token + more, m, n) == token + Lex(more, m, n)
  {
    assert (token + more)[..|token|] == token && (token + more)[|token|..] == more;
    CopyOne(token + more, m, n);
  }

  /** A literal with single or double quotes, its quotes doubled, passes through whatever it holds. */
  lemma LiteralIsCopied(raw: string, rest: string, quote: char, n: nat)
    requires IsQuote(quote) && (rest == "" || rest[0] != quote)
    ensures Lex([quote] + (Doubled(raw, quote) + ([quote] + rest)), Code, n)
            == [quote] + (Doubled(raw, quote) + ([quote] + Lex(rest, Code, n)))
  {
    var inside := Doubled(raw, quote) + ([quote] + rest);
    RestOfLiteral(raw, rest, quote, n);
    Opens([quote], inside, QuoteMode(quote), n);
  }

  lemma Opens(opener: string, inside: string, m: Mode, n: nat)
    requires opener != "" && ValidMode(m)
    requires Width(opener + inside, Code) == |opener| && NextMode(opener + inside, Code) == m
    requires (opener + inside)[0] != '?'
    ensures Lex(opener + inside, Code, n) == opener + Lex(inside, m, n)
  {
    var s := opener + inside;
    assert s[..|opener|] == opener && s[|opener|..] == inside;
  }

  lemma SplitFirst(first: string, more: string, tail: string)
    ensures (first + more) + tail == first + (more + tail)
  {}

  predicate Closes(s: string, m: Mode) {
    s != "" && ValidMode(m) && m != Code && NextMode(s, m) == Code
  }

  /** Whatever stands inside a comment or a dollar quote passes through up to the first place where it closes, and the
      lexer is back in code behind it. */
  lemma InsideIsCopied(pre: string, tail: string, m: Mode, n: nat)
    requires ValidMode(m) && (m.LineComment? || m.BlockComment? || m.Dollar?)
    requires forall i :: 0 <= i < |pre| ==> !Closes(pre[i..] + tail, m)
    requires Closes(tail, m)
    ensures var w := Width(tail, m); Lex(pre + tail, m, n) == pre + (tail[..w] + Lex(tail[w..], Code, n))
  {
    UpToTheEnd(pre, tail, m, n);
    CopyOne(tail, m, n);
  }

  lemma {:induction false} UpToTheEnd(pre: string, tail: string, m: Mode, n: nat)
    requires ValidMode(m) && (m.LineComment? || m.BlockComment? || m.Dollar?)
    requires forall i :: 0 <= i < |pre| ==> !Closes(pre[i..] + tail, m)
    ensures Lex(pre + tail, m, n) == pre + Lex(tail, m, n)
    decreases |pre|
  {
    if pre == "" {
      assert pre + tail == tail;
    } else {
      var (s, more) := (pre + tail, pre[1..]);
      assert pre[0..] + tail == s;
      StaysInside(s, m, n);
      assert s[1..] == more + tail;
      forall i | 0 <= i < |more| ensures !Closes(more[i..] + tail, m) {
        assert more[i..] == pre[i + 1..];
      }
      UpToTheEnd(more, tail, m, n);
      Regroup(pre, Lex(tail, m, n));
    }
  }

  lemma Regroup(pre: string, x: string)
    requires pre != ""
    ensures [pre[0]] + (pre[1..] + x) == pre + x
  {}

  lemma StaysInside(s: string, m: Mode, n: nat)
    requires s != "" && ValidMode(m) && !Closes(s, m) && (m.LineComment? || m.BlockComment? || m.Dollar?)
    ensures Lex(s, m, n) == [s[0]] + Lex(s[1..], m, n)
  {
    CopyOne(s, m, n);
    assert s[..1] == [s[0]];
  }

  /** A comment to the end of the line passes through. */
  lemma LineCommentIsCopied(body: string, rest: string, n: nat)
    requires '\n' !in body
    ensures Lex("--" + (body + ("\n" + rest)), Code, n) == "--" + (body + ("\n" + Lex(rest, Code, n)))
  {
    var tail := "\n" + rest;
    forall i | 0 <= i < |body| ensures !Closes(body[i..] + tail, LineComment) {
      assert (body[i..] + tail)[0] == body[i] && body[i] in body;
    }
    InsideIsCopied(body, tail, LineComment, n);
    assert tail[..1] == "\n" && tail[1..] == rest;
    Opens("--", body + tail, LineComment, n);
  }

  /** A block comment passes through up to the first place where it closes. */
  lemma BlockCommentIsCopied(body: string, rest: string, n: nat)
    requires forall i :: 0 <= i < |body| ==> !Starts((body + "*/")[i..], '*', '/')
    ensures Lex("/*" + (body + ("*/" + rest)), Code, n) == "/*" + (body + ("*/" + Lex(rest, Code, n)))
  {
    var tail := "*/" + rest;
    forall i | 0 <= i < |body| ensures !Closes(body[i..] + tail, BlockComment) {
      assert !Starts((body + "*/")[i..], '*', '/');
      assert (body[i..] + tail)[0] == (body + "*/")[i..][0] && (body[i..] + tail)[1] == (body + "*/")[i..][1];
    }
    InsideIsCopied(body, tail, BlockComment, n);
    assert tail[..2] == "*/" && tail[2..] == rest;
    Opens("/*", body + tail, BlockComment, n);
  }

  /** A dollar-quote tag: letters, digits and underscores between two dollar signs */
  predicate IsTag(tag: string) {
    && |tag| >= 2 && tag[0] == '$' && tag[|tag| - 1] == '$'
    && forall i :: 0 < i < |tag| - 1 ==>
         || 'a' <= tag[i] <= 'z' || 'A' <= tag[i] <= 'Z' || '0' <= tag[i] <= '9' || tag[i] == '_'
  }

  lemma {:induction false} WordRunUpTo(word: string, rest: string)
    requires forall c :: c in word ==> IsWord(c)
    requires rest != "" && !IsWord(rest[0])
    ensures WordRun(word + rest) == |word|
    decreases |word|
  {
    if word == "" {
      assert word + rest == rest;
    } else {
      assert word[0] in word && (word + rest)[1..] == word[1..] + rest;
      WordRunUpTo(word[1..], rest);
    }
  }

  /** Exactly such tags open a dollar quote. */
  lemma TagsByName(tag: string, rest: string)
    ensures IsTag(tag) ==> TagLength(tag + rest) == |tag|
    ensures TagLength(rest) > 0 ==> IsTag(rest[..TagLength(rest)])
  {
    if IsTag(tag) {
      var word := tag[1..|tag| - 1];
      assert (tag + rest)[1..] == word + ("$" + rest);
      WordRunUpTo(word, "$" + rest);
    }
    if TagLength(rest) > 0 {
      WordsInRun(rest[1..]);
    }
  }

  lemma {:induction false} WordsInRun(s: string)
    ensures forall i :: 0 <= i < WordRun(s) ==> IsWord(s[i])
    decreases |s|
  {
    if s != "" && IsWord(s[0]) {
      WordsInRun(s[1..]);
      assert forall i :: 0 < i < WordRun(s) ==> s[i] == s[1..][i - 1];
    }
  }

  /** A dollar quote passes through up to the first place where its tag comes again. */
  lemma DollarQuoteIsCopied(tag: string, body: string, rest: string, n: nat)
    requires IsTag(tag) && forall i :: 0 <= i < |body| ==> !(tag <= (body + tag)[i..])
    ensures Lex(tag + (body + (tag + rest)), Code, n) == tag + (body + (tag + Lex(rest, Code, n)))
  {
    var (tail, m) := (tag + rest, Dollar(tag));
    TagsByName(tag, body + tail);
    TagHasNoMark(tag);
    forall i | 0 <= i < |body| ensures !Closes(body[i..] + tail, m) {
      TagNotYet(tag, body, rest, i);
    }
    assert tail[..|tag|] == tag && tail[|tag|..] == rest;
    InsideIsCopied(body, tail, m, n);
    assert (tag + (body + tail))[..|tag|] == tag;
    Opens(tag, body + tail, m, n);
  }

  lemma TagHasNoMark(tag: string)
    requires IsTag(tag)
    ensures '?' !in tag
  {
    if '?' in tag {
      var i :| 0 <= i < |tag| && tag[i] == '?';
      assert false;
    }
  }

  lemma TagNotYet(tag: string, body: string, rest: string, i: nat)
    requires i < |body| && !(tag <= (body + tag)[i..])
    ensures !(tag <= body[i..] + (tag + rest))
  {
    var (x, y) := ((body + tag)[i..], body[i..] + (tag + rest));
    assert y == x + rest;
    assert |x| >= |tag| && y[..|tag|] == x[..|tag|];
  }

  /** A question mark in code is numbered; any other character that opens nothing is copied. */
  lemma CodeIsScanned(c: char, rest: string, n: nat)
    ensures Lex("?" + rest, Code, n) == "$" + Dec(n) + Lex(rest, Code, n + 1)
    ensures c != '?' && !IsQuote(c) && !Starts([c] + rest, '-', '-') && !Starts([c] + rest, '/', '*')
            && TagLength([c] + rest) == 0
            ==> Lex([c] + rest, Code, n) == [c] + Lex(rest, Code, n)
  {
    assert ("?" + rest)[1..] == rest;
    assert ([c] + rest)[1..] == rest && ([c] + rest)[..1] == [c];
  }

  // ---- Where the two scanners agree ----

  /** Along the lexer's way, every question mark it meets is a marker for both scanners or for neither. */
  predicate Agree(s: string, m: Mode, q: Quotes)
    requires ValidMode(m)
    decreases |s|
  {
    s != "" ==>
      && (s[0] == '?' ==> (m == Code <==> Live(q, '?')))
      && Agree(s[Width(s, m)..], NextMode(s, m), Final(s[..Width(s, m)], q))
  }

  /** What the lexer takes at once is one character, or text without question marks. */
  lemma TokenHasNoMark(s: string, m: Mode)
    requires s != "" && ValidMode(m)
    ensures '?' !in s[..Width(s, m)] || (Width(s, m) == 1 && s[0] == '?')
  {
    var w := Width(s, m);
    if w == 1 {
      assert s[..1] == [s[0]];
    } else if w == 2 {
      assert s[..2] == [s[0], s[1]];
    }
    if m.Dollar? && s[0] == '$' && m.tag <= s {
      assert s[..w] == m.tag;
    }
  }

  lemma {:induction false} NoMarkers(s: string, q: Quotes)
    requires '?' !in s
    ensures Markers(s, q) == 0
    decreases |s|
  {
    if s != "" {
      NoMarkers(s[1..], After(q, s[0]));
    }
  }

  /** What the query scanner writes for the lexer's next token, with the number it goes on with */
  lemma ScanToken(s: string, m: Mode, q: Quotes, n: nat)
    requires s != "" && ValidMode(m)
    ensures var (w, marks) := (Width(s, m), s[0] == '?' && Live(q, '?'));
            Scan(s, q, n)
            == (if marks then "$" + Dec(n) else s[..w]) + Scan(s[w..], Final(s[..w], q), if marks then n + 1 else n)
  {
    var w := Width(s, m);
    var token := s[..w];
    assert s == token + s[w..];
    TokenHasNoMark(s, m);
    if s[0] == '?' {
      assert token == ['?'] && token[1..] == "";
      assert Final(token, q) == After(q, '?');
    } else {
      NoMarkers(token, q);
      WithoutMarks(token, q, n);
      ScanConcat(token, s[w..], q, n, n);
    }
  }

  lemma SameStart(x: string, a: string, b: string)
    ensures x + a == x + b <==> a == b
  {
    assert (x + a)[|x|..] == a && (x + b)[|x|..] == b;
  }

  lemma FirstDiffers(n: nat, a: string, b: string)
    ensures "$" + Dec(n) + a != "?" + b
  {
    assert ("$" + Dec(n) + a)[0] == '$' && ("?" + b)[0] == '?';
  }

  /** The two scanners give the same text if and only if they agree on every question mark. */
  lemma {:induction false} SameTextIff(s: string, m: Mode, q: Quotes, n: nat)
    requires ValidMode(m)
    ensures Scan(s, q, n) == Lex(s, m, n) <==> Agree(s, m, q)
    decreases |s|
  {
    if s != "" {
      var w := Width(s, m);
      var (scanned, lexed) := (s[0] == '?' && Live(q, '?'), Marks(s, m));
      var (n1, n2) := (if scanned then n + 1 else n, LexNext(s, m, n));
      var (x, y) := (Scan(s[w..], Final(s[..w], q), n1), Lex(s[w..], NextMode(s, m), n2));
      ScanToken(s, m, q, n);
      TokenHasNoMark(s, m);
      assert s[0] == '?' ==> s[..w] == "?";
      if scanned == lexed {
        SameTextIff(s[w..], NextMode(s, m), Final(s[..w], q), n1);
        SameStart(LexEmit(s, m, n), x, y);
      } else {
        FirstDiffers(n, if scanned then x else y, if scanned then y else x);
      }
    }
  }

  /** Exactly when the scanner of every query does what the lexer does */
  lemma ScannersAgreeIff(sql: string)
    ensures Convert(sql) == Lex(sql, Code, 1) <==> Agree(sql, Code, OUTSIDE)
  {
    SameTextIff(sql, Code, OUTSIDE, 1);
  }

  // ---- Statements on which they agree ----

  predicate EscapedQuote(s: string) {
    |s| > 1 && s[0] == '\\' && IsQuote(s[1])
  }

  /** Along the lexer's way there is no comment, no dollar quote, no backslash before a quote, and no quote of the other
      kind inside quotes. */
  predicate Tame(s: string, m: Mode)
    requires ValidMode(m)
    decreases |s|
  {
    s != "" ==>
      && !EscapedQuote(s)
      && (m == Code || (m == Single && s[0] != '"') || (m == Double && s[0] != '\''))
      && (m == Code ==> !Starts(s, '-', '-') && !Starts(s, '/', '*') && TagLength(s) == 0)
      && Tame(s[Width(s, m)..], NextMode(s, m))
  }

  predicate SameQuotes(q: Quotes, m: Mode) {
    q.single == (m == Single) && q.double == (m == Double)
  }

  /** The flags of the scanner stay in step with the mode of the lexer. */
  lemma FlagsKeepStep(s: string, m: Mode, q: Quotes)
    requires s != "" && ValidMode(m) && Tame(s, m) && SameQuotes(q, m) && (q.escaped ==> !IsQuote(s[0]))
    ensures var (w, q') := (Width(s, m), Final(s[..Width(s, m)], q));
            && SameQuotes(q', NextMode(s, m))
            && (q'.escaped && s[w..] != "" ==> !IsQuote(s[w..][0]))
  {
    var w := Width(s, m);
    if w == 1 {
      assert s[..1][1..] == "" && s[..1][0] == s[0];
      assert Final(s[..1], q) == After(q, s[0]);
    } else {
      assert s[..2] == [s[0]] + [s[1]];
      TwoFinal(s[0], s[1], q);
    }
  }

  lemma TwoFinal(a: char, b: char, q: Quotes)
    ensures Final([a] + [b], q) == After(After(q, a), b)
  {
    assert ([a] + [b])[1..] == [b] && [b][1..] == "";
    assert Final([b], After(q, a)) == Final("", After(After(q, a), b));
  }

  lemma {:induction false} TameAgrees(s: string, m: Mode, q: Quotes)
    requires ValidMode(m) && Tame(s, m) && SameQuotes(q, m) && (q.escaped && s != "" ==> !IsQuote(s[0]))
    ensures Agree(s, m, q)
    decreases |s|
  {
    if s != "" {
      var w := Width(s, m);
      FlagsKeepStep(s, m, q);
      TameAgrees(s[w..], NextMode(s, m), Final(s[..w], q));
    }
  }

  /** On every tame statement the two scanners give the same text. */
  lemma ScannersAgree(sql: string)
    requires Tame(sql, Code)
    ensures Convert(sql) == Lex(sql, Code, 1)
  {
    TameAgrees(sql, Code, OUTSIDE);
    ScannersAgreeIff(sql);
  }

  predicate NoPair(s: string, a: char, b: char) {
    forall i :: 0 < i < |s| ==> s[i - 1] != a || s[i] != b
  }

  /** No comments, dollar signs or backslashes */
  predicate Plain(s: string) {
    '$' !in s && '\\' !in s && NoPair(s, '-', '-') && NoPair(s, '/', '*')
  }

  /** A plain statement with quotes of one kind only is tame, however they are doubled or left open. */
  lemma {:induction false} PlainIsTame(s: string, m: Mode)
    requires Plain(s)
    requires (m == Single && '"' !in s) || (m == Double && '\'' !in s) || (m == Code && ('"' !in s || '\'' !in s))
    ensures Tame(s, m)
    decreases |s|
  {
    if s != "" {
      var w := Width(s, m);
      PlainSuffix(s, w);
      assert m == Code ==> !Starts(s, '-', '-') && !Starts(s, '/', '*');
      PlainIsTame(s[w..], NextMode(s, m));
    }
  }

  lemma PlainSuffix(s: string, w: nat)
    requires Plain(s) && w <= |s|
    ensures Plain(s[w..]) && !EscapedQuote(s) && !Starts(s, '-', '-') && !Starts(s, '/', '*')
    ensures forall c :: c in s[w..] ==> c in s
  {
    forall i | 0 < i < |s| - w
        ensures !(s[w..][i - 1] == '-' && s[w..][i] == '-') && !(s[w..][i - 1] == '/' && s[w..][i] == '*') {
      assert s[w..][i - 1] == s[w + i - 1] && s[w..][i] == s[w + i];
    }
  }

  // ---- Statements on which they do not ----

  lemma ScanFirst(c: char, s: string, q: Quotes, n: nat)
    ensures Scan([c] + s, q, n) == Emit(q, c, n) + Scan(s, After(q, c), Next(q, c, n))
  {
    assert ([c] + s)[1..] == s;
  }

  lemma LexMark(n: nat)
    ensures Lex("?", Code, n) == "$" + Dec(n)
  {
    assert "?"[1..] == "" && "$" + Dec(n) + "" == "$" + Dec(n);
  }

  /** The lexer copies the w characters that it takes at once. */
  lemma LexCopies(s: string, m: Mode, w: nat, m': Mode, n: nat)
    requires s != "" && ValidMode(m) && w == Width(s, m) && m' == NextMode(s, m) && !Marks(s, m)
    ensures Lex(s, m, n) == s[..w] + Lex(s[w..], m', n)
  {}

  /** A question mark in a comment becomes a parameter. */
  lemma CommentDiffers()
    ensures Convert("/*?") == "/*$1" && Lex("/*?", Code, 1) == "/*?"
    ensures !Agree("/*?", Code, OUTSIDE)
  {
    assert ['/'] + "*?" == "/*?" && ['*'] + "?" == "*?" && ['?'] + "" == "?";
    ScanFirst('/', "*?", OUTSIDE, 1);
    ScanFirst('*', "?", OUTSIDE, 1);
    ScanFirst('?', "", OUTSIDE, 1);
    assert "/*?"[2..] == "?" && "/*?"[..2] == "/*";
    CopyOne("?", BlockComment, 1);
    ScannersAgreeIff("/*?");
  }

  /** A question mark in a dollar quote becomes a parameter. */
  lemma DollarQuoteDiffers()
    ensures Convert("$$?") == "$$$1" && Lex("$$?", Code, 1) == "$$?"
    ensures !Agree("$$?", Code, OUTSIDE)
  {
    assert ['$'] + "$?" == "$$?" && ['$'] + "?" == "$?" && ['?'] + "" == "?";
    ScanFirst('$', "$?", OUTSIDE, 1);
    ScanFirst('$', "?", OUTSIDE, 1);
    ScanFirst('?', "", OUTSIDE, 1);
    assert TagLength("$$?") == 2;
    assert "$$?"[2..] == "?" && "$$?"[..2] == "$$";
    CopyOne("?", Dollar("$$"), 1);
    ScannersAgreeIff("$$?");
  }

  /** A quote after a backslash closes the literal for the lexer only. */
  lemma BackslashDiffers()
    ensures Convert("'\\'?") == "'\\'?" && Lex("'\\'?", Code, 1) == "'\\'$1"
    ensures !Agree("'\\'?", Code, OUTSIDE)
  {
    BackslashScanned();
    BackslashLexed();
    ScannersAgreeIff("'\\'?");
  }

  lemma BackslashScanned()
    ensures Convert("'\\'?") == "'\\'?"
  {
    var q := After(OUTSIDE, '\'');
    assert ['\''] + "\\'?" == "'\\'?" && ['\\'] + "'?" == "\\'?" && ['\''] + "?" == "'?" && ['?'] + "" == "?";
    ScanFirst('\'', "\\'?", OUTSIDE, 1);
    ScanFirst('\\', "'?", q, 1);
    ScanFirst('\'', "?", After(q, '\\'), 1);
    ScanFirst('?', "", After(After(q, '\\'), '\''), 1);
  }

  lemma BackslashLexed()
    ensures Lex("'\\'?", Code, 1) == "'\\'$1"
  {
    assert "'\\'?"[1..] == "\\'?" && "\\'?"[1..] == "'?" && "'?"[1..] == "?";
    assert "'\\'?"[..1] == "'" && "\\'?"[..1] == "\\" && "'?"[..1] == "'";
    LexMark(1);
    LexCopies("'?", Single, 1, Code, 1);
    LexCopies("\\'?", Single, 1, Single, 1);
    LexCopies("'\\'?", Code, 1, Single, 1);
  }

  /** A quote of the other kind inside a literal leaves the scanner inside quotes. */
  lemma MixedQuotesDiffer()
    ensures Convert("\"'\"?") == "\"'\"?" && Lex("\"'\"?", Code, 1) == "\"'\"$1"
    ensures !Agree("\"'\"?", Code, OUTSIDE)
  {
    MixedQuotesScanned();
    MixedQuotesLexed();
    ScannersAgreeIff("\"'\"?");
  }

  lemma MixedQuotesScanned()
    ensures Convert("\"'\"?") == "\"'\"?"
  {
    var q := After(OUTSIDE, '"');
    assert ['"'] + "'\"?" == "\"'\"?" && ['\''] + "\"?" == "'\"?" && ['"'] + "?" == "\"?" && ['?'] + "" == "?";
    ScanFirst('"', "'\"?", OUTSIDE, 1);
    ScanFirst('\'', "\"?", q, 1);
    ScanFirst('"', "?", After(q, '\''), 1);
    ScanFirst('?', "", After(After(q, '\''), '"'), 1);
  }

  lemma MixedQuotesLexed()
    ensures Lex("\"'\"?", Code, 1) == "\"'\"$1"
  {
    assert "\"'\"?"[1..] == "'\"?" && "'\"?"[1..] == "\"?" && "\"?"[1..] == "?";
    assert "\"'\"?"[..1] == "\"" && "'\"?"[..1] == "'" && "\"?"[..1] == "\"";
    LexMark(1);
    LexCopies("\"?", Double, 1, Code, 1);
    LexCopies("'\"?", Double, 1, Double, 1);
    LexCopies("\"'\"?", Code, 1, Double, 1);
  }
}
