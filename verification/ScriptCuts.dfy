/** Where the client cuts a statement printed under a delimiter nobody looked for in it. */
module ScriptCuts {
  import opened Text
  import opened Wrappers
  import opened Definer
  import opened SqlLexer
  import opened LexerContents
  import opened ScriptReader
  import LineReader
  import DumpScript

  // ---------------------------------------------------------------------------------------------
  // What was sent stays sent
  // ---------------------------------------------------------------------------------------------

  function SentAfter(n: Next): seq<string> {
    match n case More(c) => c.st.sent case EndLine(c) => c.st.sent case Stop(st) => st.sent
  }

  lemma BackslashGrows(env: Env, s: string, c: Cursor)
    requires ValidLine(s) && c.i < |s| - 1
    ensures c.st.sent <= SentAfter(Backslash(env, s, c))
  {
  }

  lemma DelimiterGrows(env: Env, s: string, c: Cursor)
    requires ValidLine(s) && AtDelimiter(s, c)
    ensures c.st.sent <= SentAfter(DelimiterFound(env, s, c))
  {
  }

  lemma LineCommentGrows(env: Env, s: string, c: Cursor)
    requires ValidLine(s) && c.i < |s| - 1
    ensures c.st.sent <= SentAfter(LineComment(env, s, c))
  {
  }

  lemma StepGrows(env: Env, s: string, c: Cursor)
    requires ValidLine(s) && c.i < |s| - 1
    ensures c.st.sent <= SentAfter(Step(env, s, c))
  {
    match BranchOf(env, s, c)
    case Escape => BackslashGrows(env, s, c);
    case EndOfStatement => DelimiterGrows(env, s, c);
    case ToEndOfLine => LineCommentGrows(env, s, c);
    case _ =>
  }

  lemma {:induction false} RunGrows(env: Env, s: string, c: Cursor, truncated: bool)
    requires ValidLine(s) && c.i < |s|
    ensures c.st.sent <= Run(env, s, c, truncated).st.sent
    decreases |s| - c.i
  {
    if c.i < |s| - 1 {
      StepGrows(env, s, c);
      var n := Step(env, s, c);
      if n.More? {
        RunGrows(env, s, n.cursor, truncated);
      }
    }
  }

  lemma TurnGrows(env: Env, st: State, line: Line)
    requires ValidLine(line.text)
    ensures st.sent <= Turn(env, st, line).st.sent
  {
    RunGrows(env, line.text, Cursor(0, "", false, false, st), line.truncated);
  }

  lemma SnocGrows(env: Env, st: State, ls: seq<string>, line: string)
    ensures Session(env, st, Terminated(ls)).st.sent <= Session(env, st, Terminated(ls + [line])).st.sent
  {
    var last := Line(line + [NUL], false);
    assert Terminated(ls + [line]) == Terminated(ls) + [last];
    SessionSnoc(env, st, Terminated(ls), last);
    TurnGrows(env, Session(env, st, Terminated(ls)).st, last);
  }

  lemma {:induction false} GrowsThroughout(f: seq<string> -> seq<string>, a: seq<string>, b: seq<string>)
    requires forall ls, line :: f(ls) <= f(ls + [line])
    ensures f(a) <= f(a + b)
    decreases |b|
  {
    if b == [] {
      assert a + b == a;
    } else {
      assert f(a) <= f(a + [b[0]]);
      GrowsThroughout(f, a + [b[0]], b[1..]);
      assert a + [b[0]] + b[1..] == a + b;
    }
  }

  lemma SessionGrows(env: Env, st: State, a: seq<string>, b: seq<string>)
    ensures Session(env, st, Terminated(a)).st.sent <= Session(env, st, Terminated(a + b)).st.sent
  {
    var f := ls => Session(env, st, Terminated(ls)).st.sent;
    forall ls, line
      ensures f(ls) <= f(ls + [line])
    {
      SnocGrows(env, st, ls, line);
    }
    GrowsThroughout(f, a, b);
  }

  // ---------------------------------------------------------------------------------------------
  // The first delimiter outside strings
  // ---------------------------------------------------------------------------------------------

  /** Outside strings no comment starts from `i` to `j`, and escaped characters stay. */
  predicate Commentless(env: Env, s: string, i: nat, j: nat, q: char, begun: bool)
    requires ValidLine(s) && j < |s|
    decreases j - i
  {
    i == j ||
    (i < j &&
     if Escaped(env, s, i, q) then
       i + 2 <= j && Stays(env, s[i + 1], q) && Commentless(env, s, i + 2, j, q, true)
     else
       && s[i] != NUL && (q == NUL ==> s[i] != '#' && !Dashes(s, i, begun) && !Opens(s, i))
       && Commentless(env, s, i + 1, j, QuoteAfter(s[i], q), true))
  }

  /** The first place before `j`, outside strings, where the delimiter stands; `j` if there is none. */
  function CutAt(env: Env, s: string, i: nat, j: nat, q: char, d: Delimiter): (n: nat)
    requires j <= |s|
    ensures n <= j && (i <= j ==> i <= n)
    decreases j - i
  {
    if i >= j then j
    else if Escaped(env, s, i, q) then CutAt(env, s, i + 2, j, q, d)
    else if q == NUL && StartsAt(s, i, d) then i
    else CutAt(env, s, i + 1, j, QuoteAfter(s[i], q), d)
  }

  /** Up to there the text is quiet. */
  lemma {:induction false} QuietToCut(env: Env, s: string, i: nat, j: nat, q: char, begun: bool, d: Delimiter)
    requires ValidLine(s) && j < |s| && Commentless(env, s, i, j, q, begun)
    ensures var n := CutAt(env, s, i, j, q, d);
      Quiet(env, s, i, n, q, begun, d)
      && (n < j ==> StartsAt(s, n, d) && QuoteAt(env, s, i, n, q) == NUL && Commentless(env, s, n, j, NUL, begun || i < n))
    decreases j - i
  {
    if i < j {
      if Escaped(env, s, i, q) {
        QuietToCut(env, s, i + 2, j, q, true, d);
      } else if !(q == NUL && StartsAt(s, i, d)) {
        QuietToCut(env, s, i + 1, j, QuoteAfter(s[i], q), true, d);
      }
    }
  }

  /** A line without comments that is not taken for a client command. */
  predicate Speaks(env: Env, line: string, q: char, begun: bool, d: Delimiter) {
    var s := line + [NUL];
    NoCommand(env, s, q, begun, d) && Commentless(env, s, TextStart(env, s, 0, begun), |line|, q, begun)
  }

  /** The first delimiter outside strings in a line, or its end. */
  function LineCut(env: Env, line: string, q: char, begun: bool, d: Delimiter): (n: nat)
    ensures TextStart(env, line + [NUL], 0, begun) <= n <= |line|
  {
    var s := line + [NUL];
    CutAt(env, s, TextStart(env, s, 0, begun), |line|, q, d)
  }

  /** What is sent when the delimiter stands at `n`. */
  function Cut(env: Env, line: string, buffer: string, n: nat, d: Delimiter): string
    requires TextStart(env, line + [NUL], 0, buffer != "") <= n && n + |d| <= |line|
  {
    var s := line + [NUL];
    buffer + s[TextStart(env, s, 0, buffer != "")..n] + s[n + |d|..TrailerEnd(env, s, n + |d|)]
  }

  /** Up to the cut the line is quiet, and there the delimiter stands. */
  predicate CutsThere(env: Env, s: string, k: nat, n: nat, q: char, begun: bool, d: Delimiter)
    requires ValidLine(s)
  {
    && k <= n && n + |d| < |s| && StartsAt(s, n, d)
    && Quiet(env, s, k, n, q, begun, d) && QuoteAt(env, s, k, n, q) == NUL
  }

  lemma CutInside(env: Env, line: string, q: char, begun: bool, d: Delimiter)
    requires Speaks(env, line, q, begun, d) && LineCut(env, line, q, begun, d) < |line|
    ensures var s, n := line + [NUL], LineCut(env, line, q, begun, d);
      n + |d| <= |line| && CutsThere(env, s, TextStart(env, s, 0, begun), n, q, begun, d)
  {
    var s := line + [NUL];
    QuietToCut(env, s, TextStart(env, s, 0, begun), |line|, q, begun, d);
    DelimiterBeforeEnd(s, LineCut(env, line, q, begun, d), d);
  }

  lemma ResumeGrows(env: Env, s: string, st: State, text: string, r: nat, ss: bool)
    requires ValidLine(s) && r < |s|
    ensures st.sent + [text] <= Resume(env, s, st, text, r, ss, false).st.sent
  {
    var st' := State("", NUL, false, st.delimiter, st.sent + [text]);
    match env.statement(text, st.delimiter)
    case Quit =>
    case Go(d) => RunGrows(env, s, Cursor(r, "", false, ss, st'.(delimiter := d)), false);
  }

  lemma CutAdd(env: Env, st: State, s: string, n: nat, k: nat, r: nat, text: string)
    requires ValidLine(s) && !st.mlComment && k == TextStart(env, s, 0, st.buffer != "")
    requires CutsThere(env, s, k, n, st.inString, st.buffer != "", st.delimiter)
    requires r == TrailerEnd(env, s, n + |st.delimiter|) && text == st.buffer + s[k..n] + s[n + |st.delimiter|..r]
    ensures st.sent + [text] <= Add(env, st, s, false).st.sent
  {
    DelimiterCuts(env, st, s, n, false);
    ResumeGrows(env, s, st, text, r, SsAt(env, s, k, n, st.inString, false));
  }

  lemma TurnAdds(env: Env, st: State, s: string)
    requires ValidLine(s) && !st.mlComment && NoCommand(env, s, st.inString, st.buffer != "", st.delimiter)
    ensures Turn(env, st, Line(s, false)) == Add(env, st, s, false)
  {
  }

  lemma CutSent(env: Env, st: State, line: string, n: nat)
    requires !st.mlComment && NoCommand(env, line + [NUL], st.inString, st.buffer != "", st.delimiter)
    requires n + |st.delimiter| <= |line|
    requires var s := line + [NUL];
      CutsThere(env, s, TextStart(env, s, 0, st.buffer != ""), n, st.inString, st.buffer != "", st.delimiter)
    ensures st.sent + [Cut(env, line, st.buffer, n, st.delimiter)] <= Turn(env, st, Line(line + [NUL], false)).st.sent
  {
    var s := line + [NUL];
    var k, r := TextStart(env, s, 0, st.buffer != ""), TrailerEnd(env, s, n + |st.delimiter|);
    CutAdd(env, st, s, n, k, r, Cut(env, line, st.buffer, n, st.delimiter));
    TurnAdds(env, st, s);
  }

  lemma CutTurn(env: Env, st: State, line: string, n: nat)
    requires !st.mlComment && Speaks(env, line, st.inString, st.buffer != "", st.delimiter)
    requires n == LineCut(env, line, st.inString, st.buffer != "", st.delimiter) < |line|
    ensures n + |st.delimiter| <= |line|
    ensures st.sent + [Cut(env, line, st.buffer, n, st.delimiter)] <= Turn(env, st, Line(line + [NUL], false)).st.sent
  {
    CutInside(env, line, st.inString, st.buffer != "", st.delimiter);
    CutSent(env, st, line, n);
  }

  lemma UncutLine(env: Env, line: string, q: char, begun: bool, d: Delimiter)
    requires Speaks(env, line, q, begun, d) && LineCut(env, line, q, begun, d) == |line|
    ensures Inner(env, line, q, begun, d)
  {
    var s := line + [NUL];
    QuietToCut(env, s, TextStart(env, s, 0, begun), |line|, q, begun, d);
  }

  /** Lines without comments and client commands. */
  predicate AllSpeak(env: Env, ls: seq<string>, q: char, buffer: string, d: Delimiter) {
    ls == []
    || (&& Speaks(env, ls[0], q, buffer != "", d)
        && AllSpeak(env, ls[1..], QuoteBehind(env, ls[0], q, buffer != ""), buffer + Adds(env, ls[0], q, buffer), d))
  }

  /** The first statement the client sends of the lines: all up to the first delimiter outside strings. */
  function FirstSent(env: Env, ls: seq<string>, q: char, buffer: string, d: Delimiter): Option<string>
    requires AllSpeak(env, ls, q, buffer, d)
    decreases |ls|
  {
    if ls == [] then None
    else
      var n := LineCut(env, ls[0], q, buffer != "", d);
      if n < |ls[0]| then
        CutInside(env, ls[0], q, buffer != "", d);
        Some(Cut(env, ls[0], buffer, n, d))
      else
        FirstSent(env, ls[1..], QuoteBehind(env, ls[0], q, buffer != ""), buffer + Adds(env, ls[0], q, buffer), d)
  }

  lemma {:induction false} FirstIsSent(env: Env, st: State, ls: seq<string>)
    requires !st.mlComment && AllSpeak(env, ls, st.inString, st.buffer, st.delimiter)
    ensures var sent := Session(env, st, Terminated(ls)).st.sent;
      match FirstSent(env, ls, st.inString, st.buffer, st.delimiter)
      case None => sent == st.sent
      case Some(text) => st.sent + [text] <= sent
    decreases |ls|
  {
    if ls != [] {
      var n := LineCut(env, ls[0], st.inString, st.buffer != "", st.delimiter);
      assert ls == [ls[0]] + ls[1..];
      SessionOne(env, st, ls[0]);
      if n < |ls[0]| {
        CutTurn(env, st, ls[0], n);
        SessionGrows(env, st, [ls[0]], ls[1..]);
      } else {
        UncutLine(env, ls[0], st.inString, st.buffer != "", st.delimiter);
        InnerTurn(env, st, ls[0]);
        SessionConcat(env, st, [ls[0]], ls[1..]);
        FirstIsSent(env, Session(env, st, Terminated([ls[0]])).st, ls[1..]);
      }
    }
  }

  /** Nothing else is the first statement. */
  lemma FirstAlone(env: Env, st: State, ls: seq<string>, text: string)
    requires !st.mlComment && AllSpeak(env, ls, st.inString, st.buffer, st.delimiter)
    ensures st.sent + [text] <= Session(env, st, Terminated(ls)).st.sent
       <==> FirstSent(env, ls, st.inString, st.buffer, st.delimiter) == Some(text)
  {
    FirstIsSent(env, st, ls);
    var sent := Session(env, st, Terminated(ls)).st.sent;
    var first := FirstSent(env, ls, st.inString, st.buffer, st.delimiter);
    if first.Some? && st.sent + [text] <= sent {
      assert (st.sent + [text])[|st.sent|] == sent[|st.sent|] == (st.sent + [first.value])[|st.sent|];
    }
  }

  // ---------------------------------------------------------------------------------------------
  // Whole statements
  // ---------------------------------------------------------------------------------------------

  predicate NoQuoteOrBlank(d: Delimiter) {
    forall n :: 0 <= n < |d| ==> !IsQuote(d[n]) && !IsSpace(d[n])
  }

  /** The last line ends with the delimiter, and some text or nothing comes before that. */
  predicate Ending(ls: seq<string>, d: Delimiter) {
    && ls != []
    && var line := ls[|ls| - 1];
    |d| <= |line| && line[|line| - |d|..] == d
  }

  /** Nowhere but at its end, outside strings, does the text hold the delimiter. */
  predicate Uncut(env: Env, ls: seq<string>, q: char, buffer: string, d: Delimiter)
    requires ls != []
    decreases |ls|
  {
    var n := LineCut(env, ls[0], q, buffer != "", d);
    if |ls| == 1 then n == |ls[0]| - |d|
    else
      && n == |ls[0]|
      && Uncut(env, ls[1..], QuoteBehind(env, ls[0], q, buffer != ""), buffer + Adds(env, ls[0], q, buffer), d)
  }

  /** The text before the delimiter at the end. */
  function Whole(env: Env, ls: seq<string>, q: char, buffer: string, d: Delimiter): string
    requires Ending(ls, d)
    decreases |ls|
  {
    var line := ls[0];
    var k := TextStart(env, line + [NUL], 0, buffer != "");
    if |ls| == 1 then buffer + (if k <= |line| - |d| then line[k..|line| - |d|] else "")
    else Whole(env, ls[1..], QuoteBehind(env, line, q, buffer != ""), buffer + Adds(env, line, q, buffer), d)
  }

  lemma {:induction false} WholeIsLonger(env: Env, ls: seq<string>, q: char, buffer: string, d: Delimiter)
    requires Ending(ls, d)
    ensures |Whole(env, ls, q, buffer, d)| >= |buffer|
    decreases |ls|
  {
    if |ls| > 1 {
      WholeIsLonger(env, ls[1..], QuoteBehind(env, ls[0], q, buffer != ""), buffer + Adds(env, ls[0], q, buffer), d);
    }
  }

  /** Blanks and delimiters that are passed over hide no comment. */
  lemma {:induction false} CommentlessPast(env: Env, s: string, i: nat, p: nat, j: nat, begun: bool)
    requires ValidLine(s) && i <= p <= j < |s| && Commentless(env, s, i, j, NUL, begun)
    requires forall n :: i <= n < p ==> s[n] != '\\' && !IsQuote(s[n])
    ensures Commentless(env, s, p, j, NUL, begun || i < p)
    decreases p - i
  {
    if i < p {
      CommentlessPast(env, s, i + 1, p, j, true);
    }
  }

  lemma {:induction false} SpacesSkipped(s: string, j: nat)
    requires ValidLine(s) && j < |s|
    ensures forall n :: j <= n < SkipSpaces(s, j) ==> IsSpace(s[n])
    decreases |s| - j
  {
    if IsSpace(s[j]) {
      SpacesSkipped(s, j + 1);
    }
  }

  /** In text without comments nothing but blanks is kept behind a delimiter. */
  lemma TrailerIsBlank(env: Env, s: string, n: nat, j: nat, begun: bool, d: Delimiter)
    requires ValidLine(s) && j == |s| - 1 && n + |d| <= j && StartsAt(s, n, d) && NoQuoteOrBlank(d)
    requires Commentless(env, s, n, j, NUL, begun)
    ensures var p := n + |d|; forall m :: p <= m < TrailerEnd(env, s, p) ==> IsSpace(s[m])
  {
    var p := n + |d|;
    var q := SkipSpaces(s, p);
    SpacesSkipped(s, p);
    assert forall m :: n <= m < p ==> s[m] == s[n..p][m - n] == d[m - n];
    CommentlessPast(env, s, n, p, j, begun);
    CommentlessPast(env, s, p, q, j, true);
  }

  lemma CutAtEnd(env: Env, line: string, q: char, buffer: string, d: Delimiter)
    requires Ending([line], d) && TextStart(env, line + [NUL], 0, buffer != "") <= |line| - |d|
    ensures Cut(env, line, buffer, |line| - |d|, d) == Whole(env, [line], q, buffer, d)
  {
    var s, n := line + [NUL], |line| - |d|;
    var k := TextStart(env, s, 0, buffer != "");
    NoTrailer(env, s);
    assert s[k..n] == line[k..n] && s[|line|..|line|] == "";
  }

  lemma TrailerStops(env: Env, line: string, n: nat, begun: bool, d: Delimiter)
    requires n + |d| < |line| && StartsAt(line + [NUL], n, d) && NoQuoteOrBlank(d) && Ending([line], d)
    requires Commentless(env, line + [NUL], n, |line|, NUL, begun)
    ensures TrailerEnd(env, line + [NUL], n + |d|) < |line|
  {
    var s := line + [NUL];
    TrailerIsBlank(env, s, n, |line|, begun, d);
    assert s[|line| - 1] == line[|line| - |d|..][|d| - 1] == d[|d| - 1];
  }

  lemma CutShort(env: Env, line: string, q: char, buffer: string, n: nat, d: Delimiter)
    requires TextStart(env, line + [NUL], 0, buffer != "") <= n < |line| - |d| && Ending([line], d)
    requires TrailerEnd(env, line + [NUL], n + |d|) < |line|
    ensures |Cut(env, line, buffer, n, d)| < |Whole(env, [line], q, buffer, d)|
  {
  }

  /** A delimiter before the end of the last line leaves something of it unsent. */
  lemma LastLineCut(env: Env, line: string, q: char, buffer: string, n: nat, d: Delimiter)
    requires Speaks(env, line, q, buffer != "", d) && NoQuoteOrBlank(d) && Ending([line], d)
    requires n == LineCut(env, line, q, buffer != "", d) < |line|
    ensures n <= |line| - |d|
    ensures Cut(env, line, buffer, n, d) == Whole(env, [line], q, buffer, d) <==> n == |line| - |d|
  {
    var s := line + [NUL];
    var k := TextStart(env, s, 0, buffer != "");
    CutInside(env, line, q, buffer != "", d);
    if n == |line| - |d| {
      CutAtEnd(env, line, q, buffer, d);
    } else {
      QuietToCut(env, s, k, |line|, q, buffer != "", d);
      TrailerStops(env, line, n, (buffer != "") || k < n, d);
      CutShort(env, line, q, buffer, n, d);
    }
  }

  /** So does one in a line before. */
  lemma InnerLineCut(env: Env, ls: seq<string>, q: char, buffer: string, n: nat, d: Delimiter)
    requires Ending(ls, d) && |ls| > 1 && TextStart(env, ls[0] + [NUL], 0, buffer != "") <= n && n + |d| <= |ls[0]|
    ensures |Cut(env, ls[0], buffer, n, d)| < |Whole(env, ls, q, buffer, d)|
  {
    var line := ls[0];
    WholeIsLonger(env, ls[1..], QuoteBehind(env, line, q, buffer != ""), buffer + Adds(env, line, q, buffer), d);
    assert |Cut(env, line, buffer, n, d)| < |buffer + Adds(env, line, q, buffer)|;
  }

  lemma FirstOfOne(env: Env, line: string, q: char, buffer: string, d: Delimiter)
    requires AllSpeak(env, [line], q, buffer, d)
    ensures var n := LineCut(env, line, q, buffer != "", d);
      if n < |line| then n + |d| <= |line| && FirstSent(env, [line], q, buffer, d) == Some(Cut(env, line, buffer, n, d))
      else FirstSent(env, [line], q, buffer, d) == None
  {
    assert [line][0] == line && [line][1..] == [];
    if LineCut(env, line, q, buffer != "", d) < |line| {
      CutInside(env, line, q, buffer != "", d);
    }
  }

  lemma OneLineIff(env: Env, line: string, q: char, buffer: string, d: Delimiter)
    requires AllSpeak(env, [line], q, buffer, d) && Ending([line], d) && NoQuoteOrBlank(d)
    ensures FirstSent(env, [line], q, buffer, d) == Some(Whole(env, [line], q, buffer, d))
       <==> Uncut(env, [line], q, buffer, d)
  {
    var n := LineCut(env, line, q, buffer != "", d);
    FirstOfOne(env, line, q, buffer, d);
    assert Uncut(env, [line], q, buffer, d) <==> n == |line| - |d|;
    if n < |line| {
      LastLineCut(env, line, q, buffer, n, d);
    }
  }

  lemma CutOnce(env: Env, ls: seq<string>, q: char, buffer: string, d: Delimiter)
    requires AllSpeak(env, ls, q, buffer, d) && Ending(ls, d) && |ls| > 1
    requires LineCut(env, ls[0], q, buffer != "", d) < |ls[0]|
    ensures FirstSent(env, ls, q, buffer, d) != Some(Whole(env, ls, q, buffer, d)) && !Uncut(env, ls, q, buffer, d)
  {
    CutInside(env, ls[0], q, buffer != "", d);
    InnerLineCut(env, ls, q, buffer, LineCut(env, ls[0], q, buffer != "", d), d);
  }

  /** Text without comments: its first statement is the whole of it exactly if no delimiter stands before its end. */
  lemma {:induction false} WholeIff(env: Env, ls: seq<string>, q: char, buffer: string, d: Delimiter)
    requires AllSpeak(env, ls, q, buffer, d) && Ending(ls, d) && NoQuoteOrBlank(d)
    ensures FirstSent(env, ls, q, buffer, d) == Some(Whole(env, ls, q, buffer, d)) <==> Uncut(env, ls, q, buffer, d)
    decreases |ls|
  {
    if |ls| == 1 {
      assert ls == [ls[0]];
      OneLineIff(env, ls[0], q, buffer, d);
    } else if LineCut(env, ls[0], q, buffer != "", d) < |ls[0]| {
      CutOnce(env, ls, q, buffer, d);
    } else {
      WholeIff(env, ls[1..], QuoteBehind(env, ls[0], q, buffer != ""), buffer + Adds(env, ls[0], q, buffer), d);
    }
  }

  // ---------------------------------------------------------------------------------------------
  // Printed texts
  // ---------------------------------------------------------------------------------------------

  function Joined(ls: seq<string>): string
    requires ls != []
  {
    if |ls| == 1 then ls[0] else ls[0] + "\n" + Joined(ls[1..])
  }

  lemma OneLine(t: string)
    requires t != "" && '\n' !in t
    ensures LineReader.SplitLines(t) == [t]
  {
    LineReader.LineLengthIs(t, |t|);
    assert t[..|t|] == t;
  }

  lemma FirstLine(line: string, rest: string)
    requires '\n' !in line
    ensures LineReader.SplitLines(line + "\n" + rest) == [line] + LineReader.SplitLines(rest)
  {
    var t := line + "\n" + rest;
    assert t[..|line|] == line && t[|line|] == '\n' && t[|line| + 1..] == rest;
    LineReader.LineLengthIs(t, |line|);
  }

  /** A text is one line, or a line and the rest. */
  lemma LineAndRest(t: string) returns (line: string, rest: string)
    ensures '\n' !in line
    ensures if '\n' in t then t == line + "\n" + rest else t == line
  {
    var k := LineReader.LineLength(t);
    line, rest := t[..k], if k < |t| then t[k + 1..] else "";
    if k == |t| {
      assert t[..k] == t;
    }
  }

  lemma {:induction false} JoinedSplit(t: string)
    requires t != "" && t[|t| - 1] != '\n'
    ensures var ls := LineReader.SplitLines(t); ls != [] && Joined(ls) == t
    decreases |t|
  {
    var line, rest := LineAndRest(t);
    if '\n' in t {
      assert rest != "" && rest[|rest| - 1] == t[|t| - 1];
      FirstLine(line, rest);
      JoinedSplit(rest);
      assert ([line] + LineReader.SplitLines(rest))[1..] == LineReader.SplitLines(rest);
    } else {
      OneLine(t);
    }
  }

  lemma EndingBehind(line: string, ls: seq<string>, d: Delimiter)
    requires Ending(ls, d)
    ensures Ending([line] + ls, d)
  {
    assert ([line] + ls)[|ls|] == ls[|ls| - 1];
  }

  lemma {:induction false} LastLineEnds(text: string, d: Delimiter)
    requires '\n' !in d
    ensures Ending(LineReader.SplitLines(text + d), d)
    decreases |text|
  {
    var line, rest := LineAndRest(text);
    if '\n' in text {
      assert text + d == line + "\n" + (rest + d);
      FirstLine(line, rest + d);
      LastLineEnds(rest, d);
      EndingBehind(line, LineReader.SplitLines(rest + d), d);
    } else {
      OneLine(text + d);
    }
  }

  /** The text begins with something that is not a blank, and no line of it looks like a change of the delimiter. */
  predicate Upright(ls: seq<string>) {
    && ls != [] && ls[0] != "" && !IsSpace(ls[0][0])
    && forall n :: 0 <= n < |ls| ==> !IsDelimiterCommand(ls[n])
  }

  lemma {:induction false} WholeIsText(env: Env, ls: seq<string>, q: char, buffer: string, d: Delimiter)
    requires Ending(ls, d) && forall n :: 0 <= n < |ls| ==> !IsDelimiterCommand(ls[n])
    requires buffer != "" || (ls[0] != "" && !IsSpace(ls[0][0]))
    ensures Whole(env, ls, q, buffer, d) + d == buffer + Joined(ls)
    decreases |ls|
  {
    var line := ls[0];
    assert TextStart(env, line + [NUL], 0, buffer != "") == 0;
    if |ls| == 1 {
      assert line == line[0..|line| - |d|] + d;
    } else {
      assert (line + [NUL])[0..|line|] == line;
      assert Adds(env, line, q, buffer) == line + "\n";
      WholeIsText(env, ls[1..], QuoteBehind(env, line, q, buffer != ""), buffer + Adds(env, line, q, buffer), d);
      assert buffer + (line + "\n") + Joined(ls[1..]) == buffer + (line + "\n" + Joined(ls[1..]));
    }
  }

  lemma WholeText(env: Env, ls: seq<string>, text: string, d: Delimiter)
    requires Ending(ls, d) && Upright(ls) && Joined(ls) == text + d
    ensures Whole(env, ls, NUL, "", d) == text
  {
    WholeIsText(env, ls, NUL, "", d);
    var whole := Whole(env, ls, NUL, "", d);
    assert whole + d == text + d;
    assert whole == (whole + d)[..|whole|] && text == (text + d)[..|text|];
  }

  lemma LinesSentWhole(env: Env, ls: seq<string>, text: string, d: Delimiter, sent: seq<string>)
    requires Ending(ls, d) && Upright(ls) && Joined(ls) == text + d && AllSpeak(env, ls, NUL, "", d) && NoQuoteOrBlank(d)
    ensures sent + [text] <= Session(env, State("", NUL, false, d, sent), Terminated(ls)).st.sent
       <==> Uncut(env, ls, NUL, "", d)
  {
    WholeText(env, ls, text, d);
    WholeIff(env, ls, NUL, "", d);
    FirstAlone(env, State("", NUL, false, d, sent), ls, text);
  }

  /** Printed with the delimiter behind it, the text is what the client sends first. */
  ghost predicate SentWhole(env: Env, text: string, d: Delimiter, sent: seq<string>) {
    sent + [text] <= Session(env, State("", NUL, false, d, sent), Terminated(LineReader.SplitLines(text + d))).st.sent
  }

  /** Printed so, the text holds no comments and no commands for the client. */
  predicate Readable(env: Env, text: string, d: Delimiter) {
    Upright(LineReader.SplitLines(text + d)) && AllSpeak(env, LineReader.SplitLines(text + d), NUL, "", d)
  }

  /** ... and outside strings the delimiter does not stand in it before its end. */
  predicate Clear(env: Env, text: string, d: Delimiter)
    requires Readable(env, text, d)
  {
    Uncut(env, LineReader.SplitLines(text + d), NUL, "", d)
  }

  /** A text is sent whole exactly if the delimiter printed behind it does not stand in it outside strings. */
  lemma SentWholeIff(env: Env, text: string, d: Delimiter, sent: seq<string>)
    requires Readable(env, text, d) && NoQuoteOrBlank(d)
    ensures SentWhole(env, text, d, sent) <==> Clear(env, text, d)
  {
    var t := text + d;
    forall n | 0 <= n < |d|
      ensures d[n] != '\n'
    {
      assert !IsSpace(d[n]);
    }
    assert t[|t| - 1] == d[|d| - 1];
    JoinedSplit(t);
    LastLineEnds(text, d);
    LinesSentWhole(env, LineReader.SplitLines(t), text, d, sent);
  }

  // ---------------------------------------------------------------------------------------------
  // Triggers and routines
  // ---------------------------------------------------------------------------------------------

  function TriggerPrinted(w: Weights, t: DumpScript.Trigger): string {
    "/*!50003 " + DumpScript.TriggerText(w, t) + " */"
  }

  function RoutinePrinted(r: DumpScript.Routine): string {
    r.create + " "
  }

  lemma PairIsPlain()
    ensures NoQuoteOrBlank(PAIR)
  {
  }

  /** Triggers are printed under two semicolons without a search for them: so they are sent whole in exactly that case. */
  lemma TriggerSentIff(env: Env, w: Weights, t: DumpScript.Trigger, sent: seq<string>)
    requires Readable(env, TriggerPrinted(w, t), PAIR)
    ensures SentWhole(env, TriggerPrinted(w, t), PAIR, sent) <==> Clear(env, TriggerPrinted(w, t), PAIR)
  {
    PairIsPlain();
    SentWholeIff(env, TriggerPrinted(w, t), PAIR, sent);
  }

  /** So are routines. */
  lemma RoutineSentIff(env: Env, r: DumpScript.Routine, sent: seq<string>)
    requires Readable(env, RoutinePrinted(r), PAIR)
    ensures SentWhole(env, RoutinePrinted(r), PAIR, sent) <==> Clear(env, RoutinePrinted(r), PAIR)
  {
    PairIsPlain();
    SentWholeIff(env, RoutinePrinted(r), PAIR, sent);
  }

  lemma PassedOver(env: Env, s: string, i: nat, j: nat, q: char, begun: bool, d: Delimiter)
    requires ValidLine(s) && i < j < |s| && s[i] != NUL && s[i] != '\\' && s[i] != '#' && s[i] != '-' && s[i] != '/'
    requires Commentless(env, s, i + 1, j, QuoteAfter(s[i], q), true)
    ensures Commentless(env, s, i, j, q, begun)
    ensures q != NUL || s[i] != d[0] ==> CutAt(env, s, i, j, q, d) == CutAt(env, s, i + 1, j, QuoteAfter(s[i], q), d)
  {
    StartsWithItsHead(s, i, d);
  }

  lemma {:induction false} AllPassedOver(env: Env, s: string, i: nat, j: nat, begun: bool, d: Delimiter)
    requires ValidLine(s) && i <= j < |s|
    requires forall n :: i <= n < j ==> s[n] != NUL && s[n] != '\\' && s[n] != '#' && s[n] != '-' && s[n] != '/'
                                        && !IsQuote(s[n])
    ensures Commentless(env, s, i, j, NUL, begun)
    decreases j - i
  {
    if i < j {
      AllPassedOver(env, s, i + 1, j, true, d);
      PassedOver(env, s, i, j, NUL, begun, d);
    }
  }

  /** Two semicolons cut at once. */
  lemma CutLine(env: Env, s: string)
    requires s == "x;;y ;;" + [NUL]
    ensures Commentless(env, s, 0, 7, NUL, false) && CutAt(env, s, 0, 7, NUL, PAIR) == 1
  {
    AllPassedOver(env, s, 1, 7, true, PAIR);
    PassedOver(env, s, 0, 7, NUL, false, PAIR);
    assert s[1..3] == PAIR && StartsAt(s, 1, PAIR);
  }

  /** In a string they do not. */
  lemma UncutString(env: Env, s: string)
    requires s == "x';;' ;;" + [NUL]
    ensures Commentless(env, s, 0, 8, NUL, false) && CutAt(env, s, 0, 8, NUL, PAIR) == 6
  {
    PassedOver(env, s, 7, 8, NUL, true, PAIR);
    PassedOver(env, s, 6, 8, NUL, true, PAIR);
    assert s[6..8] == PAIR && StartsAt(s, 6, PAIR);
    PassedOver(env, s, 5, 8, NUL, true, PAIR);
    PassedOver(env, s, 4, 8, '\'', true, PAIR);
    PassedOver(env, s, 3, 8, '\'', true, PAIR);
    PassedOver(env, s, 2, 8, '\'', true, PAIR);
    PassedOver(env, s, 1, 8, NUL, true, PAIR);
    PassedOver(env, s, 0, 8, NUL, false, PAIR);
  }

  /** A text of one short line. */
  lemma LineIsRead(env: Env, line: string, text: string, n: nat, d: Delimiter, sent: seq<string>)
    requires line == text + d && 0 < |line| < 9 && '\n' !in line && !IsSpace(line[0]) && NoQuoteOrBlank(d)
    requires env.lineCommand(line + [NUL], d).NotACommand? && Commentless(env, line + [NUL], 0, |line|, NUL, false)
    requires n == CutAt(env, line + [NUL], 0, |line|, NUL, d)
    ensures SentWhole(env, text, d, sent) <==> n == |text|
  {
    var ls := LineReader.SplitLines(line);
    OneLine(line);
    assert ls == [line] && ls[1..] == [];
    assert TextStart(env, line + [NUL], 0, false) == 0;
    assert Speaks(env, line, NUL, false, d);
    SentWholeIff(env, text, d, sent);
  }

  /** A routine with two semicolons is cut between its halves. */
  lemma CutRoutine(env: Env, r: DumpScript.Routine, sent: seq<string>)
    requires r.body == Some("x;;y") && env.lineCommand("x;;y ;;" + [NUL], PAIR).NotACommand?
    ensures !SentWhole(env, RoutinePrinted(r), PAIR, sent)
  {
    PairIsPlain();
    CutLine(env, "x;;y ;;" + [NUL]);
    LineIsRead(env, "x;;y ;;", RoutinePrinted(r), 1, PAIR, sent);
  }

  /** With the same in a string it is sent whole. */
  lemma UncutRoutine(env: Env, r: DumpScript.Routine, sent: seq<string>)
    requires r.body == Some("x';;'") && env.lineCommand("x';;' ;;" + [NUL], PAIR).NotACommand?
    ensures SentWhole(env, RoutinePrinted(r), PAIR, sent)
  {
    PairIsPlain();
    UncutString(env, "x';;' ;;" + [NUL]);
    LineIsRead(env, "x';;' ;;", RoutinePrinted(r), 6, PAIR, sent);
  }
}
