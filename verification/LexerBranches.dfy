/**
 What the less common branches of the lexer do to text: comments up to the end of the line, comments that are kept, and
 backslash commands.
 */
module LexerBranches {
  import opened Text
  import opened SqlLexer
  import opened LexerContents

  /** The line up to `i` is quiet, and no string is open there. */
  predicate QuietTo(env: Env, st: State, s: string, i: nat)
    requires ValidLine(s)
  {
    && !st.mlComment && i < |s| - 1 && s[i] != NUL
    && var k := TextStart(env, s, 0, st.buffer != "");
    k <= i && Quiet(env, s, k, i, st.inString, st.buffer != "", st.delimiter) && QuoteAt(env, s, k, i, st.inString) == NUL
  }

  /** The statement so far, up to `i`. */
  function Before(env: Env, st: State, s: string, i: nat): string
    requires ValidLine(s) && QuietTo(env, st, s, i)
  {
    st.buffer + s[TextStart(env, s, 0, st.buffer != "")..i]
  }

  lemma LineIsNotEmpty(env: Env, st: State, s: string, i: nat)
    requires ValidLine(s) && QuietTo(env, st, s, i)
    ensures s[0] != NUL
  {
    var k := TextStart(env, s, 0, st.buffer != "");
    if k > 0 {
      assert IsSpace(s[0]);
    }
  }

  lemma RunStep(env: Env, s: string, c: Cursor, n: Next, truncated: bool)
    requires ValidLine(s) && c.i < |s| - 1 && Step(env, s, c) == n
    ensures n.EndLine? ==> Run(env, s, c, truncated) == LineResult(Finish(env, n.cursor, truncated), false)
    ensures n.Stop? ==> Run(env, s, c, truncated) == LineResult(n.st, true)
    ensures n.More? ==> n.cursor.i < |s| && Run(env, s, c, truncated) == Run(env, s, n.cursor, truncated)
  {
  }

  /** The line is read up to `i`, and goes on as that step says. */
  lemma AddStep(env: Env, st: State, s: string, i: nat, n: Next, truncated: bool)
    requires ValidLine(s) && QuietTo(env, st, s, i) && Step(env, s, Behind(env, st, s, i)) == n
    ensures n.EndLine? ==> Add(env, st, s, truncated) == LineResult(Finish(env, n.cursor, truncated), false)
    ensures n.Stop? ==> Add(env, st, s, truncated) == LineResult(n.st, true)
    ensures n.More? ==> n.cursor.i < |s| && Add(env, st, s, truncated) == Run(env, s, n.cursor, truncated)
  {
    LineIsNotEmpty(env, st, s, i);
    QuietBeginning(env, st, s, i);
    AddRuns(env, st, s, Behind(env, st, s, i), truncated);
    RunStep(env, s, Behind(env, st, s, i), n, truncated);
  }

  // ---------------------------------------------------------------------------------------------
  // Comments up to the end of the line
  // ---------------------------------------------------------------------------------------------

  /** At `i`, outside strings, stands a comment up to the end of the line, and not the delimiter. */
  predicate CommentFrom(env: Env, st: State, s: string, i: nat)
    requires ValidLine(s) && QuietTo(env, st, s, i)
  {
    !StartsAt(s, i, st.delimiter) && (s[i] == '#' || Dashes(s, i, Before(env, st, s, i) != ""))
  }

  lemma ToEndStep(env: Env, s: string, c: Cursor)
    requires ValidLine(s) && c.i < |s| - 1 && !c.st.mlComment && c.st.inString == NUL && !env.preserveComments
    requires !StartsAt(s, c.i, c.st.delimiter) && (s[c.i] == '#' || Dashes(s, c.i, Begun(c)))
    ensures Step(env, s, c) == EndLine(c.(pending := "", st := c.st.(buffer := c.st.buffer + c.pending)))
  {
  }

  /** Of such a line the statement keeps all before the comment, and a newline if there is any text. */
  lemma LineCommentEnds(env: Env, st: State, s: string, i: nat, truncated: bool)
    requires ValidLine(s) && QuietTo(env, st, s, i) && CommentFrom(env, st, s, i) && !env.preserveComments
    ensures var before := Before(env, st, s, i);
      Add(env, st, s, truncated)
      == LineResult(st.(buffer := before + (if before != "" && !truncated then "\n" else ""), inString := NUL), false)
  {
    var c := Behind(env, st, s, i);
    ToEndStep(env, s, c);
    AddStep(env, st, s, i, EndLine(c.(pending := "", st := c.st.(buffer := c.st.buffer + c.pending))), truncated);
    assert Before(env, st, s, i) + "" == Before(env, st, s, i);
  }

  lemma KeptToEndStep(env: Env, s: string, c: Cursor, e: nat)
    requires ValidLine(s) && c.i < |s| - 1 && !c.st.mlComment && c.st.inString == NUL && env.preserveComments
    requires !StartsAt(s, c.i, c.st.delimiter) && (s[c.i] == '#' || Dashes(s, c.i, Begun(c)))
    requires c.i <= e < |s| && s[e] == NUL && forall n :: c.i <= n < e ==> s[n] != NUL
    ensures var before, text := c.st.buffer + c.pending, s[c.i..e];
      Step(env, s, c) ==
      if before != "" then EndLine(c.(pending := "", st := c.st.(buffer := before + text)))
      else
        match env.statement(text, c.st.delimiter)
        case Quit => Stop(c.st.(buffer := "", sent := c.st.sent + [text]))
        case Go(_) => EndLine(c.(pending := "", st := c.st.(buffer := "", sent := c.st.sent + [text])))
  {
    assert CEnd(s, c.i) == e;
    assert "" + s[c.i..e] == s[c.i..e];
  }

  /** Where comments are kept, it joins a statement that was begun; otherwise it is sent alone. */
  lemma LineCommentKept(env: Env, st: State, s: string, i: nat, e: nat, truncated: bool)
    requires ValidLine(s) && QuietTo(env, st, s, i) && CommentFrom(env, st, s, i) && env.preserveComments
    requires i <= e < |s| && s[e] == NUL && forall n :: i <= n < e ==> s[n] != NUL
    ensures var before, text := Before(env, st, s, i), s[i..e];
      Add(env, st, s, truncated) ==
      if before != "" then
        LineResult(st.(buffer := before + text + (if truncated then "" else "\n"), inString := NUL), false)
      else
        LineResult(st.(sent := st.sent + [text], inString := NUL), env.statement(text, st.delimiter).Quit?)
  {
    var c := Behind(env, st, s, i);
    var before, text := Before(env, st, s, i), s[i..e];
    KeptToEndStep(env, s, c, e);
    AddStep(env, st, s, i, Step(env, s, c), truncated);
    assert before + text + "" == before + text;
  }

  // ---------------------------------------------------------------------------------------------
  // Commands
  // ---------------------------------------------------------------------------------------------

  /** What a command does to the statement: \g and \G send it, \c and \r clear it, the others leave it. */
  function AfterCommand(x: char, before: string, st: State): State {
    if x == 'g' || x == 'G' then st.(buffer := "", inString := NUL, sent := st.sent + [before])
    else if x == 'c' || x == 'r' then st.(buffer := "", inString := NUL)
    else st.(buffer := before, inString := NUL)
  }

  lemma CommandStep(env: Env, s: string, c: Cursor, x: char)
    requires ValidLine(s) && c.i + 2 < |s| && !c.st.mlComment && c.st.inString == NUL && s[c.i] == '\\'
    requires x == s[c.i + 1] && x != NUL && x != 'N' && IsCommand(env, x)
    ensures var st := AfterCommand(x, c.st.buffer + c.pending, c.st);
      Step(env, s, c) ==
      match env.command(x, s[c.i..], c.st.delimiter)
      case Quit => Stop(st)
      case Go(d) => More(c.(pending := "", st := st.(delimiter := d),
                            i := if TakesParams(x) then AfterParams(s, c.i, c.ssComment, d) else c.i + 2))
  {
  }

  /** A backslash command outside strings: what was collected is sent, cleared or kept, and reading goes on behind it. */
  lemma CommandRuns(env: Env, st: State, s: string, i: nat, truncated: bool)
    requires ValidLine(s) && QuietTo(env, st, s, i) && i + 2 < |s| && s[i] == '\\'
    requires s[i + 1] != NUL && s[i + 1] != 'N' && IsCommand(env, s[i + 1])
    ensures var x := s[i + 1];
      var st' := AfterCommand(x, Before(env, st, s, i), st);
      var ss := SsAt(env, s, TextStart(env, s, 0, st.buffer != ""), i, st.inString, false);
      Add(env, st, s, truncated) ==
      match env.command(x, s[i..], st.delimiter)
      case Quit => LineResult(st', true)
      case Go(d) => Run(env, s, Cursor(if TakesParams(x) then AfterParams(s, i, ss, d) else i + 2, "", false, ss,
                                       st'.(delimiter := d)), truncated)
  {
    var c, x := Behind(env, st, s, i), s[i + 1];
    var st' := AfterCommand(x, Before(env, st, s, i), st);
    CommandStep(env, s, c, x);
    match env.command(x, s[i..], st.delimiter)
    case Quit => AddStep(env, st, s, i, Stop(st'), truncated);
    case Go(d) =>
      var j := if TakesParams(x) then AfterParams(s, i, c.ssComment, d) else i + 2;
      AddStep(env, st, s, i, More(Cursor(j, "", false, c.ssComment, st'.(delimiter := d))), truncated);
  }

  lemma {:induction false} FirstDelimiter(s: string, j: nat, d: Delimiter)
    requires ValidLine(s) && j < |s|
    ensures var e := SkipToDelimiter(s, j, d); forall n :: j <= n < e ==> s[n] != NUL && !StartsAt(s, n, d)
    decreases |s| - j
  {
    if s[j] != NUL && !StartsAt(s, j, d) {
      FirstDelimiter(s, j + 1, d);
    }
  }

  lemma {:induction false} FirstCommentEnd(s: string, j: nat)
    requires ValidLine(s) && j < |s|
    ensures var e := SkipToCommentEnd(s, j);
      (s[e] == NUL || Closes(s, e)) && forall n :: j <= n < e ==> s[n] != NUL && !Closes(s, n)
    decreases |s| - j
  {
    if s[j] != NUL && !Closes(s, j) {
      FirstCommentEnd(s, j + 1);
    }
  }

  /**
   The parameters of a command end behind the first delimiter, or, inside a comment for the server, before its closing
   mark; otherwise with the line.
   */
  lemma ParamsEnd(s: string, i: nat, ss: bool, d: Delimiter) returns (n: nat)
    requires ValidLine(s) && i + 2 < |s|
    ensures i + 2 <= n < |s| && (forall m :: i + 2 <= m < n ==> s[m] != NUL)
    ensures if ss then (s[n] == NUL || Closes(s, n)) && AfterParams(s, i, ss, d) == n
            else (s[n] == NUL || StartsAt(s, n, d)) && AfterParams(s, i, ss, d) == (if s[n] == NUL then n else n + |d|)
    ensures forall m :: i + 2 <= m < n ==> if ss then !Closes(s, m) else !StartsAt(s, m, d)
  {
    if ss {
      n := SkipToCommentEnd(s, i + 2);
      FirstCommentEnd(s, i + 2);
    } else {
      n := SkipToDelimiter(s, i + 2, d);
      FirstDelimiter(s, i + 2, d);
    }
  }

  /** An unknown command that is not let pass ends the session, and the text of its line is lost. */
  lemma UnknownCommand(env: Env, st: State, s: string, i: nat, truncated: bool)
    requires ValidLine(s) && QuietTo(env, st, s, i) && i + 2 < |s| && s[i] == '\\'
    requires s[i + 1] != NUL && s[i + 1] != 'N' && !IsCommand(env, s[i + 1]) && env.unknownQuits(s[i + 1])
    ensures Add(env, st, s, truncated) == LineResult(st.(inString := NUL), true)
  {
    var c := Behind(env, st, s, i);
    assert Step(env, s, c) == Stop(c.st);
    AddStep(env, st, s, i, Stop(c.st), truncated);
  }

  lemma BackslashLast(env: Env, s: string, c: Cursor)
    requires ValidLine(s) && c.i == |s| - 2 && s[c.i] == '\\' && !c.st.mlComment && Escapes(env.flags, c.st.inString)
    ensures Step(env, s, c) == EndLine(c)
  {
  }

  /** A backslash at the end of a line is dropped, whether a string is open or not. */
  lemma TrailingBackslash(env: Env, st: State, s: string, i: nat, q: char, truncated: bool)
    requires ValidLine(s) && !st.mlComment && i == |s| - 2 && s[i] == '\\' && Escapes(env.flags, q)
    requires var k := TextStart(env, s, 0, st.buffer != "");
      k <= i && Quiet(env, s, k, i, st.inString, st.buffer != "", st.delimiter) && q == QuoteAt(env, s, k, i, st.inString)
    ensures var text := s[TextStart(env, s, 0, st.buffer != "")..i];
      Add(env, st, s, truncated)
      == LineResult(st.(buffer := st.buffer + text + LineEnd(st.buffer, text, q, truncated), inString := q), false)
  {
    var c := Behind(env, st, s, i);
    QuietBeginning(env, st, s, i);
    var k := TextStart(env, s, 0, st.buffer != "");
    if k > 0 {
      assert IsSpace(s[0]);
    }
    AddRuns(env, st, s, c, truncated);
    BackslashLast(env, s, c);
    RunStep(env, s, c, EndLine(c), truncated);
    assert c.st.buffer + c.pending + "" == c.st.buffer + c.pending;
  }

  // ---------------------------------------------------------------------------------------------
  // Comments that are kept
  // ---------------------------------------------------------------------------------------------

  /** Statement text read so far. */
  function TextOf(c: Cursor): string {
    c.st.buffer + c.pending
  }

  /** The cursors differ in their place and their text alone. */
  predicate SameBut(c: Cursor, c': Cursor) {
    c'.st == c.st.(buffer := c'.st.buffer)
  }

  /** The cursor is inside a comment that is kept, and owes no blank. */
  predicate InKept(env: Env, c: Cursor) {
    env.preserveComments && c.st.mlComment && c.st.inString == NUL && !c.needSpace
  }

  lemma KeptStep(env: Env, s: string, c: Cursor) returns (c': Cursor)
    requires ValidLine(s) && c.i < |s| - 1 && InKept(env, c) && (Closes(s, c.i) ==> c.ssComment)
    ensures Step(env, s, c) == More(c') && InKept(env, c') && SameBut(c, c')
    ensures c'.i == Further(s, c).i && c'.ssComment == Further(s, c).ssComment && c.i < c'.i < |s|
    ensures TextOf(c') == TextOf(c) + s[c.i..c'.i]
  {
    if Opens(s, c.i) {
      c' := CommentMark(env, s, c, true);
      assert c.st.buffer + (c.pending + s[c.i..c.i + 2]) + "" == c.st.buffer + c.pending + s[c.i..c.i + 2];
    } else {
      c' := Ordinary(env, s, c);
      assert s[c.i..c.i + 1] == [s[c.i]];
      assert c.st.buffer + (c.pending + "" + [s[c.i]]) == c.st.buffer + c.pending + [s[c.i]];
    }
  }

  lemma {:induction false} InsideKept(env: Env, s: string, c: Cursor, j: nat) returns (c': Cursor)
    requires ValidLine(s) && c.i <= j < |s| - 1 && InKept(env, c) && Inside(s, c.i, j, c.ssComment)
    ensures Leads(env, s, c, c') && InKept(env, c') && SameBut(c, c') && c'.i == j && !c'.ssComment
    ensures TextOf(c') == TextOf(c) + s[c.i..j]
    decreases j - c.i
  {
    if c.i == j {
      LeadsNowhere(env, s, c);
      c' := c;
    } else {
      InsideFurther(s, c, j);
      var c1 := KeptStep(env, s, c);
      LeadsStep(env, s, c, c1);
      c' := InsideKept(env, s, c1, j);
      LeadsOn(env, s, c, c1, c');
      assert s[c.i..c1.i] + s[c1.i..j] == s[c.i..j];
      assert TextOf(c) + s[c.i..c1.i] + s[c1.i..j] == TextOf(c) + (s[c.i..c1.i] + s[c1.i..j]);
    }
  }

  lemma OpenKept(env: Env, s: string, c: Cursor) returns (c': Cursor)
    requires ValidLine(s) && c.i < |s| - 2 && Opens(s, c.i) && env.preserveComments && !c.needSpace
    requires !c.st.mlComment && c.st.inString == NUL && !StartsAt(s, c.i, c.st.delimiter)
    ensures Leads(env, s, c, c') && InKept(env, c') && c'.i == c.i + 2 && c'.ssComment == c.ssComment
    ensures c'.st == c.st.(buffer := c'.st.buffer, mlComment := true) && TextOf(c') == TextOf(c) + s[c.i..c.i + 2]
  {
    c' := CommentMark(env, s, c, true);
    assert Step(env, s, c) == More(c');
    LeadsStep(env, s, c, c');
    assert c.st.buffer + (c.pending + s[c.i..c.i + 2]) + "" == c.st.buffer + c.pending + s[c.i..c.i + 2];
  }

  lemma CloseKept(env: Env, s: string, c: Cursor) returns (c': Cursor)
    requires ValidLine(s) && c.i < |s| - 2 && Closes(s, c.i) && InKept(env, c) && !c.ssComment
    ensures Leads(env, s, c, c') && c'.i == c.i + 2 && c'.needSpace && !c'.ssComment
    ensures c'.st == c.st.(buffer := c'.st.buffer, mlComment := false) && TextOf(c') == TextOf(c) + s[c.i..c.i + 2]
  {
    c' := CommentMark(env, s, c, false);
    assert Step(env, s, c) == More(c');
    LeadsStep(env, s, c, c');
    assert c.st.buffer + (c.pending + s[c.i..c.i + 2]) + "" == c.st.buffer + c.pending + s[c.i..c.i + 2];
  }

  lemma ThreeSlices(t: string, s: string, i: nat, a: nat, b: nat, j: nat)
    requires i <= a <= b <= j <= |s|
    ensures t + s[i..a] + s[a..b] + s[b..j] == t + s[i..j]
  {
  }

  /** Where comments are kept, one inside a line joins the statement as it is, and a blank is owed behind it. */
  lemma CommentPreserved(env: Env, s: string, c: Cursor, j: nat) returns (c': Cursor)
    requires ValidLine(s) && CommentAt(s, c.i, j, c.ssComment) && env.preserveComments && !c.needSpace
    requires !c.st.mlComment && c.st.inString == NUL && !StartsAt(s, c.i, c.st.delimiter)
    ensures Leads(env, s, c, c') && SameBut(c, c') && c'.i == j && c'.needSpace && !c'.ssComment
    ensures TextOf(c') == TextOf(c) + s[c.i..j]
  {
    var c1 := OpenKept(env, s, c);
    var c2 := InsideKept(env, s, c1, j - 2);
    c' := CloseKept(env, s, c2);
    LeadsOn(env, s, c, c1, c2);
    LeadsOn(env, s, c, c2, c');
    ThreeSlices(TextOf(c), s, c.i, c.i + 2, j - 2, j);
  }

  lemma {:induction false} BlanksEnd(s: string, p: nat, q: nat)
    requires ValidLine(s) && p <= q < |s| && !IsSpace(s[q]) && forall n :: p <= n < q ==> IsSpace(s[n])
    ensures SkipSpaces(s, p) == q
    decreases q - p
  {
    if p < q {
      BlanksEnd(s, p + 1, q);
    }
  }

  /** Behind a delimiter, where comments are kept: blanks, and a comment up to the end of the line, go with the statement. */
  lemma TrailerKept(env: Env, s: string, p: nat, q: nat)
    requires ValidLine(s) && p <= q < |s| && !IsSpace(s[q]) && forall n :: p <= n < q ==> IsSpace(s[n])
    ensures var r := TrailerEnd(env, s, p);
      if !env.preserveComments then r == p
      else if s[q] == '#' || (s[q] == '-' && s[q + 1] == '-' && IsSpace(s[q + 2])) then
        q < r && s[r] == NUL && forall n :: q <= n < r ==> s[n] != NUL
      else r == q
  {
    BlanksEnd(s, p, q);
  }

  // ---------------------------------------------------------------------------------------------
  // Commands that take a whole line
  // ---------------------------------------------------------------------------------------------

  /** A line that is a command sends the statement collected so far, clears it or leaves it, and joins it in no case. */
  lemma LineCommandRuns(env: Env, st: State, line: Line, e: Effect)
    requires ValidLine(line.text) && (env.namedCommands || st.buffer == "") && !st.mlComment && st.inString == NUL
    requires env.lineCommand(line.text, st.delimiter).LineCommand? && e == env.lineCommand(line.text, st.delimiter).effect
    ensures var r := Turn(env, st, line);
      && r.st.buffer == (if e.Keep? then st.buffer else "") && !r.st.mlComment && r.st.inString == NUL
      && r.st.sent == st.sent + (if e.Send? then [st.buffer] else [])
      && match env.lineCommand(line.text, st.delimiter).outcome
         case Quit => r.quit && r.st.delimiter == st.delimiter
         case Go(d) => !r.quit && r.st.delimiter == d
  {
    assert st.sent + [] == st.sent;
  }

  // ---------------------------------------------------------------------------------------------
  // Comments over several lines
  // ---------------------------------------------------------------------------------------------

  /** Reading from `i` inside a comment comes to the end of the line without closing it. */
  predicate Unclosed(s: string, i: nat, ss: bool)
    requires ValidLine(s)
    decreases |s| - i
  {
    if i >= |s| - 1 then i == |s| - 1
    else if Opens(s, i) then Unclosed(s, i + 2, ss)
    else (Closes(s, i) ==> ss) && Unclosed(s, i + 1, SsStep(s, i, NUL, ss))
  }

  lemma {:induction false} UnclosedLeads(env: Env, s: string, c: Cursor) returns (ss: bool)
    requires ValidLine(s) && c.i < |s| && InComment(env, c) && Unclosed(s, c.i, c.ssComment)
    ensures Leads(env, s, c, c.(i := |s| - 1, ssComment := ss))
    decreases |s| - c.i
  {
    ss := c.ssComment;
    if c.i == |s| - 1 {
      LeadsNowhere(env, s, c);
      assert c == c.(i := |s| - 1, ssComment := ss);
    } else {
      FurtherLeads(env, s, c);
      var c' := Further(s, c);
      ss := UnclosedLeads(env, s, c');
      var end := c'.(i := |s| - 1, ssComment := ss);
      assert end == c.(i := |s| - 1, ssComment := ss);
      LeadsOn(env, s, c, c', end);
    }
  }

  /** A line inside a comment is gone, with its newline. */
  lemma EndsInComment(env: Env, s: string, c: Cursor, truncated: bool)
    requires ValidLine(s) && c.i == |s| - 1 && InComment(env, c)
    ensures Run(env, s, c, truncated) == LineResult(c.st, false)
  {
  }

  /** Of a line with a comment that is not closed the statement keeps all before it, and gets no newline. */
  lemma CommentStaysOpen(env: Env, st: State, s: string, i: nat, truncated: bool)
    requires ValidLine(s) && QuietTo(env, st, s, i) && Opens(s, i) && !StartsAt(s, i, st.delimiter) && !env.preserveComments
    requires Unclosed(s, i + 2, SsAt(env, s, TextStart(env, s, 0, st.buffer != ""), i, st.inString, false))
    ensures Add(env, st, s, truncated)
         == LineResult(st.(buffer := Before(env, st, s, i), inString := NUL, mlComment := true), false)
  {
    var c := Behind(env, st, s, i);
    var c1 := c.(i := i + 2, pending := "", st := c.st.(buffer := c.st.buffer + c.pending, mlComment := true));
    OpenStep(env, s, c);
    AddStep(env, st, s, i, More(c1), truncated);
    var ss := UnclosedLeads(env, s, c1);
    LeadsRun(env, s, c1, c1.(i := |s| - 1, ssComment := ss), truncated);
    EndsInComment(env, s, c1.(i := |s| - 1, ssComment := ss), truncated);
  }

  /** A further line of it leaves everything as it was. */
  lemma CommentGoesOn(env: Env, st: State, s: string, truncated: bool)
    requires ValidLine(s) && st.mlComment && st.inString == NUL && !env.preserveComments && Unclosed(s, 0, false)
    ensures Add(env, st, s, truncated) == LineResult(st, false)
  {
    if s[0] != NUL || st.buffer != "" {
      var c := Beginning(st);
      var ss := UnclosedLeads(env, s, c);
      LeadsRun(env, s, c, c.(i := |s| - 1, ssComment := ss), truncated);
      EndsInComment(env, s, c.(i := |s| - 1, ssComment := ss), truncated);
    }
  }

  /** The line that closes it is read from behind the mark, with one blank owed. */
  lemma CommentCloses(env: Env, st: State, s: string, j: nat, truncated: bool)
    requires ValidLine(s) && st.mlComment && st.inString == NUL && !env.preserveComments && s[0] != NUL
    requires j < |s| - 2 && Inside(s, 0, j, false) && Closes(s, j)
    ensures Add(env, st, s, truncated) == Run(env, s, Cursor(j + 2, "", true, false, st.(mlComment := false)), truncated)
  {
    var c := Beginning(st);
    var c1 := c.(i := j, ssComment := false);
    var c2 := c1.(i := j + 2, needSpace := true, st := st.(mlComment := false));
    InsideLeads(env, s, c, j);
    CloseStep(env, s, c1);
    LeadsStep(env, s, c1, c2);
    LeadsOn(env, s, c, c1, c2);
    LeadsRun(env, s, c, c2, truncated);
  }

  // ---------------------------------------------------------------------------------------------
  // The commands that matter to the statement
  // ---------------------------------------------------------------------------------------------

  /** Outside binary mode \g and \G send what was collected, and \c clears it; reading goes on behind them. */
  lemma SendAndClear(env: Env, st: State, s: string, i: nat, truncated: bool)
    requires ValidLine(s) && QuietTo(env, st, s, i) && i + 2 < |s| && s[i] == '\\' && !env.binaryMode
    requires s[i + 1] == 'g' || s[i + 1] == 'G' || s[i + 1] == 'c'
    ensures var sent := st.sent + (if s[i + 1] == 'c' then [] else [Before(env, st, s, i)]);
      var ss := SsAt(env, s, TextStart(env, s, 0, st.buffer != ""), i, st.inString, false);
      Add(env, st, s, truncated) ==
      match env.command(s[i + 1], s[i..], st.delimiter)
      case Quit => LineResult(State("", NUL, false, st.delimiter, sent), true)
      case Go(d) => Run(env, s, Cursor(i + 2, "", false, ss, State("", NUL, false, d, sent)), truncated)
  {
    CommandRuns(env, st, s, i, truncated);
    assert st.sent + [] == st.sent;
  }

}
