/**
 Quote balance over whole sessions. `Relex` reads a finished text from a clean state with the quote and
 escape rules alone; the lexer, which sees the text piecemeal with comments, commands and delimiters mixed
 in, always agrees with it.
 */
module SqlLexerProofs {
  import opened Text
  import opened SqlLexer

  /** Open quote (NUL: none), and whether the next character is escaped. */
  datatype Quoting = Quoting(quote: char, escaped: bool)

  const CLEAN := Quoting(NUL, false)

  function Feed(f: Flags, q: Quoting, x: char): Quoting {
    if q.escaped then q.(escaped := false)
    else if x == '\\' && Escapes(f, q.quote) then q.(escaped := true)
    else if q.quote == NUL then (if IsQuote(x) then Quoting(x, false) else q)
    else if x == q.quote then CLEAN
    else q
  }

  function Relex(f: Flags, q: Quoting, t: string): Quoting {
    if t == "" then q else Feed(f, Relex(f, q, t[..|t| - 1]), t[|t| - 1])
  }

  lemma {:induction false} RelexConcat(f: Flags, q: Quoting, a: string, b: string)
    ensures Relex(f, q, a + b) == Relex(f, Relex(f, q, a), b)
    decreases |b|
  {
    if b == "" {
      assert a + b == a;
    } else {
      assert (a + b)[..|a + b| - 1] == a + b[..|b| - 1];
      RelexConcat(f, q, a, b[..|b| - 1]);
    }
  }

  ghost predicate Balanced(f: Flags, t: string) {
    Relex(f, CLEAN, t) == CLEAN
  }

  ghost predicate AllBalanced(f: Flags, sent: seq<string>) {
    forall k :: 0 <= k < |sent| ==> Balanced(f, sent[k])
  }

  /** What holds between lines. */
  ghost predicate Consistent(f: Flags, st: State) {
    && Relex(f, CLEAN, st.buffer) == Quoting(st.inString, false)
    && (st.inString == NUL || IsQuote(st.inString))
    && (st.mlComment ==> st.inString == NUL)
    && AllBalanced(f, st.sent)
  }

  /** What holds inside a line: no text is pending in an open comment, no blank is owed inside a string. */
  ghost predicate ConsistentCursor(f: Flags, c: Cursor) {
    && Relex(f, CLEAN, c.st.buffer + c.pending) == Quoting(c.st.inString, false)
    && (c.st.inString == NUL || IsQuote(c.st.inString))
    && (c.st.mlComment ==> c.st.inString == NUL && c.pending == "")
    && (c.needSpace ==> c.st.inString == NUL)
    && AllBalanced(f, c.st.sent)
  }

  lemma FeedOne(f: Flags, q: Quoting, t: string, x: char)
    ensures Relex(f, q, t + [x]) == Feed(f, Relex(f, q, t), x)
  {
    assert (t + [x])[..|t + [x]| - 1] == t;
  }

  lemma VerbatimPair(env: Env, c: Cursor, x: char)
    requires ConsistentCursor(env.flags, c) && !c.st.mlComment && Escapes(env.flags, c.st.inString)
    ensures ConsistentCursor(env.flags, c.(pending := c.pending + ['\\', x], i := c.i + 2))
  {
    var t := c.st.buffer + c.pending;
    FeedOne(env.flags, CLEAN, t, '\\');
    FeedOne(env.flags, CLEAN, t + ['\\'], x);
    assert c.st.buffer + (c.pending + ['\\', x]) == t + ['\\'] + [x];
  }

  ghost predicate NextConsistent(f: Flags, n: Next) {
    match n
    case More(c) => ConsistentCursor(f, c)
    case EndLine(c) => ConsistentCursor(f, c)
    case Stop(st) => AllBalanced(f, st.sent)
  }

  lemma CommandConsistent(env: Env, s: string, c: Cursor)
    requires ValidLine(s) && c.i + 2 < |s| && ConsistentCursor(env.flags, c)
    requires !c.st.mlComment && c.st.inString == NUL
    ensures NextConsistent(env.flags, CommandFound(env, s, c))
  {
    var text := c.st.buffer + c.pending;
    assert Balanced(env.flags, text) && Balanced(env.flags, "");
    assert text + "" == text && "" + "" == "";
    var sent := c.st.sent + [text];
    assert forall k :: 0 <= k < |sent| ==> Balanced(env.flags, sent[k]);
  }

  lemma BackslashConsistent(env: Env, s: string, c: Cursor)
    requires ValidLine(s) && c.i < |s| - 1 && AtBackslash(env, s, c) && ConsistentCursor(env.flags, c)
    ensures NextConsistent(env.flags, Backslash(env, s, c))
  {
    var x := s[c.i + 1];
    if x != NUL && c.st.inString == NUL && x != 'N' && IsCommand(env, x) {
      CommandConsistent(env, s, c);
    } else {
      VerbatimPair(env, c, x);
    }
  }

  lemma OrdinaryConsistent(env: Env, s: string, c: Cursor)
    requires ValidLine(s) && c.i < |s| - 1 && !env.preserveComments
    requires !AtBackslash(env, s, c) && ConsistentCursor(env.flags, c)
    ensures ConsistentCursor(env.flags, Ordinary(env, s, c))
  {
    if !c.st.mlComment {
      var t := c.st.buffer + c.pending;
      var x := s[c.i];
      var blank := if c.needSpace && !IsSpace(x) then " " else "";
      if blank != "" {
        FeedOne(env.flags, CLEAN, t, ' ');
      }
      assert Relex(env.flags, CLEAN, t + blank) == Relex(env.flags, CLEAN, t) by {
        if blank == "" { assert t + blank == t; }
      }
      FeedOne(env.flags, CLEAN, t + blank, x);
      assert c.st.buffer + (c.pending + blank + [x]) == t + blank + [x];
    }
  }

  lemma DelimiterConsistent(env: Env, s: string, c: Cursor)
    requires ValidLine(s) && !env.preserveComments && AtDelimiter(s, c) && ConsistentCursor(env.flags, c)
    ensures NextConsistent(env.flags, DelimiterFound(env, s, c))
  {
    var p := c.i + |c.st.delimiter|;
    assert c.st.buffer + c.pending + s[p..p] == c.st.buffer + c.pending;
    assert "" + "" == "";
  }

  lemma CommentConsistent(env: Env, s: string, c: Cursor)
    requires ValidLine(s) && c.i < |s| - 1 && !env.preserveComments && ConsistentCursor(env.flags, c)
    requires c.st.inString == NUL
    ensures NextConsistent(env.flags, LineComment(env, s, c))
    ensures c.i < |s| - 2 ==> forall open :: ConsistentCursor(env.flags, CommentMark(env, s, c, open))
  {
    var t := c.st.buffer + c.pending;
    assert c.pending + "" == c.pending && t + "" == t;
  }

  lemma StepConsistent(env: Env, s: string, c: Cursor)
    requires ValidLine(s) && c.i < |s| - 1 && !env.preserveComments
    requires ConsistentCursor(env.flags, c)
    ensures NextConsistent(env.flags, Step(env, s, c))
  {
    match BranchOf(env, s, c)
    case LeadingSpace =>
    case Escape => BackslashConsistent(env, s, c);
    case EndOfStatement => DelimiterConsistent(env, s, c);
    case ToEndOfLine => CommentConsistent(env, s, c);
    case OpenComment => CommentConsistent(env, s, c);
    case CloseComment => CommentConsistent(env, s, c);
    case Plain => OrdinaryConsistent(env, s, c);
  }

  lemma FinishConsistent(env: Env, c: Cursor, truncated: bool)
    requires !env.preserveComments && ConsistentCursor(env.flags, c)
    ensures Consistent(env.flags, Finish(env, c, truncated))
  {
    var t := c.st.buffer + c.pending;
    FeedOne(env.flags, CLEAN, t, '\n');
    assert t + "" == t;
    assert c.pending == "" ==> t == c.st.buffer;
  }

  lemma {:induction false} RunConsistent(env: Env, s: string, c: Cursor, truncated: bool)
    requires ValidLine(s) && c.i < |s| && !env.preserveComments
    requires ConsistentCursor(env.flags, c)
    ensures var r := Run(env, s, c, truncated);
      AllBalanced(env.flags, r.st.sent) && (!r.quit ==> Consistent(env.flags, r.st))
    decreases |s| - c.i
  {
    if c.i == |s| - 1 {
      FinishConsistent(env, c, truncated);
    } else {
      StepConsistent(env, s, c);
      match Step(env, s, c)
      case More(c') => RunConsistent(env, s, c', truncated);
      case EndLine(c') => FinishConsistent(env, c', truncated);
      case Stop(_) =>
    }
  }

  lemma TurnConsistent(env: Env, st: State, line: Line)
    requires ValidLine(line.text) && !env.preserveComments && Consistent(env.flags, st)
    ensures var r := Turn(env, st, line);
      AllBalanced(env.flags, r.st.sent) && (!r.quit ==> Consistent(env.flags, r.st))
  {
    assert Balanced(env.flags, "");
    var com := env.lineCommand(line.text, st.delimiter);
    if (env.namedCommands || st.buffer == "") && !st.mlComment && st.inString == NUL && com.LineCommand? {
      assert Balanced(env.flags, st.buffer);
    } else if line.text[0] != NUL || st.buffer != "" {
      assert st.buffer + "" == st.buffer;
      RunConsistent(env, line.text, Cursor(0, "", false, false, st), line.truncated);
    }
  }

  /**
   Over any sequence of lines with comments not preserved: relexing the accumulated statement from a clean
   state gives exactly the open quote the lexer carries, a comment and a string are never open together,
   and every statement sent is quote-balanced.
   */
  lemma {:induction false} SessionConsistent(env: Env, lines: seq<Line>, d: Delimiter)
    requires !env.preserveComments
    requires forall k :: 0 <= k < |lines| ==> ValidLine(lines[k].text)
    ensures var r := Session(env, State("", NUL, false, d, []), lines);
      && AllBalanced(env.flags, r.st.sent)
      && (!r.quit ==>
            && Relex(env.flags, CLEAN, r.st.buffer) == Quoting(r.st.inString, false)
            && (r.st.inString == NUL || IsQuote(r.st.inString))
            && !(r.st.mlComment && r.st.inString != NUL))
    ensures var r := Session(env, State("", NUL, false, d, []), lines);
      !r.quit ==> Consistent(env.flags, r.st)
  {
    if lines != [] {
      SessionConsistent(env, lines[..|lines| - 1], d);
      var r := Session(env, State("", NUL, false, d, []), lines[..|lines| - 1]);
      if !r.quit {
        TurnConsistent(env, r.st, lines[|lines| - 1]);
      }
    }
  }

  lemma {:induction false} TailKeepsQuote(f: Flags, q: Quoting, tail: string)
    requires q.quote == NUL || IsQuote(q.quote)
    requires forall k :: 0 <= k < |tail| ==> !IsQuote(tail[k]) && tail[k] != '\\'
    ensures Relex(f, q, tail).quote == q.quote && (tail != "" || !q.escaped ==> !Relex(f, q, tail).escaped)
    decreases |tail|
  {
    if tail != "" {
      TailKeepsQuote(f, q, tail[..|tail| - 1]);
    }
  }

  lemma EscapedEnds(f: Flags, t: string)
    requires Relex(f, CLEAN, t).escaped
    ensures t != "" && t[|t| - 1] == '\\'
  {
  }

  lemma {:induction false} QuoteIsQuote(f: Flags, t: string)
    ensures var q := Relex(f, CLEAN, t).quote; q == NUL || IsQuote(q)
    decreases |t|
  {
    if t != "" {
      QuoteIsQuote(f, t[..|t| - 1]);
    }
  }

  /** Quotes and the backslash count as graphic in every character set. */
  predicate SeesQuotes(graph: char -> bool) {
    graph('\'') && graph('"') && graph('`') && graph('\\')
  }

  lemma TrimmedTail(graph: char -> bool, buffer: string, t: string, tail: string)
    requires SeesQuotes(graph) && t == Trimmed(graph, buffer) && tail == buffer[|t|..]
    ensures buffer == t + tail && forall k :: 0 <= k < |tail| ==> !IsQuote(tail[k]) && tail[k] != '\\'
  {
    forall k | 0 <= k < |tail|
      ensures !graph(tail[k])
    {
      assert tail[k] == buffer[|t| + k];
    }
  }

  lemma TrimmedKeepsQuote(f: Flags, graph: char -> bool, buffer: string)
    requires SeesQuotes(graph)
    ensures Relex(f, CLEAN, Trimmed(graph, buffer)).quote == Relex(f, CLEAN, buffer).quote
  {
    var t := Trimmed(graph, buffer);
    var tail := buffer[|t|..];
    TrimmedTail(graph, buffer, t, tail);
    RelexConcat(f, CLEAN, t, tail);
    var q := Relex(f, CLEAN, t);
    QuoteIsQuote(f, t);
    TailKeepsQuote(f, q, tail);
  }

  /** The statement `t` sent at the end of a file has the quote `q` open, and is balanced exactly if that is none. */
  ghost predicate EndsWith(f: Flags, t: string, q: char) {
    && Relex(f, CLEAN, t).quote == q
    && (t != "" && t[|t| - 1] != '\\' ==> (Balanced(f, t) <==> q == NUL))
  }

  lemma LastStatement(f: Flags, graph: char -> bool, st: State)
    requires SeesQuotes(graph) && Relex(f, CLEAN, st.buffer) == Quoting(st.inString, false)
    ensures EndsWith(f, Trimmed(graph, st.buffer), st.inString)
    ensures Trimmed(graph, st.buffer) == "" ==> st.inString == NUL
  {
    var t := Trimmed(graph, st.buffer);
    TrimmedKeepsQuote(f, graph, st.buffer);
    if Relex(f, CLEAN, t).escaped {
      EscapedEnds(f, t);
    }
  }

  /**
   What a batch session still sends at the end of its file: the statements before it are balanced, and the last one has
   open exactly the quote the lexer carries. So it is balanced exactly if none is open, unless a backslash ends it.
   */
  lemma EndConsistent(env: Env, graph: char -> bool, lines: seq<Line>, d: Delimiter)
    requires !env.preserveComments && SeesQuotes(graph)
    requires forall k :: 0 <= k < |lines| ==> ValidLine(lines[k].text)
    requires !Session(env, State("", NUL, false, d, []), lines).quit
    ensures var st := Session(env, State("", NUL, false, d, []), lines).st;
      var sent := AtEnd(graph, st).sent;
      && AllBalanced(env.flags, st.sent)
      && if Trimmed(graph, st.buffer) == "" then sent == st.sent && st.inString == NUL
         else |sent| == |st.sent| + 1 && st.sent <= sent && EndsWith(env.flags, sent[|st.sent|], st.inString)
  {
    SessionConsistent(env, lines, d);
    LastStatement(env.flags, graph, Session(env, State("", NUL, false, d, []), lines).st);
  }

  /** The cursor after `n` steps of a line. */
  function After(env: Env, s: string, c: Cursor, n: nat): (r: Next)
    requires ValidLine(s) && c.i < |s|
    ensures r.More? ==> r.cursor.i < |s|
  {
    if n == 0 then More(c)
    else
      var r := After(env, s, c, n - 1);
      if r.More? && r.cursor.i < |s| - 1 then Step(env, s, r.cursor) else r
  }

  /** At every point inside every line, no statement text is pending while a comment is open. */
  lemma {:induction false} NothingPendingInComment(env: Env, s: string, st: State, n: nat)
    requires ValidLine(s) && !env.preserveComments && Consistent(env.flags, st)
    ensures var r := After(env, s, Cursor(0, "", false, false, st), n);
      NextConsistent(env.flags, r) &&
      (!r.Stop? && r.cursor.st.mlComment ==> r.cursor.pending == "" && r.cursor.st.inString == NUL)
  {
    if n == 0 {
      assert st.buffer + "" == st.buffer;
    } else {
      NothingPendingInComment(env, s, st, n - 1);
      var r := After(env, s, Cursor(0, "", false, false, st), n - 1);
      if r.More? && r.cursor.i < |s| - 1 {
        StepConsistent(env, s, r.cursor);
      }
    }
  }
}
