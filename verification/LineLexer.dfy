/** `add_line` as the client runs it: the line buffer is edited in place while it is being read. */
module LineLexer {
  import opened Text
  import opened SqlLexer

  /** How one turn of the character loop ends. */
  datatype Exit = Continue | Break | Return

  /** The tail of the line, from `pos` to its terminator, is still what the caller passed. */
  ghost predicate Unread(line: array<char>, s: string, pos: nat)
    reads line
  {
    && ValidLine(s) && pos < |s| <= line.Length
    && forall k :: pos <= k < |s| ==> line[k] == s[k]
  }

  /** Accepted text, plus the blank it may still owe, ends at or before the reading position. */
  predicate Room(out: nat, needSpace: bool, pos: nat) {
    out + (if needSpace then 1 else 0) <= pos
  }

  method IsPrefix(line: array<char>, ghost s: string, pos: nat, d: Delimiter) returns (r: bool)
    requires Unread(line, s, pos)
    ensures r == StartsAt(s, pos, d)
  {
    var k := 0;
    while k < |d|
      invariant k <= |d| && pos + k < |s|
      invariant s[pos..pos + k] == d[..k]
    {
      if line[pos + k] != d[k] {
        assert pos + |d| <= |s| ==> s[pos..pos + |d|][k] != d[k];
        return false;
      }
      assert s[pos..pos + k + 1] == s[pos..pos + k] + [s[pos + k]] && d[..k + 1] == d[..k] + [d[k]];
      k := k + 1;
    }
    return true;
  }

  class Lexer {
    const env: Env
    var buffer: string
    var inString: char
    var mlComment: bool
    var delimiter: Delimiter
    var sent: seq<string>

    ghost function St(): State
      reads this
    {
      State(buffer, inString, mlComment, delimiter, sent)
    }

    constructor (env: Env, delimiter: Delimiter)
      ensures this.env == env && St() == State("", NUL, false, delimiter, [])
    {
      this.env := env;
      buffer, inString, mlComment, this.delimiter, sent := "", NUL, false, delimiter, [];
    }

    /** Moves the accepted text `line[..out]` into the statement buffer. */
    method FlushPending(line: array<char>, out: nat)
      requires out <= line.Length
      modifies this`buffer
      ensures buffer == old(buffer) + line[..out]
    {
      if out != 0 {
        buffer := buffer + line[..out];
      } else {
        assert buffer == buffer + line[..out];
      }
    }

    method ApplyEffect(e: Effect)
      modifies this`buffer, this`sent
      ensures St() == Apply(e, old(St()))
    {
      match e
      case Keep =>
      case Clear => buffer := "";
      case Send => sent := sent + [buffer]; buffer := "";
    }

    method SkipParams(line: array<char>, ghost s: string, pos: nat, ssComment: bool) returns (p: nat)
      requires pos + 2 < |s| && Unread(line, s, pos)
      ensures p == AfterParams(s, pos, ssComment, delimiter)
    {
      p := pos + 2;
      if ssComment {
        while line[p] != NUL && (line[p] != '*' || line[p + 1] != '/')
          invariant pos + 2 <= p < |s|
          invariant SkipToCommentEnd(s, pos + 2) == SkipToCommentEnd(s, p)
          decreases |s| - p
        {
          p := p + 1;
        }
      } else {
        assert Unread(line, s, p);
        var found := IsPrefix(line, s, p, delimiter);
        while line[p] != NUL && !found
          invariant pos + 2 <= p < |s|
          invariant found == StartsAt(s, p, delimiter)
          invariant SkipToDelimiter(s, pos + 2, delimiter) == SkipToDelimiter(s, p, delimiter)
          decreases |s| - p
        {
          p := p + 1;
          assert Unread(line, s, p);
          found := IsPrefix(line, s, p, delimiter);
        }
        if line[p] != NUL {
          p := p + |delimiter|;
        }
      }
    }

    /** The variables of the loop after one turn stand for the cursor that `Step` computes. */
    ghost predicate Matches(n: Next, exit: Exit, line: array<char>, s: string,
                            pos: nat, out: nat, needSpace: bool, ssComment: bool)
      reads this, line
    {
      && pos < |s| <= line.Length && Room(out, needSpace, pos)
      && match n
         case More(c) => exit == Continue && c == Cursor(pos, line[..out], needSpace, ssComment, St())
                         && Unread(line, s, pos)
         case EndLine(c) => exit == Break && c == Cursor(pos, line[..out], needSpace, ssComment, St())
         case Stop(st) => exit == Return && st == St()
    }

    method DoCommand(line: array<char>, n: nat, ghost s: string, pos0: nat, out0: nat,
                     needSpace: bool, ssComment: bool)
      returns (exit: Exit, pos: nat, out: nat)
      requires |s| == n + 1 && pos0 + 2 < |s| && Unread(line, s, pos0) && Room(out0, needSpace, pos0)
      modifies this
      ensures Matches(CommandFound(env, s, Cursor(pos0, line[..out0], needSpace, ssComment, old(St()))),
                      exit, line, s, pos, out, needSpace, ssComment)
    {
      pos, out, exit := pos0, 0, Return;
      var x := line[pos + 1];
      FlushPending(line, out0);
      assert line[pos..n + 1] == s[pos..];
      var outcome := env.command(x, line[pos..n + 1], delimiter);
      ApplyEffect(CommandEffect(x));
      if outcome.Go? {
        exit, delimiter := Continue, outcome.delimiter;
        if TakesParams(x) {
          pos := SkipParams(line, s, pos0, ssComment);
        } else {
          pos := pos0 + 2;
        }
      }
    }

    method DoBackslash(line: array<char>, n: nat, ghost s: string, pos0: nat, out0: nat,
                       needSpace: bool, ssComment: bool)
      returns (exit: Exit, pos: nat, out: nat)
      requires |s| == n + 1 && pos0 < n && Unread(line, s, pos0) && Room(out0, needSpace, pos0)
      modifies this, line
      ensures Matches(Backslash(env, s, Cursor(pos0, old(line[..out0]), needSpace, ssComment, old(St()))),
                      exit, line, s, pos, out, needSpace, ssComment)
      ensures line[|s|..] == old(line[|s|..])
    {
      pos, out, exit := pos0, out0, Continue;
      var x := line[pos + 1];
      if x == NUL {
        exit := Break;
      } else if inString == NUL && x != 'N' && IsCommand(env, x) {
        exit, pos, out := DoCommand(line, n, s, pos0, out0, needSpace, ssComment);
      } else if inString == NUL && x != 'N' && env.unknownQuits(x) {
        exit := Return;
      } else {
        ghost var before := line[..];
        line[out] := '\\';
        line[out + 1] := x;
        pos, out := pos + 2, out + 2;
        assert line[..out] == before[..out0] + ['\\', x];
        assert line[|s|..] == before[|s|..];
      }
    }

    /** Copies the blanks at `pos0` down behind the accepted text. */
    method CopySpaces(line: array<char>, ghost s: string, pos0: nat, out0: nat) returns (pos: nat, out: nat)
      requires Unread(line, s, pos0) && out0 <= pos0
      modifies line
      ensures pos == SkipSpaces(s, pos0) && out <= pos && Unread(line, s, pos)
      ensures line[..out] == old(line[..out0]) + s[pos0..pos]
      ensures line[|s|..] == old(line[|s|..])
    {
      pos, out := pos0, out0;
      while IsSpace(line[pos])
        invariant pos0 <= pos < |s| && out == out0 + pos - pos0
        invariant Unread(line, s, pos) && SkipSpaces(s, pos0) == SkipSpaces(s, pos)
        invariant line[..out] == old(line[..out0]) + s[pos0..pos]
        invariant line[|s|..] == old(line[|s|..])
        decreases |s| - pos
      {
        ghost var before := line[..];
        line[out] := line[pos];
        pos, out := pos + 1, out + 1;
        assert line[..out] == before[..out - 1] + [s[pos - 1]];
        assert line[|s|..] == before[|s|..];
      }
    }

    /** Appends the C string at `pos` to the statement buffer. */
    method AppendRest(line: array<char>, ghost s: string, pos: nat) returns (e: nat)
      requires Unread(line, s, pos)
      modifies this`buffer
      ensures e == CEnd(s, pos)
      ensures buffer == old(buffer) + s[pos..e]
    {
      e := pos;
      while line[e] != NUL
        invariant pos <= e < |s| && CEnd(s, pos) == CEnd(s, e)
        decreases |s| - e
      {
        e := e + 1;
      }
      assert line[pos..e] == s[pos..e];
      buffer := buffer + line[pos..e];
    }

    /** Flushes the accepted text together with the blanks and the comment that follow a delimiter. */
    method CollectStatement(line: array<char>, ghost s: string, pos0: nat, out0: nat) returns (pos: nat)
      requires Unread(line, s, pos0) && out0 <= pos0
      modifies this`buffer, line
      ensures pos == TrailerEnd(env, s, pos0) && Unread(line, s, pos)
      ensures buffer == old(buffer) + old(line[..out0]) + s[pos0..pos]
      ensures line[|s|..] == old(line[|s|..])
    {
      if env.preserveComments {
        var out;
        pos, out := CopySpaces(line, s, pos0, out0);
        FlushPending(line, out);
        assert buffer == old(buffer) + old(line[..out0]) + s[pos0..pos];
        if line[pos] == '#' || (line[pos] == '-' && line[pos + 1] == '-' && IsSpace(line[pos + 2])) {
          ghost var q := pos;
          pos := AppendRest(line, s, pos);
          assert s[pos0..q] + s[q..pos] == s[pos0..pos];
        }
      } else {
        pos := pos0;
        FlushPending(line, out0);
        assert buffer == buffer + s[pos0..pos0];
      }
    }

    method DoDelimiter(line: array<char>, ghost s: string, pos0: nat, out0: nat, needSpace: bool, ssComment: bool)
      returns (exit: Exit, pos: nat, out: nat)
      requires Unread(line, s, pos0) && Room(out0, needSpace, pos0)
      requires AtDelimiter(s, Cursor(pos0, line[..out0], needSpace, ssComment, St()))
      modifies this, line
      ensures Matches(DelimiterFound(env, s, Cursor(pos0, old(line[..out0]), needSpace, ssComment, old(St()))),
                      exit, line, s, pos, out, needSpace, ssComment)
      ensures line[|s|..] == old(line[|s|..])
    {
      ghost var d := delimiter;
      assert s[pos0 + |d| - 1] == s[pos0..pos0 + |d|][|d| - 1] == d[|d| - 1] != NUL;
      pos, out := pos0 + |delimiter|, 0;
      pos := CollectStatement(line, s, pos, out0);
      var outcome := env.statement(buffer, delimiter);
      sent, buffer := sent + [buffer], "";
      if outcome.Go? {
        exit, delimiter := Continue, outcome.delimiter;
      } else {
        exit := Return;
      }
    }

    method DoLineComment(line: array<char>, ghost s: string, pos: nat, out0: nat, needSpace: bool, ssComment: bool)
      returns (exit: Exit, out: nat)
      requires pos < |s| - 1 && Unread(line, s, pos) && Room(out0, needSpace, pos)
      modifies this
      ensures Matches(LineComment(env, s, Cursor(pos, line[..out0], needSpace, ssComment, old(St()))),
                      exit, line, s, pos, out, needSpace, ssComment)
    {
      FlushPending(line, out0);
      exit, out := Break, 0;
      if env.preserveComments {
        var alone := buffer == "";
        var _ := AppendRest(line, s, pos);
        if alone {
          var outcome := env.statement(buffer, delimiter);
          sent, buffer := sent + [buffer], "";
          if outcome.Quit? {
            exit := Return;
          }
        }
      }
    }

    method DoCommentMark(line: array<char>, ghost s: string, pos0: nat, out0: nat, needSpace0: bool, ssComment: bool,
                         open: bool)
      returns (pos: nat, out: nat, needSpace: bool)
      requires pos0 < |s| - 2 && Unread(line, s, pos0) && Room(out0, needSpace0, pos0)
      modifies this, line
      ensures Matches(More(CommentMark(env, s, Cursor(pos0, old(line[..out0]), needSpace0, ssComment, old(St())), open)),
                      Continue, line, s, pos, out, needSpace, ssComment)
      ensures line[|s|..] == old(line[|s|..])
    {
      pos, out := pos0, out0;
      if env.preserveComments {
        ghost var before := line[..];
        line[out] := line[pos];
        pos, out := pos + 1, out + 1;
        line[out] := line[pos];
        out := out + 1;
        assert line[..out] == before[..out0] + s[pos0..pos0 + 2];
        assert line[|s|..] == before[|s|..];
      } else {
        pos := pos + 1;
        assert line[..out0] + "" == line[..out0];
      }
      mlComment := open;
      FlushPending(line, out);
      pos, out, needSpace := pos + 1, 0, needSpace0 || !open;
    }

    /** Writes `x`, after the blank owed for a removed comment, behind the accepted text. */
    method KeepChar(line: array<char>, ghost s: string, pos: nat, out0: nat, needSpace: bool, x: char)
      returns (out: nat)
      requires pos < |s| - 1 && Unread(line, s, pos) && Room(out0, needSpace, pos)
      modifies line
      ensures out <= pos + 1 && Unread(line, s, pos + 1)
      ensures line[..out] == old(line[..out0]) + (if needSpace && !IsSpace(x) then " " else "") + [x]
      ensures line[|s|..] == old(line[|s|..])
    {
      ghost var before := line[..];
      out := out0;
      if needSpace && !IsSpace(x) {
        line[out] := ' ';
        out := out + 1;
      }
      line[out] := x;
      out := out + 1;
      assert line[..out] == before[..out0] + (if needSpace && !IsSpace(x) then " " else "") + [x];
      assert line[|s|..] == before[|s|..];
    }

    method DoOrdinary(line: array<char>, ghost s: string, pos0: nat, out0: nat, needSpace0: bool, ssComment0: bool)
      returns (pos: nat, out: nat, needSpace: bool, ssComment: bool)
      requires pos0 < |s| - 1 && Unread(line, s, pos0) && Room(out0, needSpace0, pos0)
      modifies this, line
      ensures Matches(More(Ordinary(env, s, Cursor(pos0, old(line[..out0]), needSpace0, ssComment0, old(St())))),
                      Continue, line, s, pos, out, needSpace, ssComment)
      ensures line[|s|..] == old(line[|s|..])
    {
      pos, out, needSpace, ssComment := pos0 + 1, out0, needSpace0, ssComment0;
      var x := line[pos0];
      if inString == NUL && x == '/' && line[pos] == '*' && line[pos + 1] == '!' {
        ssComment := true;
      } else if inString == NUL && ssComment && x == '*' && line[pos] == '/' {
        ssComment := false;
      }
      if x == inString {
        inString := NUL;
      } else if !mlComment && inString == NUL && IsQuote(x) {
        inString := x;
      }
      if !mlComment || env.preserveComments {
        out := KeepChar(line, s, pos0, out0, needSpace0, x);
        needSpace := false;
      } else {
      }
    }

    method Classify(line: array<char>, ghost s: string, pos: nat, out: nat, needSpace: bool, ssComment: bool)
      returns (b: Branch)
      requires pos < |s| - 1 && Unread(line, s, pos) && Room(out, needSpace, pos)
      ensures b == BranchOf(env, s, Cursor(pos, line[..out], needSpace, ssComment, St()))
    {
      var x := line[pos];
      var atDelimiter := IsPrefix(line, s, pos, delimiter);
      if !env.preserveComments && IsSpace(x) && out == 0 && buffer == "" {
        return LeadingSpace;
      } else if !mlComment && x == '\\' && Escapes(env.flags, inString) {
        return Escape;
      } else if !mlComment && inString == NUL && atDelimiter {
        return EndOfStatement;
      } else if !mlComment && inString == NUL &&
                (x == '#' || (x == '-' && line[pos + 1] == '-' &&
                              (IsSpace(line[pos + 2]) || line[pos + 2] == NUL || (buffer == "" && out == 0)))) {
        return ToEndOfLine;
      } else if inString == NUL && x == '/' && line[pos + 1] == '*' &&
                !(line[pos + 2] == '!' || (line[pos + 2] == 'M' && line[pos + 3] == '!')) {
        return OpenComment;
      } else if mlComment && !ssComment && x == '*' && line[pos + 1] == '/' {
        return CloseComment;
      } else {
        return Plain;
      }
    }

    /** One turn of the character loop. */
    method DoStep(line: array<char>, n: nat, ghost s: string, pos0: nat, out0: nat, needSpace0: bool, ssComment0: bool)
      returns (exit: Exit, pos: nat, out: nat, needSpace: bool, ssComment: bool)
      requires |s| == n + 1 && pos0 < n && Unread(line, s, pos0) && Room(out0, needSpace0, pos0)
      modifies this, line
      ensures Matches(Step(env, s, Cursor(pos0, old(line[..out0]), needSpace0, ssComment0, old(St()))),
                      exit, line, s, pos, out, needSpace, ssComment)
      ensures line[|s|..] == old(line[|s|..])
    {
      exit, pos, out, needSpace, ssComment := Continue, pos0, out0, needSpace0, ssComment0;
      var b := Classify(line, s, pos, out, needSpace, ssComment);
      match b
      case LeadingSpace => pos := pos + 1;
      case Escape => exit, pos, out := DoBackslash(line, n, s, pos, out, needSpace, ssComment);
      case EndOfStatement => exit, pos, out := DoDelimiter(line, s, pos, out, needSpace, ssComment);
      case ToEndOfLine => exit, out := DoLineComment(line, s, pos, out, needSpace, ssComment);
      case OpenComment => pos, out, needSpace := DoCommentMark(line, s, pos, out, needSpace, ssComment, true);
      case CloseComment => pos, out, needSpace := DoCommentMark(line, s, pos, out, needSpace, ssComment, false);
      case Plain => pos, out, needSpace, ssComment := DoOrdinary(line, s, pos, out, needSpace, ssComment);
    }

    /** End of the line: the newline goes no further than the terminator's slot. */
    method FinishLine(line: array<char>, n: nat, out0: nat, truncated: bool, ghost c: Cursor)
      requires out0 <= n < line.Length && c.pending == line[..out0] && c.st == St()
      modifies this, line
      ensures St() == Finish(env, c, truncated)
      ensures line[n + 1..] == old(line[n + 1..])
    {
      var out := out0;
      ghost var before := line[..];
      if out != 0 || buffer != "" {
        if !truncated && (!IsDelimiterCommand(line[..out]) || inString != NUL || mlComment) {
          line[out] := '\n';
          out := out + 1;
          assert line[..out] == before[..out0] + "\n";
        }
        if !mlComment || env.preserveComments {
          buffer := buffer + line[..out];
        }
        assert line[n + 1..] == before[n + 1..];
      }
    }

    /**
     One line of input, edited in place. The new state is the one the immutable specification computes from
     the original line: no write reaches a character that is still to be read, and none passes the slot of
     the terminator.
     */
    method AddLine(line: array<char>, n: nat, truncated: bool) returns (quit: bool)
      requires n < line.Length && line[n] == NUL
      modifies this, line
      ensures LineResult(St(), quit) == Add(env, old(St()), old(line[..n + 1]), truncated)
      ensures line[n + 1..] == old(line[n + 1..])
    {
      ghost var s := line[..n + 1];
      quit := false;
      if line[0] == NUL && buffer == "" {
        return;
      }
      var pos: nat, out: nat, needSpace, ssComment := 0, 0, false, false;
      assert line[..0] == "";
      while pos < n
        invariant pos <= n && Unread(line, s, pos) && Room(out, needSpace, pos)
        invariant line[n + 1..] == old(line[n + 1..])
        invariant Run(env, s, Cursor(pos, line[..out], needSpace, ssComment, St()), truncated)
               == Add(env, old(St()), s, truncated)
        decreases n - pos
      {
        ghost var next := Step(env, s, Cursor(pos, line[..out], needSpace, ssComment, St()));
        var exit;
        exit, pos, out, needSpace, ssComment := DoStep(line, n, s, pos, out, needSpace, ssComment);
        match exit
        case Continue =>
        case Break =>
          FinishLine(line, n, out, truncated, next.cursor);
          return;
        case Return =>
          quit := true;
          return;
      }
      FinishLine(line, n, out, truncated, Cursor(pos, line[..out], needSpace, ssComment, St()));
    }
  }
}
