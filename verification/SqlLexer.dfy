/**
 The statement lexer of the interactive client: what one input line does to the accumulated statement.

 `Step` reads an immutable copy of the line; the class in module `LineLexer` does the same work in place.
 */
module SqlLexer {
  import opened Text

  /** A statement delimiter is a nonempty C string without a backslash; the client refuses others. */
  type Delimiter = d: string | |d| > 0 && NUL !in d && '\\' !in d witness ";"

  /** The server status bits that decide where a backslash escapes. */
  datatype Flags = Flags(ansiQuotes: bool, noBackslashEscapes: bool)

  /** What a client command does to the accumulated statement. */
  datatype Effect = Keep | Clear | Send

  /** What running a statement or a client command reports back. */
  datatype Outcome = Quit | Go(delimiter: Delimiter)

  /** Whether a whole line is a client command such as `clear` or `delimiter //`. */
  datatype LineCommand = NotACommand | LineCommand(effect: Effect, outcome: Outcome)

  /**
   Everything a line's processing depends on besides the line and the lexer state. The functions stand for
   code outside the lexer: the outcome of a one-letter command (given the rest of the line), the outcome of a
   completed statement, whether an unknown command ends the session, and the long-form command lookup.
   */
  datatype Env = Env(
    flags: Flags,
    preserveComments: bool,
    binaryMode: bool,
    command: (char, string, Delimiter) -> Outcome,
    statement: (string, Delimiter) -> Outcome,
    unknownQuits: char -> bool,
    namedCommands: bool,
    lineCommand: (string, Delimiter) -> LineCommand)

  /** State carried from line to line. `sent` is the history of statements handed to the server. */
  datatype State = State(buffer: string, inString: char, mlComment: bool, delimiter: Delimiter, sent: seq<string>)

  /** State within one line: `pending` is the text accepted from this line and not yet in the buffer. */
  datatype Cursor = Cursor(i: nat, pending: string, needSpace: bool, ssComment: bool, st: State)

  datatype Next = More(cursor: Cursor) | EndLine(cursor: Cursor) | Stop(st: State)

  // ---------------------------------------------------------------------------------------------
  // The command table
  // ---------------------------------------------------------------------------------------------

  predicate IsCommand(env: Env, c: char) {
    if env.binaryMode then c == 'C' else c in "?crdeGqghntPpR#.s!TuCWw"
  }

  predicate TakesParams(c: char) {
    c in "?rdhPR.!TuC"
  }

  function CommandEffect(c: char): Effect {
    if c == 'g' || c == 'G' then Send else if c == 'c' || c == 'r' then Clear else Keep
  }

  // ---------------------------------------------------------------------------------------------
  // One step
  // ---------------------------------------------------------------------------------------------

  /** Does a backslash escape the next character when the open quote is `q` (NUL: none)? */
  predicate Escapes(f: Flags, q: char) {
    q != '`' && !(q == '"' && f.ansiQuotes) && !(q != NUL && f.noBackslashEscapes)
  }

  predicate ValidLine(s: string) {
    |s| > 0 && s[|s| - 1] == NUL
  }

  function Flush(c: Cursor): Cursor {
    c.(pending := "", st := c.st.(buffer := c.st.buffer + c.pending))
  }

  function Apply(e: Effect, st: State): State {
    match e
    case Keep => st
    case Clear => st.(buffer := "")
    case Send => st.(buffer := "", sent := st.sent + [st.buffer])
  }

  /** First position at or after `j` that holds NUL or starts the closing mark of a comment. */
  function SkipToCommentEnd(s: string, j: nat): (e: nat)
    requires ValidLine(s) && j < |s|
    ensures j <= e < |s|
    decreases |s| - j
  {
    if s[j] == NUL || (s[j] == '*' && s[j + 1] == '/') then j else SkipToCommentEnd(s, j + 1)
  }

  /** First position at or after `j` that holds NUL or starts the delimiter. */
  function SkipToDelimiter(s: string, j: nat, d: Delimiter): (e: nat)
    requires ValidLine(s) && j < |s|
    ensures j <= e < |s|
    ensures s[e] == NUL || StartsAt(s, e, d)
    decreases |s| - j
  {
    if s[j] == NUL || StartsAt(s, j, d) then j else SkipToDelimiter(s, j + 1, d)
  }

  function SkipSpaces(s: string, j: nat): (e: nat)
    requires ValidLine(s) && j < |s|
    ensures j <= e < |s|
    ensures !IsSpace(s[e])
    decreases |s| - j
  {
    if IsSpace(s[j]) then SkipSpaces(s, j + 1) else j
  }

  /** Where reading resumes after the parameters of a command whose letter is at `i + 1`. */
  function AfterParams(s: string, i: nat, ssComment: bool, d: Delimiter): (e: nat)
    requires ValidLine(s) && i + 2 < |s|
    ensures i + 2 <= e < |s|
  {
    if ssComment then
      SkipToCommentEnd(s, i + 2)
    else
      var j := SkipToDelimiter(s, i + 2, d);
      if s[j] == NUL then j else assert s[j + |d| - 1] == d[|d| - 1] != NUL; j + |d|
  }

  predicate AtBackslash(env: Env, s: string, c: Cursor)
    requires ValidLine(s) && c.i < |s| - 1
  {
    !c.st.mlComment && s[c.i] == '\\' && Escapes(env.flags, c.st.inString)
  }

  /** A known one-letter command: pending text is flushed, the command runs, its parameters are skipped. */
  function CommandFound(env: Env, s: string, c: Cursor): Next
    requires ValidLine(s) && c.i + 2 < |s|
  {
    var x := s[c.i + 1];
    var st := Apply(CommandEffect(x), Flush(c).st);
    match env.command(x, s[c.i..], c.st.delimiter)
    case Quit => Stop(st)
    case Go(d) =>
      More(c.(pending := "", st := st.(delimiter := d),
              i := if TakesParams(x) then AfterParams(s, c.i, c.ssComment, d) else c.i + 2))
  }

  function Backslash(env: Env, s: string, c: Cursor): Next
    requires ValidLine(s) && c.i < |s| - 1
  {
    var x := s[c.i + 1];
    var verbatim := c.(pending := c.pending + ['\\', x], i := c.i + 2);
    if x == NUL then EndLine(c)
    else if c.st.inString != NUL || x == 'N' then More(verbatim)
    else if IsCommand(env, x) then CommandFound(env, s, c)
    else if env.unknownQuits(x) then Stop(c.st)
    else More(verbatim)
  }

  predicate AtDelimiter(s: string, c: Cursor) {
    !c.st.mlComment && c.st.inString == NUL && StartsAt(s, c.i, c.st.delimiter)
  }

  /** A `#` or `-- ` comment that follows a delimiter and is kept with its statement. */
  predicate TrailingComment(s: string, p: nat)
    requires ValidLine(s) && p < |s|
  {
    s[p] == '#' || (s[p] == '-' && s[p + 1] == '-' && IsSpace(s[p + 2]))
  }

  /** End of what follows a delimiter at `p` and is kept with its statement: nothing unless comments are. */
  function TrailerEnd(env: Env, s: string, p: nat): (r: nat)
    requires ValidLine(s) && p < |s|
    ensures p <= r < |s|
  {
    if !env.preserveComments then p
    else
      var q := SkipSpaces(s, p);
      if TrailingComment(s, q) then CEnd(s, q) else q
  }

  function DelimiterFound(env: Env, s: string, c: Cursor): Next
    requires ValidLine(s) && AtDelimiter(s, c)
  {
    var d := c.st.delimiter;
    assert s[c.i + |d| - 1] == d[|d| - 1] != NUL;
    var p := c.i + |d|;
    var r := TrailerEnd(env, s, p);
    var text := c.st.buffer + c.pending + s[p..r];
    var st := c.st.(buffer := "", sent := c.st.sent + [text]);
    match env.statement(text, d)
    case Quit => Stop(st)
    case Go(d') => More(c.(pending := "", st := st.(delimiter := d'), i := r))
  }

  predicate AtLineComment(s: string, c: Cursor)
    requires ValidLine(s) && c.i < |s| - 1
  {
    !c.st.mlComment && c.st.inString == NUL &&
    (s[c.i] == '#' ||
     (s[c.i] == '-' && s[c.i + 1] == '-' &&
      (IsSpace(s[c.i + 2]) || s[c.i + 2] == NUL || (c.st.buffer == "" && c.pending == ""))))
  }

  function LineComment(env: Env, s: string, c: Cursor): Next
    requires ValidLine(s) && c.i < |s| - 1
  {
    var f := Flush(c);
    if !env.preserveComments then EndLine(f)
    else
      var text := f.st.buffer + s[c.i..CEnd(s, c.i)];
      if f.st.buffer != "" then EndLine(f.(st := f.st.(buffer := text)))
      else
        var st := f.st.(buffer := "", sent := f.st.sent + [text]);
        match env.statement(text, st.delimiter)
        case Quit => Stop(st)
        case Go(_) => EndLine(f.(st := st))
  }

  predicate AtCommentStart(s: string, c: Cursor)
    requires ValidLine(s) && c.i < |s| - 1
  {
    c.st.inString == NUL && s[c.i] == '/' && s[c.i + 1] == '*' &&
    !(s[c.i + 2] == '!' || (s[c.i + 2] == 'M' && s[c.i + 3] == '!'))
  }

  predicate AtCommentEnd(s: string, c: Cursor)
    requires ValidLine(s) && c.i < |s| - 1
  {
    c.st.mlComment && !c.ssComment && s[c.i] == '*' && s[c.i + 1] == '/'
  }

  /** Both comment marks: two characters, kept only when comments are, and the pending text is flushed. */
  function CommentMark(env: Env, s: string, c: Cursor, open: bool): Cursor
    requires ValidLine(s) && c.i < |s| - 2
  {
    var kept := if env.preserveComments then s[c.i..c.i + 2] else "";
    var f := Flush(c.(pending := c.pending + kept));
    f.(i := c.i + 2, needSpace := c.needSpace || !open, st := f.st.(mlComment := open))
  }

  function SsCommentAfter(s: string, c: Cursor): bool
    requires ValidLine(s) && c.i < |s| - 1
  {
    if c.st.inString == NUL && s[c.i] == '/' && s[c.i + 1] == '*' && s[c.i + 2] == '!' then true
    else if c.st.inString == NUL && c.ssComment && s[c.i] == '*' && s[c.i + 1] == '/' then false
    else c.ssComment
  }

  function InStringAfter(x: char, st: State): char {
    if x == st.inString then NUL
    else if !st.mlComment && st.inString == NUL && IsQuote(x) then x
    else st.inString
  }

  function Ordinary(env: Env, s: string, c: Cursor): Cursor
    requires ValidLine(s) && c.i < |s| - 1
  {
    var x := s[c.i];
    var kept := !c.st.mlComment || env.preserveComments;
    c.(i := c.i + 1,
       ssComment := SsCommentAfter(s, c),
       st := c.st.(inString := InStringAfter(x, c.st)),
       needSpace := c.needSpace && !kept,
       pending := if !kept then c.pending
                  else c.pending + (if c.needSpace && !IsSpace(x) then " " else "") + [x])
  }

  predicate AtLeadingSpace(env: Env, s: string, c: Cursor)
    requires c.i < |s|
  {
    !env.preserveComments && IsSpace(s[c.i]) && c.pending == "" && c.st.buffer == ""
  }

  /** The branches of the character loop, in the order they are tried. */
  datatype Branch = LeadingSpace | Escape | EndOfStatement | ToEndOfLine | OpenComment | CloseComment | Plain

  function BranchOf(env: Env, s: string, c: Cursor): Branch
    requires ValidLine(s) && c.i < |s| - 1
  {
    if AtLeadingSpace(env, s, c) then LeadingSpace
    else if AtBackslash(env, s, c) then Escape
    else if AtDelimiter(s, c) then EndOfStatement
    else if AtLineComment(s, c) then ToEndOfLine
    else if AtCommentStart(s, c) then OpenComment
    else if AtCommentEnd(s, c) then CloseComment
    else Plain
  }

  /** One turn of the character loop; reading always advances and never passes the terminator. */
  function Step(env: Env, s: string, c: Cursor): (n: Next)
    requires ValidLine(s) && c.i < |s| - 1
    ensures n.More? ==> c.i < n.cursor.i < |s|
  {
    match BranchOf(env, s, c)
    case LeadingSpace => More(c.(i := c.i + 1))
    case Escape => Backslash(env, s, c)
    case EndOfStatement => DelimiterFound(env, s, c)
    case ToEndOfLine => LineComment(env, s, c)
    case OpenComment => More(CommentMark(env, s, c, true))
    case CloseComment => More(CommentMark(env, s, c, false))
    case Plain => More(Ordinary(env, s, c))
  }

  // ---------------------------------------------------------------------------------------------
  // One line, many lines
  // ---------------------------------------------------------------------------------------------

  predicate IsDelimiterCommand(t: string) {
    |t| >= 9 && forall k :: 0 <= k < 9 ==> ToLower(t[k]) == "delimiter"[k]
  }

  /** The end of a line: a newline is added and the rest of the pending text joins the buffer. */
  function Finish(env: Env, c: Cursor, truncated: bool): State {
    if c.pending == "" && c.st.buffer == "" then c.st
    else
      var newline := !truncated && (!IsDelimiterCommand(c.pending) || c.st.inString != NUL || c.st.mlComment);
      if c.st.mlComment && !env.preserveComments then c.st
      else c.st.(buffer := c.st.buffer + c.pending + (if newline then "\n" else ""))
  }

  datatype LineResult = LineResult(st: State, quit: bool)

  function Run(env: Env, s: string, c: Cursor, truncated: bool): LineResult
    requires ValidLine(s) && c.i < |s|
    decreases |s| - c.i
  {
    if c.i == |s| - 1 then LineResult(Finish(env, c, truncated), false)
    else
      match Step(env, s, c)
      case More(c') => Run(env, s, c', truncated)
      case EndLine(c') => LineResult(Finish(env, c', truncated), false)
      case Stop(st) => LineResult(st, true)
  }

  /** `add_line`: `s` is the line with its terminator. */
  function Add(env: Env, st: State, s: string, truncated: bool): LineResult
    requires ValidLine(s)
  {
    if s[0] == NUL && st.buffer == "" then LineResult(st, false)
    else Run(env, s, Cursor(0, "", false, false, st), truncated)
  }

  datatype Line = Line(text: string, truncated: bool)

  /** One turn of `read_and_execute`: a long-form command at a statement boundary, or a line for the lexer. */
  function Turn(env: Env, st: State, line: Line): LineResult
    requires ValidLine(line.text)
  {
    var com := env.lineCommand(line.text, st.delimiter);
    if (env.namedCommands || st.buffer == "") && !st.mlComment && st.inString == NUL && com.LineCommand? then
      var st' := Apply(com.effect, st);
      match com.outcome
      case Quit => LineResult(st', true)
      case Go(d) => LineResult(st'.(delimiter := d), false)
    else
      Add(env, st, line.text, line.truncated)
  }

  /** The lines of a session, up to the first that ends it. */
  function Session(env: Env, st: State, lines: seq<Line>): LineResult
    requires forall k :: 0 <= k < |lines| ==> ValidLine(lines[k].text)
  {
    if lines == [] then LineResult(st, false)
    else
      var r := Session(env, st, lines[..|lines| - 1]);
      if r.quit then r else Turn(env, r.st, lines[|lines| - 1])
  }

  /** The text without the blanks and control characters at its end; `graph` says what is neither. */
  function Trimmed(graph: char -> bool, t: string): (r: string)
    ensures r <= t && (r == "" || graph(r[|r| - 1])) && forall k :: |r| <= k < |t| ==> !graph(t[k])
  {
    if t == "" || graph(t[|t| - 1]) then t else Trimmed(graph, t[..|t| - 1])
  }

  /** The end of a batch file: what is still in the buffer is sent, whatever is open in it. */
  function AtEnd(graph: char -> bool, st: State): State {
    var t := Trimmed(graph, st.buffer);
    if t == "" then st.(buffer := "") else st.(buffer := "", sent := st.sent + [t])
  }
}
