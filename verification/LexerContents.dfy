/** What text reaches the server: quiet text survives verbatim, a comment leaves one blank, a delimiter cuts. */
module LexerContents {
  import opened Text
  import opened SqlLexer

  // ---------------------------------------------------------------------------------------------
  // Quiet text
  // ---------------------------------------------------------------------------------------------

  function QuoteAfter(x: char, q: char): char {
    if x == q then NUL else if q == NUL && IsQuote(x) then x else q
  }

  /** A `-- ` comment starts at `i`; at the beginning of a statement the blank may be missing. */
  predicate Dashes(s: string, i: nat, begun: bool)
    requires ValidLine(s) && i < |s| - 1
  {
    s[i] == '-' && s[i + 1] == '-' && (IsSpace(s[i + 2]) || s[i + 2] == NUL || !begun)
  }

  /** A comment that is not for the server starts at `i`. */
  predicate Opens(s: string, i: nat)
    requires ValidLine(s) && i < |s| - 1
  {
    s[i] == '/' && s[i + 1] == '*' && !(s[i + 2] == '!' || (s[i + 2] == 'M' && s[i + 3] == '!'))
  }

  /** Outside strings: a comment or the delimiter starts at `i`. */
  predicate Special(s: string, i: nat, begun: bool, d: Delimiter)
    requires ValidLine(s) && i < |s| - 1
  {
    s[i] == '#' || Dashes(s, i, begun) || Opens(s, i) || StartsAt(s, i, d)
  }

  /** The escaped character `x` stays as it is: in a string, in `\N`, or in an unknown command that is let pass. */
  predicate Stays(env: Env, x: char, q: char) {
    x != NUL && (q != NUL || x == 'N' || (!IsCommand(env, x) && !env.unknownQuits(x)))
  }

  /** A backslash at `i` takes the next character with it. */
  predicate Escaped(env: Env, s: string, i: nat, q: char)
    requires i < |s|
  {
    s[i] == '\\' && Escapes(env.flags, q)
  }

  /**
   Nothing from `i` to `j` is special: outside strings no comment and no delimiter starts there, and escaped
   characters stay. `q` is the open quote at `i`; `begun` says that the statement has text already.
   */
  predicate Quiet(env: Env, s: string, i: nat, j: nat, q: char, begun: bool, d: Delimiter)
    requires ValidLine(s) && j < |s|
    decreases j - i
  {
    i == j ||
    (i < j &&
     if Escaped(env, s, i, q) then
       i + 2 <= j && Stays(env, s[i + 1], q) && Quiet(env, s, i + 2, j, q, true, d)
     else
       s[i] != NUL && (q == NUL ==> !Special(s, i, begun, d)) && Quiet(env, s, i + 1, j, QuoteAfter(s[i], q), true, d))
  }

  /** Characters that are never special outside strings. */
  predicate Harmless(x: char, d: Delimiter) {
    x != NUL && x != '\\' && !IsQuote(x) && x != '#' && x != '-' && x != '/' && x != d[0]
  }

  lemma {:induction false} HarmlessIsQuiet(env: Env, s: string, i: nat, j: nat, begun: bool, d: Delimiter)
    requires ValidLine(s) && i <= j < |s| && forall n :: i <= n < j ==> Harmless(s[n], d)
    ensures Quiet(env, s, i, j, NUL, begun, d)
    decreases j - i
  {
    if i < j {
      StartsWithItsHead(s, i, d);
      HarmlessIsQuiet(env, s, i + 1, j, true, d);
    }
  }

  /** The open quote at `j`. */
  function QuoteAt(env: Env, s: string, i: nat, j: nat, q: char): char
    requires j <= |s|
    decreases j - i
  {
    if i >= j then q
    else if Escaped(env, s, i, q) then QuoteAt(env, s, i + 2, j, q)
    else QuoteAt(env, s, i + 1, j, QuoteAfter(s[i], q))
  }

  function SsStep(s: string, i: nat, q: char, ss: bool): bool
    requires ValidLine(s) && i < |s| - 1
  {
    if q == NUL && s[i] == '/' && s[i + 1] == '*' && s[i + 2] == '!' then true
    else if q == NUL && ss && s[i] == '*' && s[i + 1] == '/' then false
    else ss
  }

  /** Whether a comment for the server is open at `j`. */
  function SsAt(env: Env, s: string, i: nat, j: nat, q: char, ss: bool): bool
    requires ValidLine(s) && j < |s|
    decreases j - i
  {
    if i >= j then ss
    else if Escaped(env, s, i, q) then SsAt(env, s, i + 2, j, q, ss)
    else SsAt(env, s, i + 1, j, QuoteAfter(s[i], q), SsStep(s, i, q, ss))
  }

  /** The text kept from `i` to `j`: an owed blank goes before the first character that is not escaped. */
  function Kept(env: Env, s: string, i: nat, j: nat, q: char, owed: bool): string
    requires j <= |s|
    decreases j - i
  {
    if i >= j then ""
    else if Escaped(env, s, i, q) && i + 2 <= j then s[i..i + 2] + Kept(env, s, i + 2, j, q, owed)
    else (if owed && !IsSpace(s[i]) then " " else "") + [s[i]] + Kept(env, s, i + 1, j, QuoteAfter(s[i], q), false)
  }

  /** Whether the blank is still owed at `j`. */
  function OwedAt(env: Env, s: string, i: nat, j: nat, q: char, owed: bool): bool
    requires j <= |s|
    decreases j - i
  {
    owed && (i >= j || (Escaped(env, s, i, q) && OwedAt(env, s, i + 2, j, q, owed)))
  }

  /** Where no blank is owed, all is kept as it is. */
  lemma {:induction false} KeptVerbatim(env: Env, s: string, i: nat, j: nat, q: char)
    requires i <= j <= |s|
    ensures Kept(env, s, i, j, q, false) == s[i..j]
    decreases j - i
  {
    if i < j {
      var n := if Escaped(env, s, i, q) && i + 2 <= j then 2 else 1;
      KeptVerbatim(env, s, i + n, j, if n == 2 then q else QuoteAfter(s[i], q));
      assert s[i..i + n] + s[i + n..j] == s[i..j];
      assert n == 1 ==> s[i..i + n] == [s[i]];
    }
  }

  /** Where one is owed, it goes in front, unless a blank or an escaped character stands there. */
  lemma KeptAfterBlank(env: Env, s: string, i: nat, j: nat, q: char)
    requires i <= j <= |s| && (i < j ==> !Escaped(env, s, i, q))
    ensures Kept(env, s, i, j, q, true) == (if i < j && !IsSpace(s[i]) then " " else "") + s[i..j]
  {
    if i < j {
      KeptVerbatim(env, s, i + 1, j, QuoteAfter(s[i], q));
      var gap := if !IsSpace(s[i]) then " " else "";
      assert gap + [s[i]] + s[i + 1..j] == gap + s[i..j];
    }
  }

  /** The cursor at `j`, after quiet text. */
  function Past(env: Env, s: string, c: Cursor, j: nat): Cursor
    requires ValidLine(s) && j < |s|
  {
    var q := c.st.inString;
    c.(i := j, pending := c.pending + Kept(env, s, c.i, j, q, c.needSpace),
       needSpace := OwedAt(env, s, c.i, j, q, c.needSpace), ssComment := SsAt(env, s, c.i, j, q, c.ssComment),
       st := c.st.(inString := QuoteAt(env, s, c.i, j, q)))
  }

  predicate Begun(c: Cursor) {
    c.st.buffer + c.pending != ""
  }

  lemma EscapeStep(env: Env, s: string, c: Cursor)
    requires ValidLine(s) && c.i < |s| - 2 && !c.st.mlComment && !AtLeadingSpace(env, s, c)
    requires Escaped(env, s, c.i, c.st.inString) && Stays(env, s[c.i + 1], c.st.inString)
    ensures Step(env, s, c) == More(c.(i := c.i + 2, pending := c.pending + s[c.i..c.i + 2]))
  {
    assert s[c.i..c.i + 2] == ['\\', s[c.i + 1]];
  }

  /** The cursor behind a character that is not special. */
  function OneFurther(s: string, c: Cursor): Cursor
    requires ValidLine(s) && c.i < |s| - 1
  {
    var q, x := c.st.inString, s[c.i];
    c.(i := c.i + 1, needSpace := false, ssComment := SsStep(s, c.i, q, c.ssComment),
       pending := c.pending + (if c.needSpace && !IsSpace(x) then " " else "") + [x],
       st := c.st.(inString := QuoteAfter(x, q)))
  }

  lemma PlainStep(env: Env, s: string, c: Cursor)
    requires ValidLine(s) && c.i < |s| - 1 && !c.st.mlComment && !AtLeadingSpace(env, s, c)
    requires !Escaped(env, s, c.i, c.st.inString)
    requires c.st.inString == NUL ==> !Special(s, c.i, Begun(c), c.st.delimiter)
    ensures Step(env, s, c) == More(OneFurther(s, c))
  {
  }

  lemma EscapePast(env: Env, s: string, c: Cursor, j: nat)
    requires ValidLine(s) && c.i + 2 <= j < |s| && Escaped(env, s, c.i, c.st.inString)
    ensures Past(env, s, c.(i := c.i + 2, pending := c.pending + s[c.i..c.i + 2]), j) == Past(env, s, c, j)
  {
    var pair, rest := s[c.i..c.i + 2], Kept(env, s, c.i + 2, j, c.st.inString, c.needSpace);
    assert c.pending + pair + rest == c.pending + (pair + rest);
  }

  lemma PlainPast(env: Env, s: string, c: Cursor, j: nat)
    requires ValidLine(s) && c.i < j < |s| && !Escaped(env, s, c.i, c.st.inString)
    ensures Past(env, s, OneFurther(s, c), j) == Past(env, s, c, j)
  {
    var q, x := c.st.inString, s[c.i];
    var gap := if c.needSpace && !IsSpace(x) then " " else "";
    var rest := Kept(env, s, c.i + 1, j, QuoteAfter(x, q), false);
    assert c.pending + gap + [x] + rest == c.pending + (gap + [x] + rest);
  }

  /** What reading makes of a cursor does not change with a step. */
  ghost predicate Respects(env: Env, s: string, f: Cursor -> LineResult)
    requires ValidLine(s)
  {
    forall c: Cursor :: c.i < |s| - 1 && Step(env, s, c).More? ==> f(c) == f(Step(env, s, c).cursor)
  }

  /** Reading comes from one cursor to the other. */
  ghost predicate Leads(env: Env, s: string, c: Cursor, c': Cursor)
    requires ValidLine(s)
  {
    c'.i < |s| && forall f :: Respects(env, s, f) ==> f(c) == f(c')
  }

  lemma LeadsStep(env: Env, s: string, c: Cursor, c': Cursor)
    requires ValidLine(s) && c.i < |s| - 1 && Step(env, s, c) == More(c')
    ensures Leads(env, s, c, c')
  {
  }

  lemma LeadsOn(env: Env, s: string, a: Cursor, b: Cursor, c: Cursor)
    requires ValidLine(s) && Leads(env, s, a, b) && Leads(env, s, b, c)
    ensures Leads(env, s, a, c)
  {
  }

  lemma RunNext(env: Env, s: string, c: Cursor, n: Next, truncated: bool)
    requires ValidLine(s) && c.i < |s| - 1 && Step(env, s, c) == n
    ensures n.More? ==> n.cursor.i < |s| && Run(env, s, c, truncated) == Run(env, s, n.cursor, truncated)
    ensures n.Stop? ==> Run(env, s, c, truncated) == LineResult(n.st, true)
  {
  }

  /** Where reading ends from a cursor inside the line. */
  function RunFrom(env: Env, s: string, c: Cursor, truncated: bool): LineResult
    requires ValidLine(s)
  {
    if c.i < |s| then Run(env, s, c, truncated) else LineResult(c.st, false)
  }

  lemma RunFromNext(env: Env, s: string, c: Cursor, truncated: bool)
    requires ValidLine(s) && c.i < |s| - 1 && Step(env, s, c).More?
    ensures RunFrom(env, s, c, truncated) == RunFrom(env, s, Step(env, s, c).cursor, truncated)
  {
    RunNext(env, s, c, Step(env, s, c), truncated);
  }

  lemma RunRespects(env: Env, s: string, f: Cursor -> LineResult, truncated: bool)
    requires ValidLine(s) && forall c :: f(c) == RunFrom(env, s, c, truncated)
    ensures Respects(env, s, f)
  {
    forall c: Cursor | c.i < |s| - 1 && Step(env, s, c).More?
      ensures f(c) == f(Step(env, s, c).cursor)
    {
      RunFromNext(env, s, c, truncated);
    }
  }

  /** So both give the same result. */
  lemma LeadsRun(env: Env, s: string, c: Cursor, c': Cursor, truncated: bool)
    requires ValidLine(s) && c.i < |s| && Leads(env, s, c, c')
    ensures Run(env, s, c, truncated) == Run(env, s, c', truncated)
  {
    var f := (x: Cursor) => RunFrom(env, s, x, truncated);
    RunRespects(env, s, f, truncated);
    assert f(c) == f(c');
  }

  /** At this cursor the text up to `j` is quiet, and it is not a blank to be skipped. */
  predicate AtQuiet(env: Env, s: string, c: Cursor, j: nat)
    requires ValidLine(s)
  {
    && c.i <= j < |s| && !c.st.mlComment && Quiet(env, s, c.i, j, c.st.inString, Begun(c), c.st.delimiter)
    && (c.i < j ==> !AtLeadingSpace(env, s, c))
  }

  lemma QuietEscape(env: Env, s: string, c: Cursor, j: nat) returns (c': Cursor)
    requires ValidLine(s) && AtQuiet(env, s, c, j) && c.i < j && Escaped(env, s, c.i, c.st.inString)
    ensures c.i < c'.i && AtQuiet(env, s, c', j) && Step(env, s, c) == More(c')
    ensures Past(env, s, c', j) == Past(env, s, c, j)
  {
    EscapeStep(env, s, c);
    c' := c.(i := c.i + 2, pending := c.pending + s[c.i..c.i + 2]);
    EscapePast(env, s, c, j);
  }

  lemma QuietFurther(env: Env, s: string, c: Cursor, j: nat)
    requires ValidLine(s) && AtQuiet(env, s, c, j) && c.i < j && !Escaped(env, s, c.i, c.st.inString)
    ensures c.st.inString == NUL ==> !Special(s, c.i, Begun(c), c.st.delimiter)
    ensures AtQuiet(env, s, OneFurther(s, c), j)
  {
    var c' := OneFurther(s, c);
    assert c'.pending != "" && c'.pending[|c'.pending| - 1] == s[c.i];
  }

  lemma QuietPlain(env: Env, s: string, c: Cursor, j: nat) returns (c': Cursor)
    requires ValidLine(s) && AtQuiet(env, s, c, j) && c.i < j && !Escaped(env, s, c.i, c.st.inString)
    ensures c.i < c'.i && AtQuiet(env, s, c', j) && Step(env, s, c) == More(c')
    ensures Past(env, s, c', j) == Past(env, s, c, j)
  {
    QuietFurther(env, s, c, j);
    PlainStep(env, s, c);
    PlainPast(env, s, c, j);
    c' := OneFurther(s, c);
  }

  /** Quiet text is read without a trace but its own text. */
  lemma {:induction false} QuietLeads(env: Env, s: string, c: Cursor, j: nat)
    requires ValidLine(s) && AtQuiet(env, s, c, j)
    ensures Leads(env, s, c, Past(env, s, c, j))
    decreases j - c.i
  {
    if c.i == j {
      assert c.pending + "" == c.pending;
    } else {
      var c' := c;
      if Escaped(env, s, c.i, c.st.inString) {
        c' := QuietEscape(env, s, c, j);
      } else {
        c' := QuietPlain(env, s, c, j);
      }
      LeadsStep(env, s, c, c');
      QuietLeads(env, s, c', j);
      LeadsOn(env, s, c, c', Past(env, s, c, j));
    }
  }

  // ---------------------------------------------------------------------------------------------
  // Lines
  // ---------------------------------------------------------------------------------------------

  /** Where text starts at or after `i`: blanks before a statement are skipped. */
  function TextStart(env: Env, s: string, i: nat, begun: bool): (k: nat)
    requires ValidLine(s) && i < |s|
    ensures i <= k < |s|
  {
    if begun || env.preserveComments then i else SkipSpaces(s, i)
  }

  lemma BlankStep(env: Env, s: string, c: Cursor)
    requires ValidLine(s) && c.i < |s| - 1 && AtLeadingSpace(env, s, c)
    ensures Leads(env, s, c, c.(i := c.i + 1))
    ensures TextStart(env, s, c.i, Begun(c)) == TextStart(env, s, c.i + 1, Begun(c))
  {
    LeadsStep(env, s, c, c.(i := c.i + 1));
  }

  lemma NoBlank(env: Env, s: string, c: Cursor)
    requires ValidLine(s) && c.i < |s| && (c.i == |s| - 1 || !AtLeadingSpace(env, s, c))
    ensures TextStart(env, s, c.i, Begun(c)) == c.i && Leads(env, s, c, c)
  {
  }

  lemma {:induction false} BlanksSkipped(env: Env, s: string, c: Cursor, k: nat)
    requires ValidLine(s) && c.i < |s| && k == TextStart(env, s, c.i, Begun(c))
    ensures Leads(env, s, c, c.(i := k)) && (k < |s| - 1 ==> !AtLeadingSpace(env, s, c.(i := k)))
    decreases |s| - c.i
  {
    if c.i < |s| - 1 && AtLeadingSpace(env, s, c) {
      BlankStep(env, s, c);
      BlanksSkipped(env, s, c.(i := c.i + 1), k);
      LeadsOn(env, s, c, c.(i := c.i + 1), c.(i := k));
    } else {
      NoBlank(env, s, c);
    }
  }

  function Beginning(st: State): Cursor {
    Cursor(0, "", false, false, st)
  }

  /** The cursor at `j`, when the line up to there is quiet. */
  function Behind(env: Env, st: State, s: string, j: nat): Cursor
    requires ValidLine(s) && TextStart(env, s, 0, st.buffer != "") <= j < |s|
  {
    var k := TextStart(env, s, 0, st.buffer != "");
    Cursor(j, s[k..j], false, SsAt(env, s, k, j, st.inString, false), st.(inString := QuoteAt(env, s, k, j, st.inString)))
  }

  lemma QuietBeginning(env: Env, st: State, s: string, j: nat)
    requires ValidLine(s) && !st.mlComment
    requires var k := TextStart(env, s, 0, st.buffer != "");
      k <= j < |s| && Quiet(env, s, k, j, st.inString, st.buffer != "", st.delimiter)
    ensures Leads(env, s, Beginning(st), Behind(env, st, s, j))
  {
    var k := TextStart(env, s, 0, st.buffer != "");
    var c := Beginning(st);
    BlanksSkipped(env, s, c, k);
    QuietLeads(env, s, c.(i := k), j);
    KeptVerbatim(env, s, k, j, st.inString);
    assert "" + s[k..j] == s[k..j];
    LeadsOn(env, s, c, c.(i := k), Behind(env, st, s, j));
  }

  /** `add_line` from the first cursor on. */
  lemma AddRuns(env: Env, st: State, s: string, c: Cursor, truncated: bool)
    requires ValidLine(s) && (s[0] == NUL ==> |s| == 1) && Leads(env, s, Beginning(st), c)
    ensures Add(env, st, s, truncated) == Run(env, s, c, truncated)
  {
    LeadsRun(env, s, Beginning(st), c, truncated);
  }

  /** The newline that ends a line, when there is one. */
  function LineEnd(buffer: string, t: string, q: char, truncated: bool): string {
    if buffer + t != "" && !truncated && (!IsDelimiterCommand(t) || q != NUL) then "\n" else ""
  }

  lemma QuietFinish(env: Env, s: string, c: Cursor, truncated: bool)
    requires ValidLine(s) && c.i == |s| - 1 && !c.st.mlComment
    ensures var end := LineEnd(c.st.buffer, c.pending, c.st.inString, truncated);
      Run(env, s, c, truncated) == LineResult(c.st.(buffer := c.st.buffer + c.pending + end), false)
  {
    assert c.st.buffer + c.pending + "" == c.st.buffer + c.pending;
  }

  /** A quiet line joins the statement unchanged, whatever its string literals contain. */
  lemma QuietLine(env: Env, st: State, s: string, truncated: bool)
    requires ValidLine(s) && !st.mlComment
    requires Quiet(env, s, TextStart(env, s, 0, st.buffer != ""), |s| - 1, st.inString, st.buffer != "", st.delimiter)
    ensures var k := TextStart(env, s, 0, st.buffer != "");
      var text, q := s[k..|s| - 1], QuoteAt(env, s, k, |s| - 1, st.inString);
      Add(env, st, s, truncated)
      == LineResult(st.(buffer := st.buffer + text + LineEnd(st.buffer, text, q, truncated), inString := q), false)
  {
    var c := Behind(env, st, s, |s| - 1);
    QuietBeginning(env, st, s, |s| - 1);
    AddRuns(env, st, s, c, truncated);
    QuietFinish(env, s, c, truncated);
  }

  // ---------------------------------------------------------------------------------------------
  // Delimiters
  // ---------------------------------------------------------------------------------------------

  lemma DelimiterBeforeEnd(s: string, i: nat, d: Delimiter)
    requires ValidLine(s) && StartsAt(s, i, d)
    ensures i + |d| < |s| && s[i] == d[0]
  {
    assert s[i + |d| - 1] == s[i..i + |d|][|d| - 1] == d[|d| - 1] != NUL;
    assert s[i] == s[i..i + |d|][0];
  }

  lemma DelimiterStep(env: Env, s: string, c: Cursor, st: State, r: nat)
    requires ValidLine(s) && AtDelimiter(s, c) && c.i + |c.st.delimiter| < |s| && !AtLeadingSpace(env, s, c)
    requires r == TrailerEnd(env, s, c.i + |c.st.delimiter|)
    requires st == c.st.(buffer := "", sent := c.st.sent + [c.st.buffer + c.pending + s[c.i + |c.st.delimiter|..r]])
    ensures Step(env, s, c) ==
      match env.statement(st.sent[|c.st.sent|], c.st.delimiter)
      case Quit => Stop(st)
      case Go(d) => More(c.(pending := "", st := st.(delimiter := d), i := r))
  {
    DelimiterBeforeEnd(s, c.i, c.st.delimiter);
  }

  /** The statement `text` is sent, and reading goes on at `r` with the delimiter it leaves, or stops. */
  function Resume(env: Env, s: string, st: State, text: string, r: nat, ss: bool, truncated: bool): LineResult
    requires ValidLine(s) && r < |s|
  {
    var st' := State("", NUL, false, st.delimiter, st.sent + [text]);
    match env.statement(text, st.delimiter)
    case Quit => LineResult(st', true)
    case Go(d) => Run(env, s, Cursor(r, "", false, ss, st'.(delimiter := d)), truncated)
  }

  lemma DelimiterRun(env: Env, s: string, c: Cursor, text: string, r: nat, truncated: bool)
    requires ValidLine(s) && AtDelimiter(s, c) && c.i + |c.st.delimiter| < |s| && !AtLeadingSpace(env, s, c)
    requires r == TrailerEnd(env, s, c.i + |c.st.delimiter|) && !c.needSpace
    requires text == c.st.buffer + c.pending + s[c.i + |c.st.delimiter|..r]
    ensures Run(env, s, c, truncated) == Resume(env, s, c.st, text, r, c.ssComment, truncated)
  {
    var st := c.st.(buffer := "", sent := c.st.sent + [text]);
    DelimiterStep(env, s, c, st, r);
    match env.statement(text, c.st.delimiter)
    case Quit => RunNext(env, s, c, Stop(st), truncated);
    case Go(d) => RunNext(env, s, c, More(c.(pending := "", st := st.(delimiter := d), i := r)), truncated);
  }

  /** Only the delimiter and what was sent matter to it. */
  lemma SameResume(env: Env, s: string, st: State, st': State, text: string, r: nat, ss: bool, truncated: bool)
    requires ValidLine(s) && r < |s| && st.delimiter == st'.delimiter && st.sent == st'.sent
    ensures Resume(env, s, st, text, r, ss, truncated) == Resume(env, s, st', text, r, ss, truncated)
  {
  }

  lemma DelimiterAdd(env: Env, st: State, s: string, c: Cursor, text: string, r: nat, truncated: bool)
    requires ValidLine(s) && s[0] != NUL && Leads(env, s, Beginning(st), c)
    requires AtDelimiter(s, c) && c.i + |c.st.delimiter| < |s| && !AtLeadingSpace(env, s, c) && !c.needSpace
    requires r == TrailerEnd(env, s, c.i + |c.st.delimiter|) && c.st.delimiter == st.delimiter && c.st.sent == st.sent
    requires text == c.st.buffer + c.pending + s[c.i + |c.st.delimiter|..r]
    ensures Add(env, st, s, truncated) == Resume(env, s, st, text, r, c.ssComment, truncated)
  {
    AddRuns(env, st, s, c, truncated);
    DelimiterRun(env, s, c, text, r, truncated);
    SameResume(env, s, st, c.st, text, r, c.ssComment, truncated);
  }

  lemma AtDelimiterThere(env: Env, st: State, s: string, j: nat)
    requires ValidLine(s) && !st.mlComment && StartsAt(s, j, st.delimiter)
    requires var k := TextStart(env, s, 0, st.buffer != "");
      && k <= j < |s| && Quiet(env, s, k, j, st.inString, st.buffer != "", st.delimiter)
      && QuoteAt(env, s, k, j, st.inString) == NUL
    ensures j + |st.delimiter| < |s| && s[0] != NUL
    ensures var c := Behind(env, st, s, j); AtDelimiter(s, c) && !AtLeadingSpace(env, s, c)
  {
    DelimiterBeforeEnd(s, j, st.delimiter);
  }

  lemma CutsBehind(env: Env, st: State, s: string, k: nat, j: nat, r: nat, text: string, truncated: bool)
    requires ValidLine(s) && s[0] != NUL && k == TextStart(env, s, 0, st.buffer != "") <= j && j + |st.delimiter| < |s|
    requires Leads(env, s, Beginning(st), Behind(env, st, s, j))
    requires AtDelimiter(s, Behind(env, st, s, j)) && !AtLeadingSpace(env, s, Behind(env, st, s, j))
    requires r == TrailerEnd(env, s, j + |st.delimiter|) && text == st.buffer + s[k..j] + s[j + |st.delimiter|..r]
    ensures Add(env, st, s, truncated) == Resume(env, s, st, text, r, SsAt(env, s, k, j, st.inString, false), truncated)
  {
    var c := Behind(env, st, s, j);
    DelimiterAdd(env, st, s, c, text, r, truncated);
  }

  /**
   A delimiter outside strings sends what came before it, with a comment kept behind it, and starts afresh
   behind that.
   */
  lemma DelimiterCuts(env: Env, st: State, s: string, j: nat, truncated: bool)
    requires ValidLine(s) && !st.mlComment && StartsAt(s, j, st.delimiter)
    requires var k := TextStart(env, s, 0, st.buffer != "");
      && k <= j < |s| && Quiet(env, s, k, j, st.inString, st.buffer != "", st.delimiter)
      && QuoteAt(env, s, k, j, st.inString) == NUL
    ensures j + |st.delimiter| < |s|
    ensures var k, p := TextStart(env, s, 0, st.buffer != ""), j + |st.delimiter|;
      var r := TrailerEnd(env, s, p);
      Add(env, st, s, truncated)
      == Resume(env, s, st, st.buffer + s[k..j] + s[p..r], r, SsAt(env, s, k, j, st.inString, false), truncated)
  {
    AtDelimiterThere(env, st, s, j);
    QuietBeginning(env, st, s, j);
    var k, p := TextStart(env, s, 0, st.buffer != ""), j + |st.delimiter|;
    var r := TrailerEnd(env, s, p);
    CutsBehind(env, st, s, k, j, r, st.buffer + s[k..j] + s[p..r], truncated);
  }

  // ---------------------------------------------------------------------------------------------
  // Comments
  // ---------------------------------------------------------------------------------------------

  predicate Closes(s: string, i: nat) {
    i + 1 < |s| && s[i] == '*' && s[i + 1] == '/'
  }

  /**
   Reading from `i` inside a comment comes to `j` without closing it, and no comment for the server is open
   there. Another opening mark is passed over whole.
   */
  predicate Inside(s: string, i: nat, j: nat, ss: bool)
    requires ValidLine(s) && j < |s| - 1
    decreases j - i
  {
    if i >= j then i == j && !ss
    else if Opens(s, i) then Inside(s, i + 2, j, ss)
    else (Closes(s, i) ==> ss) && Inside(s, i + 1, j, SsStep(s, i, NUL, ss))
  }

  /** The cursor is inside a comment that is not kept. */
  predicate InComment(env: Env, c: Cursor) {
    !env.preserveComments && c.st.mlComment && c.st.inString == NUL && c.pending == ""
  }

  lemma InsideStep(env: Env, s: string, c: Cursor)
    requires ValidLine(s) && c.i < |s| - 1 && InComment(env, c) && (Closes(s, c.i) ==> c.ssComment)
    ensures Step(env, s, c) == More(if Opens(s, c.i) then c.(i := c.i + 2)
                                    else c.(i := c.i + 1, ssComment := SsStep(s, c.i, NUL, c.ssComment)))
  {
    assert c.st.buffer + ("" + "") == c.st.buffer;
  }

  /** The cursor one step further inside a comment. */
  function Further(s: string, c: Cursor): Cursor
    requires ValidLine(s) && c.i < |s| - 1
  {
    if Opens(s, c.i) then c.(i := c.i + 2) else c.(i := c.i + 1, ssComment := SsStep(s, c.i, NUL, c.ssComment))
  }

  lemma FurtherLeads(env: Env, s: string, c: Cursor)
    requires ValidLine(s) && c.i < |s| - 1 && InComment(env, c) && (Closes(s, c.i) ==> c.ssComment)
    ensures Leads(env, s, c, Further(s, c)) && Further(s, c).i < |s|
  {
    InsideStep(env, s, c);
    LeadsStep(env, s, c, Further(s, c));
  }

  lemma InsideFurther(s: string, c: Cursor, j: nat)
    requires ValidLine(s) && c.i < j < |s| - 1 && Inside(s, c.i, j, c.ssComment)
    ensures Closes(s, c.i) ==> c.ssComment
    ensures c.i < Further(s, c).i <= j && Inside(s, Further(s, c).i, j, Further(s, c).ssComment)
  {
  }

  lemma LeadsNowhere(env: Env, s: string, c: Cursor)
    requires ValidLine(s) && c.i < |s|
    ensures Leads(env, s, c, c)
  {
  }

  lemma {:induction false} InsideLeads(env: Env, s: string, c: Cursor, j: nat)
    requires ValidLine(s) && c.i <= j < |s| - 1 && InComment(env, c) && Inside(s, c.i, j, c.ssComment)
    ensures Leads(env, s, c, c.(i := j, ssComment := false))
    decreases j - c.i
  {
    var end := c.(i := j, ssComment := false);
    if c.i == j {
      assert c == end;
      LeadsNowhere(env, s, c);
    } else {
      InsideFurther(s, c, j);
      FurtherLeads(env, s, c);
      var c' := Further(s, c);
      assert c'.(i := j, ssComment := false) == end;
      InsideLeads(env, s, c', j);
      LeadsOn(env, s, c, c', end);
    }
  }

  lemma OpenStep(env: Env, s: string, c: Cursor)
    requires ValidLine(s) && c.i < |s| - 1 && Opens(s, c.i) && !env.preserveComments
    requires !c.st.mlComment && c.st.inString == NUL && !StartsAt(s, c.i, c.st.delimiter)
    ensures Step(env, s, c)
         == More(c.(i := c.i + 2, pending := "", st := c.st.(buffer := c.st.buffer + c.pending, mlComment := true)))
  {
    assert c.pending + "" == c.pending;
  }

  lemma CloseStep(env: Env, s: string, c: Cursor)
    requires ValidLine(s) && c.i < |s| - 2 && Closes(s, c.i) && InComment(env, c) && !c.ssComment
    ensures Step(env, s, c) == More(c.(i := c.i + 2, needSpace := true, st := c.st.(mlComment := false)))
  {
    assert c.st.buffer + ("" + "") == c.st.buffer;
  }

  /** A comment from `i` to `j`; `ss` says that it stands inside a comment for the server. */
  predicate CommentAt(s: string, i: nat, j: nat, ss: bool)
    requires ValidLine(s)
  {
    i + 4 <= j < |s| && Opens(s, i) && Closes(s, j - 2) && Inside(s, i + 2, j - 2, ss)
  }

  /** A comment is gone from the text, and the cursor behind it owes a blank. */
  lemma CommentSkipped(env: Env, s: string, c: Cursor, j: nat)
    requires ValidLine(s) && CommentAt(s, c.i, j, c.ssComment) && !env.preserveComments
    requires !c.st.mlComment && c.st.inString == NUL && !StartsAt(s, c.i, c.st.delimiter)
    ensures Leads(env, s, c, c.(i := j, pending := "", needSpace := true, ssComment := false,
                                st := c.st.(buffer := c.st.buffer + c.pending)))
  {
    OpenStep(env, s, c);
    var c1 := c.(i := c.i + 2, pending := "", st := c.st.(buffer := c.st.buffer + c.pending, mlComment := true));
    LeadsStep(env, s, c, c1);
    InsideLeads(env, s, c1, j - 2);
    var c2 := c1.(i := j - 2, ssComment := false);
    CloseStep(env, s, c2);
    var c3 := c2.(i := j, needSpace := true, st := c2.st.(mlComment := false));
    LeadsStep(env, s, c2, c3);
    LeadsOn(env, s, c, c1, c2);
    LeadsOn(env, s, c, c2, c3);
  }

  /** Whatever follows a comment in its line is read with one blank owed and the text before it in the buffer. */
  lemma CommentInLine(env: Env, st: State, s: string, i: nat, j: nat, truncated: bool)
    requires ValidLine(s) && !st.mlComment && !env.preserveComments
    requires var k := TextStart(env, s, 0, st.buffer != "");
      && k <= i < |s| && Quiet(env, s, k, i, st.inString, st.buffer != "", st.delimiter)
      && QuoteAt(env, s, k, i, st.inString) == NUL && !StartsAt(s, i, st.delimiter)
      && CommentAt(s, i, j, SsAt(env, s, k, i, st.inString, false))
    ensures var k := TextStart(env, s, 0, st.buffer != "");
      var c := Cursor(j, "", true, false, st.(buffer := st.buffer + s[k..i], inString := NUL));
      Leads(env, s, Beginning(st), c) && Add(env, st, s, truncated) == Run(env, s, c, truncated)
  {
    var k := TextStart(env, s, 0, st.buffer != "");
    var c1 := Behind(env, st, s, i);
    var c2 := Cursor(j, "", true, false, st.(buffer := st.buffer + s[k..i], inString := NUL));
    QuietBeginning(env, st, s, i);
    CommentSkipped(env, s, c1, j);
    LeadsOn(env, s, Beginning(st), c1, c2);
    AddRuns(env, st, s, c2, truncated);
  }

  /** Quiet text up to the end of the line, behind a comment. */
  lemma QuietEnd(env: Env, s: string, c: Cursor, k: nat)
    requires ValidLine(s) && c.i < |s| && !c.st.mlComment && c.pending == "" && c.needSpace && c.st.inString == NUL
    requires k == TextStart(env, s, c.i, c.st.buffer != "")
    requires Quiet(env, s, k, |s| - 1, NUL, c.st.buffer != "", c.st.delimiter)
    ensures Leads(env, s, c, Past(env, s, c.(i := k), |s| - 1))
    ensures Past(env, s, c.(i := k), |s| - 1).pending == Kept(env, s, k, |s| - 1, NUL, true)
  {
    BlanksSkipped(env, s, c, k);
    QuietLeads(env, s, c.(i := k), |s| - 1);
    LeadsOn(env, s, c, c.(i := k), Past(env, s, c.(i := k), |s| - 1));
  }

  /** The cursor at the end of a line with a comment from `i` to `j`. */
  lemma CommentLeads(env: Env, st: State, s: string, k: nat, i: nat, j: nat, k': nat) returns (c: Cursor)
    requires ValidLine(s) && !st.mlComment && !env.preserveComments && k == TextStart(env, s, 0, st.buffer != "")
    requires k <= i < |s| && Quiet(env, s, k, i, st.inString, st.buffer != "", st.delimiter)
    requires QuoteAt(env, s, k, i, st.inString) == NUL && !StartsAt(s, i, st.delimiter)
    requires CommentAt(s, i, j, SsAt(env, s, k, i, st.inString, false))
    requires k' == TextStart(env, s, j, st.buffer + s[k..i] != "")
    requires Quiet(env, s, k', |s| - 1, NUL, st.buffer + s[k..i] != "", st.delimiter)
    ensures Leads(env, s, Beginning(st), c) && c.i == |s| - 1 && c.pending == Kept(env, s, k', |s| - 1, NUL, true)
    ensures c.st == st.(buffer := st.buffer + s[k..i], inString := QuoteAt(env, s, k', |s| - 1, NUL))
  {
    var c2 := Cursor(j, "", true, false, st.(buffer := st.buffer + s[k..i], inString := NUL));
    CommentInLine(env, st, s, i, j, false);
    QuietEnd(env, s, c2, k');
    c := Past(env, s, c2.(i := k'), |s| - 1);
    LeadsOn(env, s, Beginning(st), c2, c);
  }

  /**
   A comment in a line is replaced by one blank, which goes before the first character behind the comment that
   is neither a blank nor escaped.
   */
  lemma CommentLeavesBlank(env: Env, st: State, s: string, i: nat, j: nat, truncated: bool)
    requires ValidLine(s) && !st.mlComment && !env.preserveComments
    requires var k := TextStart(env, s, 0, st.buffer != "");
      && k <= i < |s| && Quiet(env, s, k, i, st.inString, st.buffer != "", st.delimiter)
      && QuoteAt(env, s, k, i, st.inString) == NUL && !StartsAt(s, i, st.delimiter)
      && CommentAt(s, i, j, SsAt(env, s, k, i, st.inString, false))
      && var begun := st.buffer + s[k..i] != "";
      Quiet(env, s, TextStart(env, s, j, begun), |s| - 1, NUL, begun, st.delimiter)
    ensures var k := TextStart(env, s, 0, st.buffer != "");
      var before := st.buffer + s[k..i];
      var k' := TextStart(env, s, j, before != "");
      var text, q := Kept(env, s, k', |s| - 1, NUL, true), QuoteAt(env, s, k', |s| - 1, NUL);
      Add(env, st, s, truncated)
      == LineResult(st.(buffer := before + text + LineEnd(before, text, q, truncated), inString := q), false)
  {
    var k := TextStart(env, s, 0, st.buffer != "");
    var c := CommentLeads(env, st, s, k, i, j, TextStart(env, s, j, st.buffer + s[k..i] != ""));
    AddRuns(env, st, s, c, truncated);
    QuietFinish(env, s, c, truncated);
  }

  /** A comment for the server starts at `i`. */
  predicate OpensForServer(s: string, i: nat) {
    i + 2 < |s| && s[i] == '/' && s[i + 1] == '*' && s[i + 2] == '!'
  }

  /** At `j` stands the first closing mark from `i` on. */
  predicate FirstClose(s: string, i: nat, j: nat) {
    i <= j && Closes(s, j) && forall n :: i <= n < j ==> !Closes(s, n)
  }

  lemma SsStepInside(s: string, i: nat, ss: bool)
    requires ValidLine(s) && i < |s| - 1 && !Closes(s, i)
    ensures SsStep(s, i, NUL, ss) <==> ss || OpensForServer(s, i)
  {
  }

  /**
   The first closing mark, at `j`, closes a comment exactly if no slash stands before it and no comment for the server
   started before it.
   */
  lemma {:induction false} ClosedIff(s: string, i: nat, j: nat, ss: bool)
    requires ValidLine(s) && j < |s| - 1 && FirstClose(s, i, j)
    ensures Inside(s, i, j, ss)
       <==> !ss && (i == j || s[j - 1] != '/') && forall n :: i <= n < j ==> !OpensForServer(s, n)
    decreases j - i
  {
    if i < j {
      if !Opens(s, i) {
        SsStepInside(s, i, ss);
        ClosedIff(s, i + 1, j, SsStep(s, i, NUL, ss));
      } else if i + 2 <= j {
        assert !OpensForServer(s, i) && !OpensForServer(s, i + 1);
        ClosedIff(s, i + 2, j, ss);
      }
    }
  }

  lemma NotInsideFurther(s: string, c: Cursor, j: nat)
    requires ValidLine(s) && c.i <= j < |s| - 1 && FirstClose(s, c.i, j) && !Inside(s, c.i, j, c.ssComment)
    ensures Closes(s, c.i) ==> c.ssComment
    ensures var c' := Further(s, c);
      if c'.i <= j then FirstClose(s, c'.i, j) && !Inside(s, c'.i, j, c'.ssComment) else c'.i == j + 1
  {
  }

  /** A first closing mark that does not close the comment is passed, and the comment stays open behind it. */
  lemma {:induction false} MarkPassed(env: Env, s: string, c: Cursor, j: nat) returns (ss: bool)
    requires ValidLine(s) && j < |s| - 1 && FirstClose(s, c.i, j) && InComment(env, c) && !Inside(s, c.i, j, c.ssComment)
    ensures Leads(env, s, c, c.(i := j + 1, ssComment := ss))
    decreases j - c.i
  {
    NotInsideFurther(s, c, j);
    FurtherLeads(env, s, c);
    var c' := Further(s, c);
    if c'.i > j {
      ss := c'.ssComment;
      assert c' == c.(i := j + 1, ssComment := ss);
    } else {
      ss := MarkPassed(env, s, c', j);
      var c2 := c'.(i := j + 1, ssComment := ss);
      assert c2 == c.(i := j + 1, ssComment := ss);
      LeadsOn(env, s, c, c', c2);
    }
  }

  /** Reading stops where the line ends, with the comment open or not. */
  lemma OpenAtEnd(env: Env, st: State, s: string, c: Cursor)
    requires ValidLine(s) && s[0] != NUL && Leads(env, s, Beginning(st), c) && c.i == |s| - 1
    ensures Add(env, st, s, false).st.mlComment <==> c.st.mlComment
  {
    AddRuns(env, st, s, c, false);
  }

  lemma CommentLineOpen(env: Env, st: State, s: string, j: nat, c: Cursor)
    requires ValidLine(s) && |s| == j + 3 && s[0] != NUL && FirstClose(s, 2, j) && !Inside(s, 2, j, false)
    requires InComment(env, c) && c.i == 2 && !c.ssComment && Leads(env, s, Beginning(st), c)
    ensures Add(env, st, s, false).st.mlComment
  {
    var ss := MarkPassed(env, s, c, j);
    var c1, c2 := c.(i := j + 1, ssComment := ss), c.(i := j + 2, ssComment := ss);
    InsideStep(env, s, c1);
    LeadsStep(env, s, c1, c2);
    LeadsOn(env, s, Beginning(st), c, c1);
    LeadsOn(env, s, Beginning(st), c1, c2);
    OpenAtEnd(env, st, s, c2);
  }

  /**
   A line that is one comment, up to its first closing mark: it leaves the comment open exactly if a slash stands before
   the mark, or a comment for the server started inside.
   */
  lemma CommentLine(env: Env, st: State, s: string, j: nat)
    requires ValidLine(s) && |s| == j + 3 && Opens(s, 0) && FirstClose(s, 2, j) && !env.preserveComments
    requires !st.mlComment && st.inString == NUL && !StartsAt(s, 0, st.delimiter)
    ensures Add(env, st, s, false).st.mlComment
       <==> (j > 2 && s[j - 1] == '/') || exists n :: 2 <= n < j && OpensForServer(s, n)
  {
    ClosedIff(s, 2, j, false);
    var c := Beginning(st);
    if Inside(s, 2, j, false) {
      CommentSkipped(env, s, c, j + 2);
      OpenAtEnd(env, st, s, c.(i := j + 2, pending := "", needSpace := true, ssComment := false,
                               st := st.(buffer := st.buffer + "")));
    } else {
      OpenStep(env, s, c);
      var c1 := c.(i := 2, pending := "", st := st.(buffer := st.buffer + "", mlComment := true));
      LeadsStep(env, s, c, c1);
      CommentLineOpen(env, st, s, j, c1);
    }
  }

  /** The smallest such lines. */
  lemma StaysOpenExamples(env: Env, d: Delimiter)
    requires !env.preserveComments && d[0] != '/'
    ensures Add(env, State("", NUL, false, d, []), "/*/*/" + [NUL], false).st.mlComment
    ensures Add(env, State("", NUL, false, d, []), "/*/*!*/" + [NUL], false).st.mlComment
  {
    var s, t := "/*/*/" + [NUL], "/*/*!*/" + [NUL];
    var st := State("", NUL, false, d, []);
    StartsWithItsHead(s, 0, d);
    StartsWithItsHead(t, 0, d);
    CommentLine(env, st, s, 3);
    assert OpensForServer(t, 2);
    CommentLine(env, st, t, 5);
  }
}
