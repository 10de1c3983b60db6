/** A dump script read by the client: what it sends is exactly the statements that end with the delimiter in force. */
module ScriptReader {
  import opened Text
  import opened Wrappers
  import opened SqlLexer
  import opened LexerContents
  import DumpScript
  import DumpSession

  /** The delimiter a dump prints CREATE statements under. */
  const PAIR: Delimiter := ";;"

  // ---------------------------------------------------------------------------------------------
  // Sessions
  // ---------------------------------------------------------------------------------------------

  /** The lines as the client gets them: terminated, and not cut. */
  function Terminated(ls: seq<string>): (r: seq<Line>)
    ensures |r| == |ls| && forall k :: 0 <= k < |r| ==> ValidLine(r[k].text)
  {
    seq(|ls|, k requires 0 <= k < |ls| => Line(ls[k] + [NUL], false))
  }

  lemma SessionSnoc(env: Env, st: State, ls: seq<Line>, line: Line)
    requires ValidLine(line.text) && forall k :: 0 <= k < |ls| ==> ValidLine(ls[k].text)
    ensures var r := Session(env, st, ls);
      Session(env, st, ls + [line]) == if r.quit then r else Turn(env, r.st, line)
  {
    assert (ls + [line])[..|ls|] == ls;
  }

  /** One more line makes the same of equal sessions. */
  lemma OneMoreAlike(env: Env, st: State, a: seq<string>, st': State, b: seq<string>, line: string)
    requires Session(env, st, Terminated(a)) == Session(env, st', Terminated(b))
    ensures Session(env, st, Terminated(a + [line])) == Session(env, st', Terminated(b + [line]))
  {
    var last := Line(line + [NUL], false);
    assert Terminated(a + [line]) == Terminated(a) + [last] && Terminated(b + [line]) == Terminated(b) + [last];
    SessionSnoc(env, st, Terminated(a), last);
    SessionSnoc(env, st', Terminated(b), last);
  }

  lemma {:induction false} AlikeThroughout(f: seq<string> -> LineResult, g: seq<string> -> LineResult, ls: seq<string>)
    requires f([]) == g([]) && forall ls, line :: f(ls) == g(ls) ==> f(ls + [line]) == g(ls + [line])
    ensures f(ls) == g(ls)
    decreases |ls|
  {
    if ls != [] {
      var before, line := ls[..|ls| - 1], ls[|ls| - 1];
      AlikeThroughout(f, g, before);
      assert before + [line] == ls;
    }
  }

  lemma SessionConcat(env: Env, st: State, a: seq<string>, b: seq<string>)
    requires !Session(env, st, Terminated(a)).quit
    ensures Session(env, st, Terminated(a + b)) == Session(env, Session(env, st, Terminated(a)).st, Terminated(b))
  {
    var st' := Session(env, st, Terminated(a)).st;
    var f, g := ls => Session(env, st, Terminated(a + ls)), ls => Session(env, st', Terminated(ls));
    assert a + [] == a;
    forall ls, line | f(ls) == g(ls)
      ensures f(ls + [line]) == g(ls + [line])
    {
      OneMoreAlike(env, st, a + ls, st', ls, line);
      assert a + ls + [line] == a + (ls + [line]);
    }
    AlikeThroughout(f, g, b);
  }

  lemma SessionOne(env: Env, st: State, line: string)
    ensures Session(env, st, Terminated([line])) == Turn(env, st, Line(line + [NUL], false))
  {
    assert Terminated([line])[..0] == [];
  }

  // ---------------------------------------------------------------------------------------------
  // One statement
  // ---------------------------------------------------------------------------------------------

  /** The line is not taken for a client command. */
  predicate NoCommand(env: Env, s: string, q: char, begun: bool, d: Delimiter) {
    (env.namedCommands || !begun) && q == NUL ==> env.lineCommand(s, d).NotACommand?
  }

  /** A line of a statement, not its last: quiet to its end. */
  predicate Inner(env: Env, line: string, q: char, begun: bool, d: Delimiter) {
    var s := line + [NUL];
    NoCommand(env, s, q, begun, d) && Quiet(env, s, TextStart(env, s, 0, begun), |line|, q, begun, d)
  }

  /** The last line of a statement: quiet up to the delimiter at its end, outside strings. */
  predicate Last(env: Env, line: string, q: char, begun: bool, d: Delimiter) {
    var s, j := line + [NUL], |line| - |d|;
    && NoCommand(env, s, q, begun, d) && 0 <= j
    && var k := TextStart(env, s, 0, begun);
    k <= j && StartsAt(s, j, d) && Quiet(env, s, k, j, q, begun, d) && QuoteAt(env, s, k, j, q) == NUL
  }

  /** What an inner line adds to the statement. */
  function Adds(env: Env, line: string, q: char, buffer: string): string {
    var s := line + [NUL];
    var k := TextStart(env, s, 0, buffer != "");
    s[k..|line|] + LineEnd(buffer, s[k..|line|], QuoteAt(env, s, k, |line|, q), false)
  }

  function QuoteBehind(env: Env, line: string, q: char, begun: bool): char {
    var s := line + [NUL];
    QuoteAt(env, s, TextStart(env, s, 0, begun), |line|, q)
  }

  lemma InnerTurn(env: Env, st: State, line: string)
    requires !st.mlComment && Inner(env, line, st.inString, st.buffer != "", st.delimiter)
    ensures Turn(env, st, Line(line + [NUL], false))
         == LineResult(st.(buffer := st.buffer + Adds(env, line, st.inString, st.buffer),
                           inString := QuoteBehind(env, line, st.inString, st.buffer != "")), false)
  {
    var s := line + [NUL];
    QuietLine(env, st, s, false);
    var k := TextStart(env, s, 0, st.buffer != "");
    var text, q := s[k..|line|], QuoteAt(env, s, k, |line|, st.inString);
    assert st.buffer + text + LineEnd(st.buffer, text, q, false) == st.buffer + (text + LineEnd(st.buffer, text, q, false));
  }

  /** The statement a last line completes. */
  function Completed(env: Env, line: string, buffer: string, d: Delimiter): string
    requires |d| <= |line| && TextStart(env, line + [NUL], 0, buffer != "") <= |line| - |d|
  {
    buffer + line[TextStart(env, line + [NUL], 0, buffer != "")..|line| - |d|]
  }

  /** A delimiter at the end of the line: nothing is left to read. */
  lemma NothingBehind(env: Env, s: string, st: State, text: string, ss: bool)
    requires ValidLine(s) && env.statement(text, st.delimiter) == Go(st.delimiter)
    ensures Resume(env, s, st, text, |s| - 1, ss, false)
         == LineResult(State("", NUL, false, st.delimiter, st.sent + [text]), false)
  {
  }

  lemma NoTrailer(env: Env, s: string)
    requires ValidLine(s)
    ensures TrailerEnd(env, s, |s| - 1) == |s| - 1
  {
  }

  lemma LastAdd(env: Env, st: State, line: string)
    requires !st.mlComment && Last(env, line, st.inString, st.buffer != "", st.delimiter)
    requires env.statement(Completed(env, line, st.buffer, st.delimiter), st.delimiter) == Go(st.delimiter)
    ensures var text := Completed(env, line, st.buffer, st.delimiter);
      Add(env, st, line + [NUL], false) == LineResult(State("", NUL, false, st.delimiter, st.sent + [text]), false)
  {
    var s, j := line + [NUL], |line| - |st.delimiter|;
    var k := TextStart(env, s, 0, st.buffer != "");
    var text := Completed(env, line, st.buffer, st.delimiter);
    DelimiterCuts(env, st, s, j, false);
    NoTrailer(env, s);
    assert s[k..j] == line[k..j] && s[|line|..|line|] == "";
    assert st.buffer + s[k..j] + "" == text;
    NothingBehind(env, s, st, text, SsAt(env, s, k, j, st.inString, false));
  }

  lemma LastTurn(env: Env, st: State, line: string)
    requires !st.mlComment && Last(env, line, st.inString, st.buffer != "", st.delimiter)
    requires env.statement(Completed(env, line, st.buffer, st.delimiter), st.delimiter) == Go(st.delimiter)
    ensures var text := Completed(env, line, st.buffer, st.delimiter);
      Turn(env, st, Line(line + [NUL], false)) == LineResult(State("", NUL, false, st.delimiter, st.sent + [text]), false)
  {
    LastAdd(env, st, line);
  }

  /** The lines of a statement, read with `buffer` in hand and `q` open: all inner ones, and the last. */
  predicate Reads(env: Env, ls: seq<string>, q: char, buffer: string, d: Delimiter) {
    ls != [] &&
    if |ls| == 1 then Last(env, ls[0], q, buffer != "", d)
    else
      && Inner(env, ls[0], q, buffer != "", d)
      && Reads(env, ls[1..], QuoteBehind(env, ls[0], q, buffer != ""), buffer + Adds(env, ls[0], q, buffer), d)
  }

  function TextOf(env: Env, ls: seq<string>, q: char, buffer: string, d: Delimiter): string
    requires Reads(env, ls, q, buffer, d)
  {
    if |ls| == 1 then Completed(env, ls[0], buffer, d)
    else TextOf(env, ls[1..], QuoteBehind(env, ls[0], q, buffer != ""), buffer + Adds(env, ls[0], q, buffer), d)
  }

  /** A statement of any number of lines is sent whole, and nothing is left of it. */
  lemma {:induction false} StatementSent(env: Env, st: State, ls: seq<string>)
    requires !st.mlComment && Reads(env, ls, st.inString, st.buffer, st.delimiter)
    requires env.statement(TextOf(env, ls, st.inString, st.buffer, st.delimiter), st.delimiter) == Go(st.delimiter)
    ensures Session(env, st, Terminated(ls))
         == LineResult(State("", NUL, false, st.delimiter,
                             st.sent + [TextOf(env, ls, st.inString, st.buffer, st.delimiter)]), false)
    decreases |ls|
  {
    assert ls == [ls[0]] + ls[1..];
    SessionOne(env, st, ls[0]);
    if |ls| == 1 {
      LastTurn(env, st, ls[0]);
      assert ls == [ls[0]];
    } else {
      InnerTurn(env, st, ls[0]);
      SessionConcat(env, st, [ls[0]], ls[1..]);
      StatementSent(env, Session(env, st, Terminated([ls[0]])).st, ls[1..]);
    }
  }

  /** A statement that ends with anything else, quiet to its end, is not sent but stays in hand. */
  lemma OtherwiseKept(env: Env, st: State, line: string)
    requires !st.mlComment && Inner(env, line, st.inString, st.buffer != "", st.delimiter)
    ensures var r := Session(env, st, Terminated([line]));
      && !r.quit && r.st.sent == st.sent && r.st.delimiter == st.delimiter
      && r.st.buffer == st.buffer + Adds(env, line, st.inString, st.buffer)
  {
    SessionOne(env, st, line);
    InnerTurn(env, st, line);
  }

  // ---------------------------------------------------------------------------------------------
  // A script
  // ---------------------------------------------------------------------------------------------

  /** How the items of a script are written out in lines. */
  type Speller = DumpScript.Item -> seq<string>

  /** The client takes the line for a command that changes the delimiter. */
  predicate Changes(env: Env, line: string, d: Delimiter, d': Delimiter) {
    env.lineCommand(line + [NUL], d) == LineCommand(Keep, Go(d'))
  }

  predicate IsDelimiter(d: string) {
    |d| > 0 && NUL !in d && '\\' !in d
  }

  /**
   Item by item, from the delimiter `d` on: a change of the delimiter is a line the client takes for one, a statement
   is quiet up to its own ending, and running it changes no delimiter.
   */
  predicate WellSpelled(env: Env, spell: Speller, items: seq<DumpScript.Item>, d: Delimiter) {
    items == [] ||
    match items[0]
    case Delimiter(text) =>
      && IsDelimiter(text) && |spell(items[0])| == 1 && Changes(env, spell(items[0])[0], d, text)
      && WellSpelled(env, spell, items[1..], text)
    case Statement(_, _, ending) =>
      && IsDelimiter(ending) && Reads(env, spell(items[0]), NUL, "", ending)
      && env.statement(TextOf(env, spell(items[0]), NUL, "", ending), ending) == Go(ending)
      && (ending == d ==> WellSpelled(env, spell, items[1..], d))
  }

  function Written(spell: Speller, items: seq<DumpScript.Item>): seq<string> {
    if items == [] then [] else spell(items[0]) + Written(spell, items[1..])
  }

  /** The texts of the statements, in order. */
  function Texts(env: Env, spell: Speller, items: seq<DumpScript.Item>, d: Delimiter): seq<string>
    requires WellSpelled(env, spell, items, d) && DumpSession.Ends(items, d).Some?
  {
    if items == [] then []
    else match items[0]
      case Delimiter(text) => Texts(env, spell, items[1..], text)
      case Statement(_, _, ending) =>
        [TextOf(env, spell(items[0]), NUL, "", ending)] + Texts(env, spell, items[1..], d)
  }

  lemma DelimiterRead(env: Env, ls: seq<string>, d: Delimiter, d': Delimiter, sent: seq<string>)
    requires |ls| == 1 && Changes(env, ls[0], d, d')
    ensures Session(env, State("", NUL, false, d, sent), Terminated(ls)) == LineResult(State("", NUL, false, d', sent), false)
  {
    assert ls == [ls[0]];
    SessionOne(env, State("", NUL, false, d, sent), ls[0]);
  }

  lemma DelimiterThen(env: Env, ls: seq<string>, rest: seq<string>, d: Delimiter, d': Delimiter, sent: seq<string>,
                      r: LineResult)
    requires |ls| == 1 && Changes(env, ls[0], d, d')
    requires Session(env, State("", NUL, false, d', sent), Terminated(rest)) == r
    ensures Session(env, State("", NUL, false, d, sent), Terminated(ls + rest)) == r
  {
    DelimiterRead(env, ls, d, d', sent);
    SessionConcat(env, State("", NUL, false, d, sent), ls, rest);
  }

  lemma StatementThen(env: Env, ls: seq<string>, rest: seq<string>, d: Delimiter, sent: seq<string>, r: LineResult)
    requires Reads(env, ls, NUL, "", d) && env.statement(TextOf(env, ls, NUL, "", d), d) == Go(d)
    requires Session(env, State("", NUL, false, d, sent + [TextOf(env, ls, NUL, "", d)]), Terminated(rest)) == r
    ensures Session(env, State("", NUL, false, d, sent), Terminated(ls + rest)) == r
  {
    StatementSent(env, State("", NUL, false, d, sent), ls);
    SessionConcat(env, State("", NUL, false, d, sent), ls, rest);
  }

  lemma NothingRead(env: Env, st: State)
    ensures Session(env, st, Terminated([])) == LineResult(st, false)
  {
  }

  /**
   A script whose statements all end with the delimiter in force is sent to the server statement by statement: each
   one exactly as written, nothing else, nothing left over, and the client ends with the delimiter the script leaves.
   */
  lemma {:induction false} ScriptSent(env: Env, spell: Speller, items: seq<DumpScript.Item>, d: Delimiter, sent: seq<string>)
    requires WellSpelled(env, spell, items, d) && DumpSession.Ends(items, d).Some?
    ensures var d' := DumpSession.Ends(items, d).value;
      IsDelimiter(d') && Session(env, State("", NUL, false, d, sent), Terminated(Written(spell, items)))
      == LineResult(State("", NUL, false, d', sent + Texts(env, spell, items, d)), false)
    decreases |items|
  {
    if items == [] {
      NothingRead(env, State("", NUL, false, d, sent));
      assert sent + [] == sent;
    } else {
      var ls, rest := spell(items[0]), Written(spell, items[1..]);
      var d' := DumpSession.Ends(items, d).value;
      match items[0]
      case Delimiter(text) =>
        ScriptSent(env, spell, items[1..], text, sent);
        var r := LineResult(State("", NUL, false, d', sent + Texts(env, spell, items, d)), false);
        DelimiterThen(env, ls, rest, d, text, sent, r);
      case Statement(_, _, ending) =>
        var t := TextOf(env, ls, NUL, "", ending);
        ScriptSent(env, spell, items[1..], d, sent + [t]);
        assert sent + [t] + Texts(env, spell, items[1..], d) == sent + ([t] + Texts(env, spell, items[1..], d));
        var r := LineResult(State("", NUL, false, d', sent + Texts(env, spell, items, d)), false);
        StatementThen(env, ls, rest, d, sent, r);
    }
  }
}
