/** What the client makes of a script that does not keep to its delimiters: it holds text back, and sends it in one. */
module ScriptHeld {
  import opened Text
  import opened Wrappers
  import opened SqlLexer
  import opened LexerContents
  import opened ScriptReader
  import opened DumpSpelling
  import DumpScript
  import DumpSession

  // ---------------------------------------------------------------------------------------------
  // Lines without a delimiter
  // ---------------------------------------------------------------------------------------------

  lemma QuietOnceBegun(env: Env, s: string, i: nat, j: nat, q: char, d: Delimiter)
    requires ValidLine(s) && j < |s| && Quiet(env, s, i, j, q, false, d)
    ensures Quiet(env, s, i, j, q, true, d)
  {
  }

  /** A line with `q` open before it joins the statement whole; `first` if it may start one. */
  predicate KeepsLine(env: Env, line: string, q: char, first: bool, d: Delimiter) {
    && (first ==> line != "" && !IsSpace(line[0])) && !IsDelimiterCommand(line)
    && Quiet(env, line + [NUL], 0, |line|, q, !first, d)
  }

  /** So do all the lines, and no quote is open behind them. */
  predicate Keeps(env: Env, ls: seq<string>, q: char, first: bool, d: Delimiter) {
    if ls == [] then q == NUL
    else
      && KeepsLine(env, ls[0], q, first, d)
      && Keeps(env, ls[1..], QuoteAt(env, ls[0] + [NUL], 0, |ls[0]|, q), false, d)
  }

  function HeldText(ls: seq<string>): string {
    if ls == [] then "" else ls[0] + "\n" + HeldText(ls[1..])
  }

  lemma {:induction false} HeldConcat(a: seq<string>, b: seq<string>)
    ensures HeldText(a + b) == HeldText(a) + HeldText(b)
    decreases |a|
  {
    if a == [] {
      assert a + b == b;
    } else {
      assert (a + b)[1..] == a[1..] + b;
      HeldConcat(a[1..], b);
      assert a[0] + "\n" + (HeldText(a[1..]) + HeldText(b)) == a[0] + "\n" + HeldText(a[1..]) + HeldText(b);
    }
  }

  /** With text in hand, or before a line that is no command, the client does not look for commands. */
  predicate NoneExpected(env: Env, st: State, line: string) {
    !env.namedCommands && (st.buffer == "" ==> env.lineCommand(line + [NUL], st.delimiter).NotACommand?)
  }

  /** The client's state behind a line that joins the statement. */
  function WithLine(env: Env, st: State, line: string): State {
    st.(buffer := st.buffer + (line + "\n"), inString := QuoteAt(env, line + [NUL], 0, |line|, st.inString))
  }

  function WithLines(st: State, ls: seq<string>): State {
    st.(buffer := st.buffer + HeldText(ls), inString := NUL)
  }

  lemma LineKept(env: Env, st: State, line: string, first: bool)
    requires !st.mlComment && NoneExpected(env, st, line) && (st.buffer == "" ==> first)
    requires KeepsLine(env, line, st.inString, first, st.delimiter)
    ensures Turn(env, st, Line(line + [NUL], false)) == LineResult(WithLine(env, st, line), false)
  {
    var s := line + [NUL];
    if first && st.buffer != "" {
      QuietOnceBegun(env, s, 0, |line|, st.inString, st.delimiter);
    }
    assert TextStart(env, s, 0, st.buffer != "") == 0 && s[0..|line|] == line;
    InnerTurn(env, st, line);
  }

  lemma LineThen(env: Env, st: State, line: string, rest: seq<string>, first: bool, r: LineResult)
    requires !st.mlComment && NoneExpected(env, st, line) && (st.buffer == "" ==> first)
    requires KeepsLine(env, line, st.inString, first, st.delimiter)
    requires Session(env, WithLine(env, st, line), Terminated(rest)) == r
    ensures Session(env, st, Terminated([line] + rest)) == r
  {
    SessionOne(env, st, line);
    LineKept(env, st, line, first);
    SessionConcat(env, st, [line], rest);
  }

  lemma WithOneMore(env: Env, st: State, line: string, rest: seq<string>)
    ensures WithLines(WithLine(env, st, line), rest) == WithLines(st, [line] + rest)
  {
    assert ([line] + rest)[1..] == rest;
    assert st.buffer + (line + "\n") + HeldText(rest) == st.buffer + (line + "\n" + HeldText(rest));
  }

  lemma {:induction false} LinesKept(env: Env, st: State, ls: seq<string>, first: bool)
    requires !st.mlComment && Keeps(env, ls, st.inString, first, st.delimiter) && (st.buffer == "" ==> first)
    requires ls != [] ==> NoneExpected(env, st, ls[0])
    ensures Session(env, st, Terminated(ls)) == LineResult(WithLines(st, ls), false)
    decreases |ls|
  {
    if ls == [] {
      NothingRead(env, st);
      assert st.buffer + "" == st.buffer;
    } else {
      var line, rest := ls[0], ls[1..];
      assert ls == [line] + rest;
      LinesKept(env, WithLine(env, st, line), rest, false);
      WithOneMore(env, st, line, rest);
      LineThen(env, st, line, rest, first, LineResult(WithLines(st, ls), false));
    }
  }

  // ---------------------------------------------------------------------------------------------
  // Items that end with another delimiter
  // ---------------------------------------------------------------------------------------------

  predicate KeptItem(env: Env, spell: Speller, item: DumpScript.Item, d: Delimiter) {
    item.Statement? && spell(item) != [] && Keeps(env, spell(item), NUL, true, d)
  }

  /** Statements none of which, as spelled, holds the delimiter in force. */
  predicate AllKept(env: Env, spell: Speller, items: seq<DumpScript.Item>, d: Delimiter) {
    forall i :: 0 <= i < |items| ==> KeptItem(env, spell, items[i], d)
  }

  lemma KeptRest(env: Env, spell: Speller, items: seq<DumpScript.Item>, d: Delimiter)
    requires AllKept(env, spell, items, d) && items != []
    ensures KeptItem(env, spell, items[0], d) && AllKept(env, spell, items[1..], d)
    ensures Written(spell, items) == spell(items[0]) + Written(spell, items[1..])
    ensures Written(spell, items)[0] == spell(items[0])[0]
  {
    assert forall i :: 0 <= i < |items[1..]| ==> items[1..][i] == items[i + 1];
  }

  lemma LinesThen(env: Env, st: State, ls: seq<string>, rest: seq<string>, r: LineResult)
    requires !st.mlComment && st.inString == NUL && ls != [] && Keeps(env, ls, NUL, true, st.delimiter)
    requires NoneExpected(env, st, ls[0])
    requires Session(env, st.(buffer := st.buffer + HeldText(ls)), Terminated(rest)) == r
    ensures Session(env, st, Terminated(ls + rest)) == r
  {
    LinesKept(env, st, ls, true);
    SessionConcat(env, st, ls, rest);
  }

  lemma HeldOneByOne(buffer: string, ls: seq<string>, rest: seq<string>)
    ensures buffer + HeldText(ls) + HeldText(rest) == buffer + HeldText(ls + rest)
  {
    HeldConcat(ls, rest);
  }

  lemma {:induction false} ItemsKept(env: Env, spell: Speller, st: State, items: seq<DumpScript.Item>)
    requires !st.mlComment && st.inString == NUL && AllKept(env, spell, items, st.delimiter)
    requires items != [] ==> Written(spell, items) != [] && NoneExpected(env, st, Written(spell, items)[0])
    ensures Session(env, st, Terminated(Written(spell, items)))
         == LineResult(st.(buffer := st.buffer + HeldText(Written(spell, items))), false)
    decreases |items|
  {
    if items == [] {
      NothingRead(env, st);
      assert st.buffer + "" == st.buffer;
    } else {
      KeptRest(env, spell, items, st.delimiter);
      var ls, rest := spell(items[0]), Written(spell, items[1..]);
      var st' := st.(buffer := st.buffer + HeldText(ls));
      if items[1..] != [] {
        KeptRest(env, spell, items[1..], st.delimiter);
      }
      ItemsKept(env, spell, st', items[1..]);
      HeldOneByOne(st.buffer, ls, rest);
      LinesThen(env, st, ls, rest, LineResult(st.(buffer := st.buffer + HeldText(ls + rest)), false));
    }
  }

  lemma {:induction false} WrittenConcat(spell: Speller, a: seq<DumpScript.Item>, b: seq<DumpScript.Item>)
    ensures Written(spell, a + b) == Written(spell, a) + Written(spell, b)
    decreases |a|
  {
    if a == [] {
      assert a + b == b;
    } else {
      assert (a + b)[1..] == a[1..] + b;
      WrittenConcat(spell, a[1..], b);
      assert spell(a[0]) + (Written(spell, a[1..]) + Written(spell, b))
          == spell(a[0]) + Written(spell, a[1..]) + Written(spell, b);
    }
  }

  /** The client's state behind items that keep to their delimiters, and others that end with one not in force. */
  function Holding(env: Env, spell: Speller, a: seq<DumpScript.Item>, c: seq<DumpScript.Item>, d: Delimiter, d': Delimiter,
                   sent: seq<string>): State
    requires WellSpelled(env, spell, a, d) && DumpSession.Ends(a, d).Some?
  {
    State(HeldText(Written(spell, c)), NUL, false, d', sent + Texts(env, spell, a, d))
  }

  /**
   Where a script stops keeping to its delimiters: the statements before are sent one by one, and all that follows, as
   long as it does not change the delimiter, is held; at the end of the file it is sent in one.
   */
  lemma RestHeld(env: Env, graph: char -> bool, spell: Speller, a: seq<DumpScript.Item>, c: seq<DumpScript.Item>,
                 d: Delimiter, d': Delimiter, sent: seq<string>)
    requires WellSpelled(env, spell, a, d) && DumpSession.Ends(a, d) == Some(d') && AllKept(env, spell, c, d')
    requires !env.namedCommands
    requires c != [] ==> Written(spell, c) != [] && env.lineCommand(Written(spell, c)[0] + [NUL], d').NotACommand?
    ensures Session(env, State("", NUL, false, d, sent), Terminated(Written(spell, a + c)))
         == LineResult(Holding(env, spell, a, c, d, d', sent), false)
    ensures var t := Trimmed(graph, HeldText(Written(spell, c)));
      AtEnd(graph, Holding(env, spell, a, c, d, d', sent)).sent
      == sent + Texts(env, spell, a, d) + (if t == "" then [] else [t])
  {
    var st := State("", NUL, false, d, sent);
    ScriptSent(env, spell, a, d, sent);
    WrittenConcat(spell, a, c);
    SessionConcat(env, st, Written(spell, a), Written(spell, c));
    var st' := State("", NUL, false, d', sent + Texts(env, spell, a, d));
    ItemsKept(env, spell, st', c);
    assert "" + HeldText(Written(spell, c)) == HeldText(Written(spell, c));
  }

  // ---------------------------------------------------------------------------------------------
  // A DELIMITER line behind text that is held
  // ---------------------------------------------------------------------------------------------

  const WORD := "DELIMITER "

  lemma WordIsQuiet(env: Env, s: string)
    requires ValidLine(s) && |s| > 11 && s[..10] == WORD
    ensures Quiet(env, s, 0, 10, NUL, true, PAIR) && QuoteAt(env, s, 0, 10, NUL) == NUL
  {
    assert AllTame(WORD) && s[0..0 + 10] == WORD;
    TameScans(WORD);
    ScanIsQuiet(env, s, 0, WORD, NUL, true, PAIR);
  }

  /**
   It is no command then. One that names the delimiter in force cuts there: what is held is sent, with the word behind
   it, and where the server refuses that the client stops.
   */
  lemma WordSent(env: Env, st: State)
    requires !st.mlComment && st.inString == NUL && st.buffer != "" && st.delimiter == PAIR && !env.namedCommands
    requires env.statement(st.buffer + WORD, PAIR) == Quit
    ensures Turn(env, st, Line(WORD + PAIR + [NUL], false))
         == LineResult(State("", NUL, false, PAIR, st.sent + [st.buffer + WORD]), true)
  {
    var s := WORD + PAIR + [NUL];
    WordIsQuiet(env, s);
    assert s[10..12] == PAIR && StartsAt(s, 10, PAIR);
    DelimiterCuts(env, st, s, 10, false);
    NoTrailer(env, s);
    assert s[0..10] == WORD && st.buffer + s[0..10] + s[12..12] == st.buffer + WORD;
  }

  lemma LoneSemicolon(env: Env, s: string, i: nat)
    requires ValidLine(s) && i == |s| - 2 && s[i] == ';'
    ensures Quiet(env, s, i, i + 1, NUL, true, PAIR) && QuoteAt(env, s, i, i + 1, NUL) == NUL
  {
    assert s[i..i + 2][1] == NUL;
    QuietOne(env, s, i, true, PAIR);
  }

  /** A line that looks like a change of the delimiter gets no newline. */
  lemma WordTurn(env: Env, st: State, line: string)
    requires !st.mlComment && st.inString == NUL && st.buffer != "" && !env.namedCommands && IsDelimiterCommand(line)
    requires Quiet(env, line + [NUL], 0, |line|, NUL, true, st.delimiter)
    requires QuoteAt(env, line + [NUL], 0, |line|, NUL) == NUL
    ensures Turn(env, st, Line(line + [NUL], false)) == LineResult(st.(buffer := st.buffer + line), false)
  {
    assert (line + [NUL])[0..|line|] == line && line + "" == line;
    InnerTurn(env, st, line);
  }

  lemma WordsAreQuiet(env: Env, s: string)
    requires s == WORD + ";" + [NUL]
    ensures Quiet(env, s, 0, 11, NUL, true, PAIR) && QuoteAt(env, s, 0, 11, NUL) == NUL
  {
    WordIsQuiet(env, s);
    LoneSemicolon(env, s, 10);
    QuietConcat(env, s, 0, 10, 11, NUL, true, PAIR);
  }

  lemma WordIsCommand(line: string)
    requires |line| > 8 && line[..9] == WORD[..9]
    ensures IsDelimiterCommand(line)
  {
    forall k | 0 <= k < 9
      ensures ToLower(line[k]) == "delimiter"[k]
    {
      assert line[k] == line[..9][k] == WORD[k];
    }
  }

  /** One that names another delimiter is part of the text. */
  lemma WordHeld(env: Env, st: State)
    requires !st.mlComment && st.inString == NUL && st.buffer != "" && st.delimiter == PAIR && !env.namedCommands
    ensures Turn(env, st, Line(WORD + ";" + [NUL], false)) == LineResult(st.(buffer := st.buffer + (WORD + ";")), false)
  {
    WordsAreQuiet(env, WORD + ";" + [NUL]);
    WordIsCommand(WORD + ";");
    WordTurn(env, st, WORD + ";");
  }

  lemma OneLineIgnored(env: Env, st: State, ls: seq<string>, line: string, r: LineResult)
    requires Session(env, st, Terminated(ls)) == r && r.quit
    ensures Session(env, st, Terminated(ls + [line])) == r
  {
    var last := Line(line + [NUL], false);
    assert Terminated(ls + [line]) == Terminated(ls) + [last];
    SessionSnoc(env, st, Terminated(ls), last);
  }

  lemma {:induction false} StaysSo(f: seq<string> -> LineResult, a: seq<string>, b: seq<string>, r: LineResult)
    requires f(a) == r && forall ls, line :: f(ls) == r ==> f(ls + [line]) == r
    ensures f(a + b) == r
    decreases |b|
  {
    if b == [] {
      assert a + b == a;
    } else {
      assert f(a + [b[0]]) == r;
      StaysSo(f, a + [b[0]], b[1..], r);
      assert a + [b[0]] + b[1..] == a + b;
    }
  }

  lemma SessionQuits(env: Env, st: State, a: seq<string>, b: seq<string>, r: LineResult)
    requires Session(env, st, Terminated(a)) == r && r.quit
    ensures Session(env, st, Terminated(a + b)) == r
  {
    var f := ls => Session(env, st, Terminated(ls));
    forall ls, line | f(ls) == r
      ensures f(ls + [line]) == r
    {
      OneLineIgnored(env, st, ls, line, r);
    }
    StaysSo(f, a, b, r);
  }

  /** So what follows such a line is never read. */
  lemma RestCut(env: Env, st: State, ls: seq<string>, more: seq<string>, st': State)
    requires Session(env, st, Terminated(ls)) == LineResult(st', false)
    requires !st'.mlComment && st'.inString == NUL && st'.buffer != "" && st'.delimiter == PAIR && !env.namedCommands
    requires env.statement(st'.buffer + WORD, PAIR) == Quit
    ensures Session(env, st, Terminated(ls + [WORD + PAIR] + more))
         == LineResult(State("", NUL, false, PAIR, st'.sent + [st'.buffer + WORD]), true)
  {
    SessionConcat(env, st, ls, [WORD + PAIR]);
    SessionOne(env, st', WORD + PAIR);
    WordSent(env, st');
    SessionQuits(env, st, ls + [WORD + PAIR], more, Session(env, st, Terminated(ls + [WORD + PAIR])));
  }

  // ---------------------------------------------------------------------------------------------
  // Statements that set variables
  // ---------------------------------------------------------------------------------------------

  /** Text that is quiet up to one semicolon at its end holds no two of them. */
  lemma OneSemicolon(env: Env, text: string)
    requires text != "" && !IsSpace(text[0]) && ToLower(text[0]) != 'd'
    requires var s := text + ";" + [NUL];
      Quiet(env, s, 0, |text|, NUL, false, PAIR) && QuoteAt(env, s, 0, |text|, NUL) == NUL
    ensures Keeps(env, [text + ";"], NUL, true, PAIR)
  {
    var line := text + ";";
    var s := line + [NUL];
    LoneSemicolon(env, s, |text|);
    QuietConcat(env, s, 0, |text|, |line|, NUL, false, PAIR);
    assert line[0] == text[0] && [line][1..] == [];
  }

  lemma PlainKept(env: Env, t: string)
    requires Scan(t, NUL) == Some(NUL) && t != "" && t[0] == 'S'
    ensures Keeps(env, [t + ";"], NUL, true, PAIR)
  {
    var s := t + ";" + [NUL];
    assert s[0..0 + |t|] == t;
    ScanIsQuiet(env, s, 0, t, NUL, false, PAIR);
    OneSemicolon(env, t);
  }

  lemma CoveredKept(env: Env, t: string, gap: string)
    requires (gap == "" || gap == " ") && Scan(t, NUL) == Some(NUL)
    ensures Keeps(env, ["/*!" + t + "*/" + gap + ";"], NUL, true, PAIR)
  {
    var text := "/*!" + t + "*/" + gap;
    var s := text + ";" + [NUL];
    CoveredParts(t, gap, ";" + [NUL]);
    assert s == text + (";" + [NUL]) && s[|text|] == ';';
    CoveredIsQuiet(env, s, t, gap, PAIR);
    OneSemicolon(env, text);
  }

  /** Printed with one semicolon behind it, a statement that sets variables is held while two are the delimiter. */
  lemma SettingKept(env: Env, version: nat, actions: seq<DumpScript.Action>)
    requires actions != [] && AllSayable(actions)
    ensures Keeps(env, [SetText(version, actions) + ";"], NUL, true, PAIR)
  {
    ListScans(actions);
    if version == 0 {
      PlainScans(List(actions));
      PlainKept(env, "SET " + List(actions));
    } else {
      CoveredScans(version, List(actions));
      CoveredKept(env, Digits(version) + " SET " + List(actions) + " ", if version < 50003 then "" else " ");
    }
  }

  /** An item behind the point where the script stops keeping to its delimiters. */
  predicate Holdable(env: Env, deed: Speller, item: DumpScript.Item) {
    && item.Statement? && item.ending == ";"
    && if DumpSession.Does(item) || item.actions == [] then deed(item) != [] && Keeps(env, deed(item), NUL, true, PAIR)
       else AllSayable(item.actions)
  }

  lemma HoldableIsKept(env: Env, deed: Speller, items: seq<DumpScript.Item>)
    requires forall i :: 0 <= i < |items| ==> Holdable(env, deed, items[i])
    ensures AllKept(env, item => Spell(deed, item), items, PAIR)
  {
    forall i | 0 <= i < |items|
      ensures KeptItem(env, item => Spell(deed, item), items[i], PAIR)
    {
      assert Holdable(env, deed, items[i]);
      if !DumpSession.Does(items[i]) && items[i].actions != [] {
        SettingKept(env, items[i].version, items[i].actions);
      }
    }
  }

  /**
   A dump that leaves two semicolons in force, and prints no DELIMITER line behind that: what comes before is sent
   statement by statement, the footer and all else behind it in one when the file ends.
   */
  lemma SpelledRestHeld(env: Env, graph: char -> bool, deed: Speller, a: seq<DumpScript.Item>, c: seq<DumpScript.Item>,
                        sent: seq<string>)
    requires Client(env) && !env.namedCommands && (forall i :: 0 <= i < |a| ==> Presentable(env, deed, a[i]))
    requires DumpSession.Ends(a, ";") == Some(PAIR) && forall i :: 0 <= i < |c| ==> Holdable(env, deed, c[i])
    requires c != [] ==> Spell(deed, c[0]) != [] && env.lineCommand(Spell(deed, c[0])[0] + [NUL], PAIR).NotACommand?
    ensures var spell := item => Spell(deed, item);
      && WellSpelled(env, spell, a, ";")
      && var r := Session(env, State("", NUL, false, ";", sent), Terminated(Written(spell, a + c)));
         var t := Trimmed(graph, HeldText(Written(spell, c)));
      !r.quit && AtEnd(graph, r.st).sent == sent + Texts(env, spell, a, ";") + (if t == "" then [] else [t])
  {
    var spell := item => Spell(deed, item);
    PresentableIsWellSpelled(env, deed, a, ";");
    HoldableIsKept(env, deed, c);
    if c != [] {
      KeptRest(env, spell, c, PAIR);
    }
    RestHeld(env, graph, spell, a, c, ";", PAIR, sent);
  }
}
