/** How the statements of a script that set variables are spelled, and that the client reads them as they are meant. */
module DumpSpelling {
  import opened Text
  import opened Wrappers
  import opened SqlLexer
  import opened LexerContents
  import opened ScriptReader
  import opened DumpScript
  import DumpSession

  // ---------------------------------------------------------------------------------------------
  // Text that needs no second look
  // ---------------------------------------------------------------------------------------------

  /** Outside strings, a character that starts nothing. */
  predicate Tame(x: char) {
    x != NUL && x != '\\' && !IsQuote(x) && x != '#' && x != '-' && x != '/' && x != ';'
  }

  predicate AllTame(t: string) {
    forall i :: 0 <= i < |t| ==> Tame(t[i])
  }

  /** A text that can stand between quotes. */
  predicate Quotable(t: string) {
    forall i :: 0 <= i < |t| ==> t[i] != NUL && t[i] != '\\' && t[i] != '\''
  }

  /** The open quote behind tame text and strings. */
  function Scan(t: string, q: char): Option<char> {
    if t == "" then Some(q)
    else if t[0] == '\'' && (q == NUL || q == '\'') then Scan(t[1..], if q == NUL then '\'' else NUL)
    else if if q == NUL then Tame(t[0]) else t[0] != NUL && t[0] != '\\' then Scan(t[1..], q)
    else None
  }

  lemma {:induction false} ScanConcat(a: string, b: string, q: char)
    ensures Scan(a + b, q) == if Scan(a, q).Some? then Scan(b, Scan(a, q).value) else None
    decreases |a|
  {
    if a == "" {
      assert a + b == b;
    } else {
      assert (a + b)[1..] == a[1..] + b;
      ScanConcat(a[1..], b, if a[0] == '\'' && q == NUL then '\'' else if a[0] == '\'' && q == '\'' then NUL else q);
    }
  }

  lemma {:induction false} TameScans(t: string)
    requires AllTame(t)
    ensures Scan(t, NUL) == Some(NUL)
    decreases |t|
  {
    if t != "" {
      assert Tame(t[0]) && forall i :: 0 <= i < |t[1..]| ==> t[1..][i] == t[i + 1];
      TameScans(t[1..]);
    }
  }

  lemma {:induction false} InQuotes(t: string)
    requires Quotable(t)
    ensures Scan(t + "'", '\'') == Some(NUL)
    decreases |t|
  {
    if t == "" {
      assert t + "'" == "'" && "'"[1..] == "";
    } else {
      assert t[0] != '\'' && forall i :: 0 <= i < |t[1..]| ==> t[1..][i] == t[i + 1];
      assert (t + "'")[1..] == t[1..] + "'";
      InQuotes(t[1..]);
    }
  }

  lemma QuotedScans(t: string)
    requires Quotable(t)
    ensures Scan("'" + t + "'", NUL) == Some(NUL)
  {
    assert ("'" + t + "'")[1..] == t + "'";
    InQuotes(t);
  }

  lemma TwoScan(a: string, b: string)
    requires Scan(a, NUL) == Some(NUL) && Scan(b, NUL) == Some(NUL)
    ensures Scan(a + b, NUL) == Some(NUL)
  {
    ScanConcat(a, b, NUL);
  }

  /** What scans is quiet, wherever it stands. */
  lemma {:induction false} ScanIsQuiet(env: Env, s: string, i: nat, t: string, q: char, begun: bool, d: Delimiter)
    requires ValidLine(s) && i + |t| < |s| && s[i..i + |t|] == t && d[0] == ';'
    requires (q == NUL || q == '\'') && Scan(t, q).Some?
    ensures Quiet(env, s, i, i + |t|, q, begun, d) && QuoteAt(env, s, i, i + |t|, q) == Scan(t, q).value
    decreases |t|
  {
    if t != "" {
      assert s[i] == t[0] && s[i + 1..i + |t|] == t[1..];
      StartsWithItsHead(s, i, d);
      ScanIsQuiet(env, s, i + 1, t[1..], QuoteAfter(s[i], q), true, d);
    }
  }

  // ---------------------------------------------------------------------------------------------
  // Lines
  // ---------------------------------------------------------------------------------------------

  lemma {:induction false} QuietConcat(env: Env, s: string, i: nat, m: nat, j: nat, q: char, begun: bool, d: Delimiter)
    requires ValidLine(s) && i < m <= j < |s| && Quiet(env, s, i, m, q, begun, d)
    requires Quiet(env, s, m, j, QuoteAt(env, s, i, m, q), true, d)
    ensures Quiet(env, s, i, j, q, begun, d)
    ensures QuoteAt(env, s, i, j, q) == QuoteAt(env, s, m, j, QuoteAt(env, s, i, m, q))
    decreases m - i
  {
    var n := if Escaped(env, s, i, q) then 2 else 1;
    var q' := if n == 2 then q else QuoteAfter(s[i], q);
    assert QuoteAt(env, s, i, m, q) == QuoteAt(env, s, i + n, m, q');
    if i + n < m {
      QuietConcat(env, s, i + n, m, j, q', true, d);
    }
  }

  lemma QuietOne(env: Env, s: string, i: nat, begun: bool, d: Delimiter)
    requires ValidLine(s) && i < |s| - 1 && s[i] != NUL && s[i] != '\\' && !IsQuote(s[i]) && !Special(s, i, begun, d)
    ensures Quiet(env, s, i, i + 1, NUL, begun, d) && QuoteAt(env, s, i, i + 1, NUL) == NUL
  {
    assert Quiet(env, s, i + 1, i + 1, NUL, true, d);
  }

  /** The mark that opens a comment for the server. */
  lemma OpeningIsQuiet(env: Env, s: string, d: Delimiter)
    requires ValidLine(s) && |s| > 4 && s[..3] == "/*!" && d[0] == ';'
    ensures Quiet(env, s, 0, 3, NUL, false, d) && QuoteAt(env, s, 0, 3, NUL) == NUL
  {
    assert s[0] == s[..3][0] && s[1] == s[..3][1] && s[2] == s[..3][2];
    StartsWithItsHead(s, 0, d);
    QuietOne(env, s, 0, false, d);
    assert s[1..1 + 2] == "*!" && AllTame("*!");
    TameScans("*!");
    ScanIsQuiet(env, s, 1, "*!", NUL, true, d);
    QuietConcat(env, s, 0, 1, 3, NUL, false, d);
  }

  /** The mark that closes it, from `i` to `j`, with a blank or nothing behind. */
  lemma ClosingIsQuiet(env: Env, s: string, i: nat, gap: string, d: Delimiter)
    requires ValidLine(s) && (gap == "" || gap == " ") && d[0] == ';' && i + 2 + |gap| < |s| - 1
    requires s[i..i + 2 + |gap|] == "*/" + gap && s[i + 2 + |gap|] == ';'
    ensures Quiet(env, s, i, i + 2 + |gap|, NUL, true, d) && QuoteAt(env, s, i, i + 2 + |gap|, NUL) == NUL
  {
    var j := i + 2 + |gap|;
    assert s[i] == s[i..j][0] == '*' && s[i + 1] == s[i..j][1] == '/';
    assert gap == " " ==> s[i + 2] == s[i..j][2] == ' ';
    StartsWithItsHead(s, i, d);
    StartsWithItsHead(s, i + 1, d);
    QuietOne(env, s, i, true, d);
    QuietOne(env, s, i + 1, true, d);
    QuietConcat(env, s, i, i + 1, i + 2, NUL, true, d);
    if gap == " " {
      StartsWithItsHead(s, i + 2, d);
      QuietOne(env, s, i + 2, true, d);
      QuietConcat(env, s, i, i + 2, j, NUL, true, d);
    }
  }

  /** The delimiters a dump prints. */
  predicate IsPrinted(d: string) {
    d == ";" || d == ";;"
  }

  /**
   How the client tells commands from statements: a line that holds the delimiter is no command unless it starts with the
   word DELIMITER, and one with that word and one of the printed delimiters puts that in force.
   */
  ghost predicate Client(env: Env) {
    && (forall line, d: Delimiter :: NUL !in line && Occurs(d, line) && !IsSpace(line[0]) && !IsDelimiterCommand(line)
          ==> env.lineCommand(line + [NUL], d).NotACommand?)
    && (forall d: Delimiter, d': Delimiter :: IsPrinted(d')
          ==> env.lineCommand("DELIMITER " + d' + [NUL], d) == LineCommand(Keep, Go(d')))
  }

  lemma NotTaken(env: Env, text: string, d: Delimiter)
    requires Client(env) && text != "" && NUL !in text && !IsSpace(text[0]) && ToLower(text[0]) != 'd'
    ensures NoCommand(env, text + d + [NUL], NUL, false, d)
  {
    var line := text + d;
    assert StartsAt(line, |text|, d) && line[0] == text[0];
  }

  lemma {:induction false} QuietHoldsNoNul(env: Env, s: string, i: nat, j: nat, q: char, begun: bool, d: Delimiter)
    requires ValidLine(s) && i <= j < |s| && Quiet(env, s, i, j, q, begun, d)
    ensures forall n :: i <= n < j ==> s[n] != NUL
    decreases j - i
  {
    if i < j {
      if Escaped(env, s, i, q) {
        QuietHoldsNoNul(env, s, i + 2, j, q, true, d);
      } else {
        QuietHoldsNoNul(env, s, i + 1, j, QuoteAfter(s[i], q), true, d);
      }
    }
  }

  /** A line that is quiet up to the delimiter at its end is read as one statement. */
  lemma ReadAsOne(env: Env, text: string, d: Delimiter)
    requires Client(env) && text != "" && !IsSpace(text[0]) && ToLower(text[0]) != 'd'
    requires var s := text + d + [NUL];
      Quiet(env, s, 0, |text|, NUL, false, d) && QuoteAt(env, s, 0, |text|, NUL) == NUL
    ensures Reads(env, [text + d], NUL, "", d) && TextOf(env, [text + d], NUL, "", d) == text
  {
    var line := text + d;
    var s := line + [NUL];
    QuietHoldsNoNul(env, s, 0, |text|, NUL, false, d);
    assert forall n :: 0 <= n < |text| ==> text[n] == s[n];
    NotTaken(env, text, d);
    assert s[0] == text[0] && TextStart(env, s, 0, false) == 0;
    assert s[|text|..|text| + |d|] == d && |line| - |d| == |text|;
    assert line[0..|text|] == text && "" + text == text;
  }

  /** The parts of a comment for the server and where they stand. */
  lemma CoveredParts(t: string, gap: string, rest: string)
    ensures var s, m := "/*!" + t + "*/" + gap + rest, 3 + |t|;
      && s[..3] == "/*!" && s[3..m] == t && s[m..m + 2 + |gap|] == "*/" + gap
  {
  }

  lemma CoveredIsQuiet(env: Env, s: string, t: string, gap: string, d: Delimiter)
    requires ValidLine(s) && d[0] == ';' && (gap == "" || gap == " ") && Scan(t, NUL) == Some(NUL)
    requires 3 + |t| + 2 + |gap| < |s| - 1 && s[..3] == "/*!" && s[3..3 + |t|] == t
    requires s[3 + |t|..3 + |t| + 2 + |gap|] == "*/" + gap && s[3 + |t| + 2 + |gap|] == ';'
    ensures var j := 3 + |t| + 2 + |gap|; Quiet(env, s, 0, j, NUL, false, d) && QuoteAt(env, s, 0, j, NUL) == NUL
  {
    var m := 3 + |t|;
    var j := m + 2 + |gap|;
    OpeningIsQuiet(env, s, d);
    ScanIsQuiet(env, s, 3, t, NUL, true, d);
    QuietConcat(env, s, 0, 3, m, NUL, false, d);
    ClosingIsQuiet(env, s, m, gap, d);
    QuietConcat(env, s, 0, m, j, NUL, false, d);
  }

  /** A comment for the server around text that scans. */
  lemma CoveredIsRead(env: Env, t: string, gap: string, d: Delimiter)
    requires Client(env) && d[0] == ';' && (gap == "" || gap == " ") && Scan(t, NUL) == Some(NUL)
    ensures var text := "/*!" + t + "*/" + gap; Reads(env, [text + d], NUL, "", d) && TextOf(env, [text + d], NUL, "", d) == text
  {
    var text := "/*!" + t + "*/" + gap;
    var s := text + d + [NUL];
    CoveredParts(t, gap, d + [NUL]);
    assert s == text + (d + [NUL]) && s[|text|] == d[0];
    CoveredIsQuiet(env, s, t, gap, d);
    ReadAsOne(env, text, d);
  }

  lemma PlainIsRead(env: Env, t: string, d: Delimiter)
    requires Client(env) && d[0] == ';' && Scan(t, NUL) == Some(NUL) && t != "" && t[0] == 'S'
    ensures Reads(env, [t + d], NUL, "", d) && TextOf(env, [t + d], NUL, "", d) == t
  {
    var s := t + d + [NUL];
    assert s[0..0 + |t|] == t;
    ScanIsQuiet(env, s, 0, t, NUL, false, d);
    ReadAsOne(env, t, d);
  }

  // ---------------------------------------------------------------------------------------------
  // Statements that set variables
  // ---------------------------------------------------------------------------------------------

  function SysName(x: SysVar): string {
    match x
    case CharacterSetClient => "character_set_client"
    case CharacterSetResults => "character_set_results"
    case CollationConnection => "collation_connection"
    case SqlMode => "sql_mode"
    case TimeZone => "time_zone"
    case UniqueChecks => "unique_checks"
    case ForeignKeyChecks => "foreign_key_checks"
    case SqlNotes => "sql_notes"
  }

  function UserWord(u: UserVar): string {
    match u
    case Old(x) => "old_" + SysName(x)
    case SavedCsClient => "saved_cs_client"
    case SavedCsResults => "saved_cs_results"
    case SavedColConnection => "saved_col_connection"
    case SavedSqlMode => "saved_sql_mode"
    case SavedTimeZone => "saved_time_zone"
    case SaveTimeZone => "save_time_zone"
  }

  function UserName(u: UserVar): string {
    "@" + UserWord(u)
  }

  /** SQL modes and time zones are printed between quotes. */
  predicate InString(x: SysVar) {
    x == SqlMode || x == TimeZone
  }

  function Spelled(a: Action): string {
    match a
    case Save(u, x) => UserName(u) + "=@@" + SysName(x)
    case Assign(x, value) => SysName(x) + "=" + (if InString(x) then "'" + value + "'" else value)
    case Restore(x, u) => SysName(x) + "=" + UserName(u)
    case SetNames(charset) => "NAMES " + charset
    case Other(text) => text
    case Create(text) => text
  }

  function List(actions: seq<Action>): string
    requires actions != []
  {
    if |actions| == 1 then Spelled(actions[0]) else Spelled(actions[0]) + ", " + List(actions[1..])
  }

  function Digits(n: nat): string {
    (if n < 10 then "" else Digits(n / 10)) + ["0123456789"[n % 10]]
  }

  /** Statements for every server stand alone, others in a comment; some leave a blank before the delimiter. */
  function SetText(version: nat, actions: seq<Action>): string
    requires actions != []
  {
    if version == 0 then "SET " + List(actions)
    else "/*!" + (Digits(version) + " SET " + List(actions) + " ") + "*/" + (if version < 50003 then "" else " ")
  }

  /** A word as character sets, collations and switches are. */
  predicate IsWord(t: string) {
    AllTame(t) && ',' !in t && (t != "" ==> t[0] != '@')
  }

  /** Character sets, collations and switches are words; SQL modes and time zones can stand between quotes. */
  predicate Sayable(a: Action) {
    match a
    case Assign(x, value) => if InString(x) then Quotable(value) else IsWord(value)
    case SetNames(charset) => IsWord(charset)
    case Other(_) => false
    case Create(_) => false
    case _ => true
  }

  lemma TameConcat(a: string, b: string)
    requires AllTame(a) && AllTame(b)
    ensures AllTame(a + b)
  {
  }

  predicate AllLetters(t: string) {
    forall i :: 0 <= i < |t| ==> 'a' <= t[i] <= 'z' || t[i] == '_'
  }

  lemma LettersAreTame(t: string)
    requires AllLetters(t)
    ensures AllTame(t)
  {
  }

  lemma CharsetNames()
    ensures AllLetters("character_set_client") && AllLetters("character_set_results") && AllLetters("collation_connection")
  {
  }

  lemma OtherNames()
    ensures AllLetters("sql_mode") && AllLetters("time_zone") && AllLetters("unique_checks")
    ensures AllLetters("foreign_key_checks") && AllLetters("sql_notes")
  {
  }

  lemma SavedCharsetNames()
    ensures AllLetters("saved_cs_client") && AllLetters("saved_cs_results") && AllLetters("saved_col_connection")
  {
  }

  lemma SavedNames()
    ensures AllLetters("saved_sql_mode") && AllLetters("saved_time_zone") && AllLetters("save_time_zone")
    ensures AllLetters("old_")
  {
  }

  lemma SysNameIsLetters(x: SysVar)
    ensures AllLetters(SysName(x))
  {
    if x.CharacterSetClient? || x.CharacterSetResults? || x.CollationConnection? {
      CharsetNames();
    } else {
      OtherNames();
    }
  }

  lemma SysNameIsTame(x: SysVar)
    ensures AllTame(SysName(x))
  {
    SysNameIsLetters(x);
    LettersAreTame(SysName(x));
  }

  lemma OldWord(x: SysVar)
    ensures AllLetters("old_" + SysName(x))
  {
    SysNameIsLetters(x);
    SavedNames();
  }

  lemma UserWordIsLetters(u: UserVar)
    ensures AllLetters(UserWord(u))
  {
    if u.Old? {
      OldWord(u.of);
    } else if u.SavedCsClient? || u.SavedCsResults? || u.SavedColConnection? {
      SavedCharsetNames();
    } else {
      SavedNames();
    }
  }

  lemma UserNameIsTame(u: UserVar)
    ensures AllTame(UserName(u))
  {
    UserWordIsLetters(u);
    LettersAreTame(UserWord(u));
    TameConcat("@", UserWord(u));
  }

  lemma {:induction false} DigitsAreTame(n: nat)
    ensures AllTame(Digits(n))
  {
    if n >= 10 {
      DigitsAreTame(n / 10);
    }
  }

  lemma SpelledScans(a: Action)
    requires Sayable(a)
    ensures Scan(Spelled(a), NUL) == Some(NUL)
  {
    match a
    case Save(u, x) =>
      UserNameIsTame(u);
      SysNameIsTame(x);
      assert AllTame("=@@");
      TameConcat(UserName(u), "=@@");
      TameConcat(UserName(u) + "=@@", SysName(x));
      TameScans(Spelled(a));
    case Assign(x, value) =>
      SysNameIsTame(x);
      TameConcat(SysName(x), "=");
      TameScans(SysName(x) + "=");
      if InString(x) {
        QuotedScans(value);
        TwoScan(SysName(x) + "=", "'" + value + "'");
      } else {
        TameScans(value);
        TwoScan(SysName(x) + "=", value);
      }
    case Restore(x, u) =>
      UserNameIsTame(u);
      SysNameIsTame(x);
      TameConcat(SysName(x), "=");
      TameConcat(SysName(x) + "=", UserName(u));
      TameScans(Spelled(a));
    case SetNames(charset) =>
      assert AllTame("NAMES ");
      TameConcat("NAMES ", charset);
      TameScans(Spelled(a));
  }

  predicate AllSayable(actions: seq<Action>) {
    forall i :: 0 <= i < |actions| ==> Sayable(actions[i])
  }

  lemma {:induction false} ListScans(actions: seq<Action>)
    requires actions != [] && AllSayable(actions)
    ensures Scan(List(actions), NUL) == Some(NUL)
    decreases |actions|
  {
    SpelledScans(actions[0]);
    if |actions| > 1 {
      ListScans(actions[1..]);
      assert AllTame(", ");
      TameScans(", ");
      TwoScan(Spelled(actions[0]), ", ");
      TwoScan(Spelled(actions[0]) + ", ", List(actions[1..]));
    }
  }

  lemma CoveredScans(version: nat, list: string)
    requires Scan(list, NUL) == Some(NUL)
    ensures Scan(Digits(version) + " SET " + list + " ", NUL) == Some(NUL)
  {
    DigitsAreTame(version);
    assert AllTame(" SET ") && AllTame(" ");
    TameScans(Digits(version));
    TameScans(" SET ");
    TameScans(" ");
    TwoScan(Digits(version), " SET ");
    TwoScan(Digits(version) + " SET ", list);
    TwoScan(Digits(version) + " SET " + list, " ");
  }

  lemma PlainScans(list: string)
    requires Scan(list, NUL) == Some(NUL)
    ensures Scan("SET " + list, NUL) == Some(NUL)
  {
    assert AllTame("SET ");
    TameScans("SET ");
    TwoScan("SET ", list);
  }

  /** A statement that sets variables, spelled so, is read as what it is. */
  lemma SettingIsRead(env: Env, version: nat, actions: seq<Action>, d: Delimiter)
    requires Client(env) && d[0] == ';' && actions != [] && AllSayable(actions)
    ensures var text := SetText(version, actions);
      Reads(env, [text + d], NUL, "", d) && TextOf(env, [text + d], NUL, "", d) == text
  {
    ListScans(actions);
    if version == 0 {
      PlainScans(List(actions));
      PlainIsRead(env, "SET " + List(actions), d);
    } else {
      CoveredScans(version, List(actions));
      CoveredIsRead(env, Digits(version) + " SET " + List(actions) + " ", if version < 50003 then "" else " ", d);
    }
  }

  // ---------------------------------------------------------------------------------------------
  // Scripts
  // ---------------------------------------------------------------------------------------------

  /** The spelling of a script; `deed` spells the statements that set nothing. */
  function Spell(deed: Speller, item: Item): seq<string> {
    match item
    case Delimiter(text) => ["DELIMITER " + text]
    case Statement(version, actions, ending) =>
      if DumpSession.Does(item) || actions == [] then deed(item) else [SetText(version, actions) + ending]
  }

  /** The lines are read as one statement, and running it does not end the session or change the delimiter. */
  predicate Runs(env: Env, ls: seq<string>, d: Delimiter) {
    Reads(env, ls, NUL, "", d) && env.statement(TextOf(env, ls, NUL, "", d), d) == Go(d)
  }

  /**
   An item of a dump: a statement that sets nothing runs as it is spelled; one that sets variables has values that can be
   printed, and its text runs.
   */
  predicate Presentable(env: Env, deed: Speller, item: Item) {
    match item
    case Delimiter(text) => IsPrinted(text)
    case Statement(version, actions, ending) =>
      && IsPrinted(ending)
      && if DumpSession.Does(item) || actions == [] then Runs(env, deed(item), ending)
         else AllSayable(actions) && env.statement(SetText(version, actions), ending) == Go(ending)
  }

  lemma StatementRuns(env: Env, deed: Speller, item: Item)
    requires Client(env) && item.Statement? && Presentable(env, deed, item)
    ensures Runs(env, Spell(deed, item), item.ending)
  {
    if !DumpSession.Does(item) && item.actions != [] {
      SettingIsRead(env, item.version, item.actions, item.ending);
    }
  }

  lemma {:induction false} PresentableIsWellSpelled(env: Env, deed: Speller, items: seq<Item>, d: Delimiter)
    requires Client(env) && forall i :: 0 <= i < |items| ==> Presentable(env, deed, items[i])
    ensures WellSpelled(env, item => Spell(deed, item), items, d)
    decreases |items|
  {
    if items != [] {
      var rest := items[1..];
      assert Presentable(env, deed, items[0]) && forall i :: 0 <= i < |rest| ==> rest[i] == items[i + 1];
      match items[0]
      case Delimiter(text) => PresentableIsWellSpelled(env, deed, rest, text);
      case Statement(version, actions, ending) =>
        StatementRuns(env, deed, items[0]);
        PresentableIsWellSpelled(env, deed, rest, d);
    }
  }

  /**
   A script of such items that keeps to its delimiters is sent statement by statement, each as it is spelled, with
   nothing left over and the usual delimiter in force.
   */
  lemma SpelledScriptSent(env: Env, deed: Speller, items: seq<Item>, sent: seq<string>)
    requires Client(env) && forall i :: 0 <= i < |items| ==> Presentable(env, deed, items[i])
    requires DumpSession.Ends(items, ";") == Some(";")
    ensures var spell := item => Spell(deed, item);
      && WellSpelled(env, spell, items, ";")
      && Session(env, State("", NUL, false, ";", sent), Terminated(Written(spell, items)))
         == LineResult(State("", NUL, false, ";", sent + Texts(env, spell, items, ";")), false)
  {
    PresentableIsWellSpelled(env, deed, items, ";");
    ScriptSent(env, item => Spell(deed, item), items, ";", sent);
  }
}
