/** Reading the statements of a script back: what is spelled says exactly what is set, and which collation a database gets. */
module SpellingReader {
  import opened Text
  import opened Wrappers
  import opened Definer
  import opened DumpScript
  import opened DumpSpelling

  // ---------------------------------------------------------------------------------------------
  // Names
  // ---------------------------------------------------------------------------------------------

  function SysOf(name: string): Option<SysVar> {
    if name == "character_set_client" then Some(CharacterSetClient)
    else if name == "character_set_results" then Some(CharacterSetResults)
    else if name == "collation_connection" then Some(CollationConnection)
    else if name == "sql_mode" then Some(SqlMode)
    else if name == "time_zone" then Some(TimeZone)
    else if name == "unique_checks" then Some(UniqueChecks)
    else if name == "foreign_key_checks" then Some(ForeignKeyChecks)
    else if name == "sql_notes" then Some(SqlNotes)
    else None
  }

  function UserOf(word: string): Option<UserVar> {
    if word == "saved_cs_client" then Some(SavedCsClient)
    else if word == "saved_cs_results" then Some(SavedCsResults)
    else if word == "saved_col_connection" then Some(SavedColConnection)
    else if word == "saved_sql_mode" then Some(SavedSqlMode)
    else if word == "saved_time_zone" then Some(SavedTimeZone)
    else if word == "save_time_zone" then Some(SaveTimeZone)
    else if |word| > 4 && word[..4] == "old_" then
      match SysOf(word[4..]) case None => None case Some(x) => Some(Old(x))
    else None
  }

  lemma CharsetNamesDiffer()
    ensures "character_set_client" != "character_set_results" && "collation_connection" != "character_set_client"
    ensures "collation_connection" != "character_set_results"
  {
    assert "collation_connection"[1] != "character_set_client"[1];
  }

  lemma OtherNamesDiffer()
    ensures "unique_checks" != "sql_mode" && "sql_notes"[0] != "time_zone"[0]
  {
  }

  lemma SysReads(x: SysVar)
    ensures SysOf(SysName(x)) == Some(x)
  {
    CharsetNamesDiffer();
    OtherNamesDiffer();
  }

  lemma SavedNamesDiffer()
    ensures "saved_sql_mode" != "save_time_zone"
  {
    assert "saved_sql_mode"[4] != "save_time_zone"[4];
  }

  lemma OldReads(x: SysVar)
    ensures UserOf("old_" + SysName(x)) == Some(Old(x))
  {
    var word := "old_" + SysName(x);
    SysReads(x);
    assert word[0] == 'o' && word[..4] == "old_" && word[4..] == SysName(x);
  }

  lemma UserReads(u: UserVar)
    ensures UserOf(UserWord(u)) == Some(u)
  {
    SavedNamesDiffer();
    if u.Old? {
      OldReads(u.of);
    }
  }

  // ---------------------------------------------------------------------------------------------
  // One setting
  // ---------------------------------------------------------------------------------------------

  /** The first place of a character, or the length. */
  function Find(t: string, c: char): (n: nat)
    ensures n <= |t| && (n < |t| ==> t[n] == c)
  {
    if t == "" || t[0] == c then 0 else 1 + Find(t[1..], c)
  }

  lemma {:induction false} FindBehind(a: string, c: char, b: string)
    requires c !in a
    ensures Find(a + [c] + b, c) == |a|
    decreases |a|
  {
    var t := a + [c] + b;
    if a != "" {
      assert t[1..] == a[1..] + [c] + b;
      FindBehind(a[1..], c, b);
    }
  }

  /** The value on the right of an equals sign, in quotes or not. */
  function ReadValue(t: string): string {
    if |t| > 1 && t[0] == '\'' && t[|t| - 1] == '\'' then t[1..|t| - 1] else t
  }

  function ReadAssignment(left: string, right: string): Option<Action> {
    if left != "" && left[0] == '@' then
      match UserOf(left[1..])
      case None => None
      case Some(u) =>
        if |right| > 1 && right[..2] == "@@" then
          match SysOf(right[2..]) case None => None case Some(x) => Some(Save(u, x))
        else None
    else
      match SysOf(left)
      case None => None
      case Some(x) =>
        if right != "" && right[0] == '@' then
          match UserOf(right[1..]) case None => None case Some(u) => Some(Restore(x, u))
        else Some(Assign(x, ReadValue(right)))
  }

  function ReadAction(t: string): Option<Action> {
    if |t| > 5 && t[..6] == "NAMES " then Some(SetNames(t[6..]))
    else
      var n := Find(t, '=');
      if n == |t| then None else ReadAssignment(t[..n], t[n + 1..])
  }

  lemma AssignmentReads(left: string, right: string)
    requires '=' !in left && (left != "" ==> left[0] != 'N')
    ensures ReadAction(left + "=" + right) == ReadAssignment(left, right)
  {
    var t := left + "=" + right;
    FindBehind(left, '=', right);
    assert t == left + ['='] + right && t[..|left|] == left && t[|left| + 1..] == right;
    assert t[0] != 'N' && (|t| > 5 ==> t[..6][0] == t[0]);
  }

  lemma LettersHold(t: string)
    requires AllLetters(t)
    ensures '=' !in t && (t != "" ==> t[0] != 'N' && t[0] != '@')
  {
  }

  lemma UserNameHolds(u: UserVar)
    ensures '=' !in UserName(u) && UserName(u)[0] == '@' && UserName(u)[1..] == UserWord(u)
  {
    UserWordIsLetters(u);
    LettersHold(UserWord(u));
  }

  lemma SaveSides(left: string, right: string, word: string, name: string, u: UserVar, x: SysVar)
    requires left != "" && left[0] == '@' && left[1..] == word && UserOf(word) == Some(u)
    requires right == "@@" + name && SysOf(name) == Some(x)
    ensures ReadAssignment(left, right) == Some(Save(u, x))
  {
    assert right[..2] == "@@" && right[2..] == name;
  }

  lemma SaveReads(u: UserVar, x: SysVar)
    ensures ReadAction(UserName(u) + "=@@" + SysName(x)) == Some(Save(u, x))
  {
    var left, right := UserName(u), "@@" + SysName(x);
    UserNameHolds(u);
    UserReads(u);
    SysReads(x);
    SaveSides(left, right, UserWord(u), SysName(x), u, x);
    AssignmentReads(left, right);
    assert left + "=@@" + SysName(x) == left + "=" + right;
  }

  lemma RestoreReads(x: SysVar, u: UserVar)
    ensures ReadAction(SysName(x) + "=" + UserName(u)) == Some(Restore(x, u))
  {
    SysNameIsLetters(x);
    LettersHold(SysName(x));
    AssignmentReads(SysName(x), UserName(u));
    SysReads(x);
    UserReads(u);
    UserNameHolds(u);
  }

  lemma ValueReads(x: SysVar, value: string)
    requires if InString(x) then Quotable(value) else IsWord(value)
    ensures var right := if InString(x) then "'" + value + "'" else value;
      (right == "" || right[0] != '@') && ReadValue(right) == value
  {
    if InString(x) {
      assert ("'" + value + "'")[1..|value| + 1] == value;
    }
  }

  lemma AssignReads(x: SysVar, value: string)
    requires Sayable(Assign(x, value))
    ensures ReadAction(Spelled(Assign(x, value))) == Some(Assign(x, value))
  {
    SysNameIsLetters(x);
    LettersHold(SysName(x));
    var right := if InString(x) then "'" + value + "'" else value;
    AssignmentReads(SysName(x), right);
    SysReads(x);
    ValueReads(x, value);
  }

  /** What is spelled for a setting says exactly that. */
  lemma SpelledReads(a: Action)
    requires Sayable(a)
    ensures ReadAction(Spelled(a)) == Some(a)
  {
    match a
    case Save(u, x) => SaveReads(u, x);
    case Assign(x, value) => AssignReads(x, value);
    case Restore(x, u) => RestoreReads(x, u);
    case SetNames(charset) =>
      var t := "NAMES " + charset;
      assert t[..6] == "NAMES " && t[6..] == charset;
  }

  // ---------------------------------------------------------------------------------------------
  // Several settings
  // ---------------------------------------------------------------------------------------------

  /** The first comma outside quotes, or the length. */
  function CommaAt(t: string, quoted: bool): (n: nat)
    ensures n <= |t|
  {
    if t == "" || (t[0] == ',' && !quoted) then 0 else 1 + CommaAt(t[1..], if t[0] == '\'' then !quoted else quoted)
  }

  function ReadList(t: string): Option<seq<Action>>
    decreases |t|
  {
    var n := CommaAt(t, false);
    match ReadAction(t[..n])
    case None => None
    case Some(a) =>
      if n == |t| then Some([a])
      else if n + 2 > |t| then None
      else match ReadList(t[n + 2..]) case None => None case Some(more) => Some([a] + more)
  }

  /** Whether a quote is open behind the text, if no comma stands in it outside quotes. */
  function OpenBehind(t: string, quoted: bool): Option<bool> {
    if t == "" then Some(quoted)
    else if t[0] == ',' && !quoted then None
    else OpenBehind(t[1..], if t[0] == '\'' then !quoted else quoted)
  }

  lemma {:induction false} OpenConcat(a: string, b: string, quoted: bool)
    ensures OpenBehind(a + b, quoted)
         == match OpenBehind(a, quoted) case None => None case Some(q) => OpenBehind(b, q)
    decreases |a|
  {
    if a == "" {
      assert a + b == b;
    } else {
      assert (a + b)[1..] == a[1..] + b;
      OpenConcat(a[1..], b, if a[0] == '\'' then !quoted else quoted);
    }
  }

  lemma {:induction false} PlainIsClosed(t: string)
    requires ',' !in t && '\'' !in t
    ensures OpenBehind(t, false) == Some(false)
  {
    if t != "" {
      PlainIsClosed(t[1..]);
    }
  }

  lemma {:induction false} QuotedIsClosed(t: string)
    requires Quotable(t)
    ensures OpenBehind(t + "'", true) == Some(false)
  {
    if t == "" {
      assert t + "'" == "'" && "'"[1..] == "";
    } else {
      assert t[0] != '\'' && (t + "'")[1..] == t[1..] + "'";
      assert forall i :: 0 <= i < |t[1..]| ==> t[1..][i] == t[i + 1];
      QuotedIsClosed(t[1..]);
    }
  }

  lemma {:induction false} CommaBehind(t: string, quoted: bool, rest: string)
    requires OpenBehind(t, quoted) == Some(false)
    ensures CommaAt(t + "," + rest, quoted) == |t| && CommaAt(t, quoted) == |t|
    decreases |t|
  {
    var all := t + "," + rest;
    if t != "" {
      assert all[1..] == t[1..] + "," + rest;
      CommaBehind(t[1..], if t[0] == '\'' then !quoted else quoted, rest);
    }
  }

  lemma TameHoldsNoQuote(t: string)
    requires AllTame(t)
    ensures '\'' !in t
  {
  }

  lemma LettersHoldNoComma(t: string)
    requires AllLetters(t)
    ensures ',' !in t && '\'' !in t
  {
  }

  lemma NoComma(a: string, b: string)
    requires ',' !in a && '\'' !in a && ',' !in b && '\'' !in b
    ensures ',' !in a + b && '\'' !in a + b
  {
  }

  lemma AssignIsClosed(x: SysVar, value: string)
    requires Sayable(Assign(x, value))
    ensures OpenBehind(Spelled(Assign(x, value)), false) == Some(false)
  {
    var left := SysName(x) + "=";
    SysNameIsLetters(x);
    LettersHoldNoComma(SysName(x));
    NoComma(SysName(x), "=");
    PlainIsClosed(left);
    if InString(x) {
      QuotedIsClosed(value);
      var right := "'" + value + "'";
      assert right[1..] == value + "'";
      OpenConcat(left, right, false);
    } else {
      TameHoldsNoQuote(value);
      PlainIsClosed(value);
      OpenConcat(left, value, false);
    }
  }

  lemma UserNameHoldsNoComma(u: UserVar)
    ensures ',' !in UserName(u) && '\'' !in UserName(u)
  {
    UserWordIsLetters(u);
    LettersHoldNoComma(UserWord(u));
    NoComma("@", UserWord(u));
  }

  lemma SpelledIsClosed(a: Action)
    requires Sayable(a)
    ensures OpenBehind(Spelled(a), false) == Some(false)
  {
    match a
    case Save(u, x) =>
      UserNameHoldsNoComma(u);
      SysNameIsLetters(x);
      LettersHoldNoComma(SysName(x));
      NoComma(UserName(u), "=@@");
      NoComma(UserName(u) + "=@@", SysName(x));
      PlainIsClosed(Spelled(a));
    case Assign(x, value) => AssignIsClosed(x, value);
    case Restore(x, u) =>
      UserNameHoldsNoComma(u);
      SysNameIsLetters(x);
      LettersHoldNoComma(SysName(x));
      NoComma(SysName(x), "=");
      NoComma(SysName(x) + "=", UserName(u));
      PlainIsClosed(Spelled(a));
    case SetNames(charset) =>
      TameHoldsNoQuote(charset);
      NoComma("NAMES ", charset);
      PlainIsClosed(Spelled(a));
  }

  lemma OneReads(a: Action)
    requires Sayable(a)
    ensures ReadList(Spelled(a)) == Some([a])
  {
    var t := Spelled(a);
    SpelledIsClosed(a);
    CommaBehind(t, false, "");
    SpelledReads(a);
    assert t[..|t|] == t;
  }

  lemma OneAndMore(a: Action, rest: string, more: seq<Action>)
    requires Sayable(a) && ReadList(rest) == Some(more)
    ensures ReadList(Spelled(a) + ", " + rest) == Some([a] + more)
  {
    var t := Spelled(a);
    var all := t + ", " + rest;
    SpelledIsClosed(a);
    CommaBehind(t, false, " " + rest);
    assert all == t + "," + (" " + rest) && all[..|t|] == t && all[|t| + 2..] == rest;
    SpelledReads(a);
  }

  /** What is spelled for several settings says exactly those, in order. */
  lemma {:induction false} ListReads(actions: seq<Action>)
    requires actions != [] && AllSayable(actions)
    ensures ReadList(List(actions)) == Some(actions)
    decreases |actions|
  {
    if |actions| == 1 {
      OneReads(actions[0]);
      assert actions == [actions[0]];
    } else {
      ListReads(actions[1..]);
      OneAndMore(actions[0], List(actions[1..]), actions[1..]);
      assert actions == [actions[0]] + actions[1..];
    }
  }

  // ---------------------------------------------------------------------------------------------
  // Whole statements
  // ---------------------------------------------------------------------------------------------

  lemma DigitsAre(n: nat)
    requires n < 10
    ensures Digit("0123456789"[n]) == n
  {
  }

  lemma {:induction false} DigitsReads(n: nat)
    ensures Number(Digits(n)) == n && ' ' !in Digits(n)
  {
    var t, last := Digits(n), "0123456789"[n % 10];
    DigitsAre(n % 10);
    assert t[|t| - 1] == last;
    if n < 10 {
      assert t[..|t| - 1] == "" && n % 10 == n;
    } else {
      DigitsReads(n / 10);
      assert t[..|t| - 1] == Digits(n / 10) && n == 10 * (n / 10) + n % 10;
    }
  }

  /** The text between two given ones. */
  function Between(t: string, front: string, back: string): Option<string> {
    if |front| + |back| <= |t| && t[..|front|] == front && t[|t| - |back|..] == back then Some(t[|front|..|t| - |back|])
    else None
  }

  /** A statement that sets variables, read back: the version of the comment it stands in, and the settings. */
  function ReadSet(t: string): Option<(nat, seq<Action>)> {
    if |t| > 3 && t[..4] == "SET " then
      match ReadList(t[4..]) case None => None case Some(actions) => Some((0, actions))
    else
      var late := t != "" && t[|t| - 1] == ' ';
      match Between(t, "/*!", if late then " */ " else " */")
      case None => None
      case Some(body) =>
        var n := Find(body, ' ');
        if n + 5 <= |body| && body[n..n + 5] == " SET " then
          match ReadList(body[n + 5..]) case None => None case Some(actions) => Some((Number(body[..n]), actions))
        else None
  }

  lemma BetweenReads(front: string, mid: string, back: string)
    ensures Between(front + mid + back, front, back) == Some(mid)
  {
    var t := front + mid + back;
    assert t[..|front|] == front && t[|t| - |back|..] == back && t[|front|..|t| - |back|] == mid;
  }

  lemma BodyReads(digits: string, list: string)
    requires ' ' !in digits
    ensures var body := digits + " SET " + list;
      Find(body, ' ') == |digits| && |digits| + 5 <= |body| && body[|digits|..|digits| + 5] == " SET "
      && body[|digits| + 5..] == list && body[..|digits|] == digits
  {
    var body := digits + " SET " + list;
    assert body == digits + [' '] + ("SET " + list);
    FindBehind(digits, ' ', "SET " + list);
  }

  lemma InComment(digits: string, list: string, back: string, t: string, actions: seq<Action>)
    requires ' ' !in digits && (back == " */" || back == " */ ") && t == "/*!" + (digits + " SET " + list) + back
    requires ReadList(list) == Some(actions)
    ensures ReadSet(t) == Some((Number(digits), actions))
  {
    assert t[0] == '/' && t[..4][0] == t[0] && t[|t| - 1] == back[|back| - 1];
    BetweenReads("/*!", digits + " SET " + list, back);
    BodyReads(digits, list);
  }

  lemma SetTextIs(version: nat, actions: seq<Action>)
    requires version > 0 && actions != []
    ensures SetText(version, actions)
         == "/*!" + (Digits(version) + " SET " + List(actions)) + (if version < 50003 then " */" else " */ ")
  {
    var body := Digits(version) + " SET " + List(actions);
    assert "/*!" + (body + " ") + "*/" == "/*!" + body + " */";
    assert "/*!" + body + " */" + " " == "/*!" + body + " */ ";
    assert "/*!" + body + " */" + "" == "/*!" + body + " */";
  }

  lemma CoveredSetReads(version: nat, actions: seq<Action>)
    requires version > 0 && actions != [] && AllSayable(actions)
    ensures ReadSet(SetText(version, actions)) == Some((version, actions))
  {
    SetTextIs(version, actions);
    DigitsReads(version);
    ListReads(actions);
    InComment(Digits(version), List(actions), if version < 50003 then " */" else " */ ", SetText(version, actions), actions);
  }

  /** What is printed to set variables says which, to what, and from which version of the server on. */
  lemma SetTextReads(version: nat, actions: seq<Action>)
    requires actions != [] && AllSayable(actions)
    ensures ReadSet(SetText(version, actions)) == Some((version, actions))
  {
    if version == 0 {
      var t := SetText(version, actions);
      assert t[..4] == "SET " && t[4..] == List(actions);
      ListReads(actions);
    } else {
      CoveredSetReads(version, actions);
    }
  }

  // ---------------------------------------------------------------------------------------------
  // ALTER DATABASE
  // ---------------------------------------------------------------------------------------------

  function Words(t: string): seq<string>
    decreases |t|
  {
    var n := Find(t, ' ');
    if n == |t| then [t] else [t[..n]] + Words(t[n + 1..])
  }

  lemma WordAndRest(word: string, rest: string)
    requires ' ' !in word
    ensures Words(word + " " + rest) == [word] + Words(rest)
  {
    var t := word + " " + rest;
    FindBehind(word, ' ', rest);
    assert t == word + [' '] + rest && t[..|word|] == word && t[|word| + 1..] == rest;
  }

  lemma {:induction false} OneWord(word: string)
    requires ' ' !in word
    ensures Words(word) == [word] && Find(word, ' ') == |word|
  {
    if word != "" {
      OneWord(word[1..]);
    }
  }

  /** The database, and the character set and collation the statement gives it. */
  function ReadAlter(t: string): Option<(string, string, string)> {
    var ws := Words(t);
    if |ws| == 8 && ws[..2] == ["ALTER", "DATABASE"] && ws[3..5] == ["CHARACTER", "SET"] && ws[6] == "COLLATE"
    then Some((ws[2], ws[5], ws[7])) else None
  }

  lemma TwoWords(a: string, b: string, rest: string)
    requires ' ' !in a && ' ' !in b
    ensures Words(a + " " + (b + " " + rest)) == [a, b] + Words(rest)
  {
    WordAndRest(b, rest);
    WordAndRest(a, b + " " + rest);
    assert [a] + ([b] + Words(rest)) == [a, b] + Words(rest);
  }

  lemma AlterText(name: string, charset: string, collation: string, last: string, mid: string, rest: string)
    requires last == "COLLATE" + " " + collation && mid == "SET" + " " + (charset + " " + last)
    requires rest == name + " " + ("CHARACTER" + " " + mid)
    ensures "ALTER DATABASE " + name + " CHARACTER SET " + charset + " COLLATE " + collation
         == "ALTER" + " " + ("DATABASE" + " " + rest)
  {
    assert " COLLATE " + collation == " " + last;
    assert " CHARACTER SET " + charset + " " + last == " " + ("CHARACTER" + " " + mid);
    var a, b := "ALTER DATABASE " + name, " CHARACTER SET " + charset;
    assert a + " CHARACTER SET " + charset == a + b;
    assert a + b + " COLLATE " + collation == a + (b + (" COLLATE " + collation));
    assert "ALTER DATABASE " == "ALTER" + " " + ("DATABASE" + " ");
  }

  lemma AlterWords(name: string, charset: string, collation: string)
    requires ' ' !in name && ' ' !in charset && ' ' !in collation
    ensures Words("ALTER DATABASE " + name + " CHARACTER SET " + charset + " COLLATE " + collation)
         == ["ALTER", "DATABASE"] + ([name, "CHARACTER"] + (["SET", charset] + ["COLLATE", collation]))
  {
    var last := "COLLATE" + " " + collation;
    var mid := "SET" + " " + (charset + " " + last);
    var rest := name + " " + ("CHARACTER" + " " + mid);
    OneWord(collation);
    WordAndRest("COLLATE", collation);
    assert ["COLLATE"] + [collation] == ["COLLATE", collation];
    TwoWords("SET", charset, last);
    TwoWords(name, "CHARACTER", mid);
    TwoWords("ALTER", "DATABASE", rest);
    AlterText(name, charset, collation, last, mid, rest);
  }

  lemma EightWords(name: string, charset: string, collation: string)
    ensures var ws := ["ALTER", "DATABASE"] + ([name, "CHARACTER"] + (["SET", charset] + ["COLLATE", collation]));
      && |ws| == 8 && ws[..2] == ["ALTER", "DATABASE"] && ws[3..5] == ["CHARACTER", "SET"] && ws[6] == "COLLATE"
      && ws[2] == name && ws[5] == charset && ws[7] == collation
  {
  }

  /** The database gets the collation asked for, and the character set that goes with it. */
  lemma AlterReads(db: Database, collation: string)
    requires collation in db.charsets && ' ' !in db.name && ' ' !in db.charsets[collation] && ' ' !in collation
    ensures ReadAlter(AlterDatabase(db, collation)) == Some((db.name, db.charsets[collation], collation))
  {
    var charset := db.charsets[collation];
    AlterWords(db.name, charset, collation);
    EightWords(db.name, charset, collation);
  }
}
