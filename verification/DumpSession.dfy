/** Running a script, the delimiter in force, and scripts that leave no trace. */
module DumpSession {
  import opened Wrappers
  import opened DumpScript

  // ---------------------------------------------------------------------------------------------------------------
  // Running a script
  // ---------------------------------------------------------------------------------------------------------------

  datatype Session = Session(sys: SysVar -> string, user: UserVar -> Option<string>)

  /** A server: its version, and the collation each character set brings with it. */
  datatype Server = Server(version: nat, collation: string -> string)

  function SetSys(s: Session, x: SysVar, value: string): Session {
    s.(sys := y => if y == x then value else s.sys(y))
  }

  function SetUser(s: Session, u: UserVar, value: string): Session {
    s.(user := y => if y == u then Some(value) else s.user(y))
  }

  /** Restoring from a variable that was never saved is an error, and changes nothing. */
  function Do(server: Server, a: Action, s: Session): Session {
    match a
    case Save(u, x) => SetUser(s, u, s.sys(x))
    case Assign(x, value) => SetSys(s, x, value)
    case Restore(x, u) => if s.user(u).Some? then SetSys(s, x, s.user(u).value) else s
    case SetNames(charset) =>
      SetSys(SetSys(SetSys(s, CharacterSetClient, charset), CharacterSetResults, charset),
             CollationConnection, server.collation(charset))
    case Other(_) => s
    case Create(_) => s
  }

  function DoAll(server: Server, actions: seq<Action>, s: Session): Session {
    if actions == [] then s else DoAll(server, actions[1..], Do(server, actions[0], s))
  }

  /** A versioned comment is run by servers of that version or newer. */
  function RunItem(server: Server, item: Item, s: Session): Session {
    match item
    case Delimiter(_) => s
    case Statement(version, actions, _) => if version <= server.version then DoAll(server, actions, s) else s
  }

  /** All statements run, one by one. */
  function Run(server: Server, items: seq<Item>, s: Session): Session {
    if items == [] then s else Run(server, items[1..], RunItem(server, items[0], s))
  }

  /** The delimiter in force after the items, unless some statement ends with another one than that in force. */
  function Ends(items: seq<Item>, d: string): Option<string> {
    if items == [] then Some(d)
    else match items[0]
      case Delimiter(text) => Ends(items[1..], text)
      case Statement(_, _, ending) => if ending == d then Ends(items[1..], d) else None
  }

  predicate NoDelimiter(items: seq<Item>) {
    forall i :: 0 <= i < |items| ==> items[i].Statement?
  }

  /** The items up to the first that changes the delimiter. */
  function Before(items: seq<Item>): seq<Item> {
    if items == [] || items[0].Delimiter? then [] else [items[0]] + Before(items[1..])
  }

  /**
   What becomes of a session when a client reads the script. Text that does not end with the delimiter in force is held
   until that delimiter comes, or the end of the script, and is then sent as a whole; the server runs its statements one
   by one. While text is held a DELIMITER line is not taken for a command: it becomes part of the text, which is cut
   right there if the line names the delimiter in force. The server refuses the word, and the client stops.
   */
  function RunRead(server: Server, items: seq<Item>, d: string, held: seq<Item>, s: Session): Session {
    if items == [] then Run(server, Before(held), s)
    else
      var more := held + [items[0]];
      match items[0]
      case Delimiter(text) =>
        if held == [] then RunRead(server, items[1..], text, [], s)
        else if text == d then Run(server, Before(held), s)
        else RunRead(server, items[1..], d, more, s)
      case Statement(_, _, ending) =>
        if ending != d then RunRead(server, items[1..], d, more, s)
        else if NoDelimiter(held) then RunRead(server, items[1..], d, [], Run(server, more, s))
        else Run(server, Before(held), s)
  }

  lemma Associate(a: seq<Item>, b: seq<Item>, c: seq<Item>)
    ensures a + b + c == a + (b + c)
  {
  }

  lemma DoOne(server: Server, a: Action, s: Session)
    ensures DoAll(server, [a], s) == Do(server, a, s)
  {
    assert [a][1..] == [];
  }

  lemma RunOne(server: Server, item: Item, s: Session)
    ensures Run(server, [item], s) == RunItem(server, item, s)
  {
    assert [item][1..] == [];
  }

  lemma {:induction false} DoConcat(server: Server, a: seq<Action>, b: seq<Action>, s: Session)
    ensures DoAll(server, a + b, s) == DoAll(server, b, DoAll(server, a, s))
    decreases |a|
  {
    if a == [] {
      assert a + b == b;
    } else {
      assert (a + b)[1..] == a[1..] + b;
      DoConcat(server, a[1..], b, Do(server, a[0], s));
    }
  }

  lemma {:induction false} RunConcat(server: Server, a: seq<Item>, b: seq<Item>, s: Session)
    ensures Run(server, a + b, s) == Run(server, b, Run(server, a, s))
    decreases |a|
  {
    if a == [] {
      assert a + b == b;
    } else {
      assert (a + b)[1..] == a[1..] + b;
      RunConcat(server, a[1..], b, RunItem(server, a[0], s));
    }
  }

  lemma {:induction false} EndsConcat(a: seq<Item>, b: seq<Item>, d: string)
    ensures Ends(a + b, d) == if Ends(a, d).Some? then Ends(b, Ends(a, d).value) else None
    decreases |a|
  {
    if a == [] {
      assert a + b == b;
    } else {
      assert (a + b)[1..] == a[1..] + b;
      EndsConcat(a[1..], b, if a[0].Delimiter? then a[0].text else d);
    }
  }

  /** A part that keeps to the delimiter runs whole. */
  lemma {:induction false} ReadsOn(server: Server, a: seq<Item>, b: seq<Item>, d: string, s: Session)
    requires Ends(a, d).Some?
    ensures RunRead(server, a + b, d, [], s) == RunRead(server, b, Ends(a, d).value, [], Run(server, a, s))
    decreases |a|
  {
    if a == [] {
      assert a + b == b;
    } else {
      assert (a + b)[1..] == a[1..] + b && [] + [a[0]] == [a[0]];
      RunOne(server, a[0], s);
      ReadsOn(server, a[1..], b, if a[0].Delimiter? then a[0].text else d, RunItem(server, a[0], s));
    }
  }

  lemma NoDelimiterFirst(items: seq<Item>)
    requires items != []
    ensures NoDelimiter(items) <==> items[0].Statement? && NoDelimiter(items[1..])
  {
    assert forall i :: 1 <= i < |items| ==> items[i] == items[1..][i - 1];
  }

  lemma {:induction false} BeforeConcat(a: seq<Item>, b: seq<Item>)
    ensures Before(a + b) == if NoDelimiter(a) then a + Before(b) else Before(a)
    decreases |a|
  {
    if a == [] {
      assert a + b == b;
    } else {
      assert (a + b)[1..] == a[1..] + b;
      NoDelimiterFirst(a);
      BeforeConcat(a[1..], b);
      Associate([a[0]], a[1..], Before(b));
      assert [a[0]] + a[1..] == a;
    }
  }

  lemma NoDelimiterConcat(a: seq<Item>, b: seq<Item>)
    ensures NoDelimiter(a + b) <==> NoDelimiter(a) && NoDelimiter(b)
  {
    assert (forall i :: 0 <= i < |a| ==> (a + b)[i] == a[i]) && forall i :: 0 <= i < |b| ==> (a + b)[|a| + i] == b[i];
  }

  lemma {:induction false} BeforeIsPrefix(items: seq<Item>)
    ensures Before(items) <= items
    decreases |items|
  {
    if items != [] && items[0].Statement? {
      BeforeIsPrefix(items[1..]);
      assert items == [items[0]] + items[1..];
    }
  }

  /** Once the word DELIMITER is part of the text held, nothing behind it is run. */
  lemma {:induction false} RefusedAtWord(server: Server, items: seq<Item>, d: string, held: seq<Item>, s: Session)
    requires !NoDelimiter(held)
    ensures RunRead(server, items, d, held, s) == Run(server, Before(held), s)
    decreases |items|
  {
    if items != [] {
      var more := held + [items[0]];
      var i :| 0 <= i < |held| && !held[i].Statement?;
      assert more[i] == held[i];
      BeforeConcat(held, [items[0]]);
      RefusedAtWord(server, items[1..], d, more, s);
    }
  }

  predicate AllEnd(items: seq<Item>, d: string) {
    forall i :: 0 <= i < |items| ==> items[i].Statement? && items[i].ending == d
  }

  lemma {:induction false} FirstEnd(items: seq<Item>, d: string)
    requires Ends(items, d).Some?
    ensures AllEnd(Before(items), d)
    decreases |items|
  {
    if items != [] && items[0].Statement? {
      FirstEnd(items[1..], d);
    }
  }

  lemma BeforeAll(items: seq<Item>)
    requires NoDelimiter(items)
    ensures Before(items) == items
  {
    BeforeConcat(items, []);
    assert items + [] == items;
  }

  lemma WordReached(server: Server, items: seq<Item>, d: string, held: seq<Item>, s: Session)
    requires items != [] && items[0].Delimiter? && held != [] && NoDelimiter(held)
    ensures RunRead(server, items, d, held, s) == Run(server, held, s)
  {
    var more := held + [items[0]];
    BeforeAll(held);
    if items[0].text != d {
      assert !more[|held|].Statement?;
      BeforeConcat(held, [items[0]]);
      RefusedAtWord(server, items[1..], d, more, s);
      assert held + [] == held;
    }
  }

  lemma RestEnds(items: seq<Item>, ending: string)
    requires items != [] && items[0].Statement? && AllEnd(Before(items), ending)
    ensures items[0].ending == ending && AllEnd(Before(items[1..]), ending)
    ensures Before(items) == [items[0]] + Before(items[1..])
  {
    var all, rest := Before(items), Before(items[1..]);
    assert all[0] == items[0] && forall i :: 0 <= i < |rest| ==> rest[i] == all[i + 1];
  }

  /**
   Statements that end with a delimiter not in force are held and run in the end, up to the first DELIMITER line among
   them.
   */
  lemma {:induction false} HeldUntilWord(server: Server, items: seq<Item>, d: string, held: seq<Item>, ending: string,
                                         s: Session)
    requires ending != d && AllEnd(Before(items), ending) && NoDelimiter(held)
    requires held != [] || items == [] || items[0].Statement?
    ensures RunRead(server, items, d, held, s) == Run(server, held + Before(items), s)
    decreases |items|
  {
    if items == [] {
      BeforeAll(held);
      assert held + [] == held;
    } else if items[0].Delimiter? {
      WordReached(server, items, d, held, s);
      assert held + [] == held;
    } else {
      RestEnds(items, ending);
      var more := held + [items[0]];
      HeldUntilWord(server, items[1..], d, more, ending, s);
      Associate(held, [items[0]], Before(items[1..]));
    }
  }

  // ---------------------------------------------------------------------------------------------------------------
  // What a script does besides settings
  // ---------------------------------------------------------------------------------------------------------------

  datatype Deed = Deed(version: nat, action: Action)

  predicate Does(item: Item) {
    item.Statement? && |item.actions| == 1 && (item.actions[0].Other? || item.actions[0].Create?)
  }

  /** The statements that are not about settings, in order. */
  function Deeds(items: seq<Item>): seq<Deed> {
    if items == [] then []
    else (if Does(items[0]) then [Deed(items[0].version, items[0].actions[0])] else []) + Deeds(items[1..])
  }

  lemma {:induction false} DeedsConcat(a: seq<Item>, b: seq<Item>)
    ensures Deeds(a + b) == Deeds(a) + Deeds(b)
    decreases |a|
  {
    if a == [] {
      assert a + b == b;
    } else {
      var first := if Does(a[0]) then [Deed(a[0].version, a[0].actions[0])] else [];
      assert (a + b)[0] == a[0] && (a + b)[1..] == a[1..] + b;
      DeedsConcat(a[1..], b);
      assert first + (Deeds(a[1..]) + Deeds(b)) == first + Deeds(a[1..]) + Deeds(b);
    }
  }

  lemma {:induction false} NothingDone(items: seq<Item>)
    requires forall i :: 0 <= i < |items| ==> !Does(items[i])
    ensures Deeds(items) == []
    decreases |items|
  {
    if items != [] {
      assert forall i :: 0 <= i < |items[1..]| ==> items[1..][i] == items[i + 1];
      NothingDone(items[1..]);
    }
  }

  // ---------------------------------------------------------------------------------------------------------------
  // Scripts that leave no trace
  // ---------------------------------------------------------------------------------------------------------------

  ghost predicate SameSettings(s: Session, t: Session) {
    forall x :: t.sys(x) == s.sys(x)
  }

  ghost predicate SameSaved(s: Session, t: Session, keep: iset<UserVar>) {
    forall u :: u in keep ==> t.user(u) == s.user(u)
  }

  /** On every server and in every session, the items leave all settings and the saved values in `keep` as they were. */
  ghost predicate Neutral(items: seq<Item>, keep: iset<UserVar>) {
    forall server, s :: SameSettings(s, Run(server, items, s)) && SameSaved(s, Run(server, items, s), keep)
  }

  predicate SparesNotes(a: Action) {
    match a
    case Assign(x, _) => x != SqlNotes
    case Restore(x, _) => x != SqlNotes
    case _ => true
  }

  predicate Spares(item: Item) {
    item.Statement? ==> forall i :: 0 <= i < |item.actions| ==> SparesNotes(item.actions[i])
  }

  /** No statement sets whether notes are on. */
  predicate LeavesNotes(items: seq<Item>) {
    forall i :: 0 <= i < |items| ==> Spares(items[i])
  }

  /**
   ... and take the delimiter from `d` to `d'`, every statement ending with the one in force, and none setting whether
   notes are on.
   */
  ghost predicate Clean(items: seq<Item>, keep: iset<UserVar>, d: string, d': string) {
    Neutral(items, keep) && Ends(items, d) == Some(d') && LeavesNotes(items)
  }

  lemma {:induction false} NotesAfter(server: Server, actions: seq<Action>, s: Session)
    requires forall i :: 0 <= i < |actions| ==> SparesNotes(actions[i])
    ensures DoAll(server, actions, s).sys(SqlNotes) == s.sys(SqlNotes)
    decreases |actions|
  {
    if actions != [] {
      assert SparesNotes(actions[0]) && forall i :: 0 <= i < |actions[1..]| ==> actions[1..][i] == actions[i + 1];
      NotesAfter(server, actions[1..], Do(server, actions[0], s));
    }
  }

  lemma {:induction false} NotesKept(server: Server, items: seq<Item>, s: Session)
    requires LeavesNotes(items)
    ensures Run(server, items, s).sys(SqlNotes) == s.sys(SqlNotes)
    decreases |items|
  {
    if items != [] {
      assert Spares(items[0]) && forall i :: 0 <= i < |items[1..]| ==> items[1..][i] == items[i + 1];
      if items[0].Statement? {
        NotesAfter(server, items[0].actions, s);
      }
      NotesKept(server, items[1..], RunItem(server, items[0], s));
    }
  }

  lemma NeutralConcat(a: seq<Item>, b: seq<Item>, keep: iset<UserVar>)
    requires Neutral(a, keep) && Neutral(b, keep)
    ensures Neutral(a + b, keep)
  {
    forall server, s
      ensures SameSettings(s, Run(server, a + b, s)) && SameSaved(s, Run(server, a + b, s), keep)
    {
      RunConcat(server, a, b, s);
      var t := Run(server, a, s);
      var r := Run(server, b, t);
    }
  }

  lemma CleanConcat(a: seq<Item>, b: seq<Item>, keep: iset<UserVar>, d: string, mid: string, d': string)
    requires Clean(a, keep, d, mid) && Clean(b, keep, mid, d')
    ensures Clean(a + b, keep, d, d')
  {
    NeutralConcat(a, b, keep);
    EndsConcat(a, b, d);
  }

  lemma CleanEmpty(keep: iset<UserVar>, d: string)
    ensures Clean([], keep, d, d)
  {
  }

  lemma CleanDelimiter(keep: iset<UserVar>, d: string, d': string)
    ensures Clean([Delimiter(d')], keep, d, d')
  {
    assert [Delimiter(d')][1..] == [];
    assert Ends([Delimiter(d')], d) == Ends([], d');
  }

  lemma CleanStatement(version: nat, a: Action, keep: iset<UserVar>, d: string)
    requires a.Other? || a.Create?
    ensures Clean([Statement(version, [a], d)], keep, d, d)
  {
    var item := Statement(version, [a], d);
    assert [item][1..] == [];
    forall server, s
      ensures Run(server, [item], s) == s
    {
      RunOne(server, item, s);
      DoOne(server, a, s);
    }
  }

  // ---------------------------------------------------------------------------------------------------------------
  // Switching settings and switching them back
  // ---------------------------------------------------------------------------------------------------------------

  predicate Distinct(pairs: Pairs) {
    forall i, j :: 0 <= i < j < |pairs| ==> pairs[i].0 != pairs[j].0 && pairs[i].1 != pairs[j].1
  }

  ghost function Users(pairs: Pairs): iset<UserVar> {
    iset i | 0 <= i < |pairs| :: pairs[i].0
  }

  function Systems(pairs: Pairs): set<SysVar> {
    set i | 0 <= i < |pairs| :: pairs[i].1
  }

  /** The old settings are saved, the first of them set to the values, and nothing else is touched. */
  ghost predicate Switched(pairs: Pairs, values: seq<string>, s: Session, t: Session)
    requires |values| <= |pairs|
  {
    && (forall i :: 0 <= i < |pairs| ==> t.user(pairs[i].0) == Some(s.sys(pairs[i].1)))
    && (forall i :: 0 <= i < |values| ==> t.sys(pairs[i].1) == values[i])
    && (forall x :: x !in Systems(pairs[..|values|]) ==> t.sys(x) == s.sys(x))
    && (forall u :: u !in Users(pairs) ==> t.user(u) == s.user(u))
  }

  /** The settings are what was saved, as far as it was, and nothing else is touched. */
  ghost predicate SwitchedBack(pairs: Pairs, s: Session, t: Session) {
    && t.user == s.user
    && (forall i :: 0 <= i < |pairs| && s.user(pairs[i].0).Some? ==> t.sys(pairs[i].1) == s.user(pairs[i].0).value)
    && (forall x :: x !in Systems(pairs) ==> t.sys(x) == s.sys(x))
  }

  predicate SetsOnly(a: Action, xs: set<SysVar>) {
    match a
    case Assign(x, _) => x in xs
    case Restore(x, _) => x in xs
    case SetNames(_) => false
    case _ => true
  }

  predicate Concerns(item: Item, xs: set<SysVar>) {
    item.Statement? && forall i :: 0 <= i < |item.actions| ==> SetsOnly(item.actions[i], xs)
  }

  /** Statements that set none but the given settings. */
  predicate Sets(items: seq<Item>, xs: set<SysVar>) {
    forall i :: 0 <= i < |items| ==> Concerns(items[i], xs)
  }

  lemma SetsLeavesNotes(items: seq<Item>, xs: set<SysVar>)
    requires Sets(items, xs)
    ensures NoDelimiter(items) && (SqlNotes !in xs ==> LeavesNotes(items))
  {
    forall i | 0 <= i < |items|
      ensures items[i].Statement? && (SqlNotes !in xs ==> Spares(items[i]))
    {
      assert Concerns(items[i], xs);
    }
  }

  /**
   On servers from `version` on, running the items saves the settings of `pairs` and sets them to the values; on older
   ones it changes nothing. They do nothing else, and end with the delimiter `d`.
   */
  ghost predicate Switches(items: seq<Item>, version: nat, pairs: Pairs, values: seq<string>, d: string)
    requires |values| <= |pairs|
  {
    && Ends(items, d) == Some(d) && Deeds(items) == [] && Sets(items, Systems(pairs))
    && forall server, s :: var t := Run(server, items, s);
         if version <= server.version then Switched(pairs, values, s, t) else t == s
  }

  ghost predicate SwitchesBack(items: seq<Item>, version: nat, pairs: Pairs, d: string) {
    && Ends(items, d) == Some(d) && Deeds(items) == [] && Sets(items, Systems(pairs))
    && forall server, s :: var t := Run(server, items, s);
         if version <= server.version then SwitchedBack(pairs, s, t) else t == s
  }

  /** Whatever stands between switching settings and switching them back, if it leaves them alone, so does the whole. */
  lemma WithinIsNeutral(front: seq<Item>, inner: seq<Item>, back: seq<Item>, version: nat, pairs: Pairs,
                        values: seq<string>, keep: iset<UserVar>, d: string)
    requires |values| <= |pairs| && keep !! Users(pairs)
    requires Switches(front, version, pairs, values, d) && SwitchesBack(back, version, pairs, d)
    requires Neutral(inner, keep + Users(pairs))
    ensures Neutral(front + inner + back, keep)
  {
    forall server, s
      ensures SameSettings(s, Run(server, front + inner + back, s))
      ensures SameSaved(s, Run(server, front + inner + back, s), keep)
    {
      RunConcat(server, front + inner, back, s);
      RunConcat(server, front, inner, s);
      var s1 := Run(server, front, s);
      var s2 := Run(server, inner, s1);
      var s3 := Run(server, back, s2);
      if version <= server.version {
        assert forall i :: 0 <= i < |pairs| ==> pairs[i].0 in Users(pairs);
        assert SwitchedBack(pairs, s2, s3) && Switched(pairs, values, s, s1);
        assert forall i :: 0 <= i < |values| ==> pairs[..|values|][i] == pairs[i];
      }
    }
  }

  lemma CleanWithin(front: seq<Item>, inner: seq<Item>, back: seq<Item>, version: nat, pairs: Pairs,
                    values: seq<string>, keep: iset<UserVar>, d: string)
    requires |values| <= |pairs| && keep !! Users(pairs)
    requires Switches(front, version, pairs, values, d) && SwitchesBack(back, version, pairs, d)
    requires Clean(inner, keep + Users(pairs), d, d) && SqlNotes !in Systems(pairs)
    ensures Clean(front + inner + back, keep, d, d)
  {
    SetsLeavesNotes(front, Systems(pairs));
    SetsLeavesNotes(back, Systems(pairs));
    WithinIsNeutral(front, inner, back, version, pairs, values, keep, d);
    EndsConcat(front, inner, d);
    EndsConcat(front + inner, back, d);
  }

  // ---------------------------------------------------------------------------------------------------------------
  // The statements that switch
  // ---------------------------------------------------------------------------------------------------------------

  /** One statement for each of the actions. */
  function Each(version: nat, actions: seq<Action>, d: string): seq<Item> {
    seq(|actions|, i requires 0 <= i < |actions| => Statement(version, [actions[i]], d))
  }

  function Saves(pairs: Pairs): seq<Action> {
    seq(|pairs|, i requires 0 <= i < |pairs| => Save(pairs[i].0, pairs[i].1))
  }

  function Assigns(pairs: Pairs, values: seq<string>): seq<Action>
    requires |values| <= |pairs|
  {
    seq(|values|, i requires 0 <= i < |values| => Assign(pairs[i].1, values[i]))
  }

  function Restores(pairs: Pairs): seq<Action> {
    seq(|pairs|, i requires 0 <= i < |pairs| => Restore(pairs[i].1, pairs[i].0))
  }

  lemma {:induction false} EachRuns(server: Server, version: nat, actions: seq<Action>, d: string, s: Session)
    ensures Run(server, Each(version, actions, d), s) == if version <= server.version then DoAll(server, actions, s) else s
    decreases |actions|
  {
    if actions != [] {
      var items := Each(version, actions, d);
      assert items[1..] == Each(version, actions[1..], d);
      var s' := RunItem(server, items[0], s);
      DoOne(server, actions[0], s);
      EachRuns(server, version, actions[1..], d, s');
    }
  }

  lemma {:induction false} EachEnds(version: nat, actions: seq<Action>, d: string)
    ensures Ends(Each(version, actions, d), d) == Some(d)
    decreases |actions|
  {
    if actions != [] {
      assert Each(version, actions, d)[1..] == Each(version, actions[1..], d);
      EachEnds(version, actions[1..], d);
    }
  }

  lemma AllButLast(pairs: Pairs)
    requires pairs != []
    ensures var last := |pairs| - 1;
            Users(pairs) == Users(pairs[..last]) + iset{pairs[last].0}
            && Systems(pairs) == Systems(pairs[..last]) + {pairs[last].1}
  {
    var last := |pairs| - 1;
    var before := pairs[..last];
    assert forall i :: 0 <= i < |before| ==> before[i] == pairs[i];
    assert forall i :: 0 <= i < |pairs| ==> pairs[i] == if i == last then pairs[last] else before[i];
  }

  lemma {:induction false} SavesRun(server: Server, pairs: Pairs, s: Session)
    requires Distinct(pairs)
    ensures var t := DoAll(server, Saves(pairs), s);
            t.sys == s.sys
            && (forall i :: 0 <= i < |pairs| ==> t.user(pairs[i].0) == Some(s.sys(pairs[i].1)))
            && forall u :: u !in Users(pairs) ==> t.user(u) == s.user(u)
    decreases |pairs|
  {
    if pairs != [] {
      var last := |pairs| - 1;
      var before := pairs[..last];
      assert Saves(pairs) == Saves(before) + [Save(pairs[last].0, pairs[last].1)];
      DoConcat(server, Saves(before), [Save(pairs[last].0, pairs[last].1)], s);
      SavesRun(server, before, s);
      var t := DoAll(server, Saves(before), s);
      DoOne(server, Save(pairs[last].0, pairs[last].1), t);
      AllButLast(pairs);
    }
  }

  lemma {:induction false} AssignsRun(server: Server, pairs: Pairs, values: seq<string>, s: Session)
    requires |values| <= |pairs| && Distinct(pairs)
    ensures var t := DoAll(server, Assigns(pairs, values), s);
            t.user == s.user
            && (forall i :: 0 <= i < |values| ==> t.sys(pairs[i].1) == values[i])
            && forall x :: x !in Systems(pairs[..|values|]) ==> t.sys(x) == s.sys(x)
    decreases |values|
  {
    if values != [] {
      var last := |values| - 1;
      var a := Assign(pairs[last].1, values[last]);
      assert Assigns(pairs, values) == Assigns(pairs, values[..last]) + [a];
      DoConcat(server, Assigns(pairs, values[..last]), [a], s);
      AssignsRun(server, pairs, values[..last], s);
      var t := DoAll(server, Assigns(pairs, values[..last]), s);
      DoOne(server, a, t);
      AllButLast(pairs[..|values|]);
      assert pairs[..|values|][..last] == pairs[..last];
    }
  }

  lemma {:induction false} RestoresRun(server: Server, pairs: Pairs, s: Session)
    requires Distinct(pairs)
    ensures SwitchedBack(pairs, s, DoAll(server, Restores(pairs), s))
    decreases |pairs|
  {
    if pairs != [] {
      var last := |pairs| - 1;
      var before := pairs[..last];
      var a := Restore(pairs[last].1, pairs[last].0);
      assert Restores(pairs) == Restores(before) + [a];
      DoConcat(server, Restores(before), [a], s);
      RestoresRun(server, before, s);
      var t := DoAll(server, Restores(before), s);
      DoOne(server, a, t);
      AllButLast(pairs);
      assert forall i :: 0 <= i < last ==> before[i] == pairs[i];
    }
  }

  /** Statements that save the settings one by one and then set them switch them. */
  lemma SavesAndAssignsSwitch(version: nat, pairs: Pairs, values: seq<string>, d: string)
    requires |values| <= |pairs| && Distinct(pairs)
    ensures Switches(Each(version, Saves(pairs), d) + Each(version, Assigns(pairs, values), d), version, pairs, values, d)
  {
    var saves, assigns := Each(version, Saves(pairs), d), Each(version, Assigns(pairs, values), d);
    EachEnds(version, Saves(pairs), d);
    EachEnds(version, Assigns(pairs, values), d);
    EndsConcat(saves, assigns, d);
    NothingDone(saves + assigns);
    forall server, s
      ensures var t := Run(server, saves + assigns, s);
              if version <= server.version then Switched(pairs, values, s, t) else t == s
    {
      RunConcat(server, saves, assigns, s);
      EachRuns(server, version, Saves(pairs), d, s);
      var s1 := Run(server, saves, s);
      EachRuns(server, version, Assigns(pairs, values), d, s1);
      if version <= server.version {
        SavesRun(server, pairs, s);
        AssignsRun(server, pairs, values, s1);
      }
    }
  }

  lemma RestoresSwitchBack(version: nat, pairs: Pairs, d: string)
    requires Distinct(pairs)
    ensures SwitchesBack(Each(version, Restores(pairs), d), version, pairs, d)
  {
    var items := Each(version, Restores(pairs), d);
    EachEnds(version, Restores(pairs), d);
    NothingDone(items);
    forall server, s
      ensures var t := Run(server, items, s); if version <= server.version then SwitchedBack(pairs, s, t) else t == s
    {
      EachRuns(server, version, Restores(pairs), d, s);
      RestoresRun(server, pairs, s);
    }
  }
}
