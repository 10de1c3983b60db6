/** The pieces a dump script is made of, and how they fit together. */
module DumpPieces {
  import opened Definer
  import opened DumpScript
  import opened DumpSession
  import opened DumpCreates
  import opened DumpSettings
  import opened Wrappers

  // ---------------------------------------------------------------------------------------------------------------
  // The variables settings are saved in
  // ---------------------------------------------------------------------------------------------------------------

  ghost const OLD: iset<UserVar> := iset u: UserVar | u.Old?

  ghost const OLD_AND_ZONE: iset<UserVar> := iset u: UserVar | u.Old? || u == SaveTimeZone

  lemma FixedPairs()
    ensures Distinct(CS) && Users(CS) == iset{SavedCsClient, SavedCsResults, SavedColConnection}
    ensures Distinct(CLIENT) && Users(CLIENT) == iset{SavedCsClient}
    ensures Distinct(MODE) && Users(MODE) == iset{SavedSqlMode}
    ensures Distinct(ZONE) && Users(ZONE) == iset{SavedTimeZone}
    ensures Distinct(EVENTS_ZONE) && Users(EVENTS_ZONE) == iset{SaveTimeZone}
    ensures SqlNotes !in Systems(CS) && SqlNotes !in Systems(CLIENT) && SqlNotes !in Systems(MODE)
    ensures SqlNotes !in Systems(ZONE) && SqlNotes !in Systems(EVENTS_ZONE)
  {
    assert CS[0].0 in Users(CS) && CS[1].0 in Users(CS) && CS[2].0 in Users(CS);
    assert CLIENT[0].0 in Users(CLIENT) && MODE[0].0 in Users(MODE) && ZONE[0].0 in Users(ZONE);
    assert EVENTS_ZONE[0].0 in Users(EVENTS_ZONE);
  }

  lemma KeptApart()
    ensures OLD !! Users(CS) && OLD + Users(CS) !! Users(MODE) && OLD !! Users(CLIENT) && OLD !! Users(EVENTS_ZONE)
    ensures OLD_AND_ZONE !! Users(CS) && OLD_AND_ZONE + Users(CS) !! Users(MODE) + Users(ZONE)
    ensures OLD + Users(EVENTS_ZONE) == OLD_AND_ZONE
  {
    FixedPairs();
  }

  // ---------------------------------------------------------------------------------------------------------------
  // What parts of the output are
  // ---------------------------------------------------------------------------------------------------------------

  predicate Starts(items: seq<Item>, d: string) {
    items != [] && items[0].Statement? && items[0].ending == d
  }

  /** Statements that set nothing: they do the deeds, whatever the settings. */
  ghost predicate Inert(items: seq<Item>, d: string, deeds: seq<Deed>) {
    NoDelimiter(items) && forall keep, from, given :: Good(items, keep, d, d, from, given, All(deeds, given))
  }

  function AlterDeeds(db: Database, required: string): seq<Deed> {
    if db.collation == required then [] else [Deed(0, Other(AlterDatabase(db, required)))]
  }

  function AlterBackDeeds(db: Database, required: string): seq<Deed> {
    if db.collation == required then [] else [Deed(0, Other(AlterDatabase(db, db.collation)))]
  }

  function DropDeeds(on: bool, version: nat, text: string): seq<Deed> {
    if on then [Deed(version, Other(text))] else []
  }

  function CharsetValues(c: Charsets): seq<string>
    requires c.Reported?
  {
    [c.charset, c.charset, c.collation]
  }

  /** The settings in force once the character sets of an object were switched to. */
  function CharsetsOf(given: Wanted, c: Charsets): Wanted {
    if c.Reported? then Set(given, CS, CharsetValues(c)) else given
  }

  /** The settings an object was created under, with those given for the rest. */
  function RoutineSettings(given: Wanted, c: Charsets, sqlMode: string): Wanted {
    Set(CharsetsOf(given, c), MODE, [sqlMode])
  }

  lemma SetOne(given: Wanted, pairs: Pairs, value: string)
    requires pairs != []
    ensures Set(given, pairs, [value]) == given[pairs[0].1 := value]
  {
    assert [value][..0] == [];
  }

  lemma SetThree(given: Wanted, pairs: Pairs, a: string, b: string, c: string)
    requires |pairs| > 2
    ensures Set(given, pairs, [a, b, c]) == given[pairs[0].1 := a][pairs[1].1 := b][pairs[2].1 := c]
  {
    assert [a, b, c][..2] == [a, b] && [a, b][..1] == [a];
    SetOne(given, pairs, a);
  }

  lemma RoutineSettingsAre(given: Wanted, c: Charsets, sqlMode: string)
    requires c.Reported?
    ensures RoutineSettings(given, c, sqlMode)
         == given[CharacterSetClient := c.charset][CharacterSetResults := c.charset][CollationConnection := c.collation]
                 [SqlMode := sqlMode]
  {
    SetThree(given, CS, c.charset, c.charset, c.collation);
    SetOne(CharsetsOf(given, c), MODE, sqlMode);
  }

  function EventSettings(given: Wanted, e: Event): Wanted {
    Set(RoutineSettings(given, e.charsets, e.sqlMode), ZONE, [e.timeZone])
  }

  /** So the character sets reported, the SQL mode and the time zone are in force, and all else as given. */
  lemma EventSettingsAre(given: Wanted, e: Event)
    requires e.charsets.Reported?
    ensures var m := EventSettings(given, e);
      && m.Keys == given.Keys + {CharacterSetClient, CharacterSetResults, CollationConnection, SqlMode, TimeZone}
      && m[CharacterSetClient] == m[CharacterSetResults] == e.charsets.charset
      && m[CollationConnection] == e.charsets.collation && m[SqlMode] == e.sqlMode && m[TimeZone] == e.timeZone
      && forall x :: x in given && x !in {CharacterSetClient, CharacterSetResults, CollationConnection, SqlMode, TimeZone}
           ==> m[x] == given[x]
  {
    RoutineSettingsAre(given, e.charsets, e.sqlMode);
    SetOne(RoutineSettings(given, e.charsets, e.sqlMode), ZONE, e.timeZone);
  }

  /** The collation of the database is altered around what else is done. */
  function CharsetsTasks(db: Database, c: Charsets, given: Wanted, tasks: seq<Task>): seq<Task> {
    if c.Reported? then All(AlterDeeds(db, c.dbCollation), given) + tasks + All(AlterBackDeeds(db, c.dbCollation), given)
    else tasks
  }

  function TriggerTasks(o: Options, db: Database, w: Weights, t: Trigger, given: Wanted): seq<Task> {
    CharsetsTasks(db, TriggerCharsets(t), given,
      All(DropDeeds(o.dropTrigger, 50032, "DROP TRIGGER IF EXISTS " + t.name) + [Deed(50003, Create(TriggerText(w, t)))],
          RoutineSettings(given, TriggerCharsets(t), t.sqlMode)))
  }

  function RoutineTasks(o: Options, db: Database, r: Routine, given: Wanted): seq<Task> {
    if r.create == "" then []
    else
      All(DropDeeds(o.drop, 50003, "DROP " + r.name), given)
      + CharsetsTasks(db, r.charsets, given, All([Deed(0, Create(r.create))], RoutineSettings(given, r.charsets, r.sqlMode)))
  }

  function EventTasks(o: Options, db: Database, w: Weights, e: Event, given: Wanted): seq<Task> {
    if e.create == "" then []
    else
      All(DropDeeds(o.drop, 50106, "DROP EVENT IF EXISTS " + e.name), given)
      + CharsetsTasks(db, e.charsets, given, All([Deed(50106, Create(EventText(w, e)))], EventSettings(given, e)))
  }

  function TriggersTasks(o: Options, db: Database, w: Weights, ts: seq<Trigger>, given: Wanted): seq<Task> {
    if ts == [] then []
    else TriggersTasks(o, db, w, ts[..|ts| - 1], given) + TriggerTasks(o, db, w, ts[|ts| - 1], given)
  }

  function RoutinesTasks(o: Options, db: Database, rs: seq<Routine>, given: Wanted): seq<Task> {
    if rs == [] then [] else RoutinesTasks(o, db, rs[..|rs| - 1], given) + RoutineTasks(o, db, rs[|rs| - 1], given)
  }

  function EventsTasks(o: Options, db: Database, w: Weights, es: seq<Event>, given: Wanted): seq<Task> {
    if es == [] then [] else EventsTasks(o, db, w, es[..|es| - 1], given) + EventTasks(o, db, w, es[|es| - 1], given)
  }

  /** What the part of a block does besides settings, with the settings given outside its own switches. */
  function PartTasks(o: Options, w: Weights, p: Part, given: Wanted): seq<Task> {
    var utf8 := Set(given, CLIENT, ["utf8"]);
    match p.block
    case Plain(version, text) => All([Deed(version, Other(text))], given)
    case Table(create) => All([Deed(0, Create(create))], if o.oldTableFormat then given else utf8)
    case StandIn(create) =>
      All(DropDeeds(o.drop, 50001, "DROP VIEW IF EXISTS"), given) + All([Deed(50001, Create(create))], utf8)
    case View(charset, collation, create) =>
      All([Deed(50001, Create(create))], Set(given, CS, [charset, charset, collation]))
    case Triggers(ts) => TriggersTasks(o, p.db, w, ts, given)
    case Routines(rs) => RoutinesTasks(o, p.db, rs, given)
    case Events(es) => EventsTasks(o, p.db, w, es, given)
  }

  function PartsTasks(o: Options, w: Weights, ps: seq<Part>, given: Wanted): seq<Task> {
    if ps == [] then [] else PartsTasks(o, w, ps[..|ps| - 1], given) + PartTasks(o, w, ps[|ps| - 1], given)
  }

  /** All tasks are done, or the first of them if something failed. */
  predicate Achieved(ok: bool, done: seq<Task>, tasks: seq<Task>) {
    if ok then done == tasks else done <= tasks
  }

  lemma OneOfAll(deed: Deed, under: Wanted)
    ensures All([deed], under) == [Task(deed, under)]
  {
  }

  lemma InertStatement(version: nat, text: string, d: string)
    ensures Inert([Statement(version, [Other(text)], d)], d, [Deed(version, Other(text))])
  {
    forall keep, from, given
      ensures Good([Statement(version, [Other(text)], d)], keep, d, d, from, given, All([Deed(version, Other(text))], given))
    {
      GoodStatement(version, Other(text), keep, d, from, given);
      OneOfAll(Deed(version, Other(text)), given);
    }
  }

  lemma InertEmpty(d: string)
    ensures Inert([], d, [])
  {
    forall keep, from, given
      ensures Good([], keep, d, d, from, given, All([], given))
    {
      GoodEmpty(keep, d, from, given);
    }
  }

  /** An inert part among others. */
  lemma InertIsGood(items: seq<Item>, d: string, deeds: seq<Deed>, keep: iset<UserVar>, from: nat, given: Wanted)
    requires Inert(items, d, deeds)
    ensures Good(items, keep, d, d, from, given, All(deeds, given))
  {
  }

  /** The character sets of an object were switched to, where the server reports them. */
  ghost predicate Entered(c: Charsets, items: seq<Item>, d: string) {
    if c.Reported? then Switches(items, 50003, CS, CharsetValues(c), d) else items == []
  }

  ghost predicate Left(c: Charsets, items: seq<Item>, d: string) {
    if c.Reported? then SwitchesBack(items, 50003, CS, d) else items == []
  }

  lemma GoodKeepsLess(items: seq<Item>, keep: iset<UserVar>, less: iset<UserVar>, d: string, d': string, from: nat,
                      given: Wanted, tasks: seq<Task>)
    requires Good(items, keep, d, d', from, given, tasks) && less <= keep
    ensures Good(items, less, d, d', from, given, tasks)
  {
  }

  /** What is printed under the character sets of an object, with the collation of the database altered around it. */
  lemma GoodCharsets(c: Charsets, a: seq<Item>, b: seq<Item>, inner: seq<Item>, y: seq<Item>, z: seq<Item>,
                     keep: iset<UserVar>, d: string, given: Wanted, first: seq<Deed>, last: seq<Deed>, tasks: seq<Task>)
    requires Inert(a, d, first) && Entered(c, b, d) && Left(c, y, d) && Inert(z, d, last) && keep !! Users(CS)
    requires Good(inner, keep + Users(CS), d, d, 50003, CharsetsOf(given, c), tasks)
    ensures Good(a + (b + inner + y) + z, keep, d, d, 50003, given, All(first, given) + tasks + All(last, given))
  {
    var mid := b + inner + y;
    if c.Reported? {
      FixedPairs();
      GoodWithin(b, inner, y, 50003, CS, CharsetValues(c), keep, d, 50003, given, tasks);
    } else {
      assert mid == inner;
      GoodKeepsLess(inner, keep + Users(CS), keep, d, d, 50003, given, tasks);
    }
    InertIsGood(a, d, first, keep, 50003, given);
    InertIsGood(z, d, last, keep, 50003, given);
    GoodConcat(a, mid, keep, d, d, d, 50003, given, All(first, given), tasks);
    GoodConcat(a + mid, z, keep, d, d, d, 50003, given, All(first, given) + tasks, All(last, given));
  }

  lemma GoodCreate(version: nat, text: string, keep: iset<UserVar>, under: Wanted)
    ensures var create := [Delimiter(";;"), Statement(version, [Create(text)], ";;"), Delimiter(";")];
            Good(create, keep, ";", ";", 50003, under, [Task(Deed(version, Create(text)), under)])
  {
    var a, b, c := [Delimiter(";;")], [Statement(version, [Create(text)], ";;")], [Delimiter(";")];
    var tasks := [Task(Deed(version, Create(text)), under)];
    GoodDelimiter(keep, ";", ";;", 50003, under);
    GoodStatement(version, Create(text), keep, ";;", 50003, under);
    GoodDelimiter(keep, ";;", ";", 50003, under);
    GoodConcat(a, b, keep, ";", ";;", ";;", 50003, under, [], tasks);
    assert [] + tasks == tasks && tasks + [] == tasks;
    GoodConcat(a + b, c, keep, ";", ";;", ";", 50003, under, tasks, []);
    assert a + b + c == [Delimiter(";;"), Statement(version, [Create(text)], ";;"), Delimiter(";")];
  }

  lemma AllConcat(a: seq<Deed>, b: seq<Deed>, under: Wanted)
    ensures All(a + b, under) == All(a, under) + All(b, under)
  {
  }

  /** A DROP and a CREATE under a delimiter of its own, with the SQL mode switched around them. */
  lemma GoodBody(front: seq<Item>, drop: seq<Item>, create: seq<Item>, back: seq<Item>, version: nat, text: string,
                 keep: iset<UserVar>, sqlMode: string, given: Wanted, dropped: seq<Deed>)
    requires Switches(front, 50003, MODE, [sqlMode], ";") && SwitchesBack(back, 50003, MODE, ";")
    requires Inert(drop, ";", dropped) && keep !! Users(MODE)
    requires create == [Delimiter(";;"), Statement(version, [Create(text)], ";;"), Delimiter(";")]
    ensures Good(front + (drop + create) + back, keep, ";", ";", 50003, given,
                 All(dropped + [Deed(version, Create(text))], Set(given, MODE, [sqlMode])))
  {
    FixedPairs();
    var under := Set(given, MODE, [sqlMode]);
    var kept := keep + Users(MODE);
    GoodCreate(version, text, kept, under);
    InertIsGood(drop, ";", dropped, kept, 50003, under);
    GoodConcat(drop, create, kept, ";", ";", ";", 50003, under, All(dropped, under), [Task(Deed(version, Create(text)), under)]);
    OneOfAll(Deed(version, Create(text)), under);
    AllConcat(dropped, [Deed(version, Create(text))], under);
    GoodWithin(front, drop + create, back, 50003, MODE, [sqlMode], keep, ";", 50003, given,
               All(dropped + [Deed(version, Create(text))], under));
  }

  lemma Grouped(before: seq<Item>, a: seq<Item>, b: seq<Item>, inner: seq<Item>, y: seq<Item>, z: seq<Item>)
    ensures before + a + b + inner + y + z == before + (a + (b + inner + y) + z)
  {
  }

  lemma CharsetsAchieved(ok: bool, db: Database, c: Charsets, first: seq<Deed>, tasks: seq<Task>, last: seq<Deed>,
                         given: Wanted)
    requires first == if c.Reported? then AlterDeeds(db, c.dbCollation) else []
    requires last == if ok && c.Reported? then AlterBackDeeds(db, c.dbCollation) else []
    ensures Achieved(ok, All(first, given) + tasks + All(last, given), CharsetsTasks(db, c, given, tasks))
  {
    assert All(first, given) + tasks + [] == All(first, given) + tasks && [] + tasks == tasks;
  }

  /** The whole of an object's part of the output, once its character sets were left again. */
  lemma CharsetsDone(ok: bool, db: Database, c: Charsets, before: seq<Item>, a: seq<Item>, b: seq<Item>, inner: seq<Item>,
                     y: seq<Item>, z: seq<Item>, keep: iset<UserVar>, d: string, given: Wanted, tasks: seq<Task>)
    returns (done: seq<Task>)
    requires Inert(a, d, if c.Reported? then AlterDeeds(db, c.dbCollation) else []) && Entered(c, b, d) && Left(c, y, d)
    requires Inert(z, d, if ok && c.Reported? then AlterBackDeeds(db, c.dbCollation) else []) && keep !! Users(CS)
    requires Good(inner, keep + Users(CS), d, d, 50003, CharsetsOf(given, c), tasks)
    ensures var added := a + (b + inner + y) + z;
            before + a + b + inner + y + z == before + added && Good(added, keep, d, d, 50003, given, done)
    ensures Achieved(ok, done, CharsetsTasks(db, c, given, tasks))
  {
    var first := if c.Reported? then AlterDeeds(db, c.dbCollation) else [];
    var last := if ok && c.Reported? then AlterBackDeeds(db, c.dbCollation) else [];
    Grouped(before, a, b, inner, y, z);
    GoodCharsets(c, a, b, inner, y, z, keep, d, given, first, last, tasks);
    CharsetsAchieved(ok, db, c, first, tasks, last, given);
    done := All(first, given) + tasks + All(last, given);
  }

  lemma StartsSomewhere(a: seq<Item>, b: seq<Item>, inner: seq<Item>, y: seq<Item>, z: seq<Item>, d: string)
    requires (a == [] || Starts(a, d)) && (b == [] || Starts(b, d)) && Starts(inner, d)
    ensures Starts(a + (b + inner + y) + z, d)
  {
    var mid := b + inner + y;
    assert b == [] ==> mid[0] == inner[0];
    assert a == [] ==> (a + mid + z)[0] == mid[0];
  }

  lemma DelimiterInside(a: seq<Item>, b: seq<Item>, inner: seq<Item>, y: seq<Item>, z: seq<Item>)
    requires !NoDelimiter(inner)
    ensures !NoDelimiter(a + (b + inner + y) + z)
  {
    NoDelimiterConcat(b, inner);
    NoDelimiterConcat(b + inner, y);
    NoDelimiterConcat(a, b + inner + y);
    NoDelimiterConcat(a + (b + inner + y), z);
  }

  lemma ThreeParts(before: seq<Item>, a: seq<Item>, b: seq<Item>, c: seq<Item>)
    ensures before + a + b + c == before + (a + b + c)
  {
  }

  /** What comes behind a DROP, all or in part. */
  lemma AchievedBehind(ok: bool, first: seq<Task>, done: seq<Task>, tasks: seq<Task>)
    requires Achieved(ok, done, tasks)
    ensures Achieved(ok, first + done, first + tasks)
  {
  }

  /** An event's part of the output: its DROP, its delimiter, and the rest under that. */
  lemma EventDone(ok: bool, o: Options, db: Database, w: Weights, e: Event, d: string, d': string, before: seq<Item>,
                  drop: seq<Item>, change: seq<Item>, rest: seq<Item>, given: Wanted, more: seq<Task>)
    returns (done: seq<Task>)
    requires e.create != "" && Inert(drop, d, DropDeeds(o.drop, 50106, "DROP EVENT IF EXISTS " + e.name))
    requires change == [Delimiter(d')] && Good(rest, OLD_AND_ZONE, d', d', 50003, given, more)
    requires Achieved(ok, more, CharsetsTasks(db, e.charsets, given,
                                              All([Deed(50106, Create(EventText(w, e)))], EventSettings(given, e))))
    ensures var added := drop + change + rest;
            before + drop + change + rest == before + added && Good(added, OLD_AND_ZONE, d, d', 50003, given, done)
    ensures Achieved(ok, done, EventTasks(o, db, w, e, given))
  {
    var dropped := DropDeeds(o.drop, 50106, "DROP EVENT IF EXISTS " + e.name);
    var first := All(dropped, given);
    ThreeParts(before, drop, change, rest);
    InertIsGood(drop, d, dropped, OLD_AND_ZONE, 50003, given);
    GoodDelimiter(OLD_AND_ZONE, d, d', 50003, given);
    GoodConcat(drop, change, OLD_AND_ZONE, d, d, d', 50003, given, first, []);
    assert first + [] == first;
    GoodConcat(drop + change, rest, OLD_AND_ZONE, d, d', d', 50003, given, first, more);
    done := first + more;
    AchievedBehind(ok, first, more, CharsetsTasks(db, e.charsets, given,
                                                  All([Deed(50106, Create(EventText(w, e)))], EventSettings(given, e))));
  }

  lemma FourParts(before: seq<Item>, front: seq<Item>, a: seq<Item>, b: seq<Item>, back: seq<Item>)
    ensures before + front + a + b + back == before + (front + (a + b) + back)
  {
  }

  /** An event's CREATE statement with its time zone and its SQL mode around it. */
  lemma GoodEvent(m: seq<Item>, z: seq<Item>, create: seq<Item>, z': seq<Item>, m': seq<Item>, e: Event, text: string,
                  d: string, keep: iset<UserVar>, given: Wanted)
    requires Switches(m, 50003, MODE, [e.sqlMode], d) && SwitchesBack(m', 50003, MODE, d)
    requires Switches(z, 50003, ZONE, [e.timeZone], d) && SwitchesBack(z', 50003, ZONE, d)
    requires create == [Statement(50106, [Create(text)], d)] && keep !! Users(MODE) + Users(ZONE)
    ensures Good(m + (z + create + z') + m', keep, d, d, 50003, CharsetsOf(given, e.charsets),
                 All([Deed(50106, Create(text))], EventSettings(given, e)))
  {
    FixedPairs();
    var base := CharsetsOf(given, e.charsets);
    var under := RoutineSettings(given, e.charsets, e.sqlMode);
    var wanted := EventSettings(given, e);
    var tasks := [Task(Deed(50106, Create(text)), wanted)];
    GoodStatement(50106, Create(text), keep + Users(MODE) + Users(ZONE), d, 50003, wanted);
    GoodWithin(z, create, z', 50003, ZONE, [e.timeZone], keep + Users(MODE), d, 50003, under, tasks);
    GoodWithin(m, z + create + z', m', 50003, MODE, [e.sqlMode], keep, d, 50003, base, tasks);
    OneOfAll(Deed(50106, Create(text)), wanted);
  }

  lemma NestedParts(before: seq<Item>, m: seq<Item>, z: seq<Item>, create: seq<Item>, z': seq<Item>, m': seq<Item>)
    ensures before + m + z + create + z' + m' == before + (m + (z + create + z') + m')
  {
  }

  // ---------------------------------------------------------------------------------------------------------------
  // Lists of objects
  // ---------------------------------------------------------------------------------------------------------------

  lemma TriggersOneMore(o: Options, db: Database, w: Weights, ts: seq<Trigger>, i: nat, given: Wanted)
    requires i < |ts|
    ensures TriggersTasks(o, db, w, ts[..i + 1], given)
            == TriggersTasks(o, db, w, ts[..i], given) + TriggerTasks(o, db, w, ts[i], given)
    ensures TriggersOk(db, ts[..i + 1]) <==> TriggersOk(db, ts[..i]) && Known(db, ts[i].dbCollation)
  {
    var more, less := ts[..i + 1], ts[..i];
    assert more[..i] == less && more[i] == ts[i] && forall k :: 0 <= k < i ==> more[k] == less[k];
  }

  /** The triggers before `i` have done what they should. */
  ghost predicate TriggersDone(o: Options, db: Database, w: Weights, ts: seq<Trigger>, i: nat, given: Wanted, added: seq<Item>)
    requires i <= |ts|
  {
    DoesAs(added, 50003, given, TriggersTasks(o, db, w, ts[..i], given))
  }

  lemma TriggerDone(o: Options, db: Database, w: Weights, ts: seq<Trigger>, i: nat, given: Wanted, added: seq<Item>,
                    more: seq<Item>)
    requires i < |ts| && Neutral(added, OLD) && TriggersDone(o, db, w, ts, i, given, added)
    requires DoesAs(more, 50003, given, TriggerTasks(o, db, w, ts[i], given))
    ensures TriggersDone(o, db, w, ts, i + 1, given, added + more)
  {
    TriggersOneMore(o, db, w, ts, i, given);
    DoesConcat(added, more, OLD, 50003, given, TriggersTasks(o, db, w, ts[..i], given), TriggerTasks(o, db, w, ts[i], given));
  }

  lemma RoutinesOneMore(o: Options, db: Database, rs: seq<Routine>, i: nat, given: Wanted)
    requires i < |rs|
    ensures RoutinesTasks(o, db, rs[..i + 1], given) == RoutinesTasks(o, db, rs[..i], given) + RoutineTasks(o, db, rs[i], given)
  {
    assert rs[..i + 1][..i] == rs[..i] && rs[..i + 1][i] == rs[i];
  }

  /** The routines before `i` have done what they should. */
  ghost predicate RoutinesDone(o: Options, db: Database, rs: seq<Routine>, i: nat, given: Wanted, added: seq<Item>)
    requires i <= |rs|
  {
    DoesAs(added, 50003, given, RoutinesTasks(o, db, rs[..i], given))
  }

  lemma RoutineDone(o: Options, db: Database, rs: seq<Routine>, i: nat, given: Wanted, added: seq<Item>, more: seq<Item>)
    requires i < |rs| && Neutral(added, OLD) && RoutinesDone(o, db, rs, i, given, added)
    requires DoesAs(more, 50003, given, RoutineTasks(o, db, rs[i], given))
    ensures RoutinesDone(o, db, rs, i + 1, given, added + more)
  {
    RoutinesOneMore(o, db, rs, i, given);
    DoesConcat(added, more, OLD, 50003, given, RoutinesTasks(o, db, rs[..i], given), RoutineTasks(o, db, rs[i], given));
  }

  lemma EventsOneMore(o: Options, db: Database, w: Weights, es: seq<Event>, i: nat, given: Wanted)
    requires i < |es|
    ensures EventsTasks(o, db, w, es[..i + 1], given)
            == EventsTasks(o, db, w, es[..i], given) + EventTasks(o, db, w, es[i], given)
  {
    assert es[..i + 1][..i] == es[..i] && es[..i + 1][i] == es[i];
  }

  predicate OkUpTo(db: Database, es: seq<Event>, n: nat)
    requires n <= |es|
  {
    forall i :: 0 <= i < n ==> EventOk(db, es[i])
  }

  predicate NoBodyBefore(es: seq<Event>, n: nat)
    requires n <= |es|
  {
    forall i :: 0 <= i < n ==> es[i].create == ""
  }

  lemma RoutineSilent(db: Database, rs: seq<Routine>, i: nat)
    requires i < |rs| && rs[i].create != "" && forall j :: 0 <= j < i ==> rs[j].create == ""
    ensures RoutinesSilent(db, rs) <==> !Enterable(db, rs[i].charsets)
  {
    forall k | 0 <= k < |rs| && rs[k].create != "" && forall j :: 0 <= j < k ==> rs[j].create == ""
      ensures k == i
    {
    }
  }

  /** Before the routine at `i`: whether all so far went well, and changed no delimiter. */
  predicate RoutinesShown(db: Database, rs: seq<Routine>, i: nat, ok: bool, silent: bool)
    requires i <= |rs|
  {
    if ok && silent then forall j :: 0 <= j < i ==> rs[j].create == "" else silent <==> RoutinesSilent(db, rs)
  }

  lemma RoutineShown(db: Database, rs: seq<Routine>, i: nat, silent: bool, ok': bool, silent': bool)
    requires i < |rs| && RoutinesShown(db, rs, i, true, silent) && (ok' ==> RoutineOk(db, rs[i]))
    requires silent' <==> silent && (rs[i].create == "" || !Enterable(db, rs[i].charsets))
    requires rs[i].create == "" ==> ok'
    ensures RoutinesShown(db, rs, i + 1, ok', silent')
  {
    if silent && rs[i].create != "" {
      RoutineSilent(db, rs, i);
    }
  }

  lemma AllShown(db: Database, rs: seq<Routine>, i: nat, ok: bool, silent: bool)
    requires i <= |rs| && RoutinesShown(db, rs, i, ok, silent) && (ok ==> i == |rs|)
    ensures silent <==> RoutinesSilent(db, rs)
  {
  }

  predicate WithheldBefore(rs: seq<Routine>, n: nat)
    requires n <= |rs|
  {
    exists k :: 0 <= k < n && rs[k].body.None?
  }

  predicate RoutinesOkUpTo(db: Database, rs: seq<Routine>, n: nat)
    requires n <= |rs|
  {
    forall j :: 0 <= j < n ==> RoutineOk(db, rs[j])
  }

  /** As far as the dump goes over the routines, a body withheld is reported. */
  lemma ReportedUpTo(db: Database, rs: seq<Routine>, i: nat)
    requires i <= |rs| && RoutinesOkUpTo(db, rs, i)
    ensures WithheldBefore(rs, i) ==> RoutinesReported(db, rs)
    ensures i == |rs| || !RoutineOk(db, rs[i]) ==> (WithheldBefore(rs, i) <==> RoutinesReported(db, rs))
  {
    if RoutinesReported(db, rs) && (i == |rs| || !RoutineOk(db, rs[i])) {
      var k :| 0 <= k < |rs| && rs[k].body.None? && forall j :: 0 <= j < k ==> RoutineOk(db, rs[j]);
      assert RoutineOk(db, rs[k]);
    }
  }

  /** Where the dump of the routines stands before the one at `i`. */
  predicate RoutinesGone(db: Database, rs: seq<Routine>, i: nat, ok: bool, reported: bool)
    requires i <= |rs|
  {
    if ok then RoutinesOkUpTo(db, rs, i) && (reported <==> WithheldBefore(rs, i))
    else !RoutinesOk(db, rs) && (reported <==> RoutinesReported(db, rs))
  }

  lemma RoutineGone(db: Database, rs: seq<Routine>, i: nat, reported: bool, ok': bool)
    requires i < |rs| && RoutinesGone(db, rs, i, true, reported) && (ok' <==> RoutineOk(db, rs[i]))
    ensures RoutinesGone(db, rs, i + 1, ok', reported || rs[i].body.None?)
  {
    ReportedUpTo(db, rs, i);
    if ok' {
      assert WithheldBefore(rs, i + 1) <==> WithheldBefore(rs, i) || rs[i].body.None?;
    } else {
      assert rs[i].create != "";
    }
  }

  /** It ends with the last routine, with one that fails, or with a body withheld. */
  lemma RoutinesAllGone(db: Database, rs: seq<Routine>, i: nat, ok: bool, reported: bool, force: bool)
    requires i <= |rs| && RoutinesGone(db, rs, i, ok, reported) && !(ok && (reported ==> force) && i < |rs|)
    ensures reported <==> RoutinesReported(db, rs)
    ensures (reported ==> force) ==> (ok <==> RoutinesOk(db, rs)) && (ok ==> i == |rs|)
  {
    if ok {
      ReportedUpTo(db, rs, i);
    }
  }

  lemma CleanMore(before: seq<Item>, a: seq<Item>, b: seq<Item>, keep: iset<UserVar>, d: string, mid: string, d': string)
    requires Clean(a, keep, d, mid) && Clean(b, keep, mid, d') && (a == [] || Starts(a, d)) && (b == [] || Starts(b, mid))
    requires a == [] ==> mid == d
    ensures before + a + b == before + (a + b)
    ensures Clean(a + b, keep, d, d') && (a + b == [] || Starts(a + b, d))
  {
    Associate(before, a, b);
    CleanConcat(a, b, keep, d, mid, d');
    assert a == [] ==> a + b == b;
  }

  /** All that is known before the routine at `i`. */
  ghost predicate RoutinesAt(o: Options, db: Database, rs: seq<Routine>, i: nat, ok: bool, reported: bool, given: Wanted,
                             added: seq<Item>)
    requires i <= |rs|
  {
    && RoutinesGone(db, rs, i, ok, reported) && RoutinesShown(db, rs, i, ok, NoDelimiter(added))
    && Clean(added, OLD, ";", ";") && (added == [] || Starts(added, ";"))
    && (ok ==> RoutinesDone(o, db, rs, i, given, added))
  }

  lemma RoutinesNext(o: Options, db: Database, rs: seq<Routine>, i: nat, ok': bool, reported: bool, given: Wanted,
                     before: seq<Item>, added: seq<Item>, more: seq<Item>, done: seq<Task>)
    requires i < |rs| && RoutinesAt(o, db, rs, i, true, reported, given, added) && (ok' <==> RoutineOk(db, rs[i]))
    requires Good(more, OLD, ";", ";", 50003, given, done) && (more == [] || Starts(more, ";"))
    requires Achieved(ok', done, RoutineTasks(o, db, rs[i], given))
    requires NoDelimiter(more) <==> rs[i].create == "" || !Enterable(db, rs[i].charsets)
    ensures RoutinesAt(o, db, rs, i + 1, ok', reported || rs[i].body.None?, given, added + more)
    ensures before + added + more == before + (added + more)
  {
    NoDelimiterConcat(added, more);
    CleanMore(before, added, more, OLD, ";", ";", ";");
    RoutineGone(db, rs, i, reported, ok');
    RoutineShown(db, rs, i, NoDelimiter(added), ok', NoDelimiter(added + more));
    if ok' {
      RoutineDone(o, db, rs, i, given, added, more);
    }
  }

  lemma RoutinesBegin(o: Options, db: Database, rs: seq<Routine>, given: Wanted)
    ensures RoutinesAt(o, db, rs, 0, true, false, given, [])
  {
    GoodEmpty(OLD, ";", 50003, given);
    assert rs[..0] == [];
  }

  lemma RoutinesEnd(o: Options, db: Database, rs: seq<Routine>, i: nat, ok: bool, reported: bool, given: Wanted,
                    added: seq<Item>, force: bool)
    requires i <= |rs| && RoutinesAt(o, db, rs, i, ok, reported, given, added)
    requires !(ok && (reported ==> force) && i < |rs|)
    ensures reported <==> RoutinesReported(db, rs)
    ensures (reported ==> force) ==> (ok <==> RoutinesOk(db, rs)) && (NoDelimiter(added) <==> RoutinesSilent(db, rs))
    ensures (reported ==> force) && ok ==> DoesAs(added, 50003, given, RoutinesTasks(o, db, rs, given))
  {
    RoutinesAllGone(db, rs, i, ok, reported, force);
    assert i == |rs| ==> rs[..i] == rs;
    if reported ==> force {
      AllShown(db, rs, i, ok, NoDelimiter(added));
    }
  }

  /** The first event that fails fails before any delimiter was printed exactly if it is the first with a body. */
  lemma FailsHere(db: Database, es: seq<Event>, i: nat)
    requires i < |es| && OkUpTo(db, es, i) && !EventOk(db, es[i])
    ensures FailsAtOnce(es) <==> !Delimitable(es[i]) && NoBodyBefore(es, i)
  {
    if FailsAtOnce(es) {
      var k :| 0 <= k < |es| && es[k].create != "" && !Delimitable(es[k]) && forall j :: 0 <= j < k ==> es[j].create == "";
      assert k < i ==> EventOk(db, es[k]);
    }
  }

  /** Where the dump of the events stands before the one at `i`, with `d` in force. */
  predicate EventsGone(db: Database, es: seq<Event>, i: nat, ok: bool, d: string)
    requires i <= |es|
  {
    if ok then OkUpTo(db, es, i) && d == (if NoBodyBefore(es, i) then ";" else ";;")
    else !EventsOk(db, es) && d == (if FailsAtOnce(es) then ";" else ";;")
  }

  lemma EventGone(db: Database, es: seq<Event>, i: nat, d: string, ok': bool, d': string)
    requires i < |es| && EventsGone(db, es, i, true, d) && (ok' <==> EventOk(db, es[i]))
    requires d' == if es[i].create != "" && Delimitable(es[i]) then ";;" else d
    ensures EventsGone(db, es, i + 1, ok', d')
  {
    if !ok' {
      FailsHere(db, es, i);
    }
  }

  /** The events before `i` have done what they should. */
  ghost predicate EventsDoneUpTo(o: Options, db: Database, w: Weights, es: seq<Event>, i: nat, given: Wanted, added: seq<Item>)
    requires i <= |es|
  {
    DoesAs(added, 50003, given, EventsTasks(o, db, w, es[..i], given))
  }

  lemma EventDoneToo(o: Options, db: Database, w: Weights, es: seq<Event>, i: nat, given: Wanted, added: seq<Item>,
                     more: seq<Item>)
    requires i < |es| && Neutral(added, OLD_AND_ZONE) && EventsDoneUpTo(o, db, w, es, i, given, added)
    requires DoesAs(more, 50003, given, EventTasks(o, db, w, es[i], given))
    ensures EventsDoneUpTo(o, db, w, es, i + 1, given, added + more)
  {
    EventsOneMore(o, db, w, es, i, given);
    DoesConcat(added, more, OLD_AND_ZONE, 50003, given, EventsTasks(o, db, w, es[..i], given),
               EventTasks(o, db, w, es[i], given));
  }

  lemma NoneFails(db: Database, es: seq<Event>)
    requires EventsOk(db, es)
    ensures !FailsAtOnce(es)
  {
    forall k | 0 <= k < |es|
      ensures es[k].create == "" || Delimitable(es[k])
    {
      assert EventOk(db, es[k]);
    }
  }

  lemma PartsOneMore(o: Options, w: Weights, ps: seq<Part>, i: nat, given: Wanted)
    requires i < |ps|
    ensures PartsTasks(o, w, ps[..i + 1], given) == PartsTasks(o, w, ps[..i], given) + PartTasks(o, w, ps[i], given)
  {
    assert ps[..i + 1][..i] == ps[..i] && ps[..i + 1][i] == ps[i];
  }

  lemma PartsAlike(ps: seq<Part>, i: nat)
    requires i < |ps|
    ensures AllSafe(ps[..i + 1]) <==> AllSafe(ps[..i]) && PartSafe(ps[i])
    ensures AllOk(ps[..i + 1]) <==> AllOk(ps[..i]) && PartOk(ps[i])
  {
    var more, less := ps[..i + 1], ps[..i];
    assert more[i] == ps[i] && forall k :: 0 <= k < i ==> more[k] == less[k];
  }

  /**
   The blocks before `i` leave settings alone and, unless one of them fails, have done all they should, under the
   settings they should.
   */
  ghost predicate DoneUpTo(o: Options, w: Weights, ps: seq<Part>, i: nat, given: Wanted, added: seq<Item>)
    requires i <= |ps|
  {
    Neutral(added, OLD) && (AllOk(ps[..i]) ==> DoesAs(added, 50106, given, PartsTasks(o, w, ps[..i], given)))
  }

  lemma DoneMore(o: Options, w: Weights, ps: seq<Part>, i: nat, given: Wanted, added: seq<Item>, part: seq<Item>)
    requires i < |ps| && DoneUpTo(o, w, ps, i, given, added) && Neutral(part, OLD)
    requires PartOk(ps[i]) ==> DoesAs(part, 50106, given, PartTasks(o, w, ps[i], given))
    ensures DoneUpTo(o, w, ps, i + 1, given, added + part)
  {
    NeutralConcat(added, part, OLD);
    PartsOneMore(o, w, ps, i, given);
    PartsAlike(ps, i);
    if AllOk(ps[..i + 1]) {
      DoesConcat(added, part, OLD, 50106, given, PartsTasks(o, w, ps[..i], given), PartTasks(o, w, ps[i], given));
    }
  }

  lemma NothingDoneYet(o: Options, w: Weights, ps: seq<Part>, given: Wanted)
    ensures DoneUpTo(o, w, ps, 0, given, [])
  {
    GoodEmpty(OLD, ";", 50106, given);
    assert ps[..0] == [];
  }

  lemma AllDone(o: Options, w: Weights, ps: seq<Part>, given: Wanted, added: seq<Item>)
    requires DoneUpTo(o, w, ps, |ps|, given, added) && AllOk(ps)
    ensures DoesAs(added, 50106, given, PartsTasks(o, w, ps, given))
  {
    assert ps[..|ps|] == ps;
  }

  lemma PartsReported(ps: seq<Part>, i: nat)
    requires i < |ps|
    ensures NoneReported(ps[..i + 1]) <==> NoneReported(ps[..i]) && !PartReported(ps[i])
    ensures NoneReported(ps) ==> !PartReported(ps[i])
  {
    var more, less := ps[..i + 1], ps[..i];
    assert more[i] == ps[i] && forall k :: 0 <= k < i ==> more[k] == less[k];
  }

  /** Whether the dump still goes on before the block at `i`, and something was reported. */
  predicate GoesOn(ps: seq<Part>, i: nat, force: bool, finished: bool, error: bool)
    requires i <= |ps|
  {
    if finished then (error <==> !NoneReported(ps[..i])) && (error ==> force)
    else error && !force && !NoneReported(ps)
  }

  lemma GoesOnOrNot(ps: seq<Part>, i: nat, force: bool, error: bool)
    requires i < |ps| && GoesOn(ps, i, force, true, error)
    ensures GoesOn(ps, i + 1, force, PartReported(ps[i]) ==> force, error || PartReported(ps[i]))
  {
    PartsReported(ps, i);
  }

  /** In the end it went on to the last block, or something reported ended it. */
  lemma WentOn(ps: seq<Part>, i: nat, force: bool, finished: bool, error: bool)
    requires i <= |ps| && GoesOn(ps, i, force, finished, error) && (finished ==> i == |ps|)
    ensures (finished <==> force || NoneReported(ps)) && (error <==> !NoneReported(ps))
  {
    if finished {
      assert ps[..i] == ps;
    }
  }

  /** Saving a setting without changing it leaves no trace but the saved value. */
  lemma SaveIsClean(items: seq<Item>, version: nat, pairs: Pairs, keep: iset<UserVar>, d: string)
    requires Switches(items, version, pairs, [], d) && keep !! Users(pairs) && SqlNotes !in Systems(pairs)
    ensures Clean(items, keep, d, d)
  {
    SetsLeavesNotes(items, Systems(pairs));
    forall server, s
      ensures SameSettings(s, Run(server, items, s)) && SameSaved(s, Run(server, items, s), keep)
    {
      if version <= server.version {
        assert Switched(pairs, [], s, Run(server, items, s)) && pairs[..0] == [];
      }
    }
  }

  /** One more clean part, behind others. */
  lemma KeepsLess(items: seq<Item>, keep: iset<UserVar>, less: iset<UserVar>, d: string, d': string)
    requires Clean(items, keep, d, d') && less <= keep
    ensures Clean(items, less, d, d')
  {
  }

  /** The statements around a database's events save the time zone and restore it. */
  lemma ZoneSwitches()
    ensures Switches([Statement(50106, [Save(SaveTimeZone, TimeZone)], ";")], 50106, EVENTS_ZONE, [], ";")
    ensures SwitchesBack([Statement(50106, [Restore(TimeZone, SaveTimeZone)], ";")], 50106, EVENTS_ZONE, ";")
  {
    FixedPairs();
    SavesAndAssignsSwitch(50106, EVENTS_ZONE, [], ";");
    RestoresSwitchBack(50106, EVENTS_ZONE, ";");
    assert Each(50106, Saves(EVENTS_ZONE), ";") + Each(50106, Assigns(EVENTS_ZONE, []), ";")
        == [Statement(50106, [Save(SaveTimeZone, TimeZone)], ";")];
    assert Each(50106, Restores(EVENTS_ZONE), ";") == [Statement(50106, [Restore(TimeZone, SaveTimeZone)], ";")];
  }

  lemma EventsDone(front: seq<Item>, list: seq<Item>, end: seq<Item>, back: seq<Item>, d: string, given: Wanted,
                   tasks: seq<Task>)
    requires front == [Statement(50106, [Save(SaveTimeZone, TimeZone)], ";")] && end == [Delimiter(";")]
    requires back == [Statement(50106, [Restore(TimeZone, SaveTimeZone)], ";")]
    requires Good(list, OLD_AND_ZONE, ";", d, 50106, given, tasks)
    ensures Good(front + (list + end) + back, OLD, ";", ";", 50106, given, tasks)
  {
    KeptApart();
    FixedPairs();
    ZoneSwitches();
    GoodDelimiter(OLD_AND_ZONE, d, ";", 50106, given);
    GoodConcat(list, end, OLD_AND_ZONE, ";", d, ";", 50106, given, tasks, []);
    assert tasks + [] == tasks && Set(given, EVENTS_ZONE, []) == given;
    GoodWithin(front, list + end, back, 50106, EVENTS_ZONE, [], OLD, ";", 50106, given, tasks);
  }

  /** A CREATE statement with settings switched around it. */
  lemma GoodCreateWithin(front: seq<Item>, create: seq<Item>, back: seq<Item>, version: nat, pairs: Pairs,
                         values: seq<string>, created: nat, text: string, given: Wanted)
    requires |values| <= |pairs| && Distinct(pairs) && OLD !! Users(pairs) && SqlNotes !in Systems(pairs)
    requires Switches(front, version, pairs, values, ";") && SwitchesBack(back, version, pairs, ";")
    requires create == [Statement(created, [Create(text)], ";")]
    ensures Good(front + create + back, OLD, ";", ";", version, given,
                 All([Deed(created, Create(text))], Set(given, pairs, values)))
    ensures NoDelimiter(front + create + back)
  {
    SetsLeavesNotes(front, Systems(pairs));
    SetsLeavesNotes(back, Systems(pairs));
    var under := Set(given, pairs, values);
    GoodStatement(created, Create(text), OLD + Users(pairs), ";", version, under);
    OneOfAll(Deed(created, Create(text)), under);
    GoodWithin(front, create, back, version, pairs, values, OLD, ";", version, given, All([Deed(created, Create(text))], under));
  }

  // ---------------------------------------------------------------------------------------------------------------
  // Header and footer
  // ---------------------------------------------------------------------------------------------------------------

  const LOG_OFF := "SET LOCAL SQL_LOG_OFF=0, LOCAL SLOW_QUERY_LOG=0"

  function HeaderDeeds(o: Options): seq<Deed> {
    DropDeeds(!o.logging, 100101, LOG_OFF)
  }

  lemma LogIsClean(items: seq<Item>, deeds: seq<Deed>)
    requires Inert(items, ";", deeds)
    ensures Clean(items, iset{}, ";", ";") && Deeds(items) == deeds
  {
    InertIsGood(items, ";", deeds, iset{}, 0, map[]);
    var server, s := Server(0, c => c), Session(x => "", u => None);
    assert Performs(server, items, s, All(deeds, map[]));
    PerformsDeeds(server, items, s, All(deeds, map[]));
    assert DeedsOf(All(deeds, map[])) == deeds;
  }

  lemma NotYetAway()
    ensures var away := Systems(OLD_CS) + {TimeZone};
            UniqueChecks !in away && ForeignKeyChecks !in away && SqlMode !in away && SqlNotes !in away
  {
    CharsetPairs();
  }

  ghost const EVERYTHING: set<SysVar> :=
    Systems(OLD_CS) + {TimeZone} + {UniqueChecks} + {ForeignKeyChecks} + {SqlMode} + {SqlNotes}

  lemma EverythingIsFull()
    ensures Full(EVERYTHING)
  {
    AllEight(EVERYTHING);
  }

  lemma NothingLeft(left: set<SysVar>)
    requires left == EVERYTHING - {TimeZone} - {SqlMode} - {ForeignKeyChecks} - {UniqueChecks} - {CharacterSetClient}
                     - {CharacterSetResults} - {CollationConnection} - {SqlNotes}
    ensures left == {}
  {
    CharsetPairs();
  }

  /** On servers new enough, the items leave notes turned off. */
  ghost predicate NotesOff(items: seq<Item>) {
    forall server: Server, s :: 40111 <= server.version ==> Run(server, items, s).sys(SqlNotes) == "0"
  }

  /** The settings a header leaves, on servers that know them. */
  ghost predicate HeaderSettings(o: Options, server: Server, t: Session) {
    && (40014 <= server.version ==> t.sys(ForeignKeyChecks) == "0")
    && (40014 <= server.version && !o.noCreateInfo ==> t.sys(UniqueChecks) == "0")
    && (40101 <= server.version ==> t.sys(SqlMode) == o.sqlMode)
    && (40101 <= server.version && o.setCharset ==> t.sys(CharacterSetClient) == t.sys(CharacterSetResults) == o.charset)
    && (40101 <= server.version && o.setCharset ==> t.sys(CollationConnection) == server.collation(o.charset))
    && (40103 <= server.version && o.tzUtc ==> t.sys(TimeZone) == "+00:00")
    && (40111 <= server.version ==> t.sys(SqlNotes) == "0")
  }

  lemma GivesHeaderSettings(o: Options, items: seq<Item>)
    requires GivesEverything(o, items)
    ensures NotesOff(items) && forall server, s :: HeaderSettings(o, server, Run(server, items, s))
  {
    forall server, s
      ensures HeaderSettings(o, server, Run(server, items, s))
    {
      var t := Run(server, items, s);
      assert forall x :: Active(o, server, x) ==> t.sys(x) == NewValue(o, server, x);
    }
    forall server: Server, s | 40111 <= server.version
      ensures Run(server, items, s).sys(SqlNotes) == "0"
    {
      assert Active(o, server, SqlNotes);
    }
  }

  const ALL_SETTINGS := {CharacterSetClient, CharacterSetResults, CollationConnection, SqlMode, TimeZone, UniqueChecks,
                         ForeignKeyChecks, SqlNotes}

  /** What is known of the settings behind a header, on this server. */
  function HeaderValues(o: Options, server: Server): Wanted {
    map x | x in ALL_SETTINGS && Active(o, server, x) :: NewValue(o, server, x)
  }

  lemma HeaderAgrees(o: Options, server: Server, items: seq<Item>, s: Session)
    requires GivesEverything(o, items)
    ensures Agrees(Run(server, items, s), HeaderValues(o, server))
  {
  }

  lemma {:induction false} PerformsAny(server: Server, items: seq<Item>, s: Session)
    ensures Performs(server, items, s, All(Deeds(items), map[]))
    decreases |items|
  {
    if items != [] {
      PerformsAny(server, items[1..], RunItem(server, items[0], s));
      if Does(items[0]) {
        var deed := Deed(items[0].version, items[0].actions[0]);
        assert Deeds(items) == [deed] + Deeds(items[1..]);
        assert All(Deeds(items), map[])[0] == Task(deed, map[]);
        assert All(Deeds(items), map[])[1..] == All(Deeds(items[1..]), map[]);
      } else {
        assert Deeds(items) == Deeds(items[1..]);
      }
    }
  }

  /** Header, body and footer: all the body does runs with the settings of the header, but for its own switches. */
  lemma ScriptPerforms(o: Options, server: Server, h: seq<Item>, body: seq<Item>, f: seq<Item>, tasks: seq<Task>, s: Session)
    requires GivesEverything(o, h) && Deeds(h) == HeaderDeeds(o) && Deeds(f) == [] && 50106 <= server.version
    requires DoesAs(body, 50106, HeaderValues(o, server), tasks)
    ensures Performs(server, h + body + f, s, All(HeaderDeeds(o), map[]) + tasks)
  {
    var first := All(HeaderDeeds(o), map[]);
    PerformsAny(server, h, s);
    HeaderAgrees(o, server, h, s);
    PerformsConcat(server, h, body, s, first, tasks);
    PerformsNothing(server, f, Run(server, h + body, s));
    PerformsConcat(server, h + body, f, s, first + tasks, []);
    assert first + tasks + [] == first + tasks;
  }

  /** From every session. */
  lemma ScriptDoes(o: Options, server: Server, h: seq<Item>, body: seq<Item>, f: seq<Item>, tasks: seq<Task>)
    requires GivesEverything(o, h) && Deeds(h) == HeaderDeeds(o) && Deeds(f) == [] && 50106 <= server.version
    requires DoesAs(body, 50106, HeaderValues(o, server), tasks)
    ensures Deeds(h + body + f) == DeedsOf(All(HeaderDeeds(o), map[]) + tasks)
    ensures forall s :: Performs(server, h + body + f, s, All(HeaderDeeds(o), map[]) + tasks)
  {
    forall s
      ensures Performs(server, h + body + f, s, All(HeaderDeeds(o), map[]) + tasks)
    {
      ScriptPerforms(o, server, h, body, f, tasks, s);
    }
    PerformsDeeds(server, h + body + f, Session(x => "", u => None), All(HeaderDeeds(o), map[]) + tasks);
  }

  /** On a server that knows them all, these are the settings of the header. */
  lemma HeaderValuesAre(o: Options, server: Server)
    requires 50106 <= server.version
    ensures var m := HeaderValues(o, server);
      && ForeignKeyChecks in m && m[ForeignKeyChecks] == "0" && SqlNotes in m && m[SqlNotes] == "0"
      && SqlMode in m && m[SqlMode] == o.sqlMode
      && (UniqueChecks in m <==> !o.noCreateInfo) && (UniqueChecks in m ==> m[UniqueChecks] == "0")
      && (TimeZone in m <==> o.tzUtc) && (TimeZone in m ==> m[TimeZone] == "+00:00")
      && (o.setCharset ==> CharacterSetClient in m && CharacterSetResults in m && CollationConnection in m
                           && m[CharacterSetClient] == m[CharacterSetResults] == o.charset
                           && m[CollationConnection] == server.collation(o.charset))
  {
  }

  // ---------------------------------------------------------------------------------------------------------------
  // What stands between header and footer
  // ---------------------------------------------------------------------------------------------------------------

  /**
   The blocks so far: clean ones that leave `d` in force, and behind them, if `d` is not ";", others that leave settings
   alone as well and end with ";" until they change the delimiter.
   */
  ghost predicate BodySoFar(a: seq<Item>, b: seq<Item>, d: string) {
    && Clean(a, OLD, ";", d) && (b == [] || Starts(b, ";")) && (d == ";" ==> b == [])
    && Neutral(b, OLD) && LeavesNotes(b) && AllEnd(Before(b), ";")
  }

  lemma EndsMore(b: seq<Item>, part: seq<Item>)
    requires AllEnd(Before(b), ";") && Ends(part, ";").Some?
    ensures AllEnd(Before(b + part), ";")
  {
    BeforeConcat(b, part);
    FirstEnd(part, ";");
    if NoDelimiter(b) {
      BeforeAll(b);
    }
  }

  lemma BodyMore(a: seq<Item>, b: seq<Item>, d: string, part: seq<Item>, d': string)
    requires BodySoFar(a, b, d) && Clean(part, OLD, ";", d') && (part == [] || Starts(part, ";"))
    ensures d == ";" ==> BodySoFar(a + part, b, d') && a + b + part == a + part + b
    ensures d != ";" ==> BodySoFar(a, b + part, d) && a + b + part == a + (b + part)
    ensures d != ";" ==> (NoDelimiter(b + part) <==> NoDelimiter(b) && NoDelimiter(part))
  {
    if d == ";" {
      CleanConcat(a, part, OLD, ";", ";", d');
      assert a + b == a && a + part + b == a + part;
    } else {
      Associate(a, b, part);
      assert b == [] ==> b + part == part;
      NeutralConcat(b, part, OLD);
      NoDelimiterConcat(b, part);
      EndsMore(b, part);
    }
  }

  /**
   A clean body, or one behind whose clean beginning statements end with a delimiter not in force; `silent` if none of
   them changes it.
   */
  ghost predicate Body(items: seq<Item>, safe: bool, silent: bool) {
    if safe then Clean(items, OLD, ";", ";")
    else exists a, b, d :: items == a + b && d != ";" && BodySoFar(a, b, d) && (NoDelimiter(b) <==> silent)
  }

  lemma BodyEnds(a: seq<Item>, b: seq<Item>, d: string, safe: bool, silent: bool)
    requires BodySoFar(a, b, d) && (d == ";" <==> safe) && (!safe ==> (NoDelimiter(b) <==> silent))
    ensures Body(a + b, safe, silent)
  {
    if safe {
      assert a + b == a;
    }
  }

  /** Whether blocks behind an unsafe one change the delimiter, block by block. */
  lemma PartsSilent(ps: seq<Part>, i: nat)
    requires i < |ps|
    ensures AllSafe(ps[..i]) ==> SilentBehind(ps[..i + 1])
    ensures !AllSafe(ps[..i]) ==> (SilentBehind(ps[..i + 1]) <==> SilentBehind(ps[..i]) && PartSilent(ps[i]))
  {
    var more, less := ps[..i + 1], ps[..i];
    assert more[i] == ps[i] && forall k :: 0 <= k < i ==> more[k] == less[k];
    if !AllSafe(less) {
      var k :| 0 <= k < i && !PartSafe(less[k]);
      assert !PartSafe(more[k]);
    }
  }

  /** The blocks before `i` are printed. */
  ghost predicate PrintedUpTo(ps: seq<Part>, i: nat, a: seq<Item>, b: seq<Item>, d: string)
    requires i <= |ps|
  {
    && BodySoFar(a, b, d) && (d == ";" <==> AllSafe(ps[..i]))
    && (d != ";" ==> (NoDelimiter(b) <==> SilentBehind(ps[..i])))
  }

  /** What is printed so far, with the block last printed in its place. */
  function Front(a: seq<Item>, d: string, part: seq<Item>): seq<Item> {
    if d == ";" then a + part else a
  }

  function Behind(b: seq<Item>, d: string, part: seq<Item>): seq<Item> {
    if d == ";" then b else b + part
  }

  lemma PrintedMore(ps: seq<Part>, i: nat, a: seq<Item>, b: seq<Item>, d: string, part: seq<Item>, d': string)
    requires i < |ps| && PrintedUpTo(ps, i, a, b, d) && Clean(part, OLD, ";", d') && (part == [] || Starts(part, ";"))
    requires (d' == ";" <==> PartSafe(ps[i])) && (NoDelimiter(part) <==> PartSilent(ps[i]))
    ensures PrintedUpTo(ps, i + 1, Front(a, d, part), Behind(b, d, part), if d == ";" then d' else d)
    ensures a + b + part == Front(a, d, part) + Behind(b, d, part)
  {
    BodyMore(a, b, d, part, d');
    PartsAlike(ps, i);
    PartsSilent(ps, i);
  }

  lemma AllPrinted(ps: seq<Part>, a: seq<Item>, b: seq<Item>, d: string)
    requires PrintedUpTo(ps, |ps|, a, b, d)
    ensures Body(a + b, AllSafe(ps), SilentBehind(ps))
  {
    assert ps[..|ps|] == ps;
    BodyEnds(a, b, d, AllSafe(ps), SilentBehind(ps));
  }

  /** All that is known before the block at `i`, as long as the dump goes on. */
  ghost predicate PartsAt(o: Options, w: Weights, ps: seq<Part>, i: nat, given: Wanted, a: seq<Item>, b: seq<Item>, d: string,
                          added: seq<Item>)
    requires i <= |ps|
  {
    added == a + b && PrintedUpTo(ps, i, a, b, d) && DoneUpTo(o, w, ps, i, given, added)
  }

  lemma PartsNext(o: Options, w: Weights, ps: seq<Part>, i: nat, given: Wanted, a: seq<Item>, b: seq<Item>, d: string,
                  added: seq<Item>, part: seq<Item>, d': string)
    requires i < |ps| && PartsAt(o, w, ps, i, given, a, b, d, added)
    requires Clean(part, OLD, ";", d') && (part == [] || Starts(part, ";"))
    requires (d' == ";" <==> PartSafe(ps[i])) && (NoDelimiter(part) <==> PartSilent(ps[i]))
    requires PartOk(ps[i]) ==> DoesAs(part, 50106, given, PartTasks(o, w, ps[i], given))
    ensures PartsAt(o, w, ps, i + 1, given, Front(a, d, part), Behind(b, d, part), if d == ";" then d' else d, added + part)
  {
    DoneMore(o, w, ps, i, given, added, part);
    PrintedMore(ps, i, a, b, d, part, d');
  }

  /** All that is known before the block at `i`, whether the dump goes on or not. */
  ghost predicate DumpAt(o: Options, w: Weights, ps: seq<Part>, i: nat, finished: bool, error: bool, given: Wanted,
                         a: seq<Item>, b: seq<Item>, d: string, added: seq<Item>)
    requires i <= |ps|
  {
    GoesOn(ps, i, o.force, finished, error) && (finished ==> PartsAt(o, w, ps, i, given, a, b, d, added))
  }

  lemma DumpBegins(o: Options, w: Weights, ps: seq<Part>, given: Wanted)
    ensures DumpAt(o, w, ps, 0, true, false, given, [], [], ";", [])
  {
    CleanEmpty(OLD, ";");
    NothingDoneYet(o, w, ps, given);
  }

  lemma DumpEnds(o: Options, w: Weights, ps: seq<Part>, i: nat, finished: bool, error: bool, given: Wanted, a: seq<Item>,
                 b: seq<Item>, d: string, added: seq<Item>)
    requires i <= |ps| && DumpAt(o, w, ps, i, finished, error, given, a, b, d, added) && (finished ==> i == |ps|)
    ensures (finished <==> o.force || NoneReported(ps)) && (error <==> !NoneReported(ps))
    ensures finished ==> Body(added, AllSafe(ps), SilentBehind(ps))
    ensures finished && AllOk(ps) ==> DoesAs(added, 50106, given, PartsTasks(o, w, ps, given))
  {
    WentOn(ps, i, o.force, finished, error);
    if finished {
      AllPrinted(ps, a, b, d);
      if AllOk(ps) {
        AllDone(o, w, ps, given, added);
      }
    }
  }
}
