/** Printing the script: each routine of the dump appends its part to the output. */
module DumpWriter {
  import opened Wrappers
  import opened Definer
  import opened DumpScript
  import opened DumpSession
  import opened DumpCreates
  import opened DumpSettings
  import opened DumpCuts
  import opened DumpPieces
  import opened DumpVerdict

  class Dump {
    const o: Options
    const w: Weights
    var out: seq<Item>

    constructor (o: Options, w: Weights)
      ensures this.o == o && this.w == w && out == []
    {
      this.o, this.w, out := o, w, [];
    }

    method Print(version: nat, a: Action, d: string)
      modifies this
      ensures out == old(out) + [Statement(version, [a], d)]
    {
      out := out + [Statement(version, [a], d)];
    }

    // -------------------------------------------------------------------------------------------------------------
    // Switching and restoring
    // -------------------------------------------------------------------------------------------------------------

    method SwitchCsVariables(version: nat, d: string, client: string, results: string, collation: string)
      returns (ghost added: seq<Item>)
      modifies this
      ensures out == old(out) + added && Starts(added, d)
      ensures Switches(added, version, CS, [client, results, collation], d)
    {
      ghost var values := [client, results, collation];
      FixedPairs();
      SavesAndAssignsSwitch(version, CS, values, d);
      added := Each(version, Saves(CS), d) + Each(version, Assigns(CS, values), d);
      Print(version, Save(SavedCsClient, CharacterSetClient), d);
      Print(version, Save(SavedCsResults, CharacterSetResults), d);
      Print(version, Save(SavedColConnection, CollationConnection), d);
      Print(version, Assign(CharacterSetClient, client), d);
      Print(version, Assign(CharacterSetResults, results), d);
      Print(version, Assign(CollationConnection, collation), d);
    }

    method RestoreCsVariables(version: nat, d: string) returns (ghost added: seq<Item>)
      modifies this
      ensures out == old(out) + added && SwitchesBack(added, version, CS, d)
    {
      FixedPairs();
      RestoresSwitchBack(version, CS, d);
      added := Each(version, Restores(CS), d);
      Print(version, Restore(CharacterSetClient, SavedCsClient), d);
      Print(version, Restore(CharacterSetResults, SavedCsResults), d);
      Print(version, Restore(CollationConnection, SavedColConnection), d);
    }

    method SwitchSqlMode(d: string, sqlMode: string) returns (ghost added: seq<Item>)
      modifies this
      ensures out == old(out) + added && Starts(added, d) && Switches(added, 50003, MODE, [sqlMode], d)
    {
      FixedPairs();
      SavesAndAssignsSwitch(50003, MODE, [sqlMode], d);
      added := Each(50003, Saves(MODE), d) + Each(50003, Assigns(MODE, [sqlMode]), d);
      Print(50003, Save(SavedSqlMode, SqlMode), d);
      Print(50003, Assign(SqlMode, sqlMode), d);
    }

    method RestoreSqlMode(d: string) returns (ghost added: seq<Item>)
      modifies this
      ensures out == old(out) + added && SwitchesBack(added, 50003, MODE, d)
    {
      FixedPairs();
      RestoresSwitchBack(50003, MODE, d);
      added := Each(50003, Restores(MODE), d);
      Print(50003, Restore(SqlMode, SavedSqlMode), d);
    }

    method SwitchTimeZone(d: string, timeZone: string) returns (ghost added: seq<Item>)
      modifies this
      ensures out == old(out) + added && Switches(added, 50003, ZONE, [timeZone], d)
    {
      FixedPairs();
      SavesAndAssignsSwitch(50003, ZONE, [timeZone], d);
      added := Each(50003, Saves(ZONE), d) + Each(50003, Assigns(ZONE, [timeZone]), d);
      Print(50003, Save(SavedTimeZone, TimeZone), d);
      Print(50003, Assign(TimeZone, timeZone), d);
    }

    method RestoreTimeZone(d: string) returns (ghost added: seq<Item>)
      modifies this
      ensures out == old(out) + added && SwitchesBack(added, 50003, ZONE, d)
    {
      FixedPairs();
      RestoresSwitchBack(50003, ZONE, d);
      added := Each(50003, Restores(ZONE), d);
      Print(50003, Restore(TimeZone, SavedTimeZone), d);
    }

    /** Fails if the client does not know the collation; then it prints nothing. */
    method SwitchDbCollation(db: Database, d: string, required: string)
      returns (ok: bool, altered: bool, ghost added: seq<Item>)
      modifies this
      ensures out == old(out) + added && (added == [] || Starts(added, d))
      ensures ok <==> db.collation == required || required in db.charsets
      ensures if ok then altered == (db.collation != required) && Inert(added, d, AlterDeeds(db, required))
              else added == []
    {
      altered, added := false, [];
      InertEmpty(d);
      if db.collation != required {
        if required !in db.charsets {
          return false, false, [];
        }
        InertStatement(0, AlterDatabase(db, required), d);
        added := [Statement(0, [Other(AlterDatabase(db, required))], d)];
        Print(0, Other(AlterDatabase(db, required)), d);
        altered := true;
      }
      ok := true;
    }

    method RestoreDbCollation(db: Database, d: string) returns (ok: bool, ghost added: seq<Item>)
      modifies this
      ensures out == old(out) + added && (ok <==> db.collation in db.charsets)
      ensures Inert(added, d, if ok then [Deed(0, Other(AlterDatabase(db, db.collation)))] else [])
    {
      InertEmpty(d);
      if db.collation !in db.charsets {
        return false, [];
      }
      InertStatement(0, AlterDatabase(db, db.collation), d);
      added := [Statement(0, [Other(AlterDatabase(db, db.collation))], d)];
      Print(0, Other(AlterDatabase(db, db.collation)), d);
      ok := true;
    }

    /** The text of a CREATE statement with its DEFINER clause covered, or as it is if it has none. */
    method Cover(s: string, before: string, after: string, keyword: string) returns (text: string)
      requires |before| == |after| == 5
      ensures text == CoveredText(w, s, before, after, keyword)
    {
      var query := CoverDefiner(w, s, before, after, keyword);
      text := s;
      if query != null {
        text := query[..query.Length - 1];
      }
    }

    /** A DROP statement, if an option asks for it. */
    method PrintDrop(on: bool, version: nat, text: string, d: string) returns (ghost added: seq<Item>)
      modifies this
      ensures out == old(out) + added && (added == [] || Starts(added, d))
      ensures Inert(added, d, DropDeeds(on, version, text))
    {
      added := [];
      InertEmpty(d);
      if on {
        InertStatement(version, text, d);
        added := [Statement(version, [Other(text)], d)];
        Print(version, Other(text), d);
      }
    }

    // -------------------------------------------------------------------------------------------------------------
    // Character sets of triggers, routines and events
    // -------------------------------------------------------------------------------------------------------------

    method EnterCharsets(db: Database, c: Charsets, d: string)
      returns (ok: bool, altered: bool, ghost a: seq<Item>, ghost b: seq<Item>)
      modifies this
      ensures out == old(out) + a + b && (a == [] || Starts(a, d))
      ensures ok <==> Enterable(db, c)
      ensures !ok ==> a == [] && b == []
      ensures ok ==> Entered(c, b, d) && (b == [] || Starts(b, d))
      ensures ok ==> altered == (c.Reported? && db.collation != c.dbCollation)
      ensures ok ==> Inert(a, d, if c.Reported? then AlterDeeds(db, c.dbCollation) else [])
    {
      InertEmpty(d);
      a, b := [], [];
      if c.Unreported? {
        return true, false, [], [];
      }
      ok, altered, a := SwitchDbCollation(db, d, c.dbCollation);
      if ok {
        b := SwitchCsVariables(50003, d, c.charset, c.charset, c.collation);
      }
    }

    method LeaveCharsets(db: Database, c: Charsets, altered: bool, d: string)
      returns (ok: bool, ghost y: seq<Item>, ghost z: seq<Item>)
      requires altered == (c.Reported? && db.collation != c.dbCollation)
      modifies this
      ensures out == old(out) + y + z && Left(c, y, d) && (ok <==> altered ==> db.collation in db.charsets)
      ensures Inert(z, d, if ok && c.Reported? then AlterBackDeeds(db, c.dbCollation) else [])
    {
      InertEmpty(d);
      ok, y, z := true, [], [];
      if c.Reported? {
        y := RestoreCsVariables(50003, d);
        if altered {
          ok, z := RestoreDbCollation(db, d);
        }
      }
    }

    // -------------------------------------------------------------------------------------------------------------
    // Triggers and routines
    // -------------------------------------------------------------------------------------------------------------

    /** A DROP and a CREATE statement with the SQL mode of the object around them. */
    method PrintUnderMode(drop: bool, dropVersion: nat, dropText: string, version: nat, text: string, sqlMode: string,
                          ghost keep: iset<UserVar>, ghost given: Wanted) returns (ghost added: seq<Item>)
      requires keep !! Users(MODE)
      modifies this
      ensures out == old(out) + added && Starts(added, ";")
      ensures Good(added, keep, ";", ";", 50003, given,
                   All(DropDeeds(drop, dropVersion, dropText) + [Deed(version, Create(text))],
                       Set(given, MODE, [sqlMode])))
      ensures !NoDelimiter(added)
    {
      ghost var front := SwitchSqlMode(";", sqlMode);
      ghost var dropped := PrintDrop(drop, dropVersion, dropText, ";");
      ghost var create := [Delimiter(";;"), Statement(version, [Create(text)], ";;"), Delimiter(";")];
      out := out + [Delimiter(";;"), Statement(version, [Create(text)], ";;"), Delimiter(";")];
      ghost var back := RestoreSqlMode(";");
      added := front + (dropped + create) + back;
      FourParts(old(out), front, dropped, create, back);
      GoodBody(front, dropped, create, back, version, text, keep, sqlMode, given, DropDeeds(drop, dropVersion, dropText));
      assert create[0] in added && create[0].Delimiter?;
    }

    /** A trigger; whether it fails or not, settings and delimiter stay as they were. */
    method DumpTrigger(db: Database, t: Trigger, ghost given: Wanted)
      returns (ok: bool, ghost added: seq<Item>, ghost done: seq<Task>)
      modifies this
      ensures ok <==> Known(db, t.dbCollation)
      ensures out == old(out) + added && (added == [] || Starts(added, ";"))
      ensures Good(added, OLD, ";", ";", 50003, given, done) && Achieved(ok, done, TriggerTasks(o, db, w, t, given))
      ensures NoDelimiter(added) <==> !Enterable(db, TriggerCharsets(t))
    {
      var c := Reported(t.charset, t.collation, t.dbCollation);
      KeptApart();
      var altered;
      ghost var a, b;
      ok, altered, a, b := EnterCharsets(db, c, ";");
      if !ok {
        GoodEmpty(OLD, ";", 50003, given);
        return false, [], [];
      }
      var text := Cover(t.create, "50017", "50003", " TRIGGER");
      ghost var inner := PrintUnderMode(o.dropTrigger, 50032, "DROP TRIGGER IF EXISTS " + t.name, 50003, text, t.sqlMode,
                                        OLD + Users(CS), CharsetsOf(given, c));
      ghost var y, z;
      ok, y, z := LeaveCharsets(db, c, altered, ";");
      added := a + (b + inner + y) + z;
      done := CharsetsDone(ok, db, c, old(out), a, b, inner, y, z, OLD, ";", given,
        All(DropDeeds(o.dropTrigger, 50032, "DROP TRIGGER IF EXISTS " + t.name) + [Deed(50003, Create(text))],
            RoutineSettings(given, c, t.sqlMode)));
      StartsSomewhere(a, b, inner, y, z, ";");
      DelimiterInside(a, b, inner, y, z);
    }

    /** A routine's CREATE statement under its SQL mode and character sets. */
    method PrintRoutine(db: Database, r: Routine, ghost given: Wanted)
      returns (ok: bool, ghost added: seq<Item>, ghost done: seq<Task>)
      modifies this
      ensures ok <==> CharsetsKnown(db, r.charsets)
      ensures out == old(out) + added && (added == [] || Starts(added, ";"))
      ensures Good(added, OLD, ";", ";", 50003, given, done)
      ensures Achieved(ok, done, CharsetsTasks(db, r.charsets, given,
                                               All([Deed(0, Create(r.create))], RoutineSettings(given, r.charsets, r.sqlMode))))
      ensures NoDelimiter(added) <==> !Enterable(db, r.charsets)
    {
      var c := r.charsets;
      KeptApart();
      var altered;
      ghost var a, b;
      ok, altered, a, b := EnterCharsets(db, c, ";");
      if !ok {
        GoodEmpty(OLD, ";", 50003, given);
        return false, [], [];
      }
      ghost var inner := PrintUnderMode(false, 0, "", 0, r.create, r.sqlMode, OLD + Users(CS), CharsetsOf(given, c));
      assert DropDeeds(false, 0, "") + [Deed(0, Create(r.create))] == [Deed(0, Create(r.create))];
      ghost var y, z;
      ok, y, z := LeaveCharsets(db, c, altered, ";");
      added := a + (b + inner + y) + z;
      done := CharsetsDone(ok, db, c, old(out), a, b, inner, y, z, OLD, ";", given,
                           All([Deed(0, Create(r.create))], RoutineSettings(given, c, r.sqlMode)));
      StartsSomewhere(a, b, inner, y, z, ";");
      DelimiterInside(a, b, inner, y, z);
    }

    /** A routine; one with no text to read, or with none but the empty one, prints nothing. */
    method DumpRoutine(db: Database, r: Routine, ghost given: Wanted)
      returns (ok: bool, ghost added: seq<Item>, ghost done: seq<Task>)
      modifies this
      ensures ok <==> RoutineOk(db, r)
      ensures out == old(out) + added && (added == [] || Starts(added, ";"))
      ensures Good(added, OLD, ";", ";", 50003, given, done) && Achieved(ok, done, RoutineTasks(o, db, r, given))
      ensures NoDelimiter(added) <==> r.create == "" || !Enterable(db, r.charsets)
    {
      if r.create == "" {
        GoodEmpty(OLD, ";", 50003, given);
        return true, [], [];
      }
      ghost var dropped := DropDeeds(o.drop, 50003, "DROP " + r.name);
      ghost var drop := PrintDrop(o.drop, 50003, "DROP " + r.name, ";");
      ghost var rest, more;
      ok, rest, more := PrintRoutine(db, r, given);
      added := drop + rest;
      Associate(old(out), drop, rest);
      InertIsGood(drop, ";", dropped, OLD, 50003, given);
      GoodConcat(drop, rest, OLD, ";", ";", ";", 50003, given, All(dropped, given), more);
      NoDelimiterConcat(drop, rest);
      done := All(dropped, given) + more;
      AchievedBehind(ok, All(dropped, given), more, CharsetsTasks(db, r.charsets, given,
        All([Deed(0, Create(r.create))], RoutineSettings(given, r.charsets, r.sqlMode))));
    }

    // -------------------------------------------------------------------------------------------------------------
    // Events
    // -------------------------------------------------------------------------------------------------------------

    method PrintEvent(e: Event, d: string, ghost keep: iset<UserVar>, ghost given: Wanted) returns (ghost added: seq<Item>)
      requires keep !! Users(MODE) + Users(ZONE)
      modifies this
      ensures out == old(out) + added && Statement(50106, [Create(EventText(w, e))], d) in added
      ensures Good(added, keep, d, d, 50003, CharsetsOf(given, e.charsets),
                   All([Deed(50106, Create(EventText(w, e)))], EventSettings(given, e)))
    {
      ghost var m := SwitchSqlMode(d, e.sqlMode);
      ghost var z := SwitchTimeZone(d, e.timeZone);
      var text := Cover(e.create, "50117", "50106", " EVENT");
      ghost var create := [Statement(50106, [Create(text)], d)];
      Print(50106, Create(text), d);
      ghost var z' := RestoreTimeZone(d);
      ghost var m' := RestoreSqlMode(d);
      added := m + (z + create + z') + m';
      NestedParts(old(out), m, z, create, z', m');
      GoodEvent(m, z, create, z', m', e, text, d, keep, given);
      assert create[0] in added;
    }

    method PrintEventWithCharsets(db: Database, e: Event, d: string, ghost given: Wanted)
      returns (ok: bool, ghost added: seq<Item>, ghost done: seq<Task>)
      modifies this
      ensures ok <==> CharsetsKnown(db, e.charsets)
      ensures out == old(out) + added && Good(added, OLD_AND_ZONE, d, d, 50003, given, done)
      ensures Achieved(ok, done, CharsetsTasks(db, e.charsets, given,
                                               All([Deed(50106, Create(EventText(w, e)))], EventSettings(given, e))))
      ensures ok ==> Statement(50106, [Create(EventText(w, e))], d) in added
    {
      var c := e.charsets;
      KeptApart();
      var altered;
      ghost var a, b;
      ok, altered, a, b := EnterCharsets(db, c, d);
      if !ok {
        GoodEmpty(OLD_AND_ZONE, d, 50003, given);
        return false, [], [];
      }
      ghost var inner := PrintEvent(e, d, OLD_AND_ZONE + Users(CS), given);
      ghost var y, z;
      ok, y, z := LeaveCharsets(db, c, altered, d);
      added := a + (b + inner + y) + z;
      done := CharsetsDone(ok, db, c, old(out), a, b, inner, y, z, OLD_AND_ZONE, d, given,
                           All([Deed(50106, Create(EventText(w, e)))], EventSettings(given, e)));
    }

    /**
     An event; `d` is the delimiter in force before it, `d'` the one after it. An event that fails for want of a
     delimiter leaves `d` in force, one that fails later its own.
     */
    method DumpEvent(db: Database, e: Event, d: string, ghost given: Wanted)
      returns (ok: bool, d': string, ghost added: seq<Item>, ghost done: seq<Task>)
      modifies this
      ensures ok <==> EventOk(db, e)
      ensures out == old(out) + added
      ensures d' == if e.create != "" && Delimitable(e) then ";;" else d
      ensures Good(added, OLD_AND_ZONE, d, d', 50003, given, done) && Achieved(ok, done, EventTasks(o, db, w, e, given))
      ensures NoDelimiter(added) <==> e.create == "" || !Delimitable(e)
      ensures ok && e.create != "" ==> Statement(50106, [Create(EventText(w, e))], d') in added
      ensures ok && e.create != "" ==> CutExactly(Printed("50106", EventText(w, e)), d')
    {
      if e.create == "" {
        GoodEmpty(OLD_AND_ZONE, d, 50003, given);
        return true, d, [], [];
      }
      ghost var dropped := DropDeeds(o.drop, 50106, "DROP EVENT IF EXISTS " + e.name);
      ghost var drop := PrintDrop(o.drop, 50106, "DROP EVENT IF EXISTS " + e.name, d);
      var choice := CreateDelimiter(e.create, QUERY_LENGTH);
      if !choice.Chosen? {
        InertIsGood(drop, d, dropped, OLD_AND_ZONE, 50003, given);
        return false, d, drop, All(dropped, given);
      }
      d' := choice.delimiter;
      out := out + [Delimiter(d')];
      ghost var rest, more;
      ok, rest, more := PrintEventWithCharsets(db, e, d', given);
      added := drop + [Delimiter(d')] + rest;
      done := EventDone(ok, o, db, w, e, d, d', old(out), drop, [Delimiter(d')], rest, given, more);
      EventTextIsCut(w, e);
      assert added[|drop|] == Delimiter(d');
    }

    // -------------------------------------------------------------------------------------------------------------
    // Lists
    // -------------------------------------------------------------------------------------------------------------

    /** The triggers up to the first that fails. */
    method DumpTriggers(db: Database, ts: seq<Trigger>, ghost given: Wanted) returns (ok: bool, ghost added: seq<Item>)
      modifies this
      ensures ok <==> TriggersOk(db, ts)
      ensures out == old(out) + added && Clean(added, OLD, ";", ";") && (added == [] || Starts(added, ";"))
      ensures ok ==> DoesAs(added, 50003, given, TriggersTasks(o, db, w, ts, given))
      ensures NoDelimiter(added) <==> ts == [] || !Enterable(db, TriggerCharsets(ts[0]))
    {
      var i := 0;
      ok, added := true, [];
      CleanEmpty(OLD, ";");
      while ok && i < |ts|
        invariant i <= |ts| && (ok <==> TriggersOk(db, ts[..i]))
        invariant out == old(out) + added && Clean(added, OLD, ";", ";") && (added == [] || Starts(added, ";"))
        invariant ok ==> TriggersDone(o, db, w, ts, i, given, added)
        invariant if i == 0 then added == [] else NoDelimiter(added) <==> !Enterable(db, TriggerCharsets(ts[0]))
        invariant ok && i > 0 ==> Enterable(db, TriggerCharsets(ts[0]))
        decreases |ts| - i
      {
        ghost var more, done;
        ok, more, done := DumpTrigger(db, ts[i], given);
        CleanMore(old(out), added, more, OLD, ";", ";", ";");
        NoDelimiterConcat(added, more);
        if ok {
          TriggerDone(o, db, w, ts, i, given, added, more);
        }
        added := added + more;
        TriggersOneMore(o, db, w, ts, i, given);
        i := i + 1;
      }
      assert ok ==> ts[..i] == ts;
      assert forall k :: 0 <= k < i ==> ts[..i][k] == ts[k];
    }

    /**
     The routines up to the first that fails or, without `--force`, the first whose body is withheld. Only the latter is
     reported.
     */
    method DumpRoutines(db: Database, rs: seq<Routine>, ghost given: Wanted)
      returns (ok: bool, reported: bool, ghost added: seq<Item>)
      modifies this
      ensures reported <==> RoutinesReported(db, rs)
      ensures out == old(out) + added && Clean(added, OLD, ";", ";") && (added == [] || Starts(added, ";"))
      ensures (reported ==> o.force) ==> (ok <==> RoutinesOk(db, rs)) && (NoDelimiter(added) <==> RoutinesSilent(db, rs))
      ensures (reported ==> o.force) && ok ==> DoesAs(added, 50003, given, RoutinesTasks(o, db, rs, given))
    {
      var i := 0;
      ok, reported, added := true, false, [];
      RoutinesBegin(o, db, rs, given);
      while ok && (reported ==> o.force) && i < |rs|
        invariant i <= |rs| && RoutinesAt(o, db, rs, i, ok, reported, given, added)
        invariant out == old(out) + added
        decreases |rs| - i
      {
        ghost var more, done;
        ok, more, done := DumpRoutine(db, rs[i], given);
        RoutinesNext(o, db, rs, i, ok, reported, given, old(out), added, more, done);
        added := added + more;
        reported := reported || rs[i].body.None?;
        i := i + 1;
      }
      RoutinesEnd(o, db, rs, i, ok, reported, given, added, o.force);
    }

    /** The events up to the first that fails; `d` is the delimiter then in force. */
    method DumpEventList(db: Database, es: seq<Event>, ghost given: Wanted)
      returns (ok: bool, d: string, ghost added: seq<Item>)
      modifies this
      ensures ok <==> EventsOk(db, es)
      ensures out == old(out) + added && Clean(added, OLD_AND_ZONE, ";", d)
      ensures !ok ==> (d == ";" <==> FailsAtOnce(es))
      ensures NoDelimiter(added) <==> d == ";"
      ensures ok ==> DoesAs(added, 50003, given, EventsTasks(o, db, w, es, given))
    {
      var i := 0;
      ok, d, added := true, ";", [];
      CleanEmpty(OLD_AND_ZONE, ";");
      while ok && i < |es|
        invariant i <= |es| && out == old(out) + added && Clean(added, OLD_AND_ZONE, ";", d)
        invariant EventsGone(db, es, i, ok, d) && (NoDelimiter(added) <==> d == ";")
        invariant ok ==> EventsDoneUpTo(o, db, w, es, i, given, added)
        decreases ok, |es| - i
      {
        ghost var more, done, before := [], [], d;
        ok, d, more, done := DumpEvent(db, es[i], d, given);
        EventGone(db, es, i, before, ok, d);
        Associate(old(out), added, more);
        CleanConcat(added, more, OLD_AND_ZONE, ";", before, d);
        NoDelimiterConcat(added, more);
        if ok {
          EventDoneToo(o, db, w, es, i, given, added, more);
        }
        added := added + more;
        i := i + 1;
      }
      assert ok ==> es[..i] == es;
    }

    /** The events of a database: unless all is well or the first fails at once, another delimiter stays in force. */
    method DumpEventsForDb(db: Database, es: seq<Event>, ghost given: Wanted)
      returns (ok: bool, ghost added: seq<Item>, ghost d: string)
      modifies this
      ensures ok <==> EventsOk(db, es)
      ensures out == old(out) + added && (added == [] || Starts(added, ";"))
      ensures Clean(added, OLD, ";", d) && (d == ";" <==> EventsSafe(db, es))
      ensures ok ==> DoesAs(added, 50106, given, EventsTasks(o, db, w, es, given))
      ensures NoDelimiter(added) <==> es == [] || FailsAtOnce(es)
    {
      if es == [] {
        GoodEmpty(OLD, ";", 50106, given);
        return true, [], ";";
      }
      FixedPairs();
      KeptApart();
      ghost var front := [Statement(50106, [Save(SaveTimeZone, TimeZone)], ";")];
      ZoneSwitches();
      Print(50106, Save(SaveTimeZone, TimeZone), ";");
      ghost var list;
      var d0;
      ok, d0, list := DumpEventList(db, es, given);
      if !ok {
        SaveIsClean(front, 50106, EVENTS_ZONE, OLD, ";");
        KeepsLess(list, OLD_AND_ZONE, OLD, ";", d0);
        CleanConcat(front, list, OLD, ";", ";", d0);
        Associate(old(out), front, list);
        NoDelimiterConcat(front, list);
        return ok, front + list, d0;
      }
      out := out + [Delimiter(";")];
      Print(50106, Restore(TimeZone, SaveTimeZone), ";");
      ghost var end, back := [Delimiter(";")], [Statement(50106, [Restore(TimeZone, SaveTimeZone)], ";")];
      GoodLater(list, OLD_AND_ZONE, ";", d0, 50003, 50106, given, EventsTasks(o, db, w, es, given));
      EventsDone(front, list, end, back, d0, given, EventsTasks(o, db, w, es, given));
      FourParts(old(out), front, list, end, back);
      added, d := front + (list + end) + back, ";";
      assert end[0].Delimiter?;
      DelimiterInside(front, list, end, [], back);
      assert list + end + [] == list + end;
      NoneFails(db, es);
    }

    // -------------------------------------------------------------------------------------------------------------
    // Tables and views
    // -------------------------------------------------------------------------------------------------------------

    /** A CREATE statement run with the client's character set utf8. */
    method PrintUnderUtf8(version: nat, created: nat, create: string, ghost given: Wanted) returns (ghost added: seq<Item>)
      modifies this
      ensures out == old(out) + added && Starts(added, ";") && NoDelimiter(added)
      ensures Good(added, OLD, ";", ";", version, given, All([Deed(created, Create(create))], Set(given, CLIENT, ["utf8"])))
    {
      FixedPairs();
      KeptApart();
      SavesAndAssignsSwitch(version, CLIENT, ["utf8"], ";");
      RestoresSwitchBack(version, CLIENT, ";");
      ghost var front := Each(version, Saves(CLIENT), ";") + Each(version, Assigns(CLIENT, ["utf8"]), ";");
      ghost var back := Each(version, Restores(CLIENT), ";");
      Print(version, Save(SavedCsClient, CharacterSetClient), ";");
      Print(version, Assign(CharacterSetClient, "utf8"), ";");
      Print(created, Create(create), ";");
      Print(version, Restore(CharacterSetClient, SavedCsClient), ";");
      added := front + [Statement(created, [Create(create)], ";")] + back;
      GoodCreateWithin(front, [Statement(created, [Create(create)], ";")], back, version, CLIENT, ["utf8"], created, create,
                       given);
    }

    /** On servers from 4.1.1 on a table is created with the client's character set utf8, but for the old format. */
    method DumpCreateTable(create: string, ghost given: Wanted) returns (ghost added: seq<Item>)
      modifies this
      ensures out == old(out) + added && Starts(added, ";") && NoDelimiter(added)
      ensures Good(added, OLD, ";", ";", 40101, given,
                   All([Deed(0, Create(create))], if o.oldTableFormat then given else Set(given, CLIENT, ["utf8"])))
    {
      if o.oldTableFormat {
        GoodStatement(0, Create(create), OLD, ";", 40101, given);
        OneOfAll(Deed(0, Create(create)), given);
        added := [Statement(0, [Create(create)], ";")];
        Print(0, Create(create), ";");
      } else {
        added := PrintUnderUtf8(40101, 0, create, given);
      }
    }

    method DumpStandIn(create: string, ghost given: Wanted) returns (ghost added: seq<Item>)
      modifies this
      ensures out == old(out) + added && Starts(added, ";") && NoDelimiter(added)
      ensures Good(added, OLD, ";", ";", 0, given, All(DropDeeds(o.drop, 50001, "DROP VIEW IF EXISTS"), given)
                                                   + All([Deed(50001, Create(create))], Set(given, CLIENT, ["utf8"])))
    {
      ghost var dropped := DropDeeds(o.drop, 50001, "DROP VIEW IF EXISTS");
      ghost var drop := PrintDrop(o.drop, 50001, "DROP VIEW IF EXISTS", ";");
      ghost var rest := PrintUnderUtf8(0, 50001, create, given);
      added := drop + rest;
      Associate(old(out), drop, rest);
      InertIsGood(drop, ";", dropped, OLD, 0, given);
      GoodConcat(drop, rest, OLD, ";", ";", ";", 0, given, All(dropped, given),
                 All([Deed(50001, Create(create))], Set(given, CLIENT, ["utf8"])));
      NoDelimiterConcat(drop, rest);
    }

    method DumpView(charset: string, collation: string, create: string, ghost given: Wanted) returns (ghost added: seq<Item>)
      modifies this
      ensures out == old(out) + added && Starts(added, ";") && NoDelimiter(added)
      ensures Good(added, OLD, ";", ";", 50001, given,
                   All([Deed(50001, Create(create))], Set(given, CS, [charset, charset, collation])))
    {
      FixedPairs();
      KeptApart();
      ghost var front := SwitchCsVariables(50001, ";", charset, charset, collation);
      ghost var mid := [Statement(50001, [Create(create)], ";")];
      Print(50001, Create(create), ";");
      ghost var back := RestoreCsVariables(50001, ";");
      added := front + mid + back;
      ThreeParts(old(out), front, mid, back);
      GoodCreateWithin(front, mid, back, 50001, CS, [charset, charset, collation], 50001, create, given);
    }

    // -------------------------------------------------------------------------------------------------------------
    // Header and footer
    // -------------------------------------------------------------------------------------------------------------

    method SaveCharsets() returns (ghost added: seq<Item>)
      modifies this
      ensures out == old(out) + added && SavesPart(o, added, 40101, OLD_CS)
    {
      CharsetPairs();
      added := [];
      if o.setCharset {
        NamesSetAside(o.charset);
        NamesGiveNew(o, Each(40101, Saves(OLD_CS), ";"));
        added := Each(40101, Saves(OLD_CS), ";") + [Statement(40101, [SetNames(o.charset)], ";")];
        Print(40101, Save(Old(CharacterSetClient), CharacterSetClient), ";");
        Print(40101, Save(Old(CharacterSetResults), CharacterSetResults), ";");
        Print(40101, Save(Old(CollationConnection), CollationConnection), ";");
        Print(40101, SetNames(o.charset), ";");
        NothingDone(added);
      }
    }

    method SaveZone() returns (ghost added: seq<Item>)
      modifies this
      ensures out == old(out) + added && SavesPart(o, added, 40103, One(TimeZone))
    {
      OnePair(TimeZone);
      added := [];
      if o.tzUtc {
        SavesAndAssignsSwitch(40103, One(TimeZone), ["+00:00"], ";");
        added := Each(40103, Saves(One(TimeZone)), ";") + Each(40103, Assigns(One(TimeZone), ["+00:00"]), ";");
        SwitchSetsAside(added, 40103, One(TimeZone), ["+00:00"], ";");
        SwitchGivesNew(o, added, 40103, TimeZone, "+00:00", ";");
        Print(40103, Save(Old(TimeZone), TimeZone), ";");
        Print(40103, Assign(TimeZone, "+00:00"), ";");
      }
    }

    /** Saves and sets the next setting of the header. */
    method SaveAndSet(on: bool, version: nat, x: SysVar, value: string, ghost before: seq<Item>, ghost so: seq<Item>,
                      ghost away: set<SysVar>, ghost deeds: seq<Deed>) returns (ghost added: seq<Item>)
      requires SavedFrom(o, x) == (if on then Some(version) else None) && x !in away
      requires forall server :: NewValue(o, server, x) == value
      requires out == before + so && HeaderUpTo(o, so, away, deeds)
      modifies this
      ensures out == before + (so + added) && HeaderUpTo(o, so + added, away + {x}, deeds)
    {
      OnePair(x);
      added := [];
      if on {
        SaveAndSetSwitches(version, x, value, ";");
        added := [Statement(version, [Save(Old(x), x), Assign(x, value)], ";")];
        SwitchSetsAside(added, version, One(x), [value], ";");
        SwitchGivesNew(o, added, version, x, value, ";");
        out := out + [Statement(version, [Save(Old(x), x), Assign(x, value)], ";")];
      }
      HeaderStep(o, before, so, added, away, deeds, version, One(x));
    }

    /** Restores the next setting of the footer. */
    method RestoreOld(on: bool, version: nat, x: SysVar, ghost before: seq<Item>, ghost so: seq<Item>,
                      ghost away: set<SysVar>, ghost away': set<SysVar>) returns (ghost added: seq<Item>)
      requires SavedFrom(o, x) == (if on then Some(version) else None) && x in away'
      requires out == before + so && FooterUpTo(o, so, away, away')
      modifies this
      ensures out == before + (so + added) && FooterUpTo(o, so + added, away, away' - {x})
      ensures if on then Starts(added, ";") else added == []
    {
      added := [];
      if on {
        RestoreSwitchesBack(version, x, ";");
        added := [Statement(version, [Restore(x, Old(x))], ";")];
        Print(version, Restore(x, Old(x)), ";");
      }
      FooterStep(o, before, so, added, away, away', version, x);
    }

    /** The first part of the header, up to the time zone. */
    method WriteHeaderStart() returns (ghost added: seq<Item>)
      modifies this
      ensures out == old(out) + added
      ensures HeaderUpTo(o, added, Systems(OLD_CS) + {TimeZone}, HeaderDeeds(o))
    {
      CharsetPairs();
      OnePair(TimeZone);
      ghost var log := PrintDrop(!o.logging, 100101, LOG_OFF, ";");
      LogIsClean(log, HeaderDeeds(o));
      HeaderStart(o, log);
      ghost var part := SaveCharsets();
      HeaderStep(o, old(out), log, part, {}, HeaderDeeds(o), 40101, OLD_CS);
      added := log + part;
      assert {} + Systems(OLD_CS) == Systems(OLD_CS);
      part := SaveZone();
      HeaderStep(o, old(out), added, part, Systems(OLD_CS), HeaderDeeds(o), 40103, One(TimeZone));
      added := added + part;
    }

    /** After the header every setting it may have changed is saved, and has the value it should. */
    method WriteHeader() returns (ghost added: seq<Item>)
      modifies this
      ensures out == old(out) + added && SavesEverything(o, added)
      ensures Ends(added, ";") == Some(";") && Deeds(added) == HeaderDeeds(o) && GivesEverything(o, added)
      ensures NotesOff(added) && forall server, s :: HeaderSettings(o, server, Run(server, added, s))
    {
      added := WriteHeaderStart();
      ghost var deeds, away := HeaderDeeds(o), Systems(OLD_CS) + {TimeZone};
      NotYetAway();
      ghost var part := SaveAndSet(!o.noCreateInfo, 40014, UniqueChecks, "0", old(out), added, away, deeds);
      added, away := added + part, away + {UniqueChecks};
      part := SaveAndSet(true, 40014, ForeignKeyChecks, "0", old(out), added, away, deeds);
      added, away := added + part, away + {ForeignKeyChecks};
      part := SaveAndSet(true, 40101, SqlMode, o.sqlMode, old(out), added, away, deeds);
      added, away := added + part, away + {SqlMode};
      part := SaveAndSet(true, 40111, SqlNotes, "0", old(out), added, away, deeds);
      added, away := added + part, away + {SqlNotes};
      AllEight(away);
      SavesAllOfThem(o, added, away);
      GivesAllOfThem(o, added, away);
      GivesHeaderSettings(o, added);
    }

    method WriteFooterStart(ghost away: set<SysVar>) returns (ghost added: seq<Item>, ghost left: set<SysVar>)
      requires Full(away)
      modifies this
      ensures out == old(out) + added && Starts(added, ";") && FooterUpTo(o, added, away, left)
      ensures left == away - {TimeZone} - {SqlMode} - {ForeignKeyChecks} - {UniqueChecks}
    {
      RestoresNothing(o, away);
      added, left := [], away;
      ghost var part := RestoreOld(o.tzUtc, 40103, TimeZone, old(out), added, away, left);
      added, left := added + part, left - {TimeZone};
      part := RestoreOld(true, 40101, SqlMode, old(out), added, away, left);
      added, left := added + part, left - {SqlMode};
      part := RestoreOld(true, 40014, ForeignKeyChecks, old(out), added, away, left);
      added, left := added + part, left - {ForeignKeyChecks};
      part := RestoreOld(!o.noCreateInfo, 40014, UniqueChecks, old(out), added, away, left);
      added, left := added + part, left - {UniqueChecks};
    }

    /** From any session in which the header's saves hold, the footer brings all settings back. */
    method WriteFooter() returns (ghost added: seq<Item>)
      modifies this
      ensures out == old(out) + added && Starts(added, ";") && RestoresEverything(o, added)
      ensures Ends(added, ";") == Some(";") && Deeds(added) == [] && NoDelimiter(added)
    {
      ghost var away := EVERYTHING;
      EverythingIsFull();
      ghost var left;
      added, left := WriteFooterStart(away);
      ghost var part := RestoreOld(o.setCharset, 40101, CharacterSetClient, old(out), added, away, left);
      added, left := added + part, left - {CharacterSetClient};
      part := RestoreOld(o.setCharset, 40101, CharacterSetResults, old(out), added, away, left);
      added, left := added + part, left - {CharacterSetResults};
      part := RestoreOld(o.setCharset, 40101, CollationConnection, old(out), added, away, left);
      added, left := added + part, left - {CollationConnection};
      part := RestoreOld(true, 40111, SqlNotes, old(out), added, away, left);
      added, left := added + part, left - {SqlNotes};
      NothingLeft(left);
      RestoresAllOfThem(o, added, away);
    }

    // -------------------------------------------------------------------------------------------------------------
    // The whole dump
    // -------------------------------------------------------------------------------------------------------------

    /**
     One block; `d` is the delimiter it leaves in force. A block with something to report is not printed to its end,
     unless the dump goes on anyway.
     */
    method DumpPart(p: Part, ghost given: Wanted) returns (reported: bool, ghost added: seq<Item>, ghost d: string)
      modifies this
      ensures reported <==> PartReported(p)
      ensures out == old(out) + added && (added == [] || Starts(added, ";"))
      ensures Clean(added, OLD, ";", d) && (d == ";" <==> PartSafe(p))
      ensures (reported ==> o.force) && PartOk(p) ==> DoesAs(added, 50106, given, PartTasks(o, w, p, given))
      ensures (reported ==> o.force) ==> (NoDelimiter(added) <==> PartSilent(p))
    {
      var ok := true;
      reported, d := false, ";";
      match p.block
      case Plain(version, text) =>
        GoodStatement(version, Other(text), OLD, ";", 0, given);
        OneOfAll(Deed(version, Other(text)), given);
        added := [Statement(version, [Other(text)], ";")];
        Print(version, Other(text), ";");
      case Table(create) => added := DumpCreateTable(create, given);
      case StandIn(create) => added := DumpStandIn(create, given);
      case View(charset, collation, create) => added := DumpView(charset, collation, create, given);
      case Triggers(ts) =>
        ok, added := DumpTriggers(p.db, ts, given);
        reported := !ok;
      case Routines(rs) => ok, reported, added := DumpRoutines(p.db, rs, given);
      case Events(es) => ok, added, d := DumpEventsForDb(p.db, es, given);
    }

    /** The block at `i`, behind those before it; the dump goes on unless there is something to report. */
    method DumpNext(ps: seq<Part>, i: nat, error: bool, ghost given: Wanted, ghost a: seq<Item>, ghost b: seq<Item>,
                    ghost d: string, ghost before: seq<Item>, ghost so: seq<Item>)
      returns (finished: bool, error': bool, ghost a': seq<Item>, ghost b': seq<Item>, ghost d': string, ghost so': seq<Item>)
      requires i < |ps| && out == before + so && DumpAt(o, w, ps, i, true, error, given, a, b, d, so)
      modifies this
      ensures out == before + so' && DumpAt(o, w, ps, i + 1, finished, error', given, a', b', d', so')
    {
      finished, error' := true, error;
      var reported;
      ghost var part, left;
      reported, part, left := DumpPart(ps[i], given);
      Associate(before, so, part);
      GoesOnOrNot(ps, i, o.force, error);
      if reported {
        finished, error' := o.force, true;
      }
      if finished {
        PartsNext(o, w, ps, i, given, a, b, d, so, part, left);
      }
      a', b', d', so' := Front(a, d, part), Behind(b, d, part), if d == ";" then left else d, so + part;
    }

    /** All blocks, unless something reported ends the dump. */
    method DumpParts(ps: seq<Part>, ghost given: Wanted) returns (finished: bool, error: bool, ghost added: seq<Item>)
      modifies this
      ensures finished <==> o.force || NoneReported(ps)
      ensures error <==> !NoneReported(ps)
      ensures out == old(out) + added
      ensures finished ==> Body(added, AllSafe(ps), SilentBehind(ps))
      ensures finished && AllOk(ps) ==> DoesAs(added, 50106, given, PartsTasks(o, w, ps, given))
    {
      var i := 0;
      finished, error, added := true, false, [];
      ghost var a, b, d := [], [], ";";
      DumpBegins(o, w, ps, given);
      while finished && i < |ps|
        invariant i <= |ps| && out == old(out) + added && DumpAt(o, w, ps, i, finished, error, given, a, b, d, added)
        decreases finished, |ps| - i
      {
        finished, error, a, b, d, added := DumpNext(ps, i, error, given, a, b, d, old(out), added);
        i := i + 1;
      }
      DumpEnds(o, w, ps, i, finished, error, given, a, b, d, added);
    }

    /**
     A whole dump. It comes to its end unless, without `--force`, triggers fail or the body of a routine is withheld;
     that routines or events failed is not reported. The script it then leaves keeps to its delimiters exactly if no
     database's events fail behind a change of the delimiter. It leaves the settings of every session on every server as
     they were exactly if no block behind such events prints a DELIMITER line. If nothing fails, on every server that
     knows all of it (`server` may be any), the script does exactly what the blocks ask for, in order, each under the
     header's settings and its own.
     */
    method DumpAll(ps: seq<Part>, ghost server: Server) returns (finished: bool, error: bool)
      requires out == []
      modifies this
      ensures finished <==> o.force || NoneReported(ps)
      ensures error <==> !NoneReported(ps)
      ensures finished ==> (Ends(out, ";") == Some(";") <==> AllSafe(ps))
      ensures finished ==> (RestoresSessions(out) <==> SilentBehind(ps))
      ensures finished && AllOk(ps) && 50106 <= server.version ==>
                var tasks := All(HeaderDeeds(o), map[]) + PartsTasks(o, w, ps, HeaderValues(o, server));
                Deeds(out) == DeedsOf(tasks) && forall s :: Performs(server, out, s, tasks)
    {
      ghost var h := WriteHeader();
      ghost var body;
      finished, error, body := DumpParts(ps, HeaderValues(o, server));
      if finished {
        ghost var f := WriteFooter();
        assert [] + h == h;
        Verdict(o, h, body, f, AllSafe(ps), SilentBehind(ps));
        if AllOk(ps) && 50106 <= server.version {
          ScriptDoes(o, server, h, body, f, PartsTasks(o, w, ps, HeaderValues(o, server)));
        }
      }
    }
  }

  // ---------------------------------------------------------------------------------------------------------------
  // Inputs on either side
  // ---------------------------------------------------------------------------------------------------------------

  /**
   Events that fail for a collation the client does not know leave a script that does not keep to its delimiters. As the
   last block it still restores sessions; with a routine behind it it does not. Neither goes reported.
   */
  method UnknownCollation(o: Options, w: Weights) returns (last: seq<Item>, followed: seq<Item>, error: bool)
    ensures Ends(last, ";") != Some(";") && RestoresSessions(last)
    ensures Ends(followed, ";") != Some(";") && !RestoresSessions(followed)
    ensures !error
  {
    var events, routines := Part(LATIN1, Events([FOREIGN])), Part(LATIN1, Routines([ROUTINE]));
    ForeignIsUnsafe();
    var one, two := [events], [events, routines];
    assert !PartSafe(one[0]) && !PartSafe(two[0]);
    assert two[1] == routines && !RoutinesSilent(LATIN1, [ROUTINE]) by {
      RoutineSilent(LATIN1, [ROUTINE], 0);
    }
    var dump := new Dump(o, w);
    var finished, failed := dump.DumpAll(one, Server(0, c => c));
    last := dump.out;
    dump := new Dump(o, w);
    finished, error := dump.DumpAll(two, Server(0, c => c));
    followed, error := dump.out, failed || error;
  }

  /** An event without a delimiter does harm exactly if an event with a body stands before it. */
  method MissingDelimiter(o: Options, w: Weights) returns (before: seq<Item>, behind: seq<Item>, twice: seq<Item>)
    ensures Ends(before, ";") == Some(";") && RestoresSessions(before)
    ensures Ends(behind, ";") != Some(";") && RestoresSessions(behind)
    ensures Ends(twice, ";") != Some(";") && !RestoresSessions(twice)
  {
    var good, bad := Part(LATIN1, Events([UNDELIMITED, EVENT])), Part(LATIN1, Events([EVENT, UNDELIMITED]));
    UndelimitedIsUnsafe();
    var one, two, three := [good], [bad], [bad, bad];
    assert !PartSafe(two[0]) && !PartSafe(three[0]) && three[1] == bad && !PartSilent(bad);
    var dump := new Dump(o, w);
    var finished, error := dump.DumpAll(one, Server(0, c => c));
    before := dump.out;
    dump := new Dump(o, w);
    finished, error := dump.DumpAll(two, Server(0, c => c));
    behind := dump.out;
    dump := new Dump(o, w);
    finished, error := dump.DumpAll(three, Server(0, c => c));
    twice := dump.out;
  }
}
