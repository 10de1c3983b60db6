/** The settings the header of a dump saves and its footer restores. */
module DumpSettings {
  import opened Wrappers
  import opened DumpScript
  import opened DumpSession

  const OLD_CS: Pairs := [(Old(CharacterSetClient), CharacterSetClient), (Old(CharacterSetResults), CharacterSetResults),
                          (Old(CollationConnection), CollationConnection)]

  function One(x: SysVar): Pairs {
    [(Old(x), x)]
  }

  lemma OnePair(x: SysVar)
    ensures Distinct(One(x)) && Users(One(x)) == iset{Old(x)} && Systems(One(x)) == {x}
  {
    assert One(x)[0].0 in Users(One(x)) && One(x)[0].1 in Systems(One(x));
  }

  lemma CharsetPairs()
    ensures Distinct(OLD_CS)
    ensures Users(OLD_CS) == iset{Old(CharacterSetClient), Old(CharacterSetResults), Old(CollationConnection)}
    ensures Systems(OLD_CS) == {CharacterSetClient, CharacterSetResults, CollationConnection}
  {
    assert OLD_CS[0].1 in Systems(OLD_CS) && OLD_CS[1].1 in Systems(OLD_CS) && OLD_CS[2].1 in Systems(OLD_CS);
    assert OLD_CS[0].0 in Users(OLD_CS) && OLD_CS[1].0 in Users(OLD_CS) && OLD_CS[2].0 in Users(OLD_CS);
  }

  // ---------------------------------------------------------------------------------------------------------------
  // The plan
  // ---------------------------------------------------------------------------------------------------------------

  /** The server version from which on the header saves a setting and the footer restores it. */
  function SavedFrom(o: Options, x: SysVar): Option<nat> {
    match x
    case CharacterSetClient => if o.setCharset then Some(40101) else None
    case CharacterSetResults => if o.setCharset then Some(40101) else None
    case CollationConnection => if o.setCharset then Some(40101) else None
    case SqlMode => Some(40101)
    case TimeZone => if o.tzUtc then Some(40103) else None
    case UniqueChecks => if o.noCreateInfo then None else Some(40014)
    case ForeignKeyChecks => Some(40014)
    case SqlNotes => Some(40111)
  }

  predicate Active(o: Options, server: Server, x: SysVar) {
    SavedFrom(o, x).Some? && SavedFrom(o, x).value <= server.version
  }

  /** The value the header gives a setting it saves; the collation is the one the server has for the character set. */
  function NewValue(o: Options, server: Server, x: SysVar): string {
    match x
    case CharacterSetClient => o.charset
    case CharacterSetResults => o.charset
    case CollationConnection => server.collation(o.charset)
    case SqlMode => o.sqlMode
    case TimeZone => "+00:00"
    case UniqueChecks => "0"
    case ForeignKeyChecks => "0"
    case SqlNotes => "0"
  }

  /** The settings in `away` have the values of the header. */
  ghost predicate HasNew(o: Options, server: Server, t: Session, away: set<SysVar>) {
    forall x :: x in away && Active(o, server, x) ==> t.sys(x) == NewValue(o, server, x)
  }

  /**
   Seen from session `s`, at the start: the settings in `away` are saved if they may have changed, and the others are
   the same.
   */
  ghost predicate Saved(o: Options, server: Server, s: Session, t: Session, away: set<SysVar>) {
    forall x :: if x in away && Active(o, server, x) then t.user(Old(x)) == Some(s.sys(x)) else t.sys(x) == s.sys(x)
  }

  ghost predicate Full(away: set<SysVar>) {
    forall x :: x in away
  }

  // ---------------------------------------------------------------------------------------------------------------
  // The header
  // ---------------------------------------------------------------------------------------------------------------

  /** From every session on every server, running the items saves what the plan says of the settings in `away`. */
  ghost predicate SavesAll(o: Options, items: seq<Item>, away: set<SysVar>) {
    forall server, s :: Saved(o, server, s, Run(server, items, s), away)
  }

  /** On servers from `version` on the settings of `pairs` are saved, and nothing else is touched. */
  ghost predicate SetsAside(items: seq<Item>, version: nat, pairs: Pairs) {
    forall server, s :: var t := Run(server, items, s);
      if version <= server.version then
        && (forall i :: 0 <= i < |pairs| ==> t.user(pairs[i].0) == Some(s.sys(pairs[i].1)))
        && (forall x :: x !in Systems(pairs) ==> t.sys(x) == s.sys(x))
        && (forall u :: u !in Users(pairs) ==> t.user(u) == s.user(u))
      else t == s
  }

  /** The pairs save settings of the plan, from that version on, in the variables of the plan. */
  predicate Planned(o: Options, version: nat, pairs: Pairs) {
    forall i :: 0 <= i < |pairs| ==> pairs[i].0 == Old(pairs[i].1) && SavedFrom(o, pairs[i].1) == Some(version)
  }

  lemma SavedMore(o: Options, server: Server, s: Session, t: Session, t': Session, away: set<SysVar>, version: nat,
                  pairs: Pairs)
    requires Saved(o, server, s, t, away) && Planned(o, version, pairs) && away !! Systems(pairs)
    requires if version <= server.version then
               && (forall i :: 0 <= i < |pairs| ==> t'.user(pairs[i].0) == Some(t.sys(pairs[i].1)))
               && (forall x :: x !in Systems(pairs) ==> t'.sys(x) == t.sys(x))
               && (forall u :: u !in Users(pairs) ==> t'.user(u) == t.user(u))
             else t' == t
    ensures Saved(o, server, s, t', away + Systems(pairs))
  {
    forall x
      ensures if x in away + Systems(pairs) && Active(o, server, x) then t'.user(Old(x)) == Some(s.sys(x))
              else t'.sys(x) == s.sys(x)
    {
      if x in Systems(pairs) {
        var i :| 0 <= i < |pairs| && pairs[i].1 == x;
        assert x !in away && SavedFrom(o, x) == Some(version);
      } else {
        assert Old(x) !in Users(pairs);
      }
    }
  }

  lemma SavesMore(o: Options, a: seq<Item>, b: seq<Item>, away: set<SysVar>, version: nat, pairs: Pairs)
    requires SavesAll(o, a, away) && SetsAside(b, version, pairs) && Planned(o, version, pairs) && away !! Systems(pairs)
    ensures SavesAll(o, a + b, away + Systems(pairs))
  {
    forall server, s
      ensures Saved(o, server, s, Run(server, a + b, s), away + Systems(pairs))
    {
      RunConcat(server, a, b, s);
      var t := Run(server, a, s);
      SavedMore(o, server, s, t, Run(server, b, t), away, version, pairs);
    }
  }

  /** Settings the plan leaves alone may be counted as saved. */
  lemma SavesUnplanned(o: Options, a: seq<Item>, away: set<SysVar>, more: set<SysVar>)
    requires SavesAll(o, a, away) && forall x :: x in more ==> SavedFrom(o, x) == None
    ensures SavesAll(o, a, away + more)
  {
    forall server, s
      ensures Saved(o, server, s, Run(server, a, s), away + more)
    {
      assert Saved(o, server, s, Run(server, a, s), away);
    }
  }

  lemma SwitchSetsAside(items: seq<Item>, version: nat, pairs: Pairs, values: seq<string>, d: string)
    requires |values| <= |pairs| && Switches(items, version, pairs, values, d)
    ensures SetsAside(items, version, pairs)
  {
    assert forall i :: 0 <= i < |values| ==> pairs[..|values|][i] == pairs[i];
    forall server: Server, s | version <= server.version
      ensures forall x :: x !in Systems(pairs) ==> Run(server, items, s).sys(x) == s.sys(x)
    {
      assert Switched(pairs, values, s, Run(server, items, s));
    }
  }

  /** One statement that saves a setting and sets it. */
  lemma SaveAndSetSwitches(version: nat, x: SysVar, value: string, d: string)
    ensures Switches([Statement(version, [Save(Old(x), x), Assign(x, value)], d)], version, One(x), [value], d)
  {
    OnePair(x);
    var item := Statement(version, [Save(Old(x), x), Assign(x, value)], d);
    assert [item][1..] == [] && One(x)[..1] == One(x);
    forall server, s
      ensures var t := Run(server, [item], s); if version <= server.version then Switched(One(x), [value], s, t) else t == s
    {
      RunOne(server, item, s);
      assert item.actions == [Save(Old(x), x)] + [Assign(x, value)];
      DoConcat(server, [Save(Old(x), x)], [Assign(x, value)], s);
      DoOne(server, Save(Old(x), x), s);
      DoOne(server, Assign(x, value), SetUser(s, Old(x), s.sys(x)));
    }
  }

  lemma NamesRun(server: Server, charset: string, t: Session)
    requires 40101 <= server.version
    ensures var r := Run(server, [Statement(40101, [SetNames(charset)], ";")], t);
            r.user == t.user && forall x :: x !in Systems(OLD_CS) ==> r.sys(x) == t.sys(x)
  {
    CharsetPairs();
    RunOne(server, Statement(40101, [SetNames(charset)], ";"), t);
    DoOne(server, SetNames(charset), t);
  }

  lemma NamesKept(server: Server, charset: string, t: Session)
    requires server.version < 40101
    ensures Run(server, [Statement(40101, [SetNames(charset)], ";")], t) == t
  {
    RunOne(server, Statement(40101, [SetNames(charset)], ";"), t);
  }

  /** Statements that save the three character set variables, and SET NAMES. */
  lemma NamesSetAside(charset: string)
    ensures var items := Each(40101, Saves(OLD_CS), ";") + [Statement(40101, [SetNames(charset)], ";")];
            SetsAside(items, 40101, OLD_CS) && Ends(items, ";") == Some(";")
  {
    var saves, names := Each(40101, Saves(OLD_CS), ";"), [Statement(40101, [SetNames(charset)], ";")];
    EachEnds(40101, Saves(OLD_CS), ";");
    assert names[1..] == [];
    EndsConcat(saves, names, ";");
    forall server, s
      ensures var t := Run(server, saves + names, s);
        if 40101 <= server.version then
          && (forall i :: 0 <= i < |OLD_CS| ==> t.user(OLD_CS[i].0) == Some(s.sys(OLD_CS[i].1)))
          && (forall x :: x !in Systems(OLD_CS) ==> t.sys(x) == s.sys(x))
          && (forall u :: u !in Users(OLD_CS) ==> t.user(u) == s.user(u))
        else t == s
    {
      RunConcat(server, saves, names, s);
      EachRuns(server, 40101, Saves(OLD_CS), ";", s);
      var t := Run(server, saves, s);
      if 40101 <= server.version {
        CharsetPairs();
        SavesRun(server, OLD_CS, s);
        NamesRun(server, charset, t);
      } else {
        NamesKept(server, charset, t);
      }
    }
  }

  /** From every session on every server, running the items gives the settings in `away` their new values. */
  ghost predicate GivesNew(o: Options, items: seq<Item>, away: set<SysVar>) {
    forall server, s :: HasNew(o, server, Run(server, items, s), away)
  }

  lemma GivesMore(o: Options, a: seq<Item>, b: seq<Item>, away: set<SysVar>, version: nat, pairs: Pairs)
    requires GivesNew(o, a, away) && GivesNew(o, b, Systems(pairs)) && SetsAside(b, version, pairs) && away !! Systems(pairs)
    ensures GivesNew(o, a + b, away + Systems(pairs))
  {
    forall server, s
      ensures HasNew(o, server, Run(server, a + b, s), away + Systems(pairs))
    {
      RunConcat(server, a, b, s);
      var t := Run(server, a, s);
      var r := Run(server, b, t);
      assert HasNew(o, server, t, away) && HasNew(o, server, r, Systems(pairs));
      assert version > server.version ==> r == t;
    }
  }

  lemma GivesUnplanned(o: Options, a: seq<Item>, away: set<SysVar>, more: set<SysVar>)
    requires GivesNew(o, a, away) && forall x :: x in more ==> SavedFrom(o, x) == None
    ensures GivesNew(o, a, away + more)
  {
    forall server, s
      ensures HasNew(o, server, Run(server, a, s), away + more)
    {
      assert HasNew(o, server, Run(server, a, s), away);
    }
  }

  /** One setting, switched to its new value from the version on that the plan says. */
  lemma SwitchGivesNew(o: Options, items: seq<Item>, version: nat, x: SysVar, value: string, d: string)
    requires Switches(items, version, One(x), [value], d) && SavedFrom(o, x) == Some(version)
    requires forall server :: NewValue(o, server, x) == value
    ensures GivesNew(o, items, Systems(One(x)))
  {
    OnePair(x);
    forall server, s
      ensures HasNew(o, server, Run(server, items, s), Systems(One(x)))
    {
      if version <= server.version {
        assert Switched(One(x), [value], s, Run(server, items, s)) && One(x)[0].1 == x;
      }
    }
  }

  lemma NamesGiveNew(o: Options, a: seq<Item>)
    requires o.setCharset
    ensures GivesNew(o, a + [Statement(40101, [SetNames(o.charset)], ";")], Systems(OLD_CS))
  {
    CharsetPairs();
    var item := Statement(40101, [SetNames(o.charset)], ";");
    forall server, s
      ensures HasNew(o, server, Run(server, a + [item], s), Systems(OLD_CS))
    {
      RunConcat(server, a, [item], s);
      var t := Run(server, a, s);
      RunOne(server, item, t);
      DoOne(server, SetNames(o.charset), t);
    }
  }

  /** The header so far: settings in `away` are dealt with, statements end with ";", and only `deeds` is done besides. */
  ghost predicate HeaderUpTo(o: Options, items: seq<Item>, away: set<SysVar>, deeds: seq<Deed>) {
    SavesAll(o, items, away) && GivesNew(o, items, away) && Ends(items, ";") == Some(";") && Deeds(items) == deeds
  }

  /** A part that saves settings of the plan, or nothing if the plan leaves them alone. */
  ghost predicate SavesPart(o: Options, items: seq<Item>, version: nat, pairs: Pairs) {
    && Ends(items, ";") == Some(";") && Deeds(items) == []
    && (if items == [] then forall x :: x in Systems(pairs) ==> SavedFrom(o, x) == None
        else SetsAside(items, version, pairs) && Planned(o, version, pairs) && GivesNew(o, items, Systems(pairs)))
  }

  lemma HeaderStep(o: Options, before: seq<Item>, a: seq<Item>, b: seq<Item>, away: set<SysVar>, deeds: seq<Deed>,
                   version: nat, pairs: Pairs)
    requires HeaderUpTo(o, a, away, deeds) && SavesPart(o, b, version, pairs) && away !! Systems(pairs)
    ensures before + a + b == before + (a + b) && HeaderUpTo(o, a + b, away + Systems(pairs), deeds)
  {
    Associate(before, a, b);
    EndsConcat(a, b, ";");
    DeedsConcat(a, b);
    if b == [] {
      assert a + b == a;
      SavesUnplanned(o, a, away, Systems(pairs));
      GivesUnplanned(o, a, away, Systems(pairs));
    } else {
      SavesMore(o, a, b, away, version, pairs);
      GivesMore(o, a, b, away, version, pairs);
    }
  }

  lemma HeaderStart(o: Options, items: seq<Item>)
    requires Clean(items, iset{}, ";", ";")
    ensures HeaderUpTo(o, items, {}, Deeds(items))
  {
    forall server, s
      ensures Saved(o, server, s, Run(server, items, s), {})
    {
      assert SameSettings(s, Run(server, items, s));
    }
  }

  // ---------------------------------------------------------------------------------------------------------------
  // The footer
  // ---------------------------------------------------------------------------------------------------------------

  /** Whenever the settings in `away` were saved, running the items leaves only those in `away'` to be restored. */
  ghost predicate RestoresTo(o: Options, items: seq<Item>, away: set<SysVar>, away': set<SysVar>) {
    forall server, s, t :: Saved(o, server, s, t, away) ==> Saved(o, server, s, Run(server, items, t), away')
  }

  lemma RestoresNothing(o: Options, away: set<SysVar>)
    ensures RestoresTo(o, [], away, away)
  {
  }

  lemma RestoresMore(o: Options, a: seq<Item>, b: seq<Item>, away: set<SysVar>, away': set<SysVar>, version: nat, x: SysVar)
    requires RestoresTo(o, a, away, away') && SwitchesBack(b, version, One(x), ";")
    requires SavedFrom(o, x) == Some(version) && x in away'
    ensures RestoresTo(o, a + b, away, away' - {x})
  {
    OnePair(x);
    forall server, s, t | Saved(o, server, s, t, away)
      ensures Saved(o, server, s, Run(server, a + b, t), away' - {x})
    {
      RunConcat(server, a, b, t);
      var t1 := Run(server, a, t);
      var t2 := Run(server, b, t1);
      assert Saved(o, server, s, t1, away');
      if version <= server.version {
        assert SwitchedBack(One(x), t1, t2) && One(x)[0] == (Old(x), x);
      }
    }
  }

  lemma RestoresUnplanned(o: Options, a: seq<Item>, away: set<SysVar>, away': set<SysVar>, x: SysVar)
    requires RestoresTo(o, a, away, away') && SavedFrom(o, x) == None
    ensures RestoresTo(o, a, away, away' - {x})
  {
    forall server, s, t | Saved(o, server, s, t, away)
      ensures Saved(o, server, s, Run(server, a, t), away' - {x})
    {
      assert Saved(o, server, s, Run(server, a, t), away');
    }
  }

  lemma RestoreSwitchesBack(version: nat, x: SysVar, d: string)
    ensures SwitchesBack([Statement(version, [Restore(x, Old(x))], d)], version, One(x), d)
  {
    OnePair(x);
    RestoresSwitchBack(version, One(x), d);
    assert Each(version, Restores(One(x)), d) == [Statement(version, [Restore(x, Old(x))], d)];
  }

  /** The footer so far: only the settings in `away'` are still to be restored. */
  ghost predicate FooterUpTo(o: Options, items: seq<Item>, away: set<SysVar>, away': set<SysVar>) {
    RestoresTo(o, items, away, away') && Ends(items, ";") == Some(";") && Deeds(items) == [] && NoDelimiter(items)
  }

  /** A part that restores a setting of the plan, or nothing if the plan leaves it alone. */
  ghost predicate RestoresPart(o: Options, items: seq<Item>, version: nat, x: SysVar) {
    if items == [] then SavedFrom(o, x) == None
    else SwitchesBack(items, version, One(x), ";") && SavedFrom(o, x) == Some(version)
  }

  lemma FooterStep(o: Options, before: seq<Item>, a: seq<Item>, b: seq<Item>, away: set<SysVar>, away': set<SysVar>,
                   version: nat, x: SysVar)
    requires FooterUpTo(o, a, away, away') && RestoresPart(o, b, version, x) && x in away'
    ensures before + a + b == before + (a + b) && FooterUpTo(o, a + b, away, away' - {x})
  {
    Associate(before, a, b);
    EndsConcat(a, b, ";");
    DeedsConcat(a, b);
    if b == [] {
      assert a + b == a;
      RestoresUnplanned(o, a, away, away', x);
    } else {
      SetsLeavesNotes(b, Systems(One(x)));
      RestoresMore(o, a, b, away, away', version, x);
    }
  }

  // ---------------------------------------------------------------------------------------------------------------
  // Both together
  // ---------------------------------------------------------------------------------------------------------------

  /** Every setting the plan covers on this server is saved, and every other one the same. */
  ghost predicate AllSaved(o: Options, server: Server, s: Session, t: Session) {
    forall x :: if Active(o, server, x) then t.user(Old(x)) == Some(s.sys(x)) else t.sys(x) == s.sys(x)
  }

  /** From every session on every server, running the items saves all settings they may change. */
  ghost predicate SavesEverything(o: Options, items: seq<Item>) {
    forall server, s :: AllSaved(o, server, s, Run(server, items, s))
  }

  /** From every session on every server, running the items gives all settings of the plan their new values. */
  ghost predicate GivesEverything(o: Options, items: seq<Item>) {
    forall server, s, x :: Active(o, server, x) ==> Run(server, items, s).sys(x) == NewValue(o, server, x)
  }

  lemma GivesAllOfThem(o: Options, items: seq<Item>, away: set<SysVar>)
    requires GivesNew(o, items, away) && Full(away)
    ensures GivesEverything(o, items)
  {
    forall server, s, x | Active(o, server, x)
      ensures Run(server, items, s).sys(x) == NewValue(o, server, x)
    {
      assert HasNew(o, server, Run(server, items, s), away) && x in away;
    }
  }

  /** From every session in which all was saved, running the items brings the settings back. */
  ghost predicate RestoresEverything(o: Options, items: seq<Item>) {
    forall server, s, t :: AllSaved(o, server, s, t) ==> SameSettings(s, Run(server, items, t))
  }

  lemma SavesAllOfThem(o: Options, items: seq<Item>, away: set<SysVar>)
    requires SavesAll(o, items, away) && Full(away)
    ensures SavesEverything(o, items)
  {
    forall server, s
      ensures AllSaved(o, server, s, Run(server, items, s))
    {
      assert Saved(o, server, s, Run(server, items, s), away);
    }
  }

  lemma RestoresAllOfThem(o: Options, items: seq<Item>, away: set<SysVar>)
    requires RestoresTo(o, items, away, {}) && Full(away)
    ensures RestoresEverything(o, items)
  {
    forall server, s, t | AllSaved(o, server, s, t)
      ensures SameSettings(s, Run(server, items, t))
    {
      assert Saved(o, server, s, t, away);
      assert Saved(o, server, s, Run(server, items, t), {});
    }
  }

  lemma EightSettings(x: SysVar)
    ensures x == CharacterSetClient || x == CharacterSetResults || x == CollationConnection || x == SqlMode
         || x == TimeZone || x == UniqueChecks || x == ForeignKeyChecks || x == SqlNotes
  {
  }

  lemma AllEight(away: set<SysVar>)
    requires Systems(OLD_CS) <= away && TimeZone in away && UniqueChecks in away && ForeignKeyChecks in away
    requires SqlMode in away && SqlNotes in away
    ensures Full(away)
  {
    CharsetPairs();
    forall x
      ensures x in away
    {
      EightSettings(x);
    }
  }

  /** What stands between header and footer must leave settings and the header's variables alone. */
  lemma BodyKeepsSaved(o: Options, server: Server, s: Session, t: Session, body: seq<Item>, keep: iset<UserVar>)
    requires AllSaved(o, server, s, t) && Neutral(body, keep) && forall x: SysVar :: Old(x) in keep
    ensures AllSaved(o, server, s, Run(server, body, t))
  {
    var r := Run(server, body, t);
    assert SameSettings(t, r) && SameSaved(t, r, keep);
  }
}
