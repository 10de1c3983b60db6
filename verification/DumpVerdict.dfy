/** When a script with its footer printed leaves sessions as they were. */
module DumpVerdict {
  import opened Text
  import opened Wrappers
  import opened Definer
  import opened DumpScript
  import opened DumpSession
  import opened DumpSettings
  import opened DumpPieces

  /** Read by a client, the script leaves the settings of every session on every server as they were. */
  ghost predicate RestoresSessions(items: seq<Item>) {
    forall server, s :: SameSettings(s, RunRead(server, items, ";", [], s))
  }

  /** A script that keeps to its delimiters is read whole. */
  lemma ReadWhole(server: Server, items: seq<Item>, s: Session)
    requires Ends(items, ";").Some?
    ensures RunRead(server, items, ";", [], s) == Run(server, items, s)
  {
    ReadsOn(server, items, [], ";", s);
    assert items + [] == items;
  }

  lemma RunRestores(o: Options, server: Server, h: seq<Item>, body: seq<Item>, f: seq<Item>, s: Session)
    requires SavesEverything(o, h) && Neutral(body, OLD) && RestoresEverything(o, f)
    ensures SameSettings(s, Run(server, h + body + f, s))
  {
    RunConcat(server, h + body, f, s);
    RunConcat(server, h, body, s);
    var t := Run(server, h, s);
    BodyKeepsSaved(o, server, s, t, body, OLD);
    assert AllSaved(o, server, s, Run(server, body, t));
  }

  lemma SafeScript(o: Options, h: seq<Item>, body: seq<Item>, f: seq<Item>)
    requires SavesEverything(o, h) && Ends(h, ";") == Some(";") && Clean(body, OLD, ";", ";")
    requires RestoresEverything(o, f) && Ends(f, ";") == Some(";")
    ensures Ends(h + body + f, ";") == Some(";") && RestoresSessions(h + body + f)
  {
    EndsConcat(h, body, ";");
    EndsConcat(h + body, f, ";");
    forall server, s
      ensures SameSettings(s, RunRead(server, h + body + f, ";", [], s))
    {
      ReadWhole(server, h + body + f, s);
      RunRestores(o, server, h, body, f, s);
    }
  }

  /** Behind a part that leaves another delimiter in force everything is held, and run up to the first DELIMITER line. */
  lemma HeldScript(server: Server, a: seq<Item>, c: seq<Item>, d: string, s: Session)
    requires Ends(a, ";") == Some(d) && d != ";" && Starts(c, ";") && AllEnd(Before(c), ";")
    ensures Ends(a + c, ";") == None && RunRead(server, a + c, ";", [], s) == Run(server, a + Before(c), s)
  {
    EndsConcat(a, c, ";");
    ReadsOn(server, a, c, ";", s);
    var t := Run(server, a, s);
    HeldUntilWord(server, c, d, [], ";", t);
    assert [] + Before(c) == Before(c);
    RunConcat(server, a, Before(c), s);
  }

  lemma Regroup(h: seq<Item>, a: seq<Item>, b: seq<Item>, f: seq<Item>)
    ensures h + (a + b) + f == h + a + (b + f)
  {
  }

  lemma StartsBehind(b: seq<Item>, f: seq<Item>)
    requires (b == [] || Starts(b, ";")) && Starts(f, ";")
    ensures Starts(b + f, ";")
  {
    assert b == [] ==> b + f == f;
  }

  /** Without a DELIMITER line in it, what is held runs whole once the script ends. */
  lemma SilentScript(o: Options, h: seq<Item>, a: seq<Item>, b: seq<Item>, f: seq<Item>, d: string)
    requires SavesEverything(o, h) && Ends(h, ";") == Some(";") && BodySoFar(a, b, d) && d != ";" && NoDelimiter(b)
    requires RestoresEverything(o, f) && Ends(f, ";") == Some(";") && Starts(f, ";") && NoDelimiter(f)
    ensures Ends(h + (a + b) + f, ";") == None && RestoresSessions(h + (a + b) + f)
  {
    Regroup(h, a, b, f);
    EndsConcat(h, a, ";");
    EndsMore(b, f);
    StartsBehind(b, f);
    NoDelimiterConcat(b, f);
    BeforeAll(b + f);
    NeutralConcat(a, b, OLD);
    forall server, s
      ensures Ends(h + (a + b) + f, ";") == None && SameSettings(s, RunRead(server, h + (a + b) + f, ";", [], s))
    {
      HeldScript(server, h + a, b + f, d, s);
      RunRestores(o, server, h, a + b, f, s);
    }
    HeldScript(Server(0, c => c), h + a, b + f, d, Session(x => "1", u => None));
  }

  lemma NotesStayOff(server: Server, h: seq<Item>, a: seq<Item>, b: seq<Item>, s: Session)
    requires NotesOff(h) && LeavesNotes(a) && LeavesNotes(b) && 40111 <= server.version
    ensures Run(server, h + a + Before(b), s).sys(SqlNotes) == "0"
  {
    RunConcat(server, h + a, Before(b), s);
    RunConcat(server, h, a, s);
    var t := Run(server, h, s);
    NotesKept(server, a, t);
    BeforeIsPrefix(b);
    NotesKept(server, Before(b), Run(server, a, t));
  }

  /** With one in it the footer never runs, and notes stay off. */
  lemma BrokenScript(h: seq<Item>, a: seq<Item>, b: seq<Item>, f: seq<Item>, d: string)
    requires Ends(h, ";") == Some(";") && NotesOff(h) && BodySoFar(a, b, d) && d != ";" && !NoDelimiter(b)
    requires Ends(f, ";") == Some(";") && Starts(f, ";")
    ensures Ends(h + (a + b) + f, ";") == None && !RestoresSessions(h + (a + b) + f)
  {
    var server, s := Server(40111, c => c), Session(x => "1", u => None);
    Regroup(h, a, b, f);
    EndsConcat(h, a, ";");
    EndsMore(b, f);
    StartsBehind(b, f);
    BeforeConcat(b, f);
    HeldScript(server, h + a, b + f, d, s);
    NotesStayOff(server, h, a, b, s);
    assert s.sys(SqlNotes) == "1";
  }

  lemma Verdict(o: Options, h: seq<Item>, body: seq<Item>, f: seq<Item>, safe: bool, silent: bool)
    requires SavesEverything(o, h) && Ends(h, ";") == Some(";") && NotesOff(h) && Body(body, safe, silent)
    requires RestoresEverything(o, f) && Ends(f, ";") == Some(";") && Starts(f, ";") && NoDelimiter(f)
    ensures Ends(h + body + f, ";") == Some(";") <==> safe
    ensures RestoresSessions(h + body + f) <==> safe || silent
  {
    if safe {
      SafeScript(o, h, body, f);
    } else {
      var a, b, d :| body == a + b && d != ";" && BodySoFar(a, b, d) && (NoDelimiter(b) <==> silent);
      if silent {
        SilentScript(o, h, a, b, f, d);
      } else {
        BrokenScript(h, a, b, f, d);
      }
    }
  }

  // ---------------------------------------------------------------------------------------------------------------
  // Inputs on either side
  // ---------------------------------------------------------------------------------------------------------------

  lemma NoDelimiterIn(c: char)
    ensures Choose([c], QUERY_LENGTH).Chosen?
  {
    forall i | 0 <= i <= 1
      ensures !StartsAt([c], i, ";;")
    {
    }
  }

  lemma DelimiterIn()
    ensures !Choose(";;", QUERY_LENGTH).Chosen?
  {
    assert StartsAt(";;", 0, ";;");
  }

  const LATIN1 := Database("db", "latin1_swedish_ci", map[])

  /** Its database had a collation the client does not know. */
  const FOREIGN := Event("e", "", "SYSTEM", "x", Reported("latin1", "latin1_swedish_ci", "unknown_ci"))

  const EVENT := Event("a", "", "SYSTEM", "x", Unreported)

  /** Its text leaves no delimiter to choose. */
  const UNDELIMITED := Event("b", "", "SYSTEM", ";;", Unreported)

  const ROUTINE := Routine("r", "", Some("x"), Unreported)

  lemma ForeignIsUnsafe()
    ensures !PartSafe(Part(LATIN1, Events([FOREIGN])))
  {
    NoDelimiterIn('x');
    var es := [FOREIGN];
    assert !EventOk(LATIN1, es[0]) && Delimitable(FOREIGN) && forall k :: 0 <= k < 1 ==> es[k] == FOREIGN;
  }

  lemma UndelimitedIsUnsafe()
    ensures EventsSafe(LATIN1, [UNDELIMITED, EVENT]) && !EventsSafe(LATIN1, [EVENT, UNDELIMITED])
  {
    NoDelimiterIn('x');
    DelimiterIn();
    assert [UNDELIMITED, EVENT][0] == UNDELIMITED && !Delimitable(UNDELIMITED) && FailsAtOnce([UNDELIMITED, EVENT]);
    var es := [EVENT, UNDELIMITED];
    assert es[0].create != "" && es[1] == UNDELIMITED && !EventOk(LATIN1, es[1]);
    assert forall k :: 0 <= k < 2 ==> es[k] == (if k == 0 then EVENT else UNDELIMITED);
  }
}
