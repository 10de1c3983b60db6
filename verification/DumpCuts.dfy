/** Where a reader that looks for the delimiter, in strings or not, cuts an event's CREATE statement. */
module DumpCuts {
  import opened Text
  import opened Wrappers
  import opened Definer
  import opened DumpScript

  /** A reader that cuts the script at the delimiter takes exactly the printed statement. */
  ghost predicate CutExactly(text: string, d: string) {
    forall rest ::
      StartsAt(text + d + rest, |text|, d) && forall i :: 0 <= i < |text| ==> !StartsAt(text + d + rest, i, d)
  }

  lemma OccursFurther(t: string, d: string, more: string)
    requires Occurs(d, t) && d != ""
    ensures exists i :: 0 <= i < |t| && StartsAt(t + more, i, d)
  {
    var i: nat :| i <= |t| && StartsAt(t, i, d);
    StartsAtEach(t, i, d);
    StartsAtEach(t + more, i, d);
  }

  /** A text whose last character is not of the delimiter is cut exactly if it does not hold the delimiter. */
  lemma CutIff(t: string, d: string)
    requires d != "" && t != "" && t[|t| - 1] !in d
    ensures CutExactly(t, d) <==> !Occurs(d, t)
  {
    if Occurs(d, t) {
      OccursFurther(t, d, d + "");
      assert t + (d + "") == t + d + "";
    } else {
      forall rest
        ensures StartsAt(t + d + rest, |t|, d) && forall i :: 0 <= i < |t| ==> !StartsAt(t + d + rest, i, d)
      {
        CutsAfter(t, d, rest);
      }
    }
  }

  lemma FixedTexts()
    ensures Disjoint(";;", MARK + "50117") && Disjoint(";;", MARK + "50106")
    ensures Disjoint(";;", "/*!" + "50106" + " ") && Disjoint(";;", " */ ")
  {
    assert MARK + "50117" == "*/ /*!50117" && MARK + "50106" == "*/ /*!50106";
    assert "/*!" + "50106" + " " == "/*!50106 ";
  }

  /** Where the search finds a delimiter, the printed event holds it nowhere before its end. */
  lemma EventTextIsCut(w: Weights, e: Event)
    requires Delimitable(e)
    ensures CutExactly(Printed("50106", EventText(w, e)), Choose(e.create, QUERY_LENGTH).delimiter)
  {
    var text := Printed("50106", EventText(w, e));
    FixedTexts();
    var c := Clause(w, e.create, " EVENT");
    if c.Some? {
      CoveredIsClear(";;", e.create, c.value.0, c.value.1, "50117", "50106");
    }
    PrintedIsClear(";;", "50106", EventText(w, e));
    assert text[|text| - 1] == ' ';
    CutIff(text, ";;");
  }

  lemma FiveDigits(a: char, b: char, c: char, d: char, e: char)
    ensures Number([a, b, c, d, e]) == 10000 * Digit(a) + 1000 * Digit(b) + 100 * Digit(c) + 10 * Digit(d) + Digit(e)
  {
    assert [a, b, c, d, e][..4] == [a, b, c, d] && [a, b, c, d][..3] == [a, b, c] && [a, b, c][..2] == [a, b];
    assert [a, b][..1] == [a] && [a][..0] == [];
    assert Number([a]) == Digit(a) && Number([a, b]) == 10 * Number([a]) + Digit(b);
    assert Number([a, b, c]) == 10 * Number([a, b]) + Digit(c) && Number([a, b, c, d]) == 10 * Number([a, b, c]) + Digit(d);
  }

  lemma Versions()
    ensures Number("50003") == 50003 && Number("50017") == 50017 && Number("50106") == 50106 && Number("50117") == 50117
  {
    FiveDigits('5', '0', '0', '0', '3');
    FiveDigits('5', '0', '0', '1', '7');
    FiveDigits('5', '0', '1', '0', '6');
    FiveDigits('5', '0', '1', '1', '7');
  }

  /**
   What servers run of a trigger with a DEFINER clause: all of it from 5.0.17 on, all but the clause from 5.0.3 on,
   nothing before that.
   */
  lemma TriggerRuns(version: nat, w: Weights, t: Trigger, b: nat, e: nat)
    requires Clause(w, t.create, " TRIGGER") == Some((b, e)) && NoClose(t.create)
    ensures Runs(version, Printed("50003", TriggerText(w, t))) ==
      var s := t.create;
      if version < 50003 then "   "
      else if version < 50017 then " " + s[..b] + " " + ("" + " " + (s[e..] + " " + " "))
      else " " + s[..b] + " " + (s[b..e] + " " + (s[e..] + " " + " "))
  {
    Versions();
    CoveredRuns(version, t.create, b, e, "50017", "50003");
    assert "" + " " + ("" + " " + ("" + " ")) == "   ";
  }

  /** Of an event with one: all of it from 5.1.17 on, all but the clause from 5.1.6 on, nothing before that. */
  lemma EventRuns(version: nat, w: Weights, ev: Event, b: nat, e: nat)
    requires Clause(w, ev.create, " EVENT") == Some((b, e)) && NoClose(ev.create)
    ensures Runs(version, Printed("50106", EventText(w, ev))) ==
      var s := ev.create;
      if version < 50106 then "   "
      else if version < 50117 then " " + s[..b] + " " + ("" + " " + (s[e..] + " " + " "))
      else " " + s[..b] + " " + (s[b..e] + " " + (s[e..] + " " + " "))
  {
    Versions();
    CoveredRuns(version, ev.create, b, e, "50117", "50106");
    assert "" + " " + ("" + " " + ("" + " ")) == "   ";
  }
}
