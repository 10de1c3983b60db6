/** What a script does besides settings, and which settings it does it under. */
module DumpCreates {
  import opened DumpScript
  import opened DumpSession

  type Wanted = map<SysVar, string>

  ghost predicate Agrees(s: Session, wanted: Wanted) {
    forall x :: x in wanted ==> s.sys(x) == wanted[x]
  }

  /** A statement that is not about settings, and settings it runs under. */
  datatype Task = Task(deed: Deed, under: Wanted)

  function DeedsOf(tasks: seq<Task>): seq<Deed> {
    seq(|tasks|, i requires 0 <= i < |tasks| => tasks[i].deed)
  }

  /** All of these under the same settings. */
  function All(deeds: seq<Deed>, under: Wanted): seq<Task> {
    seq(|deeds|, i requires 0 <= i < |deeds| => Task(deeds[i], under))
  }

  /**
   Run from session `s`, the items do exactly these tasks, in order, and come to each of them with settings that agree
   with those it wants.
   */
  ghost predicate Performs(server: Server, items: seq<Item>, s: Session, tasks: seq<Task>) {
    if items == [] then tasks == []
    else
      var s' := RunItem(server, items[0], s);
      if !Does(items[0]) then Performs(server, items[1..], s', tasks)
      else
        && tasks != [] && tasks[0].deed == Deed(items[0].version, items[0].actions[0]) && Agrees(s, tasks[0].under)
        && Performs(server, items[1..], s', tasks[1..])
  }

  lemma {:induction false} PerformsConcat(server: Server, a: seq<Item>, b: seq<Item>, s: Session, x: seq<Task>, y: seq<Task>)
    requires Performs(server, a, s, x) && Performs(server, b, Run(server, a, s), y)
    ensures Performs(server, a + b, s, x + y)
    decreases |a|
  {
    if a == [] {
      assert a + b == b && x + y == y;
    } else {
      assert (a + b)[1..] == a[1..] + b;
      var s' := RunItem(server, a[0], s);
      if Does(a[0]) {
        PerformsConcat(server, a[1..], b, s', x[1..], y);
        assert (x + y)[1..] == x[1..] + y;
      } else {
        PerformsConcat(server, a[1..], b, s', x, y);
      }
    }
  }

  lemma {:induction false} PerformsNothing(server: Server, items: seq<Item>, s: Session)
    requires Deeds(items) == []
    ensures Performs(server, items, s, [])
    decreases |items|
  {
    if items != [] {
      PerformsNothing(server, items[1..], RunItem(server, items[0], s));
    }
  }

  lemma PerformsOne(server: Server, version: nat, a: Action, d: string, s: Session, under: Wanted)
    requires (a.Other? || a.Create?) && Agrees(s, under)
    ensures Performs(server, [Statement(version, [a], d)], s, [Task(Deed(version, a), under)])
  {
    assert [Statement(version, [a], d)][1..] == [] && [Task(Deed(version, a), under)][1..] == [];
  }

  lemma {:induction false} PerformsDeeds(server: Server, items: seq<Item>, s: Session, tasks: seq<Task>)
    requires Performs(server, items, s, tasks)
    ensures Deeds(items) == DeedsOf(tasks)
    decreases |items|
  {
    if items != [] {
      var s' := RunItem(server, items[0], s);
      if Does(items[0]) {
        PerformsDeeds(server, items[1..], s', tasks[1..]);
        assert DeedsOf(tasks) == [tasks[0].deed] + DeedsOf(tasks[1..]);
      } else {
        PerformsDeeds(server, items[1..], s', tasks);
      }
    }
  }

  // ---------------------------------------------------------------------------------------------------------------
  // Composing
  // ---------------------------------------------------------------------------------------------------------------

  /** On servers from `from` on, from any session with the given settings, the items do `tasks`. */
  ghost predicate DoesAs(items: seq<Item>, from: nat, given: Wanted, tasks: seq<Task>) {
    forall server: Server, s :: from <= server.version && Agrees(s, given) ==> Performs(server, items, s, tasks)
  }

  /** A clean part of a script that does `tasks`. */
  ghost predicate Good(items: seq<Item>, keep: iset<UserVar>, d: string, d': string, from: nat, given: Wanted,
                       tasks: seq<Task>) {
    Clean(items, keep, d, d') && DoesAs(items, from, given, tasks)
  }

  lemma DoesConcat(a: seq<Item>, b: seq<Item>, keep: iset<UserVar>, from: nat, given: Wanted, x: seq<Task>, y: seq<Task>)
    requires Neutral(a, keep) && DoesAs(a, from, given, x) && DoesAs(b, from, given, y)
    ensures DoesAs(a + b, from, given, x + y)
  {
    forall server: Server, s | from <= server.version && Agrees(s, given)
      ensures Performs(server, a + b, s, x + y)
    {
      var t := Run(server, a, s);
      assert SameSettings(s, t);
      PerformsConcat(server, a, b, s, x, y);
    }
  }

  lemma GoodConcat(a: seq<Item>, b: seq<Item>, keep: iset<UserVar>, d: string, mid: string, d': string,
                   from: nat, given: Wanted, x: seq<Task>, y: seq<Task>)
    requires Good(a, keep, d, mid, from, given, x) && Good(b, keep, mid, d', from, given, y)
    ensures Good(a + b, keep, d, d', from, given, x + y)
  {
    CleanConcat(a, b, keep, d, mid, d');
    DoesConcat(a, b, keep, from, given, x, y);
  }

  lemma GoodEmpty(keep: iset<UserVar>, d: string, from: nat, given: Wanted)
    ensures Good([], keep, d, d, from, given, [])
  {
    CleanEmpty(keep, d);
  }

  lemma GoodDelimiter(keep: iset<UserVar>, d: string, d': string, from: nat, given: Wanted)
    ensures Good([Delimiter(d')], keep, d, d', from, given, [])
  {
    CleanDelimiter(keep, d, d');
    var items := [Delimiter(d')];
    NothingDone(items);
    forall server, s
      ensures Performs(server, items, s, [])
    {
      PerformsNothing(server, items, s);
    }
  }

  lemma GoodStatement(version: nat, a: Action, keep: iset<UserVar>, d: string, from: nat, given: Wanted)
    requires a.Other? || a.Create?
    ensures Good([Statement(version, [a], d)], keep, d, d, from, given, [Task(Deed(version, a), given)])
  {
    CleanStatement(version, a, keep, d);
    forall server: Server, s | Agrees(s, given)
      ensures Performs(server, [Statement(version, [a], d)], s, [Task(Deed(version, a), given)])
    {
      PerformsOne(server, version, a, d, s, given);
    }
  }

  /** What is good on some servers is so on newer ones. */
  lemma GoodLater(items: seq<Item>, keep: iset<UserVar>, d: string, d': string, from: nat, later: nat, given: Wanted,
                  tasks: seq<Task>)
    requires Good(items, keep, d, d', from, given, tasks) && from <= later
    ensures Good(items, keep, d, d', later, given, tasks)
  {
  }

  /** The given settings and, in their place, those a switch sets. */
  function Set(given: Wanted, pairs: Pairs, values: seq<string>): Wanted
    requires |values| <= |pairs|
  {
    if values == [] then given
    else
      var last := |values| - 1;
      Set(given, pairs, values[..last])[pairs[last].1 := values[last]]
  }

  lemma {:induction false} SetKeys(given: Wanted, pairs: Pairs, values: seq<string>, x: SysVar)
    requires |values| <= |pairs| && x in Set(given, pairs, values)
    ensures x !in Systems(pairs[..|values|]) ==> x in given && Set(given, pairs, values)[x] == given[x]
    decreases |values|
  {
    if values != [] {
      var last := |values| - 1;
      AllButLast(pairs[..|values|]);
      assert pairs[..|values|][..last] == pairs[..last];
      if x != pairs[last].1 {
        SetKeys(given, pairs, values[..last], x);
      }
    }
  }

  lemma {:induction false} SetValues(given: Wanted, pairs: Pairs, values: seq<string>, i: nat)
    requires |values| <= |pairs| && Distinct(pairs) && i < |values|
    ensures var m := Set(given, pairs, values); pairs[i].1 in m && m[pairs[i].1] == values[i]
    decreases |values|
  {
    var last := |values| - 1;
    if i < last {
      SetValues(given, pairs, values[..last], i);
      assert pairs[i].1 != pairs[last].1;
    }
  }

  lemma SwitchedAgrees(given: Wanted, pairs: Pairs, values: seq<string>, s: Session, t: Session)
    requires |values| <= |pairs| && Distinct(pairs) && Agrees(s, given) && Switched(pairs, values, s, t)
    ensures Agrees(t, Set(given, pairs, values))
  {
    var m := Set(given, pairs, values);
    forall x | x in m
      ensures t.sys(x) == m[x]
    {
      SetKeys(given, pairs, values, x);
      if x in Systems(pairs[..|values|]) {
        var i :| 0 <= i < |values| && pairs[..|values|][i].1 == x;
        SetValues(given, pairs, values, i);
      }
    }
  }

  lemma PerformsWithin(server: Server, front: seq<Item>, inner: seq<Item>, back: seq<Item>, s: Session, tasks: seq<Task>)
    requires Deeds(front) == [] && Deeds(back) == [] && Performs(server, inner, Run(server, front, s), tasks)
    ensures Performs(server, front + inner + back, s, tasks)
  {
    PerformsNothing(server, front, s);
    PerformsConcat(server, front, inner, s, [], tasks);
    PerformsNothing(server, back, Run(server, front + inner, s));
    assert [] + tasks == tasks && tasks + [] == tasks;
    PerformsConcat(server, front + inner, back, s, tasks, []);
  }

  /** Between a switch of settings and the switch back, statements run under the settings it makes. */
  lemma GoodWithin(front: seq<Item>, inner: seq<Item>, back: seq<Item>, version: nat, pairs: Pairs, values: seq<string>,
                   keep: iset<UserVar>, d: string, from: nat, given: Wanted, tasks: seq<Task>)
    requires |values| <= |pairs| && Distinct(pairs) && keep !! Users(pairs) && SqlNotes !in Systems(pairs)
    requires version <= from
    requires Switches(front, version, pairs, values, d) && SwitchesBack(back, version, pairs, d)
    requires Good(inner, keep + Users(pairs), d, d, from, Set(given, pairs, values), tasks)
    ensures Good(front + inner + back, keep, d, d, from, given, tasks)
  {
    CleanWithin(front, inner, back, version, pairs, values, keep, d);
    forall server: Server, s | from <= server.version && Agrees(s, given)
      ensures Performs(server, front + inner + back, s, tasks)
    {
      SwitchedAgrees(given, pairs, values, s, Run(server, front, s));
      PerformsWithin(server, front, inner, back, s, tasks);
    }
  }
}
