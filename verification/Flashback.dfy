/**
 Flashback: the events of a binary log are printed from the last to the first. Rows of one statement are
 held back until its last row arrives, then printed in reverse behind the statement's table maps; the
 outputs of statements and other events are held back until the end of the log and printed in reverse.
 */
module Flashback {

  /**
   A log event with payload `x`. A row event may carry the end-of-statement flag. `Immediate` is any event
   that is complete in itself, such as a transaction bracket.
   */
  datatype Event<X> = Map(x: X) | Row(x: X, end: bool) | Immediate(x: X)

  /**
   `cache` is the body cache shared by the events of a statement, `held` the row events of the statement
   being read, `outputs` the finished outputs in log order.
   */
  datatype State<X> = State(cache: seq<Event<X>>, held: seq<Event<X>>, outputs: seq<seq<Event<X>>>)

  function Reverse<T>(s: seq<T>): (r: seq<T>)
    ensures |r| == |s|
  {
    if s == [] then [] else Reverse(s[1..]) + [s[0]]
  }

  function Concat<T>(ss: seq<seq<T>>): seq<T> {
    if ss == [] then [] else ss[0] + Concat(ss[1..])
  }

  // ---------------------------------------------------------------------------------------------
  // One event
  // ---------------------------------------------------------------------------------------------

  function Feed<X>(st: State<X>, ev: Event<X>): State<X> {
    match ev
    case Map(_) => st.(cache := st.cache + [ev], held := [])
    case Immediate(_) => st.(outputs := st.outputs + [[ev]])
    case Row(x, end) =>
      var held := st.held + [Row(x, st.held == [])];
      if end then State([], [], st.outputs + [st.cache + Reverse(held)]) else st.(held := held)
  }

  function FeedAll<X>(st: State<X>, log: seq<Event<X>>): State<X>
    decreases |log|
  {
    if log == [] then st else FeedAll(Feed(st, log[0]), log[1..])
  }

  /** The outputs of a log, last first. */
  function Printed<X>(log: seq<Event<X>>): seq<Event<X>> {
    Concat(Reverse(FeedAll(State([], [], []), log).outputs))
  }

  lemma {:induction false} ConcatSnoc<T>(ss: seq<seq<T>>, s: seq<T>)
    ensures Concat(ss + [s]) == Concat(ss) + s
  {
    if ss == [] {
      assert ss + [s] == [s] && Concat([s]) == s + Concat([]);
    } else {
      assert (ss + [s])[1..] == ss[1..] + [s];
      ConcatSnoc(ss[1..], s);
    }
  }

  class Processor<X(==)> {
    var cache: seq<Event<X>>
    var held: seq<Event<X>>
    var outputs: seq<seq<Event<X>>>

    /** Of the rows held back exactly the first has the end flag: it will be printed last. */
    ghost predicate Valid()
      reads this
    {
      forall k :: 0 <= k < |held| ==> held[k].Row? && held[k].end == (k == 0)
    }

    ghost function St(): State<X>
      reads this
    {
      State(cache, held, outputs)
    }

    constructor ()
      ensures Valid() && St() == State([], [], [])
    {
      cache, held, outputs := [], [], [];
    }

    /** Printing a row adds to the cache; a row with the end flag takes the whole cache as its output. */
    method PrintRow(e: Event<X>) returns (output: seq<Event<X>>)
      requires e.Row?
      modifies this`cache
      ensures if e.end then output == old(cache) + [e] && cache == [] else output == [] && cache == old(cache) + [e]
    {
      cache := cache + [e];
      output := [];
      if e.end {
        output, cache := cache, [];
      }
    }

    /** Prints the rows held back from the last to the first; the first takes the output of them all. */
    method PrintHeld() returns (output: seq<Event<X>>)
      requires Valid() && held != []
      modifies this`cache
      ensures cache == [] && output == old(cache) + Reverse(held)
    {
      var i := |held|;
      output := [];
      assert held[|held|..] == [];
      while i > 0
        invariant 0 <= i <= |held|
        invariant i > 0 ==> cache == old(cache) + Reverse(held[i..])
        invariant i == 0 ==> cache == [] && output == old(cache) + Reverse(held)
      {
        i := i - 1;
        assert held[i..][1..] == held[i + 1..];
        assert Reverse(held[i..]) == Reverse(held[i + 1..]) + [held[i]];
        assert held[0..] == held;
        output := PrintRow(held[i]);
      }
    }

    /** The flashback part of `process_event`. */
    method Process(ev: Event<X>)
      requires Valid()
      modifies this
      ensures Valid() && St() == Feed(old(St()), ev)
    {
      match ev
      case Map(_) =>
        cache, held := cache + [ev], [];
      case Immediate(_) =>
        outputs := outputs + [[ev]];
      case Row(x, end) =>
        var e := ev;
        if end {
          e := e.(end := false);
        }
        if held == [] {
          e := e.(end := true);
        }
        held := held + [e];
        if end {
          var output := PrintHeld();
          outputs, held := outputs + [output], [];
        }
    }

    /** A whole run: every event is processed, then the outputs are printed from the last to the first. */
    method Run(log: seq<Event<X>>) returns (out: seq<Event<X>>)
      requires Valid() && St() == State([], [], [])
      modifies this
      ensures out == Printed(log)
    {
      var n := 0;
      while n < |log|
        invariant n <= |log| && Valid()
        invariant FeedAll(St(), log[n..]) == FeedAll(State([], [], []), log)
      {
        assert log[n..][1..] == log[n + 1..];
        Process(log[n]);
        n := n + 1;
      }
      out := [];
      var i := |outputs|;
      assert outputs[|outputs|..] == [];
      while i > 0
        invariant 0 <= i <= |outputs| && St() == FeedAll(State([], [], []), log)
        invariant out == Concat(Reverse(outputs[i..]))
      {
        i := i - 1;
        assert outputs[i..][1..] == outputs[i + 1..];
        ConcatSnoc(Reverse(outputs[i + 1..]), outputs[i]);
        out := out + outputs[i];
      }
      assert outputs[0..] == outputs;
    }
  }

  // ---------------------------------------------------------------------------------------------
  // Well-formed logs
  // ---------------------------------------------------------------------------------------------

  /** A log is a series of single events and of statements: table maps, then at least one row. */
  datatype Item<X> = Single(x: X) | Statement(maps: seq<X>, rows: seq<X>)

  predicate WellFormed<X>(items: seq<Item<X>>) {
    forall k :: 0 <= k < |items| && items[k].Statement? ==> |items[k].rows| > 0
  }

  function Maps<X>(xs: seq<X>): seq<Event<X>> {
    seq(|xs|, k requires 0 <= k < |xs| => Map(xs[k]))
  }

  /** Rows of a statement: the end flag on the last and on no other. */
  function Rows<X>(xs: seq<X>): seq<Event<X>> {
    seq(|xs|, k requires 0 <= k < |xs| => Row(xs[k], k == |xs| - 1))
  }

  function EncodeItem<X>(item: Item<X>): seq<Event<X>> {
    match item
    case Single(x) => [Immediate(x)]
    case Statement(maps, rows) => Maps(maps) + Rows(rows)
  }

  function Encode<X>(items: seq<Item<X>>): seq<Event<X>> {
    if items == [] then [] else EncodeItem(items[0]) + Encode(items[1..])
  }

  function FlashItem<X>(item: Item<X>): Item<X> {
    match item
    case Single(_) => item
    case Statement(maps, rows) => Statement(maps, Reverse(rows))
  }

  /** The two-level reversal: of the items, and of the rows within each. */
  function Flash<X>(items: seq<Item<X>>): seq<Item<X>> {
    if items == [] then [] else Flash(items[1..]) + [FlashItem(items[0])]
  }

  // ---------------------------------------------------------------------------------------------
  // The run prints the reversal
  // ---------------------------------------------------------------------------------------------

  /** Rows as they are held back: the flag on the first. */
  function Held<X>(xs: seq<X>): seq<Event<X>> {
    seq(|xs|, k requires 0 <= k < |xs| => Row(xs[k], k == 0))
  }

  lemma {:induction false} ReverseAt<T>(s: seq<T>, k: nat)
    requires k < |s|
    ensures Reverse(s)[k] == s[|s| - 1 - k]
  {
    if k < |s| - 1 {
      ReverseAt(s[1..], k);
    }
  }

  lemma ReverseHeld<X>(xs: seq<X>)
    ensures Reverse(Held(xs)) == Rows(Reverse(xs))
  {
    forall k | 0 <= k < |xs|
      ensures Reverse(Held(xs))[k] == Rows(Reverse(xs))[k]
    {
      ReverseAt(Held(xs), k);
      ReverseAt(xs, k);
    }
  }

  lemma {:induction false} FeedMaps<X>(st: State<X>, maps: seq<X>, rest: seq<Event<X>>)
    requires st.held == []
    ensures FeedAll(st, Maps(maps) + rest) == FeedAll(st.(cache := st.cache + Maps(maps)), rest)
    decreases |maps|
  {
    if maps == [] {
      assert Maps(maps) + rest == rest && st.cache + Maps(maps) == st.cache;
    } else {
      var log := Maps(maps) + rest;
      assert log[0] == Map(maps[0]) && log[1..] == Maps(maps[1..]) + rest;
      FeedMaps(Feed(st, log[0]), maps[1..], rest);
      assert st.cache + Maps(maps) == st.cache + [Map(maps[0])] + Maps(maps[1..]);
    }
  }

  /** The rows of a statement, `done` of them already held back. */
  lemma {:induction false} FeedRows<X>(cache: seq<Event<X>>, outputs: seq<seq<Event<X>>>, done: seq<X>, todo: seq<X>,
                                       rest: seq<Event<X>>)
    requires todo != []
    ensures FeedAll(State(cache, Held(done), outputs), Rows(todo) + rest)
         == FeedAll(State([], [], outputs + [cache + Rows(Reverse(done + todo))]), rest)
    decreases |todo|
  {
    var log := Rows(todo) + rest;
    var done' := done + [todo[0]];
    assert log[0] == Row(todo[0], |todo| == 1) && log[1..] == Rows(todo[1..]) + rest;
    assert Held(done) + [Row(todo[0], Held(done) == [])] == Held(done');
    if |todo| == 1 {
      assert done + todo == done' && Rows(todo[1..]) + rest == rest;
      ReverseHeld(done');
    } else {
      assert done + todo == done' + todo[1..];
      FeedRows(cache, outputs, done', todo[1..], rest);
    }
  }

  lemma FeedItem<X>(outputs: seq<seq<Event<X>>>, item: Item<X>, rest: seq<Event<X>>)
    requires item.Statement? ==> item.rows != []
    ensures FeedAll(State([], [], outputs), EncodeItem(item) + rest)
         == FeedAll(State([], [], outputs + [EncodeItem(FlashItem(item))]), rest)
  {
    match item
    case Single(x) =>
      assert ([Immediate(x)] + rest)[1..] == rest;
    case Statement(maps, rows) =>
      assert EncodeItem(item) + rest == Maps(maps) + (Rows(rows) + rest);
      FeedMaps(State([], [], outputs), maps, Rows(rows) + rest);
      assert [] + Maps(maps) == Maps(maps) && [] + rows == rows;
      assert Held<X>([]) == [];
      FeedRows(Maps(maps), outputs, [], rows, rest);
  }

  /** The outputs of a well-formed log followed by `rest`. */
  function Outputs<X>(items: seq<Item<X>>): seq<seq<Event<X>>> {
    if items == [] then [] else [EncodeItem(FlashItem(items[0]))] + Outputs(items[1..])
  }

  lemma {:induction false} FeedLog<X>(outputs: seq<seq<Event<X>>>, items: seq<Item<X>>, rest: seq<Event<X>>)
    requires WellFormed(items)
    ensures FeedAll(State([], [], outputs), Encode(items) + rest) == FeedAll(State([], [], outputs + Outputs(items)), rest)
    decreases |items|
  {
    if items == [] {
      assert Encode(items) + rest == rest && outputs + Outputs(items) == outputs;
    } else {
      var more := Encode(items[1..]) + rest;
      assert Encode(items) + rest == EncodeItem(items[0]) + more;
      FeedItem(outputs, items[0], more);
      var outputs' := outputs + [EncodeItem(FlashItem(items[0]))];
      FeedLog(outputs', items[1..], rest);
      assert outputs' + Outputs(items[1..]) == outputs + Outputs(items);
    }
  }

  lemma {:induction false} EncodeSnoc<X>(items: seq<Item<X>>, item: Item<X>)
    ensures Encode(items + [item]) == Encode(items) + EncodeItem(item)
  {
    if items == [] {
      assert items + [item] == [item] && [item][1..] == [];
      assert EncodeItem(item) + [] == [] + EncodeItem(item);
    } else {
      assert (items + [item])[1..] == items[1..] + [item];
      EncodeSnoc(items[1..], item);
    }
  }

  lemma {:induction false} PrintedOutputs<X>(items: seq<Item<X>>)
    ensures Concat(Reverse(Outputs(items))) == Encode(Flash(items))
  {
    if items != [] {
      var o := EncodeItem(FlashItem(items[0]));
      assert Outputs(items)[1..] == Outputs(items[1..]);
      PrintedOutputs(items[1..]);
      ConcatSnoc(Reverse(Outputs(items[1..])), o);
      EncodeSnoc(Flash(items[1..]), FlashItem(items[0]));
    }
  }

  /** An unfinished statement at the end of a log: maps and rows without the end flag. */
  predicate Unfinished<X>(tail: seq<Event<X>>) {
    forall k :: 0 <= k < |tail| ==> tail[k].Map? || (tail[k].Row? && !tail[k].end)
  }

  lemma {:induction false} UnfinishedPrintsNothing<X>(st: State<X>, tail: seq<Event<X>>)
    requires Unfinished(tail)
    ensures FeedAll(st, tail).outputs == st.outputs
    decreases |tail|
  {
    if tail != [] {
      UnfinishedPrintsNothing(Feed(st, tail[0]), tail[1..]);
    }
  }

  lemma {:induction false} FlashWellFormed<X>(items: seq<Item<X>>)
    requires WellFormed(items)
    ensures WellFormed(Flash(items))
  {
    if items != [] {
      FlashWellFormed(items[1..]);
    }
  }

  /**
   The printed events are the log with its items, and the rows of every statement, in reverse order. They
   form a log again: each statement's maps come first and the end flag is on its last row and no other.
   An unfinished statement at the end of the log is not printed.
   */
  lemma PrintsReversal<X>(items: seq<Item<X>>, tail: seq<Event<X>>)
    requires WellFormed(items) && Unfinished(tail)
    ensures Printed(Encode(items) + tail) == Encode(Flash(items))
    ensures WellFormed(Flash(items))
  {
    FeedLog([], items, tail);
    assert [] + Outputs(items) == Outputs(items);
    UnfinishedPrintsNothing(State([], [], Outputs(items)), tail);
    PrintedOutputs(items);
    FlashWellFormed(items);
  }

  // ---------------------------------------------------------------------------------------------
  // Twice gives the log back
  // ---------------------------------------------------------------------------------------------

  lemma {:induction false} ReverseConcat<T>(a: seq<T>, b: seq<T>)
    ensures Reverse(a + b) == Reverse(b) + Reverse(a)
  {
    if a == [] {
      assert a + b == b && Reverse(b) + Reverse(a) == Reverse(b);
    } else {
      assert (a + b)[1..] == a[1..] + b;
      ReverseConcat(a[1..], b);
    }
  }

  lemma ReverseTwice<T>(s: seq<T>)
    ensures Reverse(Reverse(s)) == s
  {
    forall k | 0 <= k < |s|
      ensures Reverse(Reverse(s))[k] == s[k]
    {
      ReverseAt(Reverse(s), k);
      ReverseAt(s, |s| - 1 - k);
    }
  }

  lemma {:induction false} FlashSnoc<X>(items: seq<Item<X>>, item: Item<X>)
    ensures Flash(items + [item]) == [FlashItem(item)] + Flash(items)
  {
    if items == [] {
      assert items + [item] == [item] && [item][1..] == [];
    } else {
      assert (items + [item])[1..] == items[1..] + [item];
      FlashSnoc(items[1..], item);
    }
  }

  lemma {:induction false} FlashTwice<X>(items: seq<Item<X>>)
    ensures Flash(Flash(items)) == items
  {
    if items != [] {
      FlashTwice(items[1..]);
      FlashSnoc(Flash(items[1..]), FlashItem(items[0]));
      if items[0].Statement? {
        ReverseTwice(items[0].rows);
      }
    }
  }

  /** Flashing back the flashback restores order and flags. */
  lemma FlashbackIsItsOwnInverse<X>(items: seq<Item<X>>)
    requires WellFormed(items)
    ensures Printed(Printed(Encode(items))) == Encode(items)
  {
    PrintsReversal(items, []);
    assert Encode(items) + [] == Encode(items);
    PrintsReversal(Flash(items), []);
    assert Encode(Flash(items)) + [] == Encode(Flash(items));
    FlashTwice(items);
  }

  /** The payloads of the row events of a log. */
  function RowsOf<X>(log: seq<Event<X>>): seq<X> {
    if log == [] then []
    else (if log[0].Row? then [log[0].x] else []) + RowsOf(log[1..])
  }

  lemma {:induction false} RowsOfConcat<X>(a: seq<Event<X>>, b: seq<Event<X>>)
    ensures RowsOf(a + b) == RowsOf(a) + RowsOf(b)
  {
    if a == [] {
      assert a + b == b;
    } else {
      var first := if a[0].Row? then [a[0].x] else [];
      assert (a + b)[0] == a[0] && (a + b)[1..] == a[1..] + b;
      RowsOfConcat(a[1..], b);
      assert first + (RowsOf(a[1..]) + RowsOf(b)) == first + RowsOf(a[1..]) + RowsOf(b);
    }
  }

  lemma {:induction false} RowsOfMaps<X>(xs: seq<X>)
    ensures RowsOf(Maps(xs)) == []
  {
    if xs != [] {
      assert Maps(xs)[1..] == Maps(xs[1..]);
      RowsOfMaps(xs[1..]);
    }
  }

  lemma {:induction false} RowsOfRows<X>(xs: seq<X>)
    ensures RowsOf(Rows(xs)) == xs
  {
    if xs != [] {
      assert Rows(xs)[1..] == Rows(xs[1..]);
      RowsOfRows(xs[1..]);
    }
  }

  lemma RowsOfItem<X>(item: Item<X>)
    ensures RowsOf(EncodeItem(item)) == if item.Statement? then item.rows else []
  {
    match item
    case Single(x) => assert [Immediate(x)][1..] == [];
    case Statement(maps, rows) =>
      RowsOfConcat(Maps(maps), Rows(rows));
      RowsOfMaps(maps);
      RowsOfRows(rows);
  }

  lemma {:induction false} RowsOfFlash<X>(items: seq<Item<X>>)
    ensures RowsOf(Encode(Flash(items))) == Reverse(RowsOf(Encode(items)))
  {
    if items != [] {
      var item, rest := items[0], items[1..];
      RowsOfFlash(rest);
      EncodeSnoc(Flash(rest), FlashItem(item));
      RowsOfConcat(Encode(Flash(rest)), EncodeItem(FlashItem(item)));
      RowsOfConcat(EncodeItem(item), Encode(rest));
      RowsOfItem(item);
      RowsOfItem(FlashItem(item));
      ReverseConcat(RowsOf(EncodeItem(item)), RowsOf(Encode(rest)));
    }
  }

  /** The printed row events are exactly those read, in reverse order. */
  lemma RowsAreReversed<X>(items: seq<Item<X>>)
    requires WellFormed(items)
    ensures RowsOf(Printed(Encode(items))) == Reverse(RowsOf(Encode(items)))
  {
    PrintsReversal(items, []);
    assert Encode(items) + [] == Encode(items);
    RowsOfFlash(items);
  }
}
