/** Extended INSERT output: rows are packed greedily into statements that stay below the network buffer. */
module InsertBatch {

  type Row = string

  // ---------------------------------------------------------------------------------------------
  // Statements and their sizes
  // ---------------------------------------------------------------------------------------------

  function JoinRows(rows: seq<Row>): string {
    if rows == [] then ""
    else if |rows| == 1 then rows[0]
    else JoinRows(rows[..|rows| - 1]) + "," + rows[|rows| - 1]
  }

  /** One statement: the pattern, the rows with commas between, one terminator. */
  function Render(pattern: string, rows: seq<Row>): string {
    pattern + JoinRows(rows) + ";\n"
  }

  function RenderAll(pattern: string, batches: seq<seq<Row>>): string {
    if batches == [] then ""
    else RenderAll(pattern, batches[..|batches| - 1]) + Render(pattern, batches[|batches| - 1])
  }

  function Flatten(batches: seq<seq<Row>>): seq<Row> {
    if batches == [] then [] else Flatten(batches[..|batches| - 1]) + batches[|batches| - 1]
  }

  /** What the running total charges for the rows of a statement: two bytes more than each row has. */
  function RowCharge(rows: seq<Row>): nat {
    if rows == [] then 0 else RowCharge(rows[..|rows| - 1]) + 2 + |rows[|rows| - 1]|
  }

  function Charge(pattern: string, rows: seq<Row>): nat {
    |pattern| + 4 + RowCharge(rows)
  }

  /** A statement is nonempty, and one with two or more rows stays below the limit. */
  predicate Fits(pattern: string, limit: nat, batch: seq<Row>) {
    batch != [] && (|batch| > 1 ==> Charge(pattern, batch) < limit)
  }

  /** Every statement fits, and no first row could have joined the statement before its own. */
  predicate Packed(pattern: string, limit: nat, batches: seq<seq<Row>>) {
    batches == [] ||
    var before, last := batches[..|batches| - 1], batches[|batches| - 1];
    && Fits(pattern, limit, last) && Packed(pattern, limit, before)
    && (before != [] ==> Charge(pattern, before[|before| - 1]) + 2 + |last[0]| >= limit)
  }

  // ---------------------------------------------------------------------------------------------
  // The row loop
  // ---------------------------------------------------------------------------------------------

  lemma FlattenSnoc(batches: seq<seq<Row>>, last: seq<Row>)
    ensures Flatten(batches + [last]) == Flatten(batches) + last
  {
    assert (batches + [last])[..|batches|] == batches;
  }

  lemma RenderSnoc(pattern: string, batches: seq<seq<Row>>, last: seq<Row>)
    ensures RenderAll(pattern, batches + [last]) == RenderAll(pattern, batches) + Render(pattern, last)
  {
    assert (batches + [last])[..|batches|] == batches;
  }

  lemma JoinSnoc(rows: seq<Row>, row: Row)
    ensures JoinRows(rows + [row]) == if rows == [] then row else JoinRows(rows) + "," + row
    ensures RowCharge(rows + [row]) == RowCharge(rows) + 2 + |row|
  {
    assert (rows + [row])[..|rows|] == rows;
  }

  lemma PackedSnoc(pattern: string, limit: nat, batches: seq<seq<Row>>, last: seq<Row>)
    ensures Packed(pattern, limit, batches + [last]) <==>
      && Fits(pattern, limit, last) && Packed(pattern, limit, batches)
      && (batches != [] ==> Charge(pattern, batches[|batches| - 1]) + 2 + |last[0]| >= limit)
  {
    assert (batches + [last])[..|batches|] == batches;
  }

  /** The rows so far, in closed statements and an open one that is still to be terminated. */
  ghost predicate Progress(pattern: string, limit: nat, rows: seq<Row>, closed: seq<seq<Row>>, open: seq<Row>,
                           out: string)
  {
    && open != [] && Packed(pattern, limit, closed + [open]) && Flatten(closed) + open == rows
    && out == RenderAll(pattern, closed) + pattern + JoinRows(open)
  }

  lemma JoinsOpen(pattern: string, limit: nat, rows: seq<Row>, closed: seq<seq<Row>>, open: seq<Row>, out: string, row: Row)
    requires Progress(pattern, limit, rows, closed, open, out) && Charge(pattern, open) + 2 + |row| < limit
    ensures Progress(pattern, limit, rows + [row], closed, open + [row], out + "," + row)
    ensures Charge(pattern, open + [row]) == Charge(pattern, open) + 2 + |row|
  {
    JoinSnoc(open, row);
    PackedSnoc(pattern, limit, closed, open);
    PackedSnoc(pattern, limit, closed, open + [row]);
    assert (open + [row])[0] == open[0];
    assert Flatten(closed) + (open + [row]) == rows + [row];
    var r := RenderAll(pattern, closed) + pattern;
    assert r + (JoinRows(open) + "," + row) == r + JoinRows(open) + "," + row;
  }

  lemma StartsNew(pattern: string, limit: nat, rows: seq<Row>, closed: seq<seq<Row>>, open: seq<Row>, out: string, row: Row)
    requires Progress(pattern, limit, rows, closed, open, out) && Charge(pattern, open) + 2 + |row| >= limit
    ensures Progress(pattern, limit, rows + [row], closed + [open], [row], out + ";\n" + pattern + row)
  {
    FlattenSnoc(closed, open);
    RenderSnoc(pattern, closed, open);
    PackedSnoc(pattern, limit, closed + [open], [row]);
    var r := RenderAll(pattern, closed);
    assert r + (pattern + JoinRows(open) + ";\n") == r + pattern + JoinRows(open) + ";\n";
  }

  lemma FirstRow(pattern: string, limit: nat, row: Row)
    ensures Progress(pattern, limit, [row], [], [row], pattern + row)
  {
    PackedSnoc(pattern, limit, [], [row]);
    assert "" + pattern + row == pattern + row;
  }

  lemma ChargeOne(pattern: string, row: Row)
    ensures Charge(pattern, [row]) == |pattern| + 4 + 2 + |row|
  {
    JoinSnoc([], row);
    assert [] + [row] == [row];
  }

  /** The output is that of all the rows, in order, packed into statements. */
  ghost predicate Prints(out: string, pattern: string, limit: nat, rows: seq<Row>) {
    exists batches :: Flatten(batches) == rows && Packed(pattern, limit, batches) && out == RenderAll(pattern, batches)
  }

  lemma Terminated(pattern: string, limit: nat, rows: seq<Row>, closed: seq<seq<Row>>, open: seq<Row>, out: string)
    requires Progress(pattern, limit, rows, closed, open, out)
    ensures Prints(out + ";\n", pattern, limit, rows)
  {
    var batches := closed + [open];
    FlattenSnoc(closed, open);
    RenderSnoc(pattern, closed, open);
    var r := RenderAll(pattern, closed);
    assert r + pattern + JoinRows(open) + ";\n" == r + Render(pattern, open);
    assert out + ";\n" == RenderAll(pattern, batches);
  }

  lemma NothingPrinted(pattern: string, limit: nat)
    ensures Prints("", pattern, limit, [])
  {
    assert Flatten([]) == [] && Packed(pattern, limit, []) && RenderAll(pattern, []) == "";
  }

  /** The row loop of `dump_table`: `total` is the running total, `rowBreak` says a statement is open. */
  method DumpRows(pattern: string, rows: seq<Row>, limit: nat) returns (out: string)
    ensures Prints(out, pattern, limit, rows)
  {
    var total, rowBreak, n := limit, false, 0;
    out := "";
    ghost var closed, open := [], [];
    while n < |rows|
      invariant n <= |rows| && (!rowBreak ==> n == 0 && out == "" && total == limit)
      invariant rowBreak ==> Progress(pattern, limit, rows[..n], closed, open, out) && total == Charge(pattern, open)
    {
      var row := rows[n];
      var rowLength := 2 + |row|;
      assert rows[..n + 1] == rows[..n] + [row];
      if total + rowLength < limit {
        JoinsOpen(pattern, limit, rows[..n], closed, open, out, row);
        open := open + [row];
        total := total + rowLength;
        out := out + "," + row;
      } else {
        ChargeOne(pattern, row);
        if rowBreak {
          StartsNew(pattern, limit, rows[..n], closed, open, out, row);
          closed, open := closed + [open], [row];
          out := out + ";\n";
        } else {
          FirstRow(pattern, limit, row);
          closed, open := [], [row];
          assert rows[..n + 1] == [row] && out + pattern + row == pattern + row;
        }
        rowBreak := true;
        out := out + pattern + row;
        total := rowLength + |pattern| + 4;
      }
      n := n + 1;
    }
    assert rows[..n] == rows;
    if rowBreak {
      Terminated(pattern, limit, rows, closed, open, out);
      out := out + ";\n";
    } else {
      NothingPrinted(pattern, limit);
    }
  }

  // ---------------------------------------------------------------------------------------------
  // Sizes, and why there is only one such packing
  // ---------------------------------------------------------------------------------------------

  lemma {:induction false} JoinLength(rows: seq<Row>)
    requires rows != []
    ensures |JoinRows(rows)| + |rows| + 1 == RowCharge(rows)
  {
    if |rows| == 1 {
      assert rows[..0] == [];
    } else {
      JoinLength(rows[..|rows| - 1]);
    }
  }

  lemma {:induction false} EveryBatchFits(pattern: string, limit: nat, batches: seq<seq<Row>>, k: nat)
    requires Packed(pattern, limit, batches) && k < |batches|
    ensures Fits(pattern, limit, batches[k])
  {
    if k < |batches| - 1 {
      EveryBatchFits(pattern, limit, batches[..|batches| - 1], k);
    }
  }

  /** A statement with two or more rows is shorter, in bytes, than the network buffer. */
  lemma StatementsAreShort(pattern: string, limit: nat, batches: seq<seq<Row>>, k: nat)
    requires Packed(pattern, limit, batches) && k < |batches|
    ensures batches[k] != [] && (|batches[k]| > 1 ==> |Render(pattern, batches[k])| < limit)
  {
    EveryBatchFits(pattern, limit, batches, k);
    JoinLength(batches[k]);
  }

  /** The batches without the last row. */
  function Shrink(batches: seq<seq<Row>>): seq<seq<Row>>
    requires batches != [] && batches[|batches| - 1] != []
  {
    var before, last := batches[..|batches| - 1], batches[|batches| - 1];
    if |last| == 1 then before else before + [last[..|last| - 1]]
  }

  lemma ShrinkPacked(pattern: string, limit: nat, batches: seq<seq<Row>>)
    requires batches != [] && Packed(pattern, limit, batches)
    ensures var rows := Flatten(batches);
      rows != [] && Packed(pattern, limit, Shrink(batches)) && Flatten(Shrink(batches)) == rows[..|rows| - 1]
  {
    var before, last := batches[..|batches| - 1], batches[|batches| - 1];
    var rows := Flatten(batches);
    if |last| == 1 {
      assert rows[..|rows| - 1] == Flatten(before);
    } else {
      var less := last[..|last| - 1];
      PackedSnoc(pattern, limit, before, less);
      FlattenSnoc(before, less);
      assert less[0] == last[0];
    }
  }

  /** Where one more row goes: into the last statement if it fits there, else into a new one. */
  function Place(pattern: string, limit: nat, batches: seq<seq<Row>>, row: Row): seq<seq<Row>> {
    if batches != [] && Charge(pattern, batches[|batches| - 1]) + 2 + |row| < limit
    then batches[..|batches| - 1] + [batches[|batches| - 1] + [row]]
    else batches + [[row]]
  }

  lemma PlacedAlone(pattern: string, limit: nat, before: seq<seq<Row>>, row: Row)
    requires Packed(pattern, limit, before + [[row]])
    ensures Place(pattern, limit, before, row) == before + [[row]]
  {
    PackedSnoc(pattern, limit, before, [row]);
  }

  lemma PlacedInLast(pattern: string, limit: nat, before: seq<seq<Row>>, less: seq<Row>, row: Row)
    requires less != [] && Packed(pattern, limit, before + [less + [row]])
    ensures Place(pattern, limit, before + [less], row) == before + [less + [row]]
  {
    PackedSnoc(pattern, limit, before, less + [row]);
    JoinSnoc(less, row);
    assert (before + [less])[..|before|] == before;
  }

  /** Every packing places its last row that way. */
  lemma LastRowForced(pattern: string, limit: nat, batches: seq<seq<Row>>)
    requires batches != [] && Packed(pattern, limit, batches)
    ensures var rows := Flatten(batches);
      rows != [] && batches == Place(pattern, limit, Shrink(batches), rows[|rows| - 1])
  {
    var before, last := batches[..|batches| - 1], batches[|batches| - 1];
    var less, row := last[..|last| - 1], last[|last| - 1];
    assert batches == before + [last] && last == less + [row];
    FlattenSnoc(before, last);
    if |last| == 1 {
      PlacedAlone(pattern, limit, before, row);
    } else {
      PlacedInLast(pattern, limit, before, less, row);
    }
  }

  /** There is only one way to pack the rows like this. */
  lemma {:induction false} PackingIsUnique(pattern: string, limit: nat, b1: seq<seq<Row>>, b2: seq<seq<Row>>)
    requires Packed(pattern, limit, b1) && Packed(pattern, limit, b2) && Flatten(b1) == Flatten(b2)
    ensures b1 == b2
    decreases |Flatten(b1)|
  {
    if b1 != [] && b2 != [] {
      ShrinkPacked(pattern, limit, b1);
      ShrinkPacked(pattern, limit, b2);
      PackingIsUnique(pattern, limit, Shrink(b1), Shrink(b2));
      LastRowForced(pattern, limit, b1);
      LastRowForced(pattern, limit, b2);
    } else if b1 != [] {
      ShrinkPacked(pattern, limit, b1);
    } else if b2 != [] {
      ShrinkPacked(pattern, limit, b2);
    }
  }
}
