/**
 The dump's rewriting of a CREATE statement that hides its DEFINER clause from servers too old to know it, and the
 choice of a delimiter for the statement.
 */
module Definer {
  import opened Text
  import opened Wrappers

  /** The sort order of a single-byte collation: characters of equal weight are equal to it. */
  type Weights = char -> nat

  // ---------------------------------------------------------------------------------------------------------------
  // Finding the clause
  // ---------------------------------------------------------------------------------------------------------------

  predicate MatchesAt(w: Weights, s: string, i: nat, token: string) {
    i + |token| <= |s| && forall k :: 0 <= k < |token| ==> w(s[i + k]) == w(token[k])
  }

  /** The first place at or after `i` where `token` stands in `s`, whatever the case of its letters. */
  function Instr(w: Weights, s: string, token: string, i: nat): (r: Option<nat>)
    requires i <= |s|
    ensures r.Some? ==> i <= r.value <= |s| && MatchesAt(w, s, r.value, token)
    ensures forall k :: i <= k < (if r.Some? then r.value else |s| + 1) ==> !MatchesAt(w, s, k, token)
    decreases |s| - i
  {
    if MatchesAt(w, s, i, token) then Some(i)
    else if i == |s| then None
    else Instr(w, s, token, i + 1)
  }

  const DEFINER := " DEFINER"

  /** The clause runs from the first " DEFINER" up to the first keyword from there on. */
  function Clause(w: Weights, s: string, keyword: string): (r: Option<(nat, nat)>)
    ensures r.Some? ==>
              var (b, e) := r.value;
              && b <= e <= |s| && MatchesAt(w, s, b, DEFINER) && MatchesAt(w, s, e, keyword)
              && (forall k :: 0 <= k < b ==> !MatchesAt(w, s, k, DEFINER))
              && forall k :: b <= k < e ==> !MatchesAt(w, s, k, keyword)
    ensures r.None? ==>
              forall b, e :: 0 <= b <= e <= |s| ==> !(MatchesAt(w, s, b, DEFINER) && MatchesAt(w, s, e, keyword))
  {
    var b := Instr(w, s, DEFINER, 0);
    if b.None? then None else
      var e := Instr(w, s, keyword, b.value);
      if e.None? then None else Some((b.value, e.value))
  }

  const MARK := "*/ /*!"

  /** `s` with a mark and a version before the clause at `b` and after its end at `e`. */
  function Covered(s: string, b: nat, e: nat, before: string, after: string): string
    requires b <= e <= |s|
  {
    s[..b] + (MARK + before) + s[b..e] + (MARK + after) + s[e..]
  }

  // ---------------------------------------------------------------------------------------------------------------
  // Building the covered statement
  // ---------------------------------------------------------------------------------------------------------------

  /** `strnmov`: copies `text` to index `at` and returns the index after it. */
  method Move(to: array<char>, at: nat, text: string) returns (next: nat)
    requires at + |text| <= to.Length
    modifies to
    ensures next == at + |text|
    ensures to[..next] == old(to[..at]) + text
  {
    next := at;
    while next < at + |text|
      invariant at <= next <= at + |text|
      invariant forall k :: 0 <= k < at ==> to[k] == old(to[k])
      invariant forall k :: at <= k < next ==> to[k] == text[k - at]
    {
      to[next] := text[next - at];
      next := next + 1;
    }
  }

  lemma Regrouped(x: string, before: string, y: string, after: string, z: string)
    ensures [] + x + MARK + before + y + MARK + after + z == x + (MARK + before) + y + (MARK + after) + z
  {
    assert [] + x == x;
    assert x + MARK + before == x + (MARK + before);
    var t := x + (MARK + before) + y;
    assert t + MARK + after == t + (MARK + after);
  }

  /**
   The statement is rebuilt in a buffer 23 bytes longer than it: two marks of six, two versions of five and the
   terminator fill the buffer to its last byte.
   */
  method CoverDefiner(w: Weights, s: string, before: string, after: string, keyword: string)
    returns (query: array?<char>)
    requires |before| == |after| == 5
    ensures query == null <==> Clause(w, s, keyword).None?
    ensures query != null ==> fresh(query) && query.Length == |s| + 23 && query[query.Length - 1] == NUL
    ensures query != null ==>
              var (b, e) := Clause(w, s, keyword).value;
              query[..query.Length - 1] == Covered(s, b, e, before, after)
  {
    var begin := Instr(w, s, DEFINER, 0);
    if begin.None? {
      return null;
    }
    var b := begin.value;
    var end := Instr(w, s, keyword, b);
    if end.None? {
      return null;
    }
    var e := end.value;
    query := new char[|s| + 23];
    var at := Move(query, 0, s[..b]);
    at := Move(query, at, MARK);
    at := Move(query, at, before);
    at := Move(query, at, s[b..e]);
    at := Move(query, at, MARK);
    at := Move(query, at, after);
    at := Move(query, at, s[e..]);
    ghost var text := query[..at];
    Regrouped(s[..b], before, s[b..e], after, s[e..]);
    query[at] := NUL;
    assert query[..at] == text;
  }

  /** Taking the two marks out again gives the statement back. */
  lemma UncoveredIsOriginal(s: string, b: nat, e: nat, before: string, after: string)
    requires b <= e <= |s| && |before| == |after| == 5
    ensures var t := Covered(s, b, e, before, after);
            |t| == |s| + 22 && t[..b] + t[b + 11..e + 11] + t[e + 22..] == s
  {
  }

  // ---------------------------------------------------------------------------------------------------------------
  // What a server makes of it
  // ---------------------------------------------------------------------------------------------------------------

  function Digit(c: char): nat {
    if '0' <= c <= '9' then c as nat - '0' as nat else 0
  }

  function Number(t: string): nat {
    if t == "" then 0 else 10 * Number(t[..|t| - 1]) + Digit(t[|t| - 1])
  }

  /** The text a server of a given version runs: a versioned comment counts from its version on, and is blank before. */
  function Runs(version: nat, t: string): string
    decreases |t|
  {
    if |t| >= 8 && t[0] == '/' && t[1] == '*' && t[2] == '!' then
      RunsComment(version, Number(t[3..8]) <= version, t[8..])
    else if t == "" then "" else [t[0]] + Runs(version, t[1..])
  }

  function RunsComment(version: nat, counts: bool, t: string): string
    decreases |t|
  {
    if t == "" then ""
    else if |t| >= 2 && t[0] == '*' && t[1] == '/' then Runs(version, t[2..])
    else (if counts then [t[0]] else "") + RunsComment(version, counts, t[1..])
  }

  predicate Closes(t: string, i: int) {
    0 <= i && i + 1 < |t| && t[i] == '*' && t[i + 1] == '/'
  }

  lemma {:induction false} CommentRuns(version: nat, counts: bool, x: string, rest: string)
    requires forall i :: 0 <= i < |x| ==> !Closes(x, i)
    ensures RunsComment(version, counts, x + "*/" + rest) == (if counts then x else "") + Runs(version, rest)
    decreases |x|
  {
    var t := x + "*/" + rest;
    if x == "" {
      assert t[2..] == rest;
    } else {
      assert t[0] == x[0] && (|x| > 1 ==> t[1] == x[1]) && (|x| == 1 ==> t[1] == '*');
      assert !Closes(x, 0);
      assert t[1..] == x[1..] + "*/" + rest;
      forall i | 0 <= i < |x[1..]|
        ensures !Closes(x[1..], i)
      {
        assert !Closes(x, i + 1);
      }
      CommentRuns(version, counts, x[1..], rest);
      if counts {
        assert [x[0]] + (x[1..] + Runs(version, rest)) == x + Runs(version, rest);
      }
    }
  }

  lemma OpenRuns(version: nat, v: string, rest: string)
    requires |v| == 5
    ensures Runs(version, "/*!" + v + rest) == RunsComment(version, Number(v) <= version, rest)
  {
    var t := "/*!" + v + rest;
    assert t[3..8] == v && t[8..] == rest;
  }

  lemma BlankRuns(version: nat, rest: string)
    ensures Runs(version, " " + rest) == " " + Runs(version, rest)
  {
    var t := " " + rest;
    assert t[0] == ' ' && t[1..] == rest;
  }

  /** One piece of the covered statement: a versioned comment and the blank after it. */
  lemma PieceRuns(version: nat, v: string, x: string, rest: string)
    requires |v| == 5 && forall i :: 0 <= i < |x| ==> !Closes(x, i)
    ensures Runs(version, "/*!" + v + x + "*/ " + rest)
         == (if Number(v) <= version then x else "") + " " + Runs(version, rest)
  {
    var counts := Number(v) <= version;
    assert "/*!" + v + x + "*/ " + rest == "/*!" + v + (x + "*/" + (" " + rest));
    OpenRuns(version, v, x + "*/" + (" " + rest));
    CommentRuns(version, counts, x, " " + rest);
    BlankRuns(version, rest);
    var y := if counts then x else "";
    assert y + (" " + Runs(version, rest)) == y + " " + Runs(version, rest);
  }

  /** The statement as printed: in a comment of its own version, with a blank before the delimiter. */
  function Printed(version: string, text: string): string {
    "/*!" + version + " " + text + " */ "
  }

  ghost predicate NoClose(s: string) {
    forall i :: 0 <= i < |s| ==> !Closes(s, i)
  }

  lemma SliceHasNoClose(s: string, i: nat, j: nat)
    requires NoClose(s) && i <= j <= |s|
    ensures NoClose(s[i..j])
  {
    forall k | 0 <= k < |s[i..j]|
      ensures !Closes(s[i..j], k)
    {
      assert !Closes(s, i + k);
    }
  }

  lemma BlanksDoNotClose(s: string)
    requires NoClose(s)
    ensures NoClose(" " + s) && NoClose(s + " ")
  {
    forall k | 0 <= k < |s| + 1
      ensures !Closes(" " + s, k) && !Closes(s + " ", k)
    {
      assert 0 < k ==> !Closes(s, k - 1);
      assert k < |s| ==> !Closes(s, k);
    }
  }

  lemma LastPiece(y: string, after: string, z: string)
    ensures y + (MARK + after) + z + " */ " == y + "*/ " + ("/*!" + after + (z + " ") + "*/ " + "")
  {
    assert MARK + after == "*/ " + ("/*!" + after);
  }

  lemma FirstPieces(x: string, before: string, after: string, y: string, last: string)
    ensures "/*!" + after + " " + (x + (MARK + before) + (y + "*/ " + last))
         == "/*!" + after + (" " + x) + "*/ " + ("/*!" + before + y + "*/ " + last)
  {
    assert MARK + before == "*/ " + ("/*!" + before);
  }

  lemma Associates(x: string, m1: string, y: string, m2: string, z: string, end: string)
    ensures x + m1 + y + m2 + z + end == x + m1 + (y + m2 + z + end)
  {
  }

  /** The printed statement is three versioned comments in a row. */
  lemma ThreePieces(s: string, b: nat, e: nat, before: string, after: string)
    requires b <= e <= |s|
    ensures Printed(after, Covered(s, b, e, before, after))
         == "/*!" + after + (" " + s[..b]) + "*/ " + ("/*!" + before + s[b..e] + "*/ "
          + ("/*!" + after + (s[e..] + " ") + "*/ " + ""))
  {
    var x, y, z := s[..b], s[b..e], s[e..];
    var m1, m2 := MARK + before, MARK + after;
    var last := "/*!" + after + (z + " ") + "*/ " + "";
    LastPiece(y, after, z);
    Associates(x, m1, y, m2, z, " */ ");
    FirstPieces(x, before, after, y, last);
  }

  /**
   What the covering is for: a server that knows the clause runs the whole statement, one that knows only the
   statement runs it without the clause, and an older one runs nothing. (The text must not close the comment itself.)
   */
  lemma CoveredRuns(version: nat, s: string, b: nat, e: nat, before: string, after: string)
    requires b <= e <= |s| && |before| == |after| == 5 && NoClose(s)
    ensures Runs(version, Printed(after, Covered(s, b, e, before, after)))
         == (if Number(after) <= version then " " + s[..b] else "") + " "
          + ((if Number(before) <= version then s[b..e] else "") + " "
          + ((if Number(after) <= version then s[e..] + " " else "") + " "))
  {
    ThreePieces(s, b, e, before, after);
    SliceHasNoClose(s, 0, b);
    SliceHasNoClose(s, b, e);
    SliceHasNoClose(s, e, |s|);
    BlanksDoNotClose(s[..b]);
    assert s[e..] == s[e..|s|];
    BlanksDoNotClose(s[e..]);
    var last := "/*!" + after + (s[e..] + " ") + "*/ " + "";
    PieceRuns(version, after, s[e..] + " ", "");
    var mid := "/*!" + before + s[b..e] + "*/ " + last;
    PieceRuns(version, before, s[b..e], last);
    PieceRuns(version, after, " " + s[..b], mid);
  }

  // ---------------------------------------------------------------------------------------------------------------
  // The delimiter
  // ---------------------------------------------------------------------------------------------------------------

  const INT_MAX: int := 0x7fff_ffff

  /** `Overflow`: the loop counted its bound past the largest `int`, which C leaves undefined. */
  datatype Choice = Chosen(delimiter: string) | NoRoom | Overflow

  function Choose(query: string, maxSize: int): Choice {
    if maxSize <= 2 then NoRoom else if Occurs(";;", query) then Overflow else Chosen(";;")
  }

  /** The delimiter under trial never changes: the loop counts up its own bound instead of the trial's length. */
  method CreateDelimiter(query: string, maxSize: int) returns (r: Choice)
    requires maxSize <= INT_MAX
    ensures r == Choose(query, maxSize)
  {
    var max := maxSize;
    while 2 < max
      invariant maxSize <= max <= INT_MAX
      invariant max > maxSize ==> maxSize > 2 && Occurs(";;", query)
      decreases INT_MAX - max
    {
      if !Occurs(";;", query) {
        return Chosen(";;");
      }
      if max == INT_MAX {
        return Overflow;
      }
      max := max + 1;
    }
    return NoRoom;
  }

  function Semicolons(n: nat): string {
    seq(n, _ => ';')
  }

  /** Some run of semicolons that fits the buffer is not in the text: then a delimiter should be found. */
  ghost predicate HasDelimiter(query: string, maxSize: int) {
    exists n :: 2 <= n < maxSize && !Occurs(Semicolons(n), query)
  }

  lemma StartsAtEach(s: string, i: nat, d: string)
    ensures StartsAt(s, i, d) <==> i + |d| <= |s| && forall k :: 0 <= k < |d| ==> s[i + k] == d[k]
  {
    if i + |d| <= |s| && forall k :: 0 <= k < |d| ==> s[i + k] == d[k] {
      assert s[i..i + |d|] == d;
    }
    if StartsAt(s, i, d) {
      forall k | 0 <= k < |d|
        ensures s[i + k] == d[k]
      {
        assert s[i..i + |d|][k] == d[k];
      }
    }
  }

  lemma ShorterRunOccurs(query: string, m: nat, n: nat)
    requires m <= n && Occurs(Semicolons(n), query)
    ensures Occurs(Semicolons(m), query)
  {
    var i: nat :| i <= |query| && StartsAt(query, i, Semicolons(n));
    StartsAtEach(query, i, Semicolons(n));
    StartsAtEach(query, i, Semicolons(m));
  }

  /**
   The search keeps its promise exactly when the text holds no two semicolons in a row, or holds so many that no
   run in the buffer would do.
   */
  lemma DelimiterFoundIff(query: string, maxSize: int)
    ensures (HasDelimiter(query, maxSize) ==> Choose(query, maxSize).Chosen?)
       <==> maxSize <= 2 || !Occurs(";;", query) || Occurs(Semicolons(maxSize - 1), query)
  {
    assert Semicolons(2) == ";;";
    if maxSize > 2 && Occurs(Semicolons(maxSize - 1), query) {
      forall n | 2 <= n < maxSize
        ensures Occurs(Semicolons(n), query)
      {
        ShorterRunOccurs(query, n, maxSize - 1);
      }
    }
  }

  /** For example, two semicolons in the text defeat the search, though three would do. */
  lemma LongerDelimiterIsMissed()
    ensures HasDelimiter("a;;b", 1536) && Choose("a;;b", 1536) == Overflow
  {
    assert StartsAt("a;;b", 1, ";;");
    forall i | 0 <= i <= 4
      ensures !StartsAt("a;;b", i, Semicolons(3))
    {
      StartsAtEach("a;;b", i, Semicolons(3));
      if i <= 1 {
        var k := 2 * i;
        assert "a;;b"[i + k] != Semicolons(3)[k];
      }
    }
    assert !Occurs(Semicolons(3), "a;;b");
  }

  predicate Disjoint(d: string, m: string) {
    forall i, j :: 0 <= i < |d| && 0 <= j < |m| ==> d[i] != m[j]
  }

  lemma Overlaps(d: string, a: string, m: string, c: string, i: nat)
    requires StartsAt(a + m + c, i, d) && d != "" && m != "" && |a| < i + |d| && i < |a| + |m|
    ensures !Disjoint(d, m)
  {
    var t := a + m + c;
    StartsAtEach(t, i, d);
    var k := if i < |a| then |a| - i else 0;
    assert t[i + k] == m[i + k - |a|] && t[i + k] == d[k];
  }

  /** Putting text that shares no character with `d` into a text without `d` brings in no `d`. */
  lemma InsertKeepsAbsent(d: string, a: string, m: string, c: string)
    requires d != "" && m != "" && Disjoint(d, m)
    ensures Occurs(d, a + m + c) ==> Occurs(d, a + c)
  {
    var t := a + m + c;
    if Occurs(d, t) {
      var i: nat :| i <= |t| && StartsAt(t, i, d);
      StartsAtEach(t, i, d);
      if i + |d| <= |a| {
        StartsAtEach(a + c, i, d);
      } else if |a| + |m| <= i {
        StartsAtEach(a + c, i - |m|, d);
      } else {
        Overlaps(d, a, m, c, i);
      }
    }
  }

  lemma PrintedIsClear(d: string, version: string, text: string)
    requires d != "" && Disjoint(d, "/*!" + version + " ") && Disjoint(d, " */ ") && !Occurs(d, text)
    ensures !Occurs(d, Printed(version, text))
  {
    assert "" + text == text;
    InsertKeepsAbsent(d, "", "/*!" + version + " ", text);
    var t := "/*!" + version + " " + text;
    assert "" + ("/*!" + version + " ") + text == t;
    assert t + "" == t && t + " */ " + "" == t + " */ ";
    InsertKeepsAbsent(d, t, " */ ", "");
  }

  lemma CoveredIsClear(d: string, s: string, b: nat, e: nat, before: string, after: string)
    requires b <= e <= |s| && d != "" && !Occurs(d, s)
    requires Disjoint(d, MARK + before) && Disjoint(d, MARK + after)
    ensures !Occurs(d, Covered(s, b, e, before, after))
  {
    assert s[..e] + s[e..] == s;
    InsertKeepsAbsent(d, s[..e], MARK + after, s[e..]);
    assert s[..e] == s[..b] + s[b..e];
    var c := s[b..e] + (MARK + after) + s[e..];
    assert s[..b] + c == s[..e] + (MARK + after) + s[e..];
    InsertKeepsAbsent(d, s[..b], MARK + before, c);
    assert s[..b] + (MARK + before) + c == Covered(s, b, e, before, after);
  }

  lemma FoundInside(t: string, d: string, rest: string, i: nat)
    requires i < |t| && StartsAt(t + d + rest, i, d)
    ensures Occurs(d, t) || t[|t| - 1] in d
  {
    var u := t + d + rest;
    StartsAtEach(u, i, d);
    StartsAtEach(t, i, d);
    if |t| < i + |d| {
      assert u[i + (|t| - 1 - i)] == d[|t| - 1 - i];
    }
  }

  /** The text a reader takes up to the first `d`: exactly `t`, if `d` is not in `t` and cannot straddle its end. */
  lemma CutsAfter(t: string, d: string, rest: string)
    requires t != "" && t[|t| - 1] !in d && !Occurs(d, t)
    ensures StartsAt(t + d + rest, |t|, d)
    ensures forall i :: 0 <= i < |t| ==> !StartsAt(t + d + rest, i, d)
  {
    var u := t + d + rest;
    StartsAtEach(u, |t|, d);
    forall i | 0 <= i < |t|
      ensures !StartsAt(u, i, d)
    {
      if StartsAt(u, i, d) {
        FoundInside(t, d, rest, i);
      }
    }
  }
}
