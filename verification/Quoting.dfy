/** Quoting: names in dump scripts, and the option strings of LOAD DATA in two separate implementations. */
module Quoting {
  import opened Text
  import opened Wrappers

  // ---------------------------------------------------------------------------------------------
  // Option strings
  // ---------------------------------------------------------------------------------------------

  /** `odd` says that an odd number of backslashes has just gone by. */
  function Escape(s: string, odd: bool): string {
    if s == "" then (if odd then "\\" else "")
    else if s[0] == '\\' then ['\\'] + Escape(s[1..], !odd)
    else [s[0]] + (if s[0] == '\'' && !odd then "'" else "") + Escape(s[1..], false)
  }

  /** The state of the toggled flag after `s`. */
  function OddAfter(s: string): bool {
    s != "" && s[|s| - 1] == '\\' && !OddAfter(s[..|s| - 1])
  }

  /** Escaping in two parts: what is written for `a`, then the rest from the flag it leaves. */
  function Written(s: string): string {
    if s == "" then ""
    else
      var before, c := s[..|s| - 1], s[|s| - 1];
      Written(before) + [c] + (if c == '\'' && !OddAfter(before) then "'" else "")
  }

  lemma {:induction false} WrittenThen(a: string, b: string)
    ensures Written(a) + Escape(b, OddAfter(a)) == Escape(a + b, false)
    decreases |a|
  {
    if a == "" {
      assert a + b == b;
    } else {
      var before, c := a[..|a| - 1], a[|a| - 1];
      var b' := [c] + b;
      assert a + b == before + b' && b'[0] == c && b'[1..] == b;
      WrittenThen(before, b');
      var w, e := Written(before), Escape(b, OddAfter(a));
      var dup := if c == '\'' && !OddAfter(before) then "'" else "";
      assert Escape(b', OddAfter(before)) == [c] + dup + e;
      assert w + ([c] + dup + e) == w + [c] + dup + e;
    }
  }

  lemma {:induction false} WrittenLength(s: string)
    ensures |Written(s)| + (if OddAfter(s) then 1 else 0) <= 2 * |s|
  {
    if s != "" {
      WrittenLength(s[..|s| - 1]);
    }
  }

  /** The import client's version: writes through a pointer into the caller's buffer. */
  method FieldEscapeInto(to: array<char>, pos: nat, from: string) returns (end: nat)
    requires pos + 2 * |from| <= to.Length
    modifies to
    ensures pos <= end <= pos + 2 * |from| && to[pos..end] == Escape(from, false)
    ensures to[..pos] == old(to[..pos])
  {
    var odd, i := false, 0;
    end := pos;
    while i < |from|
      invariant i <= |from| && odd == OddAfter(from[..i])
      invariant pos <= end && end + (if odd then 1 else 0) <= pos + 2 * i
      invariant to[pos..end] == Written(from[..i]) && to[..pos] == old(to[..pos])
    {
      assert from[..i + 1][..i] == from[..i];
      to[end] := from[i];
      end := end + 1;
      if from[i] == '\\' {
        odd := !odd;
      } else {
        if from[i] == '\'' && !odd {
          to[end] := from[i];
          end := end + 1;
        }
        odd := false;
      }
      i := i + 1;
    }
    assert from[..i] == from;
    if odd {
      to[end] := '\\';
      end := end + 1;
    }
    WrittenThen(from, "");
    assert from + "" == from;
  }

  /** The dump client's version: appends a whole literal to a growing string. */
  method FieldEscapeQuoted(prefix: string, from: string) returns (r: string)
    ensures r == prefix + "'" + Escape(from, false) + "'"
  {
    r := prefix + "'";
    var odd, i := false, 0;
    while i < |from|
      invariant i <= |from| && odd == OddAfter(from[..i])
      invariant r == prefix + "'" + Written(from[..i])
    {
      assert from[..i + 1][..i] == from[..i];
      r := r + [from[i]];
      if from[i] == '\\' {
        odd := !odd;
      } else {
        if from[i] == '\'' && !odd {
          r := r + "'";
        }
        odd := false;
      }
      i := i + 1;
    }
    assert from[..i] == from;
    if odd {
      r := r + "\\";
    }
    WrittenThen(from, "");
    assert from + "" == from;
    r := r + "'";
  }

  // ---------------------------------------------------------------------------------------------
  // The SQL lexer's view of a literal
  // ---------------------------------------------------------------------------------------------

  function Add(n: nat, r: Option<nat>): Option<nat> {
    match r case None => None case Some(k) => Some(n + k)
  }

  /**
   Length of the body of the string literal whose opening quote has just been read: a backslash takes the
   next character with it, a doubled quote stands for one, a single one ends the literal.
   */
  function BodyLength(t: string): Option<nat> {
    if t == "" then None
    else if t[0] == '\\' then (if |t| == 1 then None else Add(2, BodyLength(t[2..])))
    else if t[0] != '\'' then Add(1, BodyLength(t[1..]))
    else if |t| > 1 && t[1] == '\'' then Add(2, BodyLength(t[2..]))
    else Some(0)
  }

  /** `tail` starts with the quote that ends the literal. */
  lemma {:induction false} EscapedCloses(s: string, tail: string)
    requires BodyLength(tail) == Some(0)
    ensures BodyLength(Escape(s, false) + tail) == Some(|Escape(s, false)|)
    decreases |s|
  {
    var text := Escape(s, false) + tail;
    if s == "" {
      assert text == tail;
    } else if s[0] == '\\' {
      assert text == ['\\'] + Escape(s[1..], true) + tail;
      OddCloses(s[1..], tail);
    } else {
      EscapedCloses(s[1..], tail);
      var e := Escape(s[1..], false) + tail;
      if s[0] == '\'' {
        assert text[2..] == e;
      } else {
        assert text[1..] == e;
      }
    }
  }

  /** The same behind an odd number of backslashes, the last of which takes the next character with it. */
  lemma {:induction false} OddCloses(s: string, tail: string)
    requires BodyLength(tail) == Some(0)
    ensures BodyLength(['\\'] + Escape(s, true) + tail) == Some(1 + |Escape(s, true)|)
    decreases |s|
  {
    var text := ['\\'] + Escape(s, true) + tail;
    if s == "" {
      assert text[2..] == tail;
    } else {
      EscapedCloses(s[1..], tail);
      assert text[2..] == Escape(s[1..], false) + tail;
    }
  }

  /**
   Between quotes the escaped string is exactly one complete literal, at most twice as long as the string;
   both implementations produce it.
   */
  lemma EscapedIsOneLiteral(s: string, rest: string)
    requires rest == "" || rest[0] != '\''
    ensures BodyLength(Escape(s, false) + "'" + rest) == Some(|Escape(s, false)|)
    ensures |Escape(s, false)| <= 2 * |s|
  {
    EscapedCloses(s, "'" + rest);
    assert Escape(s, false) + "'" + rest == Escape(s, false) + ("'" + rest);
    WrittenThen(s, "");
    WrittenLength(s);
    assert s + "" == s;
  }

  /**
   What such a literal says to LOAD DATA, which knows backslash pairs itself: a doubled quote is one quote, a backslash
   and the character behind it stay as they are, and a single quote ends it.
   */
  function Said(t: string): string {
    if t == "" then ""
    else if t[0] == '\\' then (if |t| == 1 then t else t[..2] + Said(t[2..]))
    else if t[0] != '\'' then [t[0]] + Said(t[1..])
    else if |t| > 1 && t[1] == '\'' then "'" + Said(t[2..])
    else ""
  }

  function TrailingBackslashes(s: string): nat {
    if s != "" && s[|s| - 1] == '\\' then 1 + TrailingBackslashes(s[..|s| - 1]) else 0
  }

  predicate AllBackslashes(s: string) {
    forall i :: 0 <= i < |s| ==> s[i] == '\\'
  }

  lemma {:induction false} TrailingOfAll(s: string)
    requires AllBackslashes(s)
    ensures TrailingBackslashes(s) == |s|
  {
    if s != "" {
      TrailingOfAll(s[..|s| - 1]);
    }
  }

  lemma {:induction false} TrailingCons(c: char, s: string)
    requires !AllBackslashes(s)
    ensures TrailingBackslashes([c] + s) == TrailingBackslashes(s)
    decreases |s|
  {
    var t, before := [c] + s, s[..|s| - 1];
    assert t[|t| - 1] == s[|s| - 1] && t[..|t| - 1] == [c] + before;
    if s[|s| - 1] == '\\' {
      assert !AllBackslashes(before);
      TrailingCons(c, before);
    }
  }

  lemma {:induction false} TrailingAfter(c: char, s: string)
    requires c != '\\' && AllBackslashes(s)
    ensures TrailingBackslashes([c] + s) == |s|
    decreases |s|
  {
    var t := [c] + s;
    if s != "" {
      assert t[..|t| - 1] == [c] + s[..|s| - 1];
      TrailingAfter(c, s[..|s| - 1]);
    }
  }

  /** The flag at the end, from the flag at the start. */
  function OddAtEnd(s: string, odd: bool): bool {
    if s == "" then odd else OddAtEnd(s[1..], s[0] == '\\' && !odd)
  }

  lemma {:induction false} OddAtEndIs(s: string, odd: bool)
    ensures OddAtEnd(s, odd) <==> TrailingBackslashes(s) % 2 == (if AllBackslashes(s) && odd then 0 else 1)
    decreases |s|
  {
    if s != "" {
      var c, rest := s[0], s[1..];
      assert s == [c] + rest && (AllBackslashes(s) <==> c == '\\' && AllBackslashes(rest)) by {
        assert forall i :: 1 <= i < |s| ==> s[i] == rest[i - 1];
      }
      OddAtEndIs(rest, c == '\\' && !odd);
      if AllBackslashes(rest) {
        TrailingOfAll(rest);
        if c == '\\' {
          TrailingOfAll(s);
        } else {
          TrailingAfter(c, rest);
        }
      } else {
        TrailingCons(c, rest);
      }
    }
  }

  lemma {:induction false} EscapedSays(s: string, tail: string)
    requires tail != "" && tail[0] == '\'' && (|tail| > 1 ==> tail[1] != '\'')
    ensures Said(Escape(s, false) + tail) == s + (if OddAtEnd(s, false) then "\\" else "")
    decreases |s|
  {
    var text := Escape(s, false) + tail;
    if s == "" {
      assert text == tail;
    } else if s[0] == '\\' {
      assert text == ['\\'] + Escape(s[1..], true) + tail;
      OddSays(s[1..], tail);
      assert ['\\'] + s[1..] == s;
    } else {
      EscapedSays(s[1..], tail);
      var e := Escape(s[1..], false) + tail;
      assert text[if s[0] == '\'' then 2 else 1..] == e;
      assert [s[0]] + s[1..] == s;
    }
  }

  lemma {:induction false} OddSays(s: string, tail: string)
    requires tail != "" && tail[0] == '\'' && (|tail| > 1 ==> tail[1] != '\'')
    ensures Said(['\\'] + Escape(s, true) + tail) == ['\\'] + s + (if OddAtEnd(s, true) then "\\" else "")
    decreases |s|
  {
    var text := ['\\'] + Escape(s, true) + tail;
    if s == "" {
      assert text[2..] == tail && text[..2] == "\\\\";
    } else {
      EscapedSays(s[1..], tail);
      assert text[2..] == Escape(s[1..], false) + tail && text[..2] == ['\\', s[0]];
      assert ['\\'] + s == ['\\', s[0]] + s[1..];
    }
  }

  /**
   Between quotes, the literal says exactly the string, with one more backslash exactly if the string ends in an odd
   number of them.
   */
  lemma LiteralSays(s: string, rest: string)
    requires rest == "" || rest[0] != '\''
    ensures Said(Escape(s, false) + "'" + rest) == s + (if TrailingBackslashes(s) % 2 == 1 then "\\" else "")
  {
    EscapedSays(s, "'" + rest);
    assert Escape(s, false) + "'" + rest == Escape(s, false) + ("'" + rest);
    OddAtEndIs(s, false);
  }

  // ---------------------------------------------------------------------------------------------
  // Names
  // ---------------------------------------------------------------------------------------------

  /** A name with every quote character in it doubled. */
  function Doubled(name: string, q: char): string {
    if name == "" then "" else (if name[0] == q then [q, q] else [name[0]]) + Doubled(name[1..], q)
  }

  function Quoted(name: string, q: char): string {
    [q] + Doubled(name, q) + [q]
  }

  lemma {:induction false} DoubledConcat(a: string, b: string, q: char)
    ensures Doubled(a + b, q) == Doubled(a, q) + Doubled(b, q)
  {
    if a == "" {
      assert a + b == b;
    } else {
      assert (a + b)[1..] == a[1..] + b;
      DoubledConcat(a[1..], b, q);
    }
  }

  predicate IsPlain(c: char) {
    'a' <= c <= 'z' || 'A' <= c <= 'Z' || '0' <= c <= '9' || c == '_' || c == '$'
  }

  /** `test_if_special_chars`: anything but letters, digits, underscore and dollar. */
  predicate HasSpecial(name: string) {
    exists k :: 0 <= k < |name| && !IsPlain(name[k])
  }

  /** `quote_name`: writes the quoted name through a moving pointer, or returns the name as it is. */
  method QuoteName(name: string, buff: array<char>, force: bool, optQuoted: bool, ansiQuotes: bool)
    returns (r: string)
    requires NUL !in name && 2 * |name| + 3 <= buff.Length
    modifies buff
    ensures var q := if ansiQuotes then '"' else '`';
      r == if force || optQuoted || HasSpecial(name) then Quoted(name, q) else name
  {
    var q := if ansiQuotes then '"' else '`';
    if !force && !optQuoted && !HasSpecial(name) {
      return name;
    }
    var to, i := 0, 0;
    buff[to] := q;
    to := to + 1;
    while i < |name|
      invariant i <= |name| && 1 <= to <= 2 * i + 1
      invariant buff[..to] == [q] + Doubled(name[..i], q)
    {
      DoubledConcat(name[..i], [name[i]], q);
      assert name[..i] + [name[i]] == name[..i + 1];
      assert [name[i]][1..] == "";
      if name[i] == q {
        buff[to] := q;
        to := to + 1;
      }
      buff[to] := name[i];
      to, i := to + 1, i + 1;
    }
    assert name[..i] == name;
    buff[to], buff[to + 1] := q, NUL;
    r := buff[..to + 1];
  }

  // ---------------------------------------------------------------------------------------------
  // The SQL lexer's view of a name
  // ---------------------------------------------------------------------------------------------

  /** Characters of a name without quotes. */
  predicate IdentChar(c: char) {
    || 'a' <= c <= 'z' || 'A' <= c <= 'Z' || '0' <= c <= '9' || c in "_$"
  }

  function Word(t: string): string {
    if t == "" || !IdentChar(t[0]) then "" else [t[0]] + Word(t[1..])
  }

  /** The name behind an opening quote, and what follows its closing quote. */
  function InQuotes(t: string, q: char): Option<(string, string)> {
    if t == "" then None
    else if t[0] == q && (|t| == 1 || t[1] != q) then Some(("", t[1..]))
    else
      match InQuotes(if t[0] == q then t[2..] else t[1..], q)
      case None => None
      case Some((name, rest)) => Some(([t[0]] + name, rest))
  }

  /** A name read as SQL reads it: in quotes with doubled ones for one, or as a word. */
  function ReadName(t: string): Option<(string, string)> {
    if t != "" && (t[0] == '`' || t[0] == '"') then InQuotes(t[1..], t[0])
    else
      var word := Word(t);
      if word == "" || |word| > |t| then None else Some((word, t[|word|..]))
  }

  lemma {:induction false} DoubledReads(name: string, q: char, rest: string)
    requires rest == "" || rest[0] != q
    ensures InQuotes(Doubled(name, q) + [q] + rest, q) == Some((name, rest))
    decreases |name|
  {
    var t := Doubled(name, q) + [q] + rest;
    if name == "" {
      assert t == [q] + rest;
    } else {
      DoubledReads(name[1..], q, rest);
      assert t[if name[0] == q then 2 else 1..] == Doubled(name[1..], q) + [q] + rest;
      assert [name[0]] + name[1..] == name;
    }
  }

  lemma {:induction false} WordReads(name: string, rest: string)
    requires (forall k :: 0 <= k < |name| ==> IdentChar(name[k])) && (rest == "" || !IdentChar(rest[0]))
    ensures Word(name + rest) == name
    decreases |name|
  {
    if name == "" {
      assert name + rest == rest;
    } else {
      assert (name + rest)[1..] == name[1..] + rest;
      WordReads(name[1..], rest);
    }
  }

  lemma QuotedReads(name: string, q: char, rest: string)
    requires (q == '`' || q == '"') && (rest == "" || rest[0] != q)
    ensures ReadName(Quoted(name, q) + rest) == Some((name, rest))
  {
    DoubledReads(name, q, rest);
    assert (Quoted(name, q) + rest)[1..] == Doubled(name, q) + [q] + rest;
  }

  lemma PlainReads(name: string, rest: string)
    requires name != "" && !HasSpecial(name) && (rest == "" || !IdentChar(rest[0]))
    ensures ReadName(name + rest) == Some((name, rest))
  {
    forall k | 0 <= k < |name|
      ensures IdentChar(name[k])
    {
      assert IsPlain(name[k]);
    }
    WordReads(name, rest);
    assert (name + rest)[|name|..] == rest && (name + rest)[0] == name[0] && IdentChar(name[0]);
  }

  /** Whatever the options, the name `quote_name` returns reads back as the name, up to what follows it. */
  lemma NameReadsBack(name: string, quoted: bool, q: char, rest: string)
    requires (q == '`' || q == '"') && (quoted || name != "")
    requires rest == "" || (rest[0] != q && !IdentChar(rest[0]))
    ensures ReadName((if quoted || HasSpecial(name) then Quoted(name, q) else name) + rest) == Some((name, rest))
  {
    if quoted || HasSpecial(name) {
      QuotedReads(name, q, rest);
    } else {
      PlainReads(name, rest);
    }
  }
}
