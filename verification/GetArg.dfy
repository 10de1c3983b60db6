/** `get_arg`: the first argument of a client command, unquoted in place. */
module GetArg {
  import opened Text
  import opened Quoting
  import opened Wrappers

  datatype Mode = Check | Get

  // ---------------------------------------------------------------------------------------------
  // The specification: reading an immutable line
  // ---------------------------------------------------------------------------------------------

  /** A C string at the start of its buffer. */
  predicate CString(s: string) {
    |s| > 0 && s[|s| - 1] == NUL && forall k :: 0 <= k < |s| - 1 ==> s[k] != NUL
  }

  function SkipBlanks(s: string, i: nat): (e: nat)
    requires CString(s) && i < |s|
    ensures i <= e < |s| && !IsSpace(s[e])
    ensures forall k :: i <= k < e ==> IsSpace(s[k])
    decreases |s| - i
  {
    if IsSpace(s[i]) then SkipBlanks(s, i + 1) else i
  }

  function SkipWord(s: string, i: nat): (e: nat)
    requires CString(s) && i < |s|
    ensures i <= e < |s|
    decreases |s| - i
  {
    if s[i] == NUL || IsSpace(s[i]) then i else SkipWord(s, i + 1)
  }

  predicate ShortCommand(s: string)
    requires CString(s)
  {
    s[SkipBlanks(s, 0)] == '\\'
  }

  /** A backslash that starts a short command is followed by the command's letter. */
  predicate HasLetter(s: string)
    requires CString(s)
  {
    ShortCommand(s) ==> s[SkipBlanks(s, 0) + 1] != NUL
  }

  /** Where the command ends: two characters for the short form, the first word for the long one. */
  function AfterCommand(s: string): (p: nat)
    requires CString(s) && HasLetter(s)
    ensures p < |s|
  {
    var i := SkipBlanks(s, 0);
    if s[i] == '\\' then i + 2 else SkipWord(s, i)
  }

  /** Is the character at `i` an escape for the next one? Short commands know the backslash only. */
  predicate Escaping(s: string, i: nat, q: char, short: bool)
    requires CString(s) && i < |s| - 1
  {
    if short then s[i] == '\\' && s[i + 1] != NUL
    else (s[i] == '\\' && s[i + 1] != NUL && q != '`') || (q != NUL && s[i] == q && s[i + 1] == q)
  }

  /** The unquoted text from `i` on, and whether its end mark was found before the end of the line. */
  datatype Scanned = Scanned(value: string, closed: bool)

  function Prepend(c: char, r: Scanned): Scanned {
    r.(value := [c] + r.value)
  }

  function Scan(s: string, i: nat, q: char, short: bool): Scanned
    requires CString(s) && i < |s|
    decreases |s| - i
  {
    if i == |s| - 1 then Scanned("", false)
    else if Escaping(s, i, q, short) then
      Prepend(s[i + 1], Scan(s, i + 2, q, short))
    else if s[i] == (if q != NUL then q else ' ') then Scanned("", true)
    else Prepend(s[i], Scan(s, i + 1, q, short))
  }

  function QuoteAt(s: string, p: nat): char
    requires CString(s) && p < |s|
  {
    if IsQuote(s[p]) then s[p] else NUL
  }

  /** Where the argument's text starts, behind blanks and an opening quote. */
  function ArgStart(s: string, p: nat): (start: nat)
    requires CString(s) && p < |s|
    ensures p <= start < |s|
  {
    var i := SkipBlanks(s, p);
    if IsQuote(s[i]) then assert s[i] != NUL; i + 1 else i
  }

  /** The argument of the command line `s`; an empty or unterminated one does not exist. */
  function Argument(s: string): Option<string>
    requires CString(s) && HasLetter(s)
  {
    var p := AfterCommand(s);
    if s[p] == NUL then None
    else
      var q := QuoteAt(s, SkipBlanks(s, p));
      var r := Scan(s, ArgStart(s, p), q, ShortCommand(s));
      if r.value != "" && (q == NUL || r.closed) then Some(r.value) else None
  }

  // ---------------------------------------------------------------------------------------------
  // The method: reading and unquoting in place
  // ---------------------------------------------------------------------------------------------

  /** From `ptr` on the line holds what `s` holds from `i` on, terminator included. */
  ghost predicate Mirrors(line: array<char>, ptr: nat, s: string, i: nat)
    reads line
  {
    && ptr <= i < |s| <= line.Length
    && forall k :: ptr <= k < ptr + |s| - i ==> line[k] == s[k + i - ptr]
  }

  /** `strmov_overlapp(ptr, ptr + 1)`: the string at `ptr` loses its first character. */
  method DropFirst(line: array<char>, ptr: nat, ghost s: string, ghost i: nat)
    requires CString(s) && i + 1 < |s| && Mirrors(line, ptr, s, i)
    modifies line
    ensures Mirrors(line, ptr, s, i + 1)
    ensures forall k :: 0 <= k < line.Length && !(ptr <= k < ptr + |s| - i) ==> line[k] == old(line[k])
  {
    var k := ptr;
    while line[k + 1] != NUL
      invariant ptr <= k && k + 1 < ptr + |s| - i
      invariant forall m :: ptr <= m < k ==> line[m] == s[m + i + 1 - ptr]
      invariant forall m :: k < m < ptr + |s| - i ==> line[m] == s[m + i - ptr]
      invariant forall m :: 0 <= m < line.Length && !(ptr <= m < ptr + |s| - i) ==> line[m] == old(line[m])
      decreases line.Length - k
    {
      line[k] := line[k + 1];
      k := k + 1;
    }
    line[k] := NUL;
  }

  /** The state of the scan: `acc` has been accepted, the rest of `s` from `i` on is still to come. */
  ghost predicate Scanning(s: string, start: nat, i: nat, q: char, short: bool, acc: string)
    requires CString(s) && start < |s|
  {
    && start <= i < |s|
    && (acc == "" <==> i == start)
    && Scan(s, start, q, short) == Scanned(acc + Scan(s, i, q, short).value, Scan(s, i, q, short).closed)
  }

  lemma ScanOne(s: string, start: nat, i: nat, q: char, short: bool, acc: string)
    requires CString(s) && start < |s| && Scanning(s, start, i, q, short, acc) && i < |s| - 1
    ensures Escaping(s, i, q, short) ==> Scanning(s, start, i + 2, q, short, acc + [s[i + 1]])
    ensures !Escaping(s, i, q, short) && s[i] == (if q != NUL then q else ' ') ==> Scan(s, start, q, short) == Scanned(acc, true)
    ensures !Escaping(s, i, q, short) && s[i] != (if q != NUL then q else ' ') ==>
              Scanning(s, start, i + 1, q, short, acc + [s[i]])
  {
    if Escaping(s, i, q, short) {
      var v := Scan(s, i + 2, q, short).value;
      assert acc + ([s[i + 1]] + v) == acc + [s[i + 1]] + v;
    } else if s[i] == (if q != NUL then q else ' ') {
      assert acc + "" == acc;
    } else {
      var v := Scan(s, i + 1, q, short).value;
      assert acc + ([s[i]] + v) == acc + [s[i]] + v;
    }
  }

  /** The loop in `Check` mode: the line is only read. */
  method ScanOnly(line: array<char>, ghost s: string, start: nat, q: char, short: bool)
    returns (empty: bool, closed: bool)
    requires CString(s) && start < |s| && Mirrors(line, 0, s, 0)
    ensures var r := Scan(s, start, q, short); empty == (r.value == "") && closed == r.closed
  {
    var ptr := start;
    ghost var acc := "";
    closed := false;
    while line[ptr] != NUL
      invariant Scanning(s, start, ptr, q, short, acc)
      decreases |s| - ptr
    {
      ScanOne(s, start, ptr, q, short, acc);
      if (line[ptr] == '\\' && line[ptr + 1] != NUL && (short || q != '`')) ||
         (!short && q != NUL && line[ptr] == q && line[ptr + 1] == q) {
        acc := acc + [s[ptr + 1]];
        ptr := ptr + 2;
      } else if line[ptr] == (if q != NUL then q else ' ') {
        closed := true;
        break;
      } else {
        acc := acc + [s[ptr]];
        ptr := ptr + 1;
      }
    }
    assert acc + "" == acc;
    empty := ptr == start;
  }

  /** The loop in `Get` mode: escapes are taken out of the line and the argument is terminated in it. */
  method ScanInPlace(line: array<char>, ghost s: string, start: nat, q: char, short: bool)
    returns (end: nat, closed: bool)
    requires CString(s) && start < |s| && Mirrors(line, 0, s, 0)
    modifies line
    ensures var r := Scan(s, start, q, short);
      && closed == r.closed && end == start + |r.value| < |s|
      && line[start..end] == r.value && line[end] == NUL
    ensures forall k :: |s| <= k < line.Length ==> line[k] == old(line[k])
  {
    var ptr := start;
    ghost var i, acc := start, "";
    closed := false;
    while line[ptr] != NUL
      invariant start <= ptr && Scanning(s, start, i, q, short, acc) && Mirrors(line, ptr, s, i)
      invariant |acc| == ptr - start && forall k :: 0 <= k < |acc| ==> line[start + k] == acc[k]
      invariant forall k :: |s| <= k < line.Length ==> line[k] == old(line[k])
      decreases |s| - i
    {
      ScanOne(s, start, i, q, short, acc);
      assert line[ptr] == s[i] && line[ptr + 1] == s[i + 1];
      if (line[ptr] == '\\' && line[ptr + 1] != NUL && (short || q != '`')) ||
         (!short && q != NUL && line[ptr] == q && line[ptr + 1] == q) {
        DropFirst(line, ptr, s, i);
        acc, i := acc + [s[i + 1]], i + 2;
      } else if line[ptr] == (if q != NUL then q else ' ') {
        closed := true;
        line[ptr] := NUL;
        break;
      } else {
        acc, i := acc + [s[i]], i + 1;
      }
      ptr := ptr + 1;
    }
    assert acc + "" == acc;
    assert line[start..ptr] == acc;
    end := ptr;
  }

  /** Where the arguments start: the command has been skipped, not the blanks behind it. */
  method SkipCommand(line: array<char>, ghost s: string) returns (p: nat, short: bool)
    requires CString(s) && HasLetter(s) && Mirrors(line, 0, s, 0)
    ensures p == AfterCommand(s) && short == ShortCommand(s)
  {
    p := 0;
    while IsSpace(line[p])
      invariant p < |s| && SkipBlanks(s, 0) == SkipBlanks(s, p)
      decreases |s| - p
    {
      p := p + 1;
    }
    short := line[p] == '\\';
    if short {
      p := p + 2;
    } else {
      ghost var word := p;
      while line[p] != NUL && !IsSpace(line[p])
        invariant word <= p < |s| && SkipWord(s, word) == SkipWord(s, p)
        decreases |s| - p
      {
        p := p + 1;
      }
    }
  }

  /**
   `get_arg`: the position of the argument, if there is one. Both modes agree on that; `Check` leaves the
   line alone, after `Get` the unquoted argument stands in it at that position.
   */
  method GetArgument(line: array<char>, ghost s: string, mode: Mode) returns (r: Option<nat>)
    requires CString(s) && HasLetter(s) && Mirrors(line, 0, s, 0)
    modifies line
    ensures r == if Argument(s) == None then None else Some(ArgStart(s, AfterCommand(s)))
    ensures mode.Check? ==> line[..] == old(line[..])
    ensures mode.Get? && r.Some? ==>
              var v := Argument(s).value;
              r.value + |v| < |s| && line[r.value..r.value + |v|] == v && line[r.value + |v|] == NUL
    ensures forall k :: |s| <= k < line.Length ==> line[k] == old(line[k])
  {
    var p, short := SkipCommand(line, s);
    if line[p] == NUL {
      return None;
    }
    ghost var p0 := p;
    while IsSpace(line[p])
      invariant p0 <= p < |s| && SkipBlanks(s, p0) == SkipBlanks(s, p)
      decreases |s| - p
    {
      p := p + 1;
    }
    var q := NUL;
    if IsQuote(line[p]) {
      q, p := line[p], p + 1;
    }
    var empty, closed;
    if mode.Check? {
      empty, closed := ScanOnly(line, s, p, q, short);
    } else {
      var end;
      end, closed := ScanInPlace(line, s, p, q, short);
      empty := end == p;
    }
    return if !empty && (q == NUL || closed) then Some(p) else None;
  }

  // ---------------------------------------------------------------------------------------------
  // Quoted names come back
  // ---------------------------------------------------------------------------------------------

  /** At `i` the line holds the doubled form of `name`, its closing quote, and then no further quote. */
  predicate ClosesAfter(s: string, i: nat, name: string, q: char) {
    var d := Doubled(name, q);
    i + |d| + 1 < |s| && s[i..i + |d|] == d && s[i + |d|] == q && s[i + |d| + 1] != q
  }

  lemma ClosesStep(s: string, i: nat, name: string, q: char)
    requires name != "" && ClosesAfter(s, i, name, q)
    ensures s[i] == name[0]
    ensures name[0] == q ==> s[i + 1] == q && ClosesAfter(s, i + 2, name[1..], q)
    ensures name[0] != q ==> ClosesAfter(s, i + 1, name[1..], q)
    ensures name[0] != q ==> s[i + 1] == (if |name| == 1 then q else name[1])
  {
    var d, d' := Doubled(name, q), Doubled(name[1..], q);
    var n := if name[0] == q then 2 else 1;
    assert d == (if n == 2 then [q, q] else [name[0]]) + d';
    assert s[i] == s[i..i + |d|][0] && (n == 2 ==> s[i + 1] == s[i..i + |d|][1]);
    assert s[i + n..i + n + |d'|] == s[i..i + |d|][n..] == d';
    if |name| > 1 {
      assert d'[0] == name[1];
      assert n == 1 ==> s[i + 1] == s[i + 1..i + 1 + |d'|][0];
    }
  }

  lemma {:induction false} ScanQuoted(s: string, i: nat, name: string, q: char)
    requires CString(s) && i < |s| && IsQuote(q) && ClosesAfter(s, i, name, q)
    requires q == '`' || '\\' !in name
    ensures Scan(s, i, q, false) == Scanned(name, true)
    decreases |name|
  {
    if name != "" {
      ClosesStep(s, i, name, q);
      assert name == [name[0]] + name[1..];
      ScanQuoted(s, i + (if name[0] == q then 2 else 1), name[1..], q);
    }
  }

  lemma {:induction false} SkipsBlanks(s: string, i: nat, e: nat)
    requires CString(s) && i <= e < |s| && !IsSpace(s[e]) && forall k :: i <= k < e ==> IsSpace(s[k])
    ensures SkipBlanks(s, i) == e
    decreases e - i
  {
    if i < e {
      SkipsBlanks(s, i + 1, e);
    }
  }

  lemma {:induction false} SkipsWord(s: string, i: nat, e: nat)
    requires CString(s) && i <= e < |s| && IsSpace(s[e]) && forall k :: i <= k < e ==> !IsSpace(s[k])
    ensures SkipWord(s, i) == e
    decreases e - i
  {
    if i < e {
      SkipsWord(s, i + 1, e);
    }
  }

  /** A long-form command from `a` to `b`, blanks up to `p`, and a quoted name there. */
  predicate CommandLine(s: string, a: nat, b: nat, p: nat, name: string, q: char) {
    && CString(s) && a < b < p < |s| - 1
    && (forall k :: 0 <= k < a ==> IsSpace(s[k])) && (forall k :: b <= k < p ==> IsSpace(s[k]))
    && (forall k :: a <= k < b ==> !IsSpace(s[k])) && s[a] != '\\'
    && IsQuote(q) && s[p] == q && ClosesAfter(s, p + 1, name, q)
  }

  lemma CommandSkipped(s: string, a: nat, b: nat, p: nat, name: string, q: char)
    requires CommandLine(s, a, b, p, name, q)
    ensures HasLetter(s) && !ShortCommand(s) && AfterCommand(s) == b && s[b] != NUL
    ensures SkipBlanks(s, b) == p && ArgStart(s, b) == p + 1
  {
    SkipsBlanks(s, 0, a);
    SkipsWord(s, a, b);
    SkipsBlanks(s, b, p);
  }

  lemma {:induction false} DoubledHasNoNul(name: string, q: char)
    requires NUL !in name && q != NUL
    ensures NUL !in Doubled(name, q)
  {
    if name != "" {
      DoubledHasNoNul(name[1..], q);
    }
  }

  /** What `quote_name` writes, behind a command and a blank, is such a line. */
  lemma QuotedLine(cmd: string, name: string, q: char, tail: string, s: string)
    requires s == cmd + " " + Quoted(name, q) + tail + [NUL]
    requires cmd != "" && cmd[0] != '\\' && (forall k :: 0 <= k < |cmd| ==> !IsSpace(cmd[k]))
    requires NUL !in cmd && NUL !in name && NUL !in tail && IsQuote(q) && (tail == "" || tail[0] != q)
    ensures CommandLine(s, 0, |cmd|, |cmd| + 1, name, q)
  {
    var d := Doubled(name, q);
    DoubledHasNoNul(name, q);
    var i := |cmd| + 2;
    assert s[i..i + |d|] == d;
    assert s[i + |d| + 1] == (tail + [NUL])[0];
  }

  /** A nonempty name between backticks is returned unchanged; between other quotes, one without backslashes is. */
  lemma QuotedNameReturns(s: string, a: nat, b: nat, p: nat, name: string, q: char)
    requires CommandLine(s, a, b, p, name, q) && name != "" && (q == '`' || '\\' !in name)
    ensures HasLetter(s) && Argument(s) == Some(name)
  {
    CommandSkipped(s, a, b, p, name, q);
    ScanQuoted(s, p + 1, name, q);
  }

  /**
   For every nonempty name: a long-form command followed by the name as `quote_name` writes it in backticks
   has that name as its argument.
   */
  lemma BacktickedNameReturns(cmd: string, name: string, tail: string, s: string)
    requires s == cmd + " " + Quoted(name, '`') + tail + [NUL]
    requires cmd != "" && cmd[0] != '\\' && (forall k :: 0 <= k < |cmd| ==> !IsSpace(cmd[k]))
    requires NUL !in cmd && NUL !in name && NUL !in tail && (tail == "" || tail[0] != '`') && name != ""
    ensures CString(s) && HasLetter(s) && Argument(s) == Some(name)
  {
    QuotedLine(cmd, name, '`', tail, s);
    QuotedNameReturns(s, 0, |cmd|, |cmd| + 1, name, '`');
  }

  // ---------------------------------------------------------------------------------------------
  // Arguments without quotes, and arguments with backslashes
  // ---------------------------------------------------------------------------------------------

  predicate AllBlank(t: string) {
    forall k :: 0 <= k < |t| ==> IsSpace(t[k])
  }

  /** A command and the blanks behind it: a word, or a backslash and a letter. */
  predicate Command(cmd: string, gap: string) {
    && AllBlank(gap) && NUL !in cmd && cmd != ""
    && if cmd[0] == '\\' then |cmd| == 2 else gap != "" && forall k :: 0 <= k < |cmd| ==> !IsSpace(cmd[k])
  }

  lemma BlankHoldsNoNul(t: string)
    requires AllBlank(t)
    ensures NUL !in t
  {
  }

  /** Behind blanks, a command and blanks, whatever comes next starts the argument. */
  lemma ArgumentStarts(lead: string, cmd: string, gap: string, text: string, s: string)
    requires AllBlank(lead) && Command(cmd, gap) && NUL !in text && text != "" && !IsSpace(text[0])
    requires s == lead + cmd + gap + text + [NUL]
    ensures CString(s) && HasLetter(s) && (ShortCommand(s) <==> cmd[0] == '\\')
    ensures AfterCommand(s) == |lead| + |cmd| && s[AfterCommand(s)] != NUL
    ensures SkipBlanks(s, AfterCommand(s)) == |lead| + |cmd| + |gap|
  {
    var a := |lead|;
    var b := a + |cmd|;
    var p := b + |gap|;
    BlankHoldsNoNul(lead);
    BlankHoldsNoNul(gap);
    assert forall k :: 0 <= k < a ==> s[k] == lead[k];
    assert forall k :: a <= k < b ==> s[k] == cmd[k - a];
    assert forall k :: b <= k < p ==> s[k] == gap[k - b];
    assert s[p..|s| - 1] == text && s[p] == text[0];
    assert forall k :: p <= k < |s| - 1 ==> s[k] == text[k - p];
    assert !IsSpace(s[a]);
    SkipsBlanks(s, 0, a);
    if cmd[0] != '\\' {
      SkipsWord(s, a, b);
    }
    SkipsBlanks(s, b, p);
  }

  lemma {:induction false} ScanPlain(s: string, i: nat, arg: string, short: bool)
    requires CString(s) && i + |arg| < |s| && s[i..i + |arg|] == arg && ' ' !in arg && '\\' !in arg
    requires s[i + |arg|] == NUL || s[i + |arg|] == ' '
    ensures Scan(s, i, NUL, short).value == arg
    decreases |arg|
  {
    if arg != "" {
      assert s[i] == arg[0] && s[i + 1..i + |arg|] == arg[1..];
      ScanPlain(s, i + 1, arg[1..], short);
      assert [arg[0]] + arg[1..] == arg;
    }
  }

  /** The argument at `p`, behind the command and blanks. */
  lemma ArgumentAt(s: string, p: nat)
    requires CString(s) && HasLetter(s) && s[AfterCommand(s)] != NUL && SkipBlanks(s, AfterCommand(s)) == p
    ensures IsQuote(s[p]) ==>
              var r := Scan(s, p + 1, s[p], ShortCommand(s));
              r.value != "" && r.closed ==> Argument(s) == Some(r.value)
    ensures !IsQuote(s[p]) ==>
              var r := Scan(s, p, NUL, ShortCommand(s));
              r.value != "" ==> Argument(s) == Some(r.value)
  {
  }

  /** The middle of three parts, and what follows it. */
  lemma Placed(pre: string, mid: string, post: string, s: string)
    requires s == pre + mid + post && post != ""
    ensures |pre| + |mid| < |s| && s[|pre|..|pre| + |mid|] == mid && s[|pre| + |mid|] == post[0]
    ensures mid != "" ==> s[|pre|] == mid[0]
  {
  }

  /** An argument without quotes, blanks and backslashes comes back, in both forms of a command. */
  lemma PlainArgumentReturns(lead: string, cmd: string, gap: string, arg: string, tail: string, s: string)
    requires AllBlank(lead) && Command(cmd, gap) && s == lead + cmd + gap + arg + tail + [NUL]
    requires arg != "" && !IsSpace(arg[0]) && !IsQuote(arg[0]) && ' ' !in arg && '\\' !in arg && NUL !in arg
    requires NUL !in tail && (tail == "" || tail[0] == ' ')
    ensures CString(s) && HasLetter(s) && Argument(s) == Some(arg)
  {
    assert s == lead + cmd + gap + (arg + tail) + [NUL];
    ArgumentStarts(lead, cmd, gap, arg + tail, s);
    var pre := lead + cmd + gap;
    assert s == pre + arg + (tail + [NUL]);
    Placed(pre, arg, tail + [NUL], s);
    ScanPlain(s, |pre|, arg, ShortCommand(s));
    ArgumentAt(s, |pre|);
  }

  /** A backslash before every character. */
  function Slashed(t: string): string {
    if t == "" then "" else ['\\', t[0]] + Slashed(t[1..])
  }

  function Append(t: string, r: Scanned): Scanned {
    r.(value := t + r.value)
  }

  lemma TwoAndRest(s: string, i: nat, d: string, a: char, b: char, rest: string)
    requires d == [a, b] + rest && i + |d| < |s| && s[i..i + |d|] == d
    ensures s[i] == a && s[i + 1] == b && s[i + 2..i + 2 + |rest|] == rest
  {
    assert s[i] == s[i..i + |d|][0] && s[i + 1] == s[i..i + |d|][1];
    assert s[i + 2..i + |d|] == s[i..i + |d|][2..];
  }

  lemma AppendOne(c: char, t: string, r: Scanned)
    ensures Prepend(c, Append(t, r)) == Append([c] + t, r)
  {
    assert [c] + (t + r.value) == [c] + t + r.value;
  }

  lemma {:induction false} ScanSlashed(s: string, i: nat, arg: string, q: char, short: bool)
    requires CString(s) && i + |Slashed(arg)| < |s| && s[i..i + |Slashed(arg)|] == Slashed(arg) && (short || q != '`')
    ensures Scan(s, i, q, short) == Append(arg, Scan(s, i + |Slashed(arg)|, q, short))
    decreases |arg|
  {
    if arg == "" {
      assert "" + Scan(s, i, q, short).value == Scan(s, i, q, short).value;
    } else {
      TwoAndRest(s, i, Slashed(arg), '\\', arg[0], Slashed(arg[1..]));
      ScanSlashed(s, i + 2, arg[1..], q, short);
      AppendOne(arg[0], arg[1..], Scan(s, i + |Slashed(arg)|, q, short));
      assert arg == [arg[0]] + arg[1..];
    }
  }

  lemma {:induction false} SlashedLength(t: string)
    requires NUL !in t
    ensures |Slashed(t)| == 2 * |t| && NUL !in Slashed(t) && (t != "" ==> Slashed(t)[0] == '\\')
  {
    if t != "" {
      SlashedLength(t[1..]);
    }
  }

  lemma SlashedAt(s: string, p: nat, arg: string)
    requires CString(s) && HasLetter(s) && s[AfterCommand(s)] != NUL && SkipBlanks(s, AfterCommand(s)) == p
    requires arg != "" && p + |Slashed(arg)| == |s| - 1 && s[p..p + |Slashed(arg)|] == Slashed(arg) && s[p] == '\\'
    ensures Argument(s) == Some(arg)
  {
    ScanSlashed(s, p, arg, NUL, ShortCommand(s));
    assert arg + "" == arg;
    ArgumentAt(s, p);
  }

  /** Every text comes back if each of its characters has a backslash before it: without quotes ... */
  lemma SlashedArgumentReturns(lead: string, cmd: string, gap: string, arg: string, text: string, s: string)
    requires AllBlank(lead) && Command(cmd, gap) && arg != "" && NUL !in arg && text == Slashed(arg)
    requires s == lead + cmd + gap + text + [NUL]
    ensures CString(s) && HasLetter(s) && Argument(s) == Some(arg)
  {
    SlashedLength(arg);
    ArgumentStarts(lead, cmd, gap, text, s);
    Placed(lead + cmd + gap, text, [NUL], s);
    SlashedAt(s, |lead + cmd + gap|, arg);
  }

  lemma SlashedInQuotes(s: string, p: nat, arg: string, q: char, short: bool)
    requires CString(s) && IsQuote(q) && (short || q != '`') && p + 2 + |Slashed(arg)| < |s|
    requires s[p + 1..p + 1 + |Slashed(arg)|] == Slashed(arg) && s[p + 1 + |Slashed(arg)|] == q
    requires s[p + 2 + |Slashed(arg)|] != q
    ensures Scan(s, p + 1, q, short) == Scanned(arg, true)
  {
    ScanSlashed(s, p + 1, arg, q, short);
    assert Scan(s, p + 1 + |Slashed(arg)|, q, short) == Scanned("", true);
    assert arg + "" == arg;
  }

  lemma NoNul(a: string, b: string)
    requires NUL !in a && NUL !in b
    ensures NUL !in a + b
  {
  }

  lemma QuotedHoldsNoNul(arg: string, d: string, q: char, tail: string, text: string)
    requires NUL !in arg && d == Slashed(arg) && IsQuote(q) && NUL !in tail && text == [q] + d + [q] + tail
    ensures NUL !in text && text != "" && text[0] == q
  {
    SlashedLength(arg);
    NoNul([q], d);
    NoNul([q] + d, [q]);
    NoNul([q] + d + [q], tail);
  }

  lemma QuotedAt(s: string, p: nat, arg: string, d: string, q: char)
    requires CString(s) && HasLetter(s) && s[AfterCommand(s)] != NUL && SkipBlanks(s, AfterCommand(s)) == p
    requires arg != "" && d == Slashed(arg) && IsQuote(q) && (ShortCommand(s) || q != '`')
    requires p + 2 + |d| < |s| && s[p] == q && s[p + 1..p + 1 + |d|] == d && s[p + 1 + |d|] == q && s[p + 2 + |d|] != q
    ensures Argument(s) == Some(arg)
  {
    SlashedInQuotes(s, p, arg, q, ShortCommand(s));
    ArgumentAt(s, p);
  }

  /** Where the parts of a quoted text stand. */
  lemma QuotedParts(pre: string, d: string, q: char, tail: string, text: string, s: string)
    requires text == [q] + d + [q] + tail && s == pre + text + [NUL]
    ensures |pre| + 2 + |d| < |s| && s[|pre|] == q && s[|pre| + 1..|pre| + 1 + |d|] == d
    ensures s[|pre| + 1 + |d|] == q && s[|pre| + 2 + |d|] == (tail + [NUL])[0]
  {
    assert s == pre + [q] + (d + [q] + tail + [NUL]);
    assert s == (pre + [q]) + d + ([q] + tail + [NUL]);
    Placed(pre + [q], d, [q] + tail + [NUL], s);
    assert s == (pre + [q] + d) + [q] + (tail + [NUL]);
    Placed(pre + [q] + d, [q], tail + [NUL], s);
  }

  lemma TailStarts(tail: string, q: char)
    requires IsQuote(q) && (tail == "" || tail[0] != q)
    ensures (tail + [NUL])[0] != q
  {
  }

  /** A line with a quoted text behind its command. */
  lemma QuotedText(lead: string, cmd: string, gap: string, d: string, q: char, tail: string, text: string, s: string)
    returns (p: nat)
    requires AllBlank(lead) && Command(cmd, gap) && IsQuote(q) && NUL !in text && text != "" && text[0] == q
    requires text == [q] + d + [q] + tail && s == lead + cmd + gap + text + [NUL] && (tail == "" || tail[0] != q)
    ensures CString(s) && HasLetter(s) && (ShortCommand(s) <==> cmd[0] == '\\') && s[AfterCommand(s)] != NUL
    ensures SkipBlanks(s, AfterCommand(s)) == p && p + 2 + |d| < |s| && s[p] == q && s[p + 1..p + 1 + |d|] == d
    ensures s[p + 1 + |d|] == q && s[p + 2 + |d|] != q
  {
    p := |lead + cmd + gap|;
    ArgumentStarts(lead, cmd, gap, text, s);
    TailStarts(tail, q);
    QuotedParts(lead + cmd + gap, d, q, tail, text, s);
  }

  /** ... and between quotes, but for backticks behind a command in its long form. */
  lemma SlashedQuotedReturns(lead: string, cmd: string, gap: string, arg: string, d: string, q: char, tail: string,
                             text: string, s: string)
    requires AllBlank(lead) && Command(cmd, gap) && arg != "" && NUL !in arg && IsQuote(q) && (cmd[0] == '\\' || q != '`')
    requires d == Slashed(arg) && text == [q] + d + [q] + tail && s == lead + cmd + gap + text + [NUL]
    requires NUL !in tail && (tail == "" || tail[0] != q)
    ensures CString(s) && HasLetter(s) && Argument(s) == Some(arg)
  {
    QuotedHoldsNoNul(arg, d, q, tail, text);
    var p := QuotedText(lead, cmd, gap, d, q, tail, text, s);
    QuotedAt(s, p, arg, d, q);
  }

  // ---------------------------------------------------------------------------------------------
  // When there is no argument
  // ---------------------------------------------------------------------------------------------

  /** Reading from `i`, pair by pair and character by character, comes to `e`. */
  predicate Reaches(s: string, i: nat, e: nat, q: char, short: bool)
    requires CString(s) && e < |s|
    decreases e - i
  {
    i == e || (i < e && Reaches(s, i + (if Escaping(s, i, q, short) then 2 else 1), e, q, short))
  }

  /** The quote is never closed: wherever it stands, it is escaped or doubled. */
  predicate NeverClosed(s: string, i: nat, q: char, short: bool)
    requires CString(s)
  {
    forall e :: i <= e < |s| - 1 && Reaches(s, i, e, q, short) && s[e] == q ==> Escaping(s, e, q, short)
  }

  lemma {:induction false} ClosedIffReached(s: string, i: nat, q: char, short: bool)
    requires CString(s) && i < |s| && IsQuote(q)
    ensures Scan(s, i, q, short).closed <==> !NeverClosed(s, i, q, short)
    decreases |s| - i
  {
    if i < |s| - 1 {
      if !Escaping(s, i, q, short) && s[i] == q {
        assert Reaches(s, i, i, q, short);
      } else {
        var n := i + (if Escaping(s, i, q, short) then 2 else 1);
        ClosedIffReached(s, n, q, short);
        forall e | n <= e < |s| - 1
          ensures Reaches(s, n, e, q, short) <==> Reaches(s, i, e, q, short)
        {
        }
        if NeverClosed(s, n, q, short) {
          forall e | i <= e < |s| - 1 && Reaches(s, i, e, q, short) && s[e] == q
            ensures Escaping(s, e, q, short)
          {
            assert e == i || Reaches(s, n, e, q, short);
          }
        }
      }
    }
  }

  /**
   There is no argument exactly if nothing but blanks stands behind the command, or a quote that is closed at once or
   never.
   */
  lemma NoArgumentIff(s: string)
    requires CString(s) && HasLetter(s)
    ensures var i := SkipBlanks(s, AfterCommand(s));
      Argument(s) == None
      <==> || s[i] == NUL
           || (IsQuote(s[i]) && (|| (s[i + 1] == s[i] && !Escaping(s, i + 1, s[i], ShortCommand(s)))
                                 || NeverClosed(s, i + 1, s[i], ShortCommand(s))))
  {
    var p := AfterCommand(s);
    var i := SkipBlanks(s, p);
    if IsQuote(s[i]) {
      ClosedIffReached(s, i + 1, s[i], ShortCommand(s));
    }
  }

  // ---------------------------------------------------------------------------------------------
  // With ANSI quotes: exactly the names without a backslash
  // ---------------------------------------------------------------------------------------------

  function LeadingBackslashes(t: string): nat {
    if t != "" && t[0] == '\\' then 1 + LeadingBackslashes(t[1..]) else 0
  }

  lemma {:induction false} BackslashesHalved(s: string, i: nat, name: string, q: char)
    requires CString(s) && i < |s| && (q == '"' || q == '\'') && ClosesAfter(s, i, name, q)
    ensures LeadingBackslashes(Scan(s, i, q, false).value) == LeadingBackslashes(name) / 2
    decreases |name|
  {
    if name != "" {
      ClosesStep(s, i, name, q);
      if name[0] == '\\' {
        var r := Scan(s, i + 2, q, false);
        assert Scan(s, i, q, false).value == [s[i + 1]] + r.value;
        assert ([s[i + 1]] + r.value)[1..] == r.value;
        if |name| > 1 && name[1] == '\\' {
          ClosesStep(s, i + 1, name[1..], q);
          assert name[1..][1..] == name[2..];
          BackslashesHalved(s, i + 2, name[2..], q);
        }
      }
    }
  }

  lemma {:induction false} BackslashIsLost(s: string, i: nat, name: string, q: char)
    requires CString(s) && i < |s| && (q == '"' || q == '\'') && ClosesAfter(s, i, name, q) && '\\' in name
    ensures Scan(s, i, q, false).value != name
    decreases |name|
  {
    if name[0] == '\\' {
      BackslashesHalved(s, i, name, q);
    } else {
      ClosesStep(s, i, name, q);
      var n := if name[0] == q then 2 else 1;
      assert name == [name[0]] + name[1..];
      BackslashIsLost(s, i + n, name[1..], q);
      var v := Scan(s, i + n, q, false).value;
      assert Scan(s, i, q, false).value == [name[0]] + v;
      assert ([name[0]] + v)[1..] == v;
    }
  }

  /** Quoted the way a dump with ANSI quotes writes it, a name comes back exactly if it has no backslash. */
  lemma AnsiQuotedNameReturns(s: string, a: nat, b: nat, p: nat, name: string)
    requires CommandLine(s, a, b, p, name, '"') && name != ""
    ensures HasLetter(s) && (Argument(s) == Some(name) <==> '\\' !in name)
  {
    CommandSkipped(s, a, b, p, name, '"');
    if '\\' in name {
      BackslashIsLost(s, p + 1, name, '"');
    } else {
      ScanQuoted(s, p + 1, name, '"');
    }
  }

  /** For example, the database `a\b` cannot be named so. */
  lemma BackslashedNameIsLost(s: string)
    requires s == "use " + Quoted("a\\b", '"') + [NUL]
    ensures CString(s) && HasLetter(s) && Argument(s) != Some("a\\b")
  {
    var name := "a\\b";
    assert s == "use" + " " + Quoted(name, '"') + "" + [NUL];
    QuotedLine("use", name, '"', "", s);
    assert name[1] == '\\';
    AnsiQuotedNameReturns(s, 0, 3, 4, name);
  }
}
