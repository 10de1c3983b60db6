/** CDATA sections and comments in XML dumps, read back by the rules of XML 1.0. */
module Xml {
  import opened Text

  // ---------------------------------------------------------------------------------------------
  // CDATA sections
  // ---------------------------------------------------------------------------------------------

  const OPEN := "<![CDATA["

  /** Does a closing mark stand at the start of `t`? */
  predicate Closes(t: string) {
    |t| > 2 && t[0] == ']' && t[1] == ']' && t[2] == '>'
  }

  predicate Opens(t: string) {
    |t| > 8 && t[..9] == OPEN
  }

  /** What stands for a closing mark: the end of a section inside it and the start of another. */
  const SPLIT := "]]" + "]]>" + OPEN + ">"

  /** The text with `mark` in place of each closing mark. */
  function Body(s: string, mark: string): string {
    if s == "" then ""
    else if Closes(s) then mark + Body(s[3..], mark)
    else [s[0]] + Body(s[1..], mark)
  }

  function Section(s: string): string {
    OPEN + "\n" + Body(s, SPLIT) + "\n" + "]]>" + "\n"
  }

  lemma BodyAt(s: string, i: nat, mark: string)
    requires i < |s|
    ensures Body(s[i..], mark) == if Closes(s[i..]) then mark + Body(s[i + 3..], mark) else [s[i]] + Body(s[i + 1..], mark)
  {
    if Closes(s[i..]) {
      assert s[i..][3..] == s[i + 3..];
    } else {
      assert s[i..][1..] == s[i + 1..];
    }
  }

  /** The loop over the characters. */
  method PrintBody(str: array<char>, len: nat, mark: string) returns (out: string)
    requires len < str.Length && str[len] == NUL && NUL !in str[..len]
    ensures out == Body(str[..len], mark)
  {
    ghost var s := str[..len];
    out := "";
    var i := 0;
    while i < len
      invariant i <= len && out + Body(s[i..], mark) == Body(s, mark)
    {
      BodyAt(s, i, mark);
      assert forall k :: i <= k < len ==> s[i..][k - i] == str[k] != NUL;
      if str[i] == ']' && str[i + 1] == ']' && str[i + 2] == '>' {
        assert out + (mark + Body(s[i + 3..], mark)) == out + mark + Body(s[i + 3..], mark);
        out, i := out + mark, i + 3;
      } else {
        assert out + ([s[i]] + Body(s[i + 1..], mark)) == out + [s[i]] + Body(s[i + 1..], mark);
        out, i := out + [str[i]], i + 1;
      }
    }
    assert out + "" == out;
  }

  /** `print_xml_cdata`: the text is a C string, so reading ahead stops at its terminator. */
  method PrintCdata(str: array<char>, len: nat) returns (out: string)
    requires len < str.Length && str[len] == NUL && NUL !in str[..len]
    ensures out == Section(str[..len])
  {
    var body := PrintBody(str, len, SPLIT);
    out := OPEN + "\n" + body + "\n" + "]]>" + "\n";
  }

  datatype Parse = Malformed | Parsed(text: string, rest: string)

  function Prepend(t: string, p: Parse): Parse {
    match p case Malformed => Malformed case Parsed(text, rest) => Parsed(t + text, rest)
  }

  /**
   Inside a section (section 2.7 of XML 1.0): everything is text up to the first closing mark; a section
   that follows at once continues the text.
   */
  function InSection(t: string): Parse
    decreases |t|
  {
    if t == "" then Malformed
    else if Closes(t) then (if Opens(t[3..]) then InSection(t[12..]) else Parsed("", t[3..]))
    else Prepend([t[0]], InSection(t[1..]))
  }

  /** Character data that starts with a section. */
  function ParseCdata(t: string): Parse {
    if Opens(t) then InSection(t[9..]) else Malformed
  }

  lemma FirstChar(s: string, mark: string, tail: string)
    requires tail != "" && mark != "" && mark[0] == ']'
    ensures (Body(s, mark) + tail)[0] == (s + tail)[0]
  {
  }

  lemma LastDoesNotClose(s: string, mark: string, tail: string)
    requires |s| == 1 && |tail| > 1 && tail[0] == '\n'
    ensures !Closes(Body(s, mark) + tail)
  {
    assert s[1..] == "" && (Body(s, mark) + tail)[1] == '\n';
  }

  lemma BeforeMark(s: string, mark: string, tail: string)
    requires |s| > 1 && !Closes(s) && Closes(s[1..]) && |mark| > 1 && mark[1] == ']'
    ensures !Closes(Body(s, mark) + tail)
  {
    assert Body(s[1..], mark) == mark + Body(s[1..][3..], mark);
    assert Body(s, mark) == [s[0]] + Body(s[1..], mark);
    var t := Body(s, mark) + tail;
    assert t[2] == Body(s[1..], mark)[1] == mark[1];
  }

  lemma BeforeOrdinary(s: string, mark: string, tail: string)
    requires |s| > 1 && !Closes(s) && !Closes(s[1..]) && tail != "" && tail[0] != '>' && mark != "" && mark[0] == ']'
    ensures !Closes(Body(s, mark) + tail)
  {
    var rest := Body(s[2..], mark) + tail;
    assert s[1..][1..] == s[2..];
    assert Body(s, mark) + tail == [s[0]] + ([s[1]] + rest);
    FirstChar(s[2..], mark, tail);
  }

  /** A body never contains a closing mark the text does not. */
  lemma NoEarlyClose(s: string, mark: string, tail: string)
    requires s != "" && |tail| > 1 && tail[0] == '\n' && !Closes(s)
    requires |mark| > 1 && mark[0] == mark[1] == ']'
    ensures !Closes(Body(s, mark) + tail)
  {
    if |s| == 1 {
      LastDoesNotClose(s, mark, tail);
    } else if Closes(s[1..]) {
      BeforeMark(s, mark, tail);
    } else {
      BeforeOrdinary(s, mark, tail);
    }
  }

  lemma ReadOne(t: string, c: char, u: string)
    requires t == [c] + u && !Closes(t)
    ensures InSection(t) == Prepend([c], InSection(u))
  {
    assert t[1..] == u;
  }

  lemma PrependTwice(a: string, b: string, p: Parse)
    ensures Prepend(a, Prepend(b, p)) == Prepend(a + b, p)
  {
    if p.Parsed? {
      assert a + (b + p.text) == a + b + p.text;
    }
  }

  /** The split form of a closing mark reads as the mark. */
  lemma SplitMark(u: string)
    ensures InSection(SPLIT + u) == Prepend("]]>", InSection(u))
  {
    var t3 := ">" + u;
    var t2 := "]]>" + OPEN + t3;
    assert t2[3..] == OPEN + t3 && t2[3..][..9] == OPEN && t2[12..] == t3;
    ReadOne(t3, '>', u);
    var t1 := [']'] + t2;
    var t0 := [']'] + t1;
    ReadOne(t1, ']', t2);
    ReadOne(t0, ']', t1);
    PrependTwice("]", ">", InSection(u));
    PrependTwice("]", "]>", InSection(u));
    assert SPLIT + u == t0;
  }

  lemma BodyOfMark(s: string, mark: string, tail: string)
    requires Closes(s)
    ensures Body(s, mark) + tail == mark + (Body(s[3..], mark) + tail)
  {
  }

  lemma BodyOfChar(s: string, mark: string, tail: string)
    requires s != "" && !Closes(s)
    ensures Body(s, mark) + tail == [s[0]] + (Body(s[1..], mark) + tail)
  {
  }

  lemma PrependParsed(t: string, p: Parse, u: string, rest: string)
    requires p == Parsed(u + "\n", rest)
    ensures Prepend(t, p) == Parsed(t + u + "\n", rest)
  {
    assert t + (u + "\n") == t + u + "\n";
  }

  lemma ReadsEnd(tail: string, rest: string)
    requires tail == "\n" + "]]>" + rest && !Opens(rest)
    ensures InSection(tail) == Parsed("\n", rest)
  {
    var t := "]]>" + rest;
    assert tail == ['\n'] + t && t[3..] == rest;
    ReadOne(tail, '\n', t);
  }

  /** Reading one piece `t` of the text and then the rest `u` of it gives both. */
  lemma Continues(whole: string, t: string, text: string, u: string, rest: string)
    requires InSection(whole) == Prepend(t, InSection(text)) && InSection(text) == Parsed(u + "\n", rest)
    ensures InSection(whole) == Parsed(t + u + "\n", rest)
  {
    PrependParsed(t, InSection(text), u, rest);
  }

  lemma {:induction false} BodyParses(s: string, tail: string, rest: string)
    requires |tail| > 1 && tail[0] == '\n' && InSection(tail) == Parsed("\n", rest)
    ensures InSection(Body(s, SPLIT) + tail) == Parsed(s + "\n", rest)
    decreases |s|
  {
    if s == "" {
      assert Body(s, SPLIT) + tail == tail && s + "\n" == "\n";
    } else if Closes(s) {
      var text := Body(s[3..], SPLIT) + tail;
      BodyOfMark(s, SPLIT, tail);
      SplitMark(text);
      BodyParses(s[3..], tail, rest);
      Continues(SPLIT + text, "]]>", text, s[3..], rest);
      assert "]]>" + s[3..] == s;
    } else {
      var text := Body(s[1..], SPLIT) + tail;
      BodyOfChar(s, SPLIT, tail);
      NoEarlyClose(s, SPLIT, tail);
      ReadOne([s[0]] + text, s[0], text);
      BodyParses(s[1..], tail, rest);
      Continues([s[0]] + text, [s[0]], text, s[1..], rest);
      assert [s[0]] + s[1..] == s;
    }
  }

  /** Every text comes back from its section with one newline on each side, and nothing of it ends the section. */
  lemma CdataReadsBack(s: string)
    ensures ParseCdata(Section(s)) == Parsed("\n" + s + "\n", "\n")
  {
    var tail := "\n" + "]]>" + "\n";
    var u, t := Body(s, SPLIT) + tail, Section(s);
    assert t == OPEN + (['\n'] + u) && t[9..] == ['\n'] + u && t[..9] == OPEN;
    ReadsEnd(tail, "\n");
    BodyParses(s, tail, "\n");
    ReadOne(['\n'] + u, '\n', u);
    assert ['\n'] + (s + "\n") == "\n" + s + "\n";
  }

  // ---------------------------------------------------------------------------------------------
  // Comments
  // ---------------------------------------------------------------------------------------------

  /** The text with each run of hyphens squeezed to one: a hyphen before a hyphen is dropped. */
  function Squeeze(s: string): string {
    if s == "" then ""
    else if s[0] == '-' && |s| > 1 && s[1] == '-' then Squeeze(s[1..])
    else [s[0]] + Squeeze(s[1..])
  }

  /** `print_xml_comment`. */
  method PrintComment(str: array<char>, len: nat) returns (out: string)
    requires len < str.Length && str[len] == NUL
    ensures out == "<!-- " + Squeeze(str[..len]) + " -->\n"
  {
    ghost var s := str[..len];
    out := "<!-- ";
    ghost var done := "";
    var i := 0;
    while i < len
      invariant i <= len && out == "<!-- " + done && done + Squeeze(s[i..]) == Squeeze(s)
    {
      assert s[i..][1..] == s[i + 1..];
      assert i + 1 < len ==> s[i..][1] == str[i + 1];
      if !(str[i] == '-' && str[i + 1] == '-') {
        out := out + [str[i]];
        done := done + [str[i]];
      }
      i := i + 1;
    }
    assert done + "" == done;
    out := out + " -->\n";
  }

  /** Section 2.5 of XML 1.0: a comment holds no double hyphen and does not end in a hyphen before its mark. */
  predicate NoDoubleHyphen(t: string) {
    forall k :: 0 <= k < |t| - 1 ==> !(t[k] == '-' && t[k + 1] == '-')
  }

  lemma {:induction false} SqueezeFirst(s: string)
    ensures s != "" ==> Squeeze(s) != "" && Squeeze(s)[0] == s[0]
  {
    if s != "" {
      SqueezeFirst(s[1..]);
    }
  }

  lemma {:induction false} SqueezedHasNoDouble(s: string)
    ensures NoDoubleHyphen(Squeeze(s))
  {
    if s != "" {
      SqueezedHasNoDouble(s[1..]);
      SqueezeFirst(s[1..]);
    }
  }

  /** The whole comment is well formed: between its marks there is no double hyphen, nor a hyphen before the end mark. */
  lemma CommentIsWellFormed(s: string)
    ensures var inside := " " + Squeeze(s) + " ";
      && "<!-- " + Squeeze(s) + " -->\n" == "<!--" + inside + "-->\n"
      && NoDoubleHyphen(inside) && inside[|inside| - 1] != '-'
  {
    SqueezedHasNoDouble(s);
    var q := Squeeze(s);
    var inside := " " + q + " ";
    assert forall k :: 0 < k < |inside| - 1 ==> inside[k] == q[k - 1];
    assert "<!-- " + q + " -->\n" == "<!--" + inside + "-->\n";
  }

  /** Hyphens only: a text without a double hyphen is printed as it is, and other characters are never lost. */
  function WithoutHyphens(s: string): string {
    if s == "" then "" else (if s[0] == '-' then "" else [s[0]]) + WithoutHyphens(s[1..])
  }

  lemma {:induction false} SqueezeKeepsText(s: string)
    ensures WithoutHyphens(Squeeze(s)) == WithoutHyphens(s)
    ensures NoDoubleHyphen(s) ==> Squeeze(s) == s
  {
    if s != "" {
      SqueezeKeepsText(s[1..]);
      var q := Squeeze(s[1..]);
      assert ([s[0]] + q)[1..] == q;
      assert NoDoubleHyphen(s) ==> NoDoubleHyphen(s[1..]) by {
        assert forall k :: 0 <= k < |s| - 1 ==> s[1..][k] == s[k + 1];
      }
    }
  }
}
