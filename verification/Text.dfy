/** Character classes and string helpers shared by the models of the client programs. */
module Text {

  /** The terminator of a C string; the clients also use it for "no quote is open". */
  const NUL: char := '\0'

  /** `my_isspace` for a single-byte character set: the six ASCII blanks. */
  predicate IsSpace(c: char) {
    c == ' ' || 9 as char <= c <= 13 as char
  }

  predicate IsQuote(c: char) {
    c == '\'' || c == '"' || c == '`'
  }

  function ToLower(c: char): char {
    if 'A' <= c <= 'Z' then (c as int + 32) as char else c
  }

  /** `is_prefix`: does `s`, read from index `i`, start with `t`? */
  predicate StartsAt(s: string, i: nat, t: string) {
    i + |t| <= |s| && s[i..i + |t|] == t
  }

  lemma StartsWithItsHead(s: string, i: nat, t: string)
    requires i < |s| && t != ""
    ensures s[i] != t[0] ==> !StartsAt(s, i, t)
  {
    if StartsAt(s, i, t) {
      assert s[i] == s[i..i + |t|][0];
    }
  }

  /** Does `t` occur anywhere in `s`? */
  predicate Occurs(t: string, s: string) {
    exists i :: 0 <= i <= |s| && StartsAt(s, i, t)
  }

  /** Index of the first NUL at or after `i`: the end of the C string that starts at `i`. */
  function CEnd(s: string, i: nat): (e: nat)
    requires i < |s| && s[|s| - 1] == NUL
    ensures i <= e < |s| && s[e] == NUL
    ensures forall k :: i <= k < e ==> s[k] != NUL
    decreases |s| - i
  {
    if s[i] == NUL then i else CEnd(s, i + 1)
  }
}
