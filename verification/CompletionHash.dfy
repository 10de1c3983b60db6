/** The tab-completion index: a chained hash table of all prefixes of all words. */
module CompletionHash {

  type Word = w: string | forall c :: c in w ==> c != '\0' witness ""

  /** A `char` of the source as it enters the hash: sign-extended to 32 bits. */
  function Extend(c: char): bv32 {
    var b := c as int % 256;
    if b < 128 then b as bv32 else 0xFFFF_FF00 | (b as bv32)
  }

  function HashStep(h: bv32, c: char): bv32 {
    var h1 := (h << 4) + Extend(c);
    var g := h1 & 0xF000_0000;
    if g != 0 then (h1 ^ (g >> 24)) ^ g else h1
  }

  function Hash(key: string): (h: bv32)
    ensures h < 0x1000_0000
  {
    if key == "" then 0 else HashStep(Hash(key[..|key| - 1]), key[|key| - 1])
  }

  /** `hashpjw`: the accumulating loop. */
  method HashPjw(key: string) returns (h: bv32)
    ensures h == Hash(key)
  {
    h := 0;
    for i := 0 to |key|
      invariant h == Hash(key[..i])
    {
      assert key[..i + 1][..i] == key[..i];
      h := HashStep(h, key[i]);
    }
    assert key[..|key|] == key;
  }

  // ---------------------------------------------------------------------------------------------
  // The reference: plain lists of words
  // ---------------------------------------------------------------------------------------------

  /** The words of the list that start with `k`, newest first. */
  function WithPrefix(words: seq<Word>, k: string): seq<Word> {
    if words == [] then []
    else
      var last := words[|words| - 1];
      (if k <= last then [last] else []) + WithPrefix(words[..|words| - 1], k)
  }

  /** One update of the table: the first `len` characters of `word` are a key for `word`. */
  datatype Entry = Entry(word: Word, len: nat)

  predicate ValidEntry(e: Entry) {
    0 < e.len <= |e.word|
  }

  function Key(e: Entry): string
    requires ValidEntry(e)
  {
    e.word[..e.len]
  }

  predicate ValidLog(log: seq<Entry>) {
    forall k :: 0 <= k < |log| ==> ValidEntry(log[k])
  }

  /** The words entered under the key `k`, newest first. */
  function Matching(log: seq<Entry>, k: string): seq<Word>
    requires ValidLog(log)
  {
    if log == [] then []
    else
      var last := log[|log| - 1];
      (if Key(last) == k then [last.word] else []) + Matching(log[..|log| - 1], k)
  }

  /** The updates `add_word` makes: one for each nonempty prefix. */
  function Prefixes(w: Word, n: nat): (log: seq<Entry>)
    requires n <= |w|
    ensures ValidLog(log) && |log| == n
  {
    seq(n, k requires 0 <= k < n => Entry(w, k + 1))
  }

  function LogOf(words: seq<Word>): (log: seq<Entry>)
    ensures ValidLog(log)
  {
    if words == [] then []
    else var w := words[|words| - 1]; LogOf(words[..|words| - 1]) + Prefixes(w, |w|)
  }

  lemma PrefixesSnoc(log: seq<Entry>, w: Word, n: nat)
    requires 0 < n <= |w|
    ensures log + Prefixes(w, n - 1) + [Entry(w, n)] == log + Prefixes(w, n)
  {
  }

  lemma LogOfSnoc(words: seq<Word>, w: Word)
    ensures LogOf(words + [w]) == LogOf(words) + Prefixes(w, |w|)
  {
    assert (words + [w])[..|words|] == words;
  }

  lemma {:induction false} MatchingPrefixes(log: seq<Entry>, w: Word, n: nat, k: string)
    requires ValidLog(log) && n <= |w|
    ensures Matching(log + Prefixes(w, n), k)
         == (if k != "" && |k| <= n && k <= w then [w] else []) + Matching(log, k)
  {
    if n == 0 {
      assert log + Prefixes(w, n) == log;
    } else {
      var l := log + Prefixes(w, n);
      assert l[..|l| - 1] == log + Prefixes(w, n - 1);
      assert l[|l| - 1] == Entry(w, n);
      MatchingPrefixes(log, w, n - 1, k);
    }
  }

  /** After adding `words`, exactly the words with prefix `k` are entered under a nonempty key `k`. */
  lemma {:induction false} MatchingIsWithPrefix(words: seq<Word>, k: string)
    ensures Matching(LogOf(words), k) == if k == "" then [] else WithPrefix(words, k)
  {
    if words != [] {
      var w := words[|words| - 1];
      MatchingIsWithPrefix(words[..|words| - 1], k);
      MatchingPrefixes(LogOf(words[..|words| - 1]), w, |w|, k);
    }
  }

  /** Some word starts with `k`, and `w` is the first of the list that does. */
  ghost predicate FirstWithPrefix(words: seq<Word>, k: string, w: Word) {
    exists i :: 0 <= i < |words| && words[i] == w && k <= w && forall j :: 0 <= j < i ==> !(k <= words[j])
  }

  lemma {:induction false} SomeHasPrefix(words: seq<Word>, k: string, j: nat)
    requires j < |words| && k <= words[j]
    ensures WithPrefix(words, k) != []
  {
    if j < |words| - 1 {
      SomeHasPrefix(words[..|words| - 1], k, j);
    }
  }

  /** The last of the words with prefix `k`, newest first, is the first of the list with that prefix. */
  lemma {:induction false} OldestAt(words: seq<Word>, k: string) returns (i: nat)
    requires WithPrefix(words, k) != []
    ensures var m := WithPrefix(words, k);
      i < |words| && words[i] == m[|m| - 1] && k <= words[i] && forall j :: 0 <= j < i ==> !(k <= words[j])
  {
    var before := words[..|words| - 1];
    if WithPrefix(before, k) != [] {
      i := OldestAt(before, k);
    } else {
      i := |words| - 1;
      forall j | 0 <= j < i
        ensures !(k <= words[j])
      {
        if k <= before[j] {
          SomeHasPrefix(before, k, j);
        }
      }
    }
  }

  lemma OldestIsFirst(words: seq<Word>, k: string, w: Word)
    ensures var m := WithPrefix(words, k);
      m != [] && m[|m| - 1] == w <==> FirstWithPrefix(words, k, w)
  {
    if FirstWithPrefix(words, k, w) {
      var i :| 0 <= i < |words| && words[i] == w && k <= w && forall j :: 0 <= j < i ==> !(k <= words[j]);
      SomeHasPrefix(words, k, i);
    }
    if WithPrefix(words, k) != [] {
      var _ := OldestAt(words, k);
    }
  }

  lemma {:induction false} FirstIndex(words: seq<Word>, w: Word) returns (i: nat)
    requires w in words
    ensures i < |words| && words[i] == w && w !in words[..i]
    decreases |words|
  {
    var before := words[..|words| - 1];
    if w in before {
      i := FirstIndex(before, w);
      assert before[..i] == words[..i];
    } else {
      i := |words| - 1;
    }
  }

  /** No word added before the first `w` has `w` as a prefix. */
  predicate NoneBefore(words: seq<Word>, w: Word) {
    forall j :: 0 <= j < |words| && w !in words[..j] && words[j] != w ==> !(w <= words[j])
  }

  lemma NotInPrefix(words: seq<Word>, w: Word, i: nat, j: nat)
    requires i < |words| && words[i] == w && j <= |words| && w !in words[..j]
    ensures j <= i
  {
    assert forall n :: 0 <= n < j ==> words[n] == words[..j][n];
  }

  /** Of the added words, exactly those with no earlier word of that prefix are the first with it. */
  lemma FirstIfNoneBefore(words: seq<Word>, w: Word)
    requires w in words
    ensures FirstWithPrefix(words, w, w) <==> NoneBefore(words, w)
  {
    var i := FirstIndex(words, w);
    if NoneBefore(words, w) {
      assert forall j :: 0 <= j < i ==> w !in words[..j] && words[j] != w;
    } else {
      var j :| 0 <= j < |words| && w !in words[..j] && words[j] != w && w <= words[j];
      NotInPrefix(words, w, i, j);
    }
  }

  /** For example, "a" added after "ab" is not the first word with its prefix. */
  lemma AddedButNotFirst()
    ensures "a" in ["ab", "a"] && !FirstWithPrefix(["ab", "a"], "a", "a")
  {
    var words := ["ab", "a"];
    assert words[1] == "a" && words[0][..1] == "a";
    assert "a" !in words[..0] && words[0] != "a" && "a" <= words[0];
    FirstIfNoneBefore(words, "a");
  }

  /** A longer prefix selects fewer words, or the same ones. */
  lemma {:induction false} LongerPrefix(words: seq<Word>, k: string, k': string)
    requires k <= k'
    ensures |WithPrefix(words, k')| <= |WithPrefix(words, k)|
    ensures |WithPrefix(words, k')| == |WithPrefix(words, k)| ==> WithPrefix(words, k') == WithPrefix(words, k)
  {
    if words != [] {
      LongerPrefix(words[..|words| - 1], k, k');
    }
  }

  lemma {:induction false} CommonPrefix(words: seq<Word>, k: string, k': string)
    requires k <= k' && forall w :: w in WithPrefix(words, k) ==> k' <= w
    ensures WithPrefix(words, k') == WithPrefix(words, k)
  {
    if words != [] {
      var before, last := words[..|words| - 1], words[|words| - 1];
      assert k <= last ==> last in WithPrefix(words, k);
      assert forall w :: w in WithPrefix(before, k) ==> w in WithPrefix(words, k);
      CommonPrefix(before, k, k');
    }
  }

  lemma {:induction false} WithPrefixHas(words: seq<Word>, k: string)
    ensures forall w :: w in WithPrefix(words, k) ==> k <= w && w in words
  {
    if words != [] {
      WithPrefixHas(words[..|words| - 1], k);
    }
  }

  /** `p` starts all the words, and nothing longer does. */
  ghost predicate LongestCommonPrefix(ws: seq<Word>, p: string) {
    && (forall w :: w in ws ==> p <= w)
    && forall q: string :: (forall w :: w in ws ==> q <= w) ==> |q| <= |p|
  }

  // ---------------------------------------------------------------------------------------------
  // The table
  // ---------------------------------------------------------------------------------------------

  /** `word` is the string the key points into; the key is its first `len` characters. */
  datatype Bucket = Bucket(h: bv32, word: Word, len: nat, count: nat, data: seq<Word>)

  function KeyOf(b: Bucket): string {
    if b.len <= |b.word| then b.word[..b.len] else b.word
  }

  /** The one bucket that can stand for key `k` after the given updates. */
  function BucketFor(log: seq<Entry>, k: string): (b: Bucket)
    requires ValidLog(log) && Matching(log, k) != []
  {
    var m := Matching(log, k);
    Bucket(Hash(k), m[|m| - 1], |k|, |m|, m)
  }

  lemma {:induction false} OldestHasKey(log: seq<Entry>, k: string)
    requires ValidLog(log)
    ensures forall w :: w in Matching(log, k) ==> k <= w
    ensures k == "" ==> Matching(log, k) == []
  {
    if log != [] {
      OldestHasKey(log[..|log| - 1], k);
    }
  }

  function Slot(k: string, size: nat): (i: nat)
    requires size > 0
    ensures i < size
  {
    Hash(k) as int % size
  }

  ghost predicate HasKey(chain: seq<Bucket>, k: string) {
    exists j :: 0 <= j < |chain| && KeyOf(chain[j]) == k
  }

  ghost predicate BucketOk(b: Bucket, i: nat, size: nat, log: seq<Entry>)
    requires ValidLog(log) && size > 0
  {
    var k := KeyOf(b);
    Matching(log, k) != [] && b == BucketFor(log, k) && Slot(k, size) == i
  }

  /** The buckets of one chain: the right content, in the right slot, no key twice. */
  ghost predicate ChainOk(chain: seq<Bucket>, i: nat, size: nat, log: seq<Entry>)
    requires ValidLog(log) && size > 0
  {
    && (forall j :: 0 <= j < |chain| ==> BucketOk(chain[j], i, size, log))
    && (forall j, j' :: 0 <= j < j' < |chain| ==> KeyOf(chain[j]) != KeyOf(chain[j']))
  }

  lemma KeyOfBucketFor(log: seq<Entry>, k: string)
    requires ValidLog(log) && Matching(log, k) != []
    ensures KeyOf(BucketFor(log, k)) == k
  {
    OldestHasKey(log, k);
    var m := Matching(log, k);
    assert m[|m| - 1] in m;
  }

  /** Entering `e` puts its word in front under its key and changes nothing under any other key. */
  lemma MatchingAfter(log: seq<Entry>, e: Entry, k: string)
    requires ValidLog(log) && ValidEntry(e)
    ensures ValidLog(log + [e])
    ensures Matching(log + [e], k) == (if Key(e) == k then [e.word] else []) + Matching(log, k)
  {
    assert (log + [e])[..|log|] == log;
  }

  lemma BucketKeeps(b: Bucket, i: nat, size: nat, log: seq<Entry>, e: Entry)
    requires ValidLog(log) && ValidEntry(e) && size > 0 && BucketOk(b, i, size, log) && KeyOf(b) != Key(e)
    ensures ValidLog(log + [e]) && BucketOk(b, i, size, log + [e])
  {
    MatchingAfter(log, e, KeyOf(b));
  }

  lemma ChainKeeps(chain: seq<Bucket>, i: nat, size: nat, log: seq<Entry>, e: Entry)
    requires ValidLog(log) && ValidEntry(e) && size > 0 && ChainOk(chain, i, size, log)
    requires !HasKey(chain, Key(e))
    ensures ValidLog(log + [e]) && ChainOk(chain, i, size, log + [e])
  {
    forall j | 0 <= j < |chain|
      ensures BucketOk(chain[j], i, size, log + [e])
    {
      BucketKeeps(chain[j], i, size, log, e);
    }
  }

  /** The bucket of the key entered: the word in front, and counted. */
  function Grown(b: Bucket, word: Word): Bucket {
    b.(count := b.count + 1, data := [word] + b.data)
  }

  lemma BucketGrows(b: Bucket, i: nat, size: nat, log: seq<Entry>, e: Entry)
    requires ValidLog(log) && ValidEntry(e) && size > 0 && BucketOk(b, i, size, log) && KeyOf(b) == Key(e)
    ensures ValidLog(log + [e]) && KeyOf(Grown(b, e.word)) == Key(e) && BucketOk(Grown(b, e.word), i, size, log + [e])
  {
    MatchingAfter(log, e, Key(e));
    var m := Matching(log, Key(e));
    assert ([e.word] + m)[|m|] == m[|m| - 1];
  }

  lemma NewBucket(i: nat, size: nat, log: seq<Entry>, e: Entry)
    requires ValidLog(log) && ValidEntry(e) && size > 0 && Matching(log, Key(e)) == [] && Slot(Key(e), size) == i
    ensures var b := Bucket(Hash(Key(e)), e.word, e.len, 1, [e.word]);
      ValidLog(log + [e]) && KeyOf(b) == Key(e) && BucketOk(b, i, size, log + [e])
  {
    MatchingAfter(log, e, Key(e));
  }

  /** What an update does to the chain of its slot. */
  ghost predicate ChainUpdated(chain: seq<Bucket>, chain': seq<Bucket>, i: nat, size: nat, log: seq<Entry>, e: Entry)
    requires ValidLog(log) && ValidEntry(e) && size > 0
  {
    && ValidLog(log + [e]) && ChainOk(chain', i, size, log + [e])
    && forall k :: HasKey(chain, k) || k == Key(e) ==> HasKey(chain', k)
  }

  lemma ChainGrowsAt(chain: seq<Bucket>, i: nat, size: nat, log: seq<Entry>, e: Entry, p: nat)
    requires ValidLog(log) && ValidEntry(e) && size > 0 && ChainOk(chain, i, size, log)
    requires p < |chain| && KeyOf(chain[p]) == Key(e)
    ensures ChainUpdated(chain, chain[p := Grown(chain[p], e.word)], i, size, log, e)
  {
    var chain' := chain[p := Grown(chain[p], e.word)];
    BucketGrows(chain[p], i, size, log, e);
    forall j | 0 <= j < |chain|
      ensures KeyOf(chain'[j]) == KeyOf(chain[j]) && BucketOk(chain'[j], i, size, log + [e])
    {
      if j != p {
        BucketKeeps(chain[j], i, size, log, e);
      }
    }
  }

  lemma FrontKeys(b: Bucket, chain: seq<Bucket>, k: string)
    requires HasKey(chain, k) || k == KeyOf(b)
    ensures HasKey([b] + chain, k)
  {
    var chain' := [b] + chain;
    if k == KeyOf(b) {
      assert chain'[0] == b;
    } else {
      var j :| 0 <= j < |chain| && KeyOf(chain[j]) == k;
      assert chain'[j + 1] == chain[j];
    }
  }

  lemma FrontOk(b: Bucket, chain: seq<Bucket>, i: nat, size: nat, log: seq<Entry>)
    requires ValidLog(log) && size > 0 && ChainOk(chain, i, size, log) && BucketOk(b, i, size, log)
    requires !HasKey(chain, KeyOf(b))
    ensures ChainOk([b] + chain, i, size, log)
  {
    var chain' := [b] + chain;
    assert chain'[0] == b && forall j :: 0 < j < |chain'| ==> chain'[j] == chain[j - 1];
  }

  lemma NotYetThere(chain: seq<Bucket>, i: nat, size: nat, log: seq<Entry>, k: string)
    requires ValidLog(log) && size > 0 && ChainOk(chain, i, size, log) && Matching(log, k) == []
    ensures !HasKey(chain, k)
  {
    forall j | 0 <= j < |chain|
      ensures KeyOf(chain[j]) != k
    {
      assert BucketOk(chain[j], i, size, log);
    }
  }

  lemma ChainGrowsInFront(chain: seq<Bucket>, i: nat, size: nat, log: seq<Entry>, e: Entry)
    requires ValidLog(log) && ValidEntry(e) && size > 0 && ChainOk(chain, i, size, log)
    requires Matching(log, Key(e)) == [] && i == Slot(Key(e), size)
    ensures ChainUpdated(chain, [Bucket(Hash(Key(e)), e.word, e.len, 1, [e.word])] + chain, i, size, log, e)
  {
    var b := Bucket(Hash(Key(e)), e.word, e.len, 1, [e.word]);
    NotYetThere(chain, i, size, log, Key(e));
    NewBucket(i, size, log, e);
    ChainKeeps(chain, i, size, log, e);
    FrontOk(b, chain, i, size, log + [e]);
    forall k | HasKey(chain, k) || k == Key(e)
      ensures HasKey([b] + chain, k)
    {
      FrontKeys(b, chain, k);
    }
  }

  /** The whole table: every chain as it should be, every key that was entered in its chain. */
  ghost predicate TableOk(table: seq<seq<Bucket>>, log: seq<Entry>) {
    && |table| > 0 && ValidLog(log)
    && (forall i :: 0 <= i < |table| ==> ChainOk(table[i], i, |table|, log))
    && (forall k :: Matching(log, k) != [] ==> HasKey(table[Slot(k, |table|)], k))
  }

  lemma TableUpdated(table: seq<seq<Bucket>>, i: nat, chain: seq<Bucket>, log: seq<Entry>, e: Entry)
    requires ValidEntry(e) && TableOk(table, log) && i == Slot(Key(e), |table|)
    requires ChainUpdated(table[i], chain, i, |table|, log, e)
    ensures TableOk(table[i := chain], log + [e])
  {
    var table' := table[i := chain];
    forall n | 0 <= n < |table| && n != i
      ensures ChainOk(table[n], n, |table|, log + [e])
    {
      assert !HasKey(table[n], Key(e));
      ChainKeeps(table[n], n, |table|, log, e);
    }
    forall k | Matching(log + [e], k) != []
      ensures HasKey(table'[Slot(k, |table|)], k)
    {
      MatchingAfter(log, e, k);
    }
  }

  /** Comparing hash, length and bytes decides whether a bucket has a key. */
  lemma BucketMatches(b: Bucket, i: nat, size: nat, log: seq<Entry>, key: string)
    requires ValidLog(log) && size > 0 && BucketOk(b, i, size, log)
    ensures b.len <= |b.word|
    ensures (b.h == Hash(key) && b.len == |key| && b.word[..|key|] == key) <==> KeyOf(b) == key
  {
    KeyOfBucketFor(log, KeyOf(b));
  }

  /** The first bucket with the key, or the end of its chain, decides what was entered under it. */
  lemma SearchResult(table: seq<seq<Bucket>>, log: seq<Entry>, key: string, p: nat)
    requires TableOk(table, log) && p <= |table[Slot(key, |table|)]|
    requires forall j :: 0 <= j < p ==> KeyOf(table[Slot(key, |table|)][j]) != key
    requires p < |table[Slot(key, |table|)]| ==> KeyOf(table[Slot(key, |table|)][p]) == key
    ensures var chain := table[Slot(key, |table|)];
      && (p < |chain| <==> Matching(log, key) != [])
      && (p < |chain| ==> chain[p] == BucketFor(log, key))
  {
    var chain := table[Slot(key, |table|)];
    assert ChainOk(chain, Slot(key, |table|), |table|, log);
    if p < |chain| {
      assert BucketOk(chain[p], Slot(key, |table|), |table|, log);
    }
  }

  ghost predicate KeyAndWord(b: Bucket, w: Word) {
    KeyOf(b) == w && b.word == w
  }

  lemma WholeMatches(b: Bucket, i: nat, size: nat, log: seq<Entry>, w: Word)
    requires ValidLog(log) && size > 0 && BucketOk(b, i, size, log)
    ensures (b.h == Hash(w) && b.len == |w| && b.word == w) <==> KeyAndWord(b, w)
  {
    BucketMatches(b, i, size, log, w);
    assert w[..|w|] == w;
  }

  ghost predicate ChainHasWhole(chain: seq<Bucket>, w: Word) {
    exists j :: 0 <= j < |chain| && KeyAndWord(chain[j], w)
  }

  lemma BucketOfKey(table: seq<seq<Bucket>>, log: seq<Entry>, w: Word, j: nat)
    requires TableOk(table, log) && j < |table[Slot(w, |table|)]| && KeyOf(table[Slot(w, |table|)][j]) == w
    ensures Matching(log, w) != [] && table[Slot(w, |table|)][j] == BucketFor(log, w)
  {
    var i := Slot(w, |table|);
    assert ChainOk(table[i], i, |table|, log);
    assert BucketOk(table[i][j], i, |table|, log);
  }

  /** Some bucket of the chain has the whole word as its key exactly if the word came first under it. */
  lemma SearchWhole(table: seq<seq<Bucket>>, log: seq<Entry>, w: Word)
    requires TableOk(table, log)
    ensures var m := Matching(log, w);
      (m != [] && m[|m| - 1] == w) <==> ChainHasWhole(table[Slot(w, |table|)], w)
  {
    var chain := table[Slot(w, |table|)];
    if ChainHasWhole(chain, w) {
      var j :| 0 <= j < |chain| && KeyAndWord(chain[j], w);
      BucketOfKey(table, log, w, j);
    } else if Matching(log, w) != [] {
      assert HasKey(chain, w);
      var j :| 0 <= j < |chain| && KeyOf(chain[j]) == w;
      BucketOfKey(table, log, w, j);
      assert !KeyAndWord(chain[j], w);
    }
  }

  /** When all words share `s[..n]` but not its next character, that is their longest common prefix. */
  lemma LongestAt(words: seq<Word>, str: string, s: Word, n: nat)
    requires |str| <= n <= |s| && str <= s[..n] && s in WithPrefix(words, str)
    requires WithPrefix(words, s[..n]) == WithPrefix(words, str)
    requires n == |s| || |WithPrefix(words, s[..n + 1])| < |WithPrefix(words, str)|
    ensures LongestCommonPrefix(WithPrefix(words, str), s[..n])
  {
    var ws := WithPrefix(words, str);
    WithPrefixHas(words, s[..n]);
    forall q: string | forall w :: w in ws ==> q <= w
      ensures |q| <= n
    {
      assert q <= s;
      if n < |q| {
        var k := s[..n + 1];
        assert k <= q;
        CommonPrefix(words, str, k);
      }
    }
  }

  class HashTable {
    const buckets: array<seq<Bucket>>
    ghost var log: seq<Entry>
    ghost var words: seq<Word>

    ghost predicate Consistent()
      reads this, buckets
    {
      TableOk(buckets[..], log)
    }

    ghost predicate Valid()
      reads this, buckets
    {
      Consistent() && log == LogOf(words)
    }

    constructor (size: nat)
      requires size > 0
      ensures Valid() && words == [] && fresh(buckets)
    {
      buckets := new seq<Bucket>[size](_ => []);
      log, words := [], [];
    }

    /** The search along a chain: hash, length and bytes are compared, in that order. */
    method Locate(key: string) returns (i: nat, p: nat)
      requires Consistent()
      ensures i == Slot(key, buckets.Length) && p <= |buckets[i]|
      ensures p < |buckets[i]| <==> Matching(log, key) != []
      ensures p < |buckets[i]| ==> buckets[i][p] == BucketFor(log, key)
    {
      var h := HashPjw(key);
      i, p := h as int % buckets.Length, 0;
      var chain := buckets[i];
      assert ChainOk(buckets[..][i], i, buckets.Length, log);
      while p < |chain|
        invariant p <= |chain|
        invariant forall j :: 0 <= j < p ==> KeyOf(chain[j]) != key
      {
        BucketMatches(chain[p], i, buckets.Length, log, key);
        if chain[p].h == h && chain[p].len == |key| && chain[p].word[..|key|] == key {
          break;
        }
        p := p + 1;
      }
      SearchResult(buckets[..], log, key, p);
    }

    /** `completion_hash_find`. */
    method Find(key: string) returns (found: bool, b: Bucket)
      requires Consistent()
      ensures found <==> Matching(log, key) != []
      ensures found ==> b == BucketFor(log, key)
    {
      var i, p := Locate(key);
      found := p < |buckets[i]|;
      b := if found then buckets[i][p] else Bucket(0, "", 0, 0, []);
    }

    /** `completion_hash_update`: enters `word` under its first `len` characters; an empty key is refused. */
    method Update(word: Word, len: nat) returns (ok: bool)
      requires Consistent() && len <= |word|
      modifies this`log, buckets
      ensures Consistent() && ok == (len > 0)
      ensures log == if ok then old(log) + [Entry(word, len)] else old(log)
    {
      ok := len > 0;
      if !ok {
        return;
      }
      ghost var e, table := Entry(word, len), buckets[..];
      var i, p := Locate(word[..len]);
      var chain := buckets[i];
      assert ChainOk(table[i], i, |table|, log);
      if p < |chain| {
        KeyOfBucketFor(log, Key(e));
        ChainGrowsAt(chain, i, buckets.Length, log, e, p);
        buckets[i] := chain[p := Grown(chain[p], word)];
      } else {
        ChainGrowsInFront(chain, i, buckets.Length, log, e);
        var h := HashPjw(word[..len]);
        buckets[i] := [Bucket(h, word, len, 1, [word])] + chain;
      }
      TableUpdated(table, i, buckets[i], log, e);
      assert buckets[..] == table[i := buckets[i]];
      log := log + [e];
    }

    /** `add_word`: all nonempty prefixes of the word become keys for it. */
    method AddWord(w: Word)
      requires Valid()
      modifies this, buckets
      ensures Valid() && words == old(words) + [w]
    {
      var i := 1;
      while i <= |w|
        invariant 1 <= i <= |w| + 1 && words == old(words)
        invariant Consistent() && log == LogOf(words) + Prefixes(w, i - 1)
      {
        var _ := Update(w, i);
        PrefixesSnoc(LogOf(words), w, i);
        i := i + 1;
      }
      words := words + [w];
      LogOfSnoc(old(words), w);
    }

    /** `find_all_matches`: exactly the added words with that prefix, newest first with duplicates, counted. */
    method FindAllMatches(str: string) returns (found: bool, b: Bucket, length: nat)
      requires Valid()
      ensures found <==> str != "" && WithPrefix(words, str) != []
      ensures length == if found then |str| else 0
      ensures found ==> b.data == WithPrefix(words, str) && b.count == |b.data| && b.len == |str| && KeyOf(b) == str
    {
      MatchingIsWithPrefix(words, str);
      found, b := Find(str);
      length := if found then |str| else 0;
      if found {
        KeyOfBucketFor(log, str);
      }
    }

    /** Every bucket holds an entry. */
    lemma Filled(i: nat, j: nat)
      requires Consistent() && i < buckets.Length && j < |buckets[i]|
      ensures buckets[i][j].data != []
    {
      assert ChainOk(buckets[..][i], i, buckets.Length, log);
      assert BucketOk(buckets[i][j], i, buckets.Length, log);
    }

    /** The search of `completion_hash_exists`, which compares whole strings. */
    method HoldsWhole(w: Word) returns (r: bool)
      requires Consistent()
      ensures r <==> ChainHasWhole(buckets[Slot(w, buckets.Length)], w)
    {
      var h := HashPjw(w);
      var i := h as int % buckets.Length;
      var chain, p := buckets[i], 0;
      assert ChainOk(buckets[..][i], i, buckets.Length, log);
      while p < |chain|
        invariant p <= |chain|
        invariant forall j :: 0 <= j < p ==> !KeyAndWord(chain[j], w)
      {
        WholeMatches(chain[p], i, buckets.Length, log, w);
        if chain[p].h == h && chain[p].len == |w| && chain[p].word == w {
          return true;
        }
        p := p + 1;
      }
      return false;
    }

    /** `completion_hash_exists`: is the word the first of those added that have it as a prefix? */
    method Exists(w: Word) returns (r: bool)
      requires Valid()
      ensures r <==> w != "" && FirstWithPrefix(words, w, w)
      ensures w in words ==> (r <==> w != "" && NoneBefore(words, w))
      ensures r ==> w in words
    {
      r := HoldsWhole(w);
      SearchWhole(buckets[..], log, w);
      MatchingIsWithPrefix(words, w);
      OldestIsFirst(words, w, w);
      if w in words {
        FirstIfNoneBefore(words, w);
      }
    }

    /**
     `find_longest_match`, from the counts alone: the longest common prefix of all added words that start
     with `str`, and its bucket.
     */
    method FindLongestMatch(str: string) returns (found: bool, b: Bucket, length: nat)
      requires Valid()
      ensures found <==> str != "" && WithPrefix(words, str) != []
      ensures !found ==> length == 0
      ensures found ==> b.len == length && b.data == WithPrefix(words, str)
      ensures found ==> LongestCommonPrefix(WithPrefix(words, str), KeyOf(b))
    {
      found, b, length := FindAllMatches(str);
      if !found {
        return;
      }
      ghost var ws := WithPrefix(words, str);
      var count, s := b.count, b.data[0];
      WithPrefixHas(words, str);
      assert s in ws && s[..length] == str;
      while length < |s|
        invariant |str| <= length <= |s| && str <= s[..length] && count == |ws|
        invariant WithPrefix(words, s[..length]) == ws
        invariant b.data == ws && b.len == length && KeyOf(b) == s[..length]
      {
        var key := s[..length + 1];
        LongerPrefix(words, s[..length], key);
        var more, b', length' := FindAllMatches(key);
        if !more || b'.count < count {
          break;
        }
        b, length := b', length';
      }
      LongestAt(words, str, s, length);
    }
  }
}
