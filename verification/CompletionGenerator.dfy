/** The completion generator: one match per call, its place in the table kept between calls. */
module CompletionGenerator {
  import opened CompletionHash
  import opened Wrappers

  // ---------------------------------------------------------------------------------------------
  // The order of a whole-table walk
  // ---------------------------------------------------------------------------------------------

  /** The words of a bucket that are the bucket's key itself: those of the key's length. */
  function OfLength(data: seq<Word>, n: nat): seq<Word> {
    if data == [] then [] else (if |data[0]| == n then [data[0]] else []) + OfLength(data[1..], n)
  }

  function ChainWords(chain: seq<Bucket>): seq<Word> {
    if chain == [] then [] else OfLength(chain[0].data, chain[0].len) + ChainWords(chain[1..])
  }

  function TableWords(table: seq<seq<Bucket>>, i: nat): seq<Word>
    decreases |table| - i
  {
    if i >= |table| then [] else ChainWords(table[i]) + TableWords(table, i + 1)
  }

  /** What a walk at entry `e` of bucket `b[0]` in slot `i` has still to yield; no entry means it is over. */
  function Remaining(table: seq<seq<Bucket>>, i: nat, b: seq<Bucket>, e: seq<Word>): seq<Word> {
    if e == [] || b == [] then []
    else OfLength(e, b[0].len) + ChainWords(b[1..]) + TableWords(table, i + 1)
  }

  /** The three ways a walk goes on from an entry: the next entry, the next bucket, the next used slot. */
  /** What remains behind the bucket the walk stands on. */
  function Further(table: seq<seq<Bucket>>, i: nat, b: seq<Bucket>): seq<Word>
    requires b != []
  {
    if |b| > 1 then Remaining(table, i, b[1..], b[1].data) else TableWords(table, i + 1)
  }

  /** What remains behind the entry the walk stands on. */
  function Following(table: seq<seq<Bucket>>, i: nat, b: seq<Bucket>, e: seq<Word>): seq<Word>
    requires b != [] && e != []
  {
    if |e| > 1 then Remaining(table, i, b, e[1..]) else Further(table, i, b)
  }

  lemma RemainingStep(table: seq<seq<Bucket>>, i: nat, b: seq<Bucket>, e: seq<Word>)
    requires b != [] && e != [] && (|b| > 1 ==> b[1].data != [])
    ensures Remaining(table, i, b, e) == (if |e[0]| == b[0].len then [e[0]] else []) + Following(table, i, b, e)
  {
    var head := if |e[0]| == b[0].len then [e[0]] else [];
    var more, chain, slots := OfLength(e[1..], b[0].len), ChainWords(b[1..]), TableWords(table, i + 1);
    assert (head + more) + chain + slots == head + (more + chain + slots);
    assert |e| == 1 ==> more == [] && more + chain + slots == chain + slots;
    assert |b| == 1 ==> chain == [] && chain + slots == slots;
  }

  // ---------------------------------------------------------------------------------------------
  // The generator
  // ---------------------------------------------------------------------------------------------

  class Generator {
    const ht: HashTable
    var textLength: nat
    var b: seq<Bucket>   // the current bucket and the rest of its chain; empty for the null pointer
    var e: seq<Word>     // the current entry and the rest of its list; empty for the null pointer
    var i: nat

    constructor (ht: HashTable)
      ensures this.ht == ht && b == [] && e == []
    {
      this.ht := ht;
      textLength, b, e, i := 0, [], [], 0;
    }

    /** Every bucket holds an entry. */
    ghost predicate TableFilled()
      reads ht, ht.buckets
    {
      forall i, j :: 0 <= i < ht.buckets.Length && 0 <= j < |ht.buckets[i]| ==> ht.buckets[i][j].data != []
    }

    lemma FilledTable()
      requires ht.Valid()
      ensures TableFilled()
    {
      forall i, j | 0 <= i < ht.buckets.Length && 0 <= j < |ht.buckets[i]|
        ensures ht.buckets[i][j].data != []
      {
        ht.Filled(i, j);
      }
    }

    /** The walk stands on an entry of a filled chain, or is over. */
    ghost predicate InWalk()
      reads this, ht, ht.buckets
    {
      && TableFilled()
      && (e != [] ==> i < ht.buckets.Length && b != [] && forall j :: 0 <= j < |b| ==> b[j].data != [])
    }

    ghost function Rest(): seq<Word>
      reads this, ht, ht.buckets
    {
      Remaining(ht.buckets[..], i, b, e)
    }

    /** Moves to the first entry of the first used slot at or after `i`; without one, nothing moves but `i`. */
    method FirstUsedSlot()
      requires TableFilled()
      modifies this`b, this`e, this`i
      ensures i >= old(i) && forall n :: old(i) <= n < i && n < ht.buckets.Length ==> ht.buckets[n] == []
      ensures i < ht.buckets.Length ==> b == ht.buckets[i] && b != [] && e == b[0].data && InWalk()
      ensures i >= ht.buckets.Length ==> b == old(b) && e == old(e) && TableWords(ht.buckets[..], old(i)) == []
      ensures i < ht.buckets.Length ==> Rest() == TableWords(ht.buckets[..], old(i))
    {
      while i < ht.buckets.Length && ht.buckets[i] == []
        invariant i <= ht.buckets.Length || i == old(i)
        invariant TableWords(ht.buckets[..], old(i)) == TableWords(ht.buckets[..], i)
        invariant b == old(b) && e == old(e) && i >= old(i)
        invariant forall n :: old(i) <= n < i ==> ht.buckets[n] == []
      {
        i := i + 1;
      }
      if i < ht.buckets.Length {
        b := ht.buckets[i];
        e := b[0].data;
      }
    }

    /** From the end of a bucket's list to the next bucket of the chain, or to the next used slot. */
    method NextBucket()
      requires TableFilled() && i < ht.buckets.Length && e == [] && b != []
      requires forall j :: 0 <= j < |b| ==> b[j].data != []
      modifies this`b, this`e, this`i
      ensures InWalk() && (i > old(i) || (i == old(i) && |b| < |old(b)|))
      ensures Rest() == Further(ht.buckets[..], old(i), old(b))
    {
      b := b[1..];
      if b == [] {
        i := i + 1;
        FirstUsedSlot();
        assert i >= ht.buckets.Length ==> Rest() == [];
      } else {
        e := b[0].data;
      }
    }

    /** Steps to the entry after the current one. */
    method Advance()
      requires InWalk() && e != []
      modifies this`b, this`e, this`i
      ensures InWalk()
      ensures i > old(i) || (i == old(i) && (|b| < |old(b)| || (|b| == |old(b)| && |e| < |old(e)|)))
      ensures old(Rest()) == (if |old(e)[0]| == old(b)[0].len then [old(e)[0]] else []) + Rest()
    {
      ghost var rest := Following(ht.buckets[..], i, b, e);
      RemainingStep(ht.buckets[..], i, b, e);
      e := e[1..];
      if e == [] {
        assert rest == Further(ht.buckets[..], i, b);
        NextBucket();
      }
      assert Rest() == rest;
    }

    /** `r` is the first of `all`, and the walk has the rest of them still to yield. */
    ghost predicate Yields(all: seq<Word>, r: Option<Word>)
      reads this, ht, ht.buckets
    {
      InWalk() && if all == [] then r == None && Rest() == [] else r == Some(all[0]) && Rest() == all[1..]
    }

    /** Walks on to the next word that is its bucket's key. */
    method Walk() returns (r: Option<Word>)
      requires InWalk()
      modifies this`b, this`e, this`i
      ensures Yields(old(Rest()), r)
    {
      r := None;
      while e != [] && r == None
        invariant InWalk()
        invariant old(Rest()) == (if r == None then [] else [r.value]) + Rest()
        decreases ht.buckets.Length - i, |b|, |e|
      {
        if |e[0]| == b[0].len {
          r := Some(e[0]);
        }
        Advance();
      }
    }

    ghost predicate HasBucket()
      reads ht, ht.buckets
    {
      exists n :: 0 <= n < ht.buckets.Length && ht.buckets[n] != []
    }

    /** The start of a walk: the table is not empty, or no earlier completion left an entry behind. */
    method StartWalk()
      requires TableFilled() && (HasBucket() || e == [])
      modifies this`b, this`e, this`i
      ensures InWalk() && Rest() == TableWords(ht.buckets[..], 0)
    {
      i := 0;
      FirstUsedSlot();
    }

    /** The completions of a text: the words with that prefix, or for the empty text the whole table. */
    ghost function Completions(text: string): seq<Word>
      reads ht, ht.buckets
    {
      if text == "" then TableWords(ht.buckets[..], 0) else WithPrefix(ht.words, text)
    }

    /** What the completion in progress has still to yield. */
    ghost function Left(): seq<Word>
      reads this, ht, ht.buckets
    {
      if textLength == 0 then Rest() else e
    }

    /** `new_command_generator`: `first` starts a new completion, the other calls continue it. */
    method Next(text: string, first: bool) returns (r: Option<Word>)
      requires ht.Valid()
      requires first && text == "" ==> HasBucket() || e == []
      requires !first && textLength == 0 ==> InWalk()
      modifies this
      ensures textLength == if first then |text| else old(textLength)
      ensures textLength == 0 ==> InWalk()
      ensures var all := if first then Completions(text) else old(Left());
        if all == [] then r == None else r == Some(all[0]) && Left() == all[1..]
    {
      r := None;
      if first {
        textLength := |text|;
      }
      if textLength > 0 {
        if first {
          var found, bucket, _ := ht.FindAllMatches(text);
          if !found {
            return;
          }
          b, e := [bucket], bucket.data;
        }
        if e != [] {
          r, e := Some(e[0]), e[1..];
        }
      } else {
        FilledTable();
        if first {
          StartWalk();
        }
        r := Walk();
      }
    }

    /** The further calls of a completion, until one returns nothing. */
    method Resume(text: string) returns (out: seq<Word>)
      requires ht.Valid() && textLength == |text| && (text == "" ==> InWalk())
      modifies this
      ensures out == old(Left())
      decreases |Left()|
    {
      var r := Next(text, false);
      if r == None {
        return [];
      }
      out := Resume(text);
      out := [r.value] + out;
    }

    /** Calls the generator until it returns nothing. */
    method CompleteAll(text: string) returns (out: seq<Word>)
      requires ht.Valid() && (text == "" ==> HasBucket() || e == [])
      modifies this
      ensures out == Completions(text)
    {
      var r := Next(text, true);
      if r == None {
        return [];
      }
      out := Resume(text);
      out := [r.value] + out;
    }
  }

  // ---------------------------------------------------------------------------------------------
  // The walk yields the added words
  // ---------------------------------------------------------------------------------------------

  function Times(s: seq<Word>, w: Word): nat {
    multiset(s)[w]
  }

  lemma TimesConcat(a: seq<Word>, b: seq<Word>, w: Word)
    ensures Times(a + b, w) == Times(a, w) + Times(b, w)
  {
  }

  lemma {:induction false} TimesOfLength(data: seq<Word>, n: nat, w: Word)
    ensures Times(OfLength(data, n), w) == if |w| == n then Times(data, w) else 0
  {
    if data != [] {
      assert data == [data[0]] + data[1..];
      TimesConcat([data[0]], data[1..], w);
      TimesOfLength(data[1..], n, w);
      TimesConcat(if |data[0]| == n then [data[0]] else [], OfLength(data[1..], n), w);
    }
  }

  lemma {:induction false} TimesWithPrefix(words: seq<Word>, k: string, w: Word)
    ensures Times(WithPrefix(words, k), w) == if k <= w then Times(words, w) else 0
  {
    if words != [] {
      var before, last := words[..|words| - 1], words[|words| - 1];
      assert words == before + [last];
      TimesConcat(before, [last], w);
      TimesWithPrefix(before, k, w);
      TimesConcat(if k <= last then [last] else [], WithPrefix(before, k), w);
    }
  }

  lemma BucketData(b: Bucket, i: nat, size: nat, words: seq<Word>)
    requires size > 0 && BucketOk(b, i, size, LogOf(words))
    ensures b.data == WithPrefix(words, KeyOf(b)) && b.len == |KeyOf(b)|
  {
    MatchingIsWithPrefix(words, KeyOf(b));
  }

  lemma TimesKey(words: seq<Word>, k: string, w: Word)
    ensures Times(OfLength(WithPrefix(words, k), |k|), w) == if k == w then Times(words, w) else 0
  {
    TimesOfLength(WithPrefix(words, k), |k|, w);
    TimesWithPrefix(words, k, w);
    assert |w| == |k| && k <= w ==> k == w;
  }

  /** A bucket yields its key as often as it was added as a word, and nothing else. */
  lemma TimesBucket(b: Bucket, i: nat, size: nat, words: seq<Word>, w: Word)
    requires size > 0 && BucketOk(b, i, size, LogOf(words))
    ensures Times(OfLength(b.data, b.len), w) == if KeyOf(b) == w then Times(words, w) else 0
  {
    BucketData(b, i, size, words);
    TimesKey(words, KeyOf(b), w);
  }

  lemma {:induction false} TimesChain(chain: seq<Bucket>, i: nat, size: nat, words: seq<Word>, w: Word)
    requires size > 0 && ChainOk(chain, i, size, LogOf(words))
    ensures Times(ChainWords(chain), w) == if HasKey(chain, w) then Times(words, w) else 0
  {
    if chain != [] {
      var rest := chain[1..];
      assert forall j :: 0 <= j < |rest| ==> rest[j] == chain[j + 1];
      TimesBucket(chain[0], i, size, words, w);
      TimesChain(rest, i, size, words, w);
      TimesConcat(OfLength(chain[0].data, chain[0].len), ChainWords(rest), w);
      assert HasKey(chain, w) <==> KeyOf(chain[0]) == w || HasKey(rest, w) by {
        if HasKey(chain, w) {
          var j :| 0 <= j < |chain| && KeyOf(chain[j]) == w;
          assert j > 0 ==> KeyOf(rest[j - 1]) == w;
        }
      }
    }
  }

  lemma KeyInItsSlot(table: seq<seq<Bucket>>, log: seq<Entry>, i: nat, k: string)
    requires TableOk(table, log) && i < |table| && HasKey(table[i], k)
    ensures Slot(k, |table|) == i
  {
    var j :| 0 <= j < |table[i]| && KeyOf(table[i][j]) == k;
    assert ChainOk(table[i], i, |table|, log);
    assert BucketOk(table[i][j], i, |table|, log);
  }

  /** How often the slots from `i` on yield `w`. */
  ghost function Due(table: seq<seq<Bucket>>, i: nat, words: seq<Word>, w: Word): nat
    requires |table| > 0
  {
    var n := Slot(w, |table|);
    if i <= n && HasKey(table[n], w) then Times(words, w) else 0
  }

  lemma DueFrom(table: seq<seq<Bucket>>, i: nat, words: seq<Word>, w: Word)
    requires TableOk(table, LogOf(words)) && i < |table|
    ensures Due(table, i, words, w)
         == (if HasKey(table[i], w) then Times(words, w) else 0) + Due(table, i + 1, words, w)
  {
    if HasKey(table[i], w) {
      KeyInItsSlot(table, LogOf(words), i, w);
    }
  }

  lemma {:induction false} TimesTable(table: seq<seq<Bucket>>, i: nat, words: seq<Word>, w: Word)
    requires TableOk(table, LogOf(words)) && i <= |table|
    ensures Times(TableWords(table, i), w) == Due(table, i, words, w)
    decreases |table| - i
  {
    if i < |table| {
      TimesChain(table[i], i, |table|, words, w);
      TimesTable(table, i + 1, words, w);
      TimesConcat(ChainWords(table[i]), TableWords(table, i + 1), w);
      DueFrom(table, i, words, w);
    }
  }

  /** Completing the empty text yields each added nonempty word exactly as often as it was added. */
  lemma WalkYieldsWords(table: seq<seq<Bucket>>, words: seq<Word>, w: Word)
    requires TableOk(table, LogOf(words))
    ensures Times(TableWords(table, 0), w) == if w == "" then 0 else Times(words, w)
  {
    TimesTable(table, 0, words, w);
    MatchingIsWithPrefix(words, w);
    TimesWithPrefix(words, w, w);
    if w != "" && WithPrefix(words, w) == [] {
      assert Times([], w) == 0;
    }
    if HasKey(table[Slot(w, |table|)], w) {
      var j :| 0 <= j < |table[Slot(w, |table|)]| && KeyOf(table[Slot(w, |table|)][j]) == w;
      BucketOfKey(table, LogOf(words), w, j);
    }
  }
}
