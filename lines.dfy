/**
  Grouping a page's words into visual lines: a word's line key is its vertical
  centre rounded to the nearest half unit with Python's `round` (ties to even),
  and each line is put in left-to-right order by a stable sort on `x0`.
*/
module Lines {
  import opened Geometry
  import opened Pdf

  /** Python's `round(v)` on one argument: nearest integer, ties to the even one. */
  function RoundHalfEven(v: real): (n: int)
    ensures v - 0.5 <= n as real <= v + 0.5
    ensures n as real - v == 0.5 || v - n as real == 0.5 ==> n % 2 == 0
  {
    var f := v.Floor;
    var frac := v - f as real;
    if frac < 0.5 then f
    else if frac > 0.5 then f + 1
    else if f % 2 == 0 then f else f + 1
  }

  /** The two properties above single out one integer: they are all of `round`'s meaning. */
  lemma RoundHalfEvenUnique(v: real, m: int)
    requires v - 0.5 <= m as real <= v + 0.5
    requires m as real - v == 0.5 || v - m as real == 0.5 ==> m % 2 == 0
    ensures m == RoundHalfEven(v)
  {
  }

  /** `round(y_mid * 2) / 2.0` for the word's vertical centre `y_mid`. */
  function LineKey(w: Word): real {
    RoundHalfEven(MidY(w.box) * 2.0) as real / 2.0
  }

  /** A line key is a multiple of one half within a quarter unit of the word's centre. */
  lemma LineKeyNearCentre(w: Word)
    ensures Abs(LineKey(w) - MidY(w.box)) <= 0.25
    ensures (LineKey(w) * 2.0).Floor as real == LineKey(w) * 2.0
  {
  }

  /** The distinct line keys of `words`, in order of first appearance (a Python dict's key order). */
  function KeysInOrder(words: seq<Word>): seq<real> {
    if words == [] then []
    else
      var prev := KeysInOrder(words[..|words| - 1]);
      var k := LineKey(words[|words| - 1]);
      if k in prev then prev else prev + [k]
  }

  /** Every word's key is listed, only those, and each once. */
  lemma {:induction false} KeysInOrderSpec(words: seq<Word>)
    ensures forall k :: k in KeysInOrder(words) <==> exists i :: 0 <= i < |words| && LineKey(words[i]) == k
    ensures forall a, b :: 0 <= a < b < |KeysInOrder(words)| ==> KeysInOrder(words)[a] != KeysInOrder(words)[b]
  {
    if words != [] {
      var pre := words[..|words| - 1];
      KeysInOrderSpec(pre);
      assert forall i :: 0 <= i < |words| - 1 ==> pre[i] == words[i];
    }
  }

  /** A key's position in `KeysInOrder` follows the order in which the keys first occur. */
  lemma {:induction false} KeysInFirstAppearanceOrder(words: seq<Word>, a: nat, b: nat)
    requires a < b < |KeysInOrder(words)|
    ensures exists i :: 0 <= i < |words| && LineKey(words[i]) == KeysInOrder(words)[a] &&
              forall j :: 0 <= j <= i ==> LineKey(words[j]) != KeysInOrder(words)[b]
  {
    var n := |words|;
    var pre := words[..n - 1];
    var ks := KeysInOrder(words);
    var prev := KeysInOrder(pre);
    KeysInOrderSpec(pre);
    assert forall i :: 0 <= i < n - 1 ==> pre[i] == words[i];
    if b < |prev| {
      assert ks[a] == prev[a] && ks[b] == prev[b];
      KeysInFirstAppearanceOrder(pre, a, b);
    } else {
      // ks[b] is the key of the last word and occurs nowhere before it
      assert ks == prev + [LineKey(words[n - 1])];
      assert ks[a] in prev;
      var i :| 0 <= i < |pre| && LineKey(pre[i]) == ks[a];
      forall j | 0 <= j <= i
        ensures LineKey(words[j]) != ks[b]
      {
        assert LineKey(pre[j]) in prev;
      }
    }
  }

  /** The words of line `k`, in page order (`line_buckets[k]`). */
  function Bucket(words: seq<Word>, k: real): seq<Word> {
    if words == [] then []
    else
      var pre := words[..|words| - 1];
      var last := words[|words| - 1];
      if LineKey(last) == k then Bucket(pre, k) + [last] else Bucket(pre, k)
  }

  /** Line `k` holds the words with key `k`, as often as the page does, and no others. */
  lemma {:induction false} BucketSpec(words: seq<Word>, k: real)
    ensures forall w :: multiset(Bucket(words, k))[w] == if LineKey(w) == k then multiset(words)[w] else 0
    ensures forall w :: w in Bucket(words, k) ==> w in words && LineKey(w) == k
    ensures forall i :: 0 <= i < |words| && LineKey(words[i]) == k ==> words[i] in Bucket(words, k)
  {
    if words != [] {
      var pre := words[..|words| - 1];
      BucketSpec(pre, k);
      assert words == pre + [words[|words| - 1]];
      assert forall i :: 0 <= i < |words| - 1 ==> pre[i] == words[i];
    }
  }

  /** The positions on the page of the words with key `k`, ascending. */
  ghost function KeyPositions(words: seq<Word>, k: real): seq<nat> {
    if words == [] then []
    else
      var pre := KeyPositions(words[..|words| - 1], k);
      if LineKey(words[|words| - 1]) == k then pre + [|words| - 1] else pre
  }

  /**
    Line `k` keeps page order: its `a`-th word is the page word at the `a`-th
    ascending position among those with key `k`, and every such position is used.
  */
  lemma {:induction false} BucketInPageOrder(words: seq<Word>, k: real)
    ensures var ix := KeyPositions(words, k);
            var b := Bucket(words, k);
      && |ix| == |b|
      && (forall a :: 0 <= a < |ix| ==> ix[a] < |words| && b[a] == words[ix[a]])
      && (forall a, c :: 0 <= a < c < |ix| ==> ix[a] < ix[c])
      && (forall i :: 0 <= i < |words| && LineKey(words[i]) == k <==> i in ix)
  {
    if words != [] {
      var pre := words[..|words| - 1];
      BucketInPageOrder(pre, k);
      assert forall i :: 0 <= i < |words| - 1 ==> pre[i] == words[i];
    }
  }

  /** Two words of a page share a line exactly when their keys are equal. */
  lemma SameLineIff(words: seq<Word>, i: nat, j: nat)
    requires i < |words| && j < |words|
    ensures words[j] in Bucket(words, LineKey(words[i])) <==> LineKey(words[j]) == LineKey(words[i])
  {
    BucketSpec(words, LineKey(words[i]));
  }

  lemma BucketStep(words: seq<Word>, i: nat, k: real)
    requires i < |words|
    ensures Bucket(words[..i + 1], k) ==
      if LineKey(words[i]) == k then Bucket(words[..i], k) + [words[i]] else Bucket(words[..i], k)
  {
    assert words[..i + 1][..i] == words[..i];
  }

  lemma KeysStep(words: seq<Word>, i: nat)
    requires i < |words|
    ensures KeysInOrder(words[..i + 1]) ==
      var ks := KeysInOrder(words[..i]);
      if LineKey(words[i]) in ks then ks else ks + [LineKey(words[i])]
  {
    assert words[..i + 1][..i] == words[..i];
  }

  lemma EmptyBucket(words: seq<Word>, k: real)
    requires k !in KeysInOrder(words)
    ensures Bucket(words, k) == []
  {
    KeysInOrderSpec(words);
    BucketSpec(words, k);
  }

  /**
    The bucketing loop: `line_buckets.setdefault(key, []).append(w)` for every word.
    `keys` is the dict's key order.
  */
  method BucketLines(words: seq<Word>) returns (keys: seq<real>, buckets: map<real, seq<Word>>)
    ensures keys == KeysInOrder(words)
    ensures forall k :: k in buckets <==> k in keys
    ensures forall k :: k in buckets ==> buckets[k] == Bucket(words, k)
  {
    keys, buckets := [], map[];
    for i := 0 to |words|
      invariant keys == KeysInOrder(words[..i])
      invariant forall k :: k in buckets <==> k in keys
      invariant forall k :: k in buckets ==> buckets[k] == Bucket(words[..i], k)
    {
      var w := words[i];
      var key := LineKey(w);
      KeysStep(words, i);
      if key !in buckets {
        EmptyBucket(words[..i], key);
        keys := keys + [key];
        buckets := buckets[key := []];
      }
      buckets := buckets[key := buckets[key] + [w]];
      forall k | k in buckets
        ensures buckets[k] == Bucket(words[..i + 1], k)
      {
        BucketStep(words, i, k);
      }
    }
    assert words[..|words|] == words;
  }

  predicate SortedByX(s: seq<Word>) {
    forall i, j :: 0 <= i < j < |s| ==> s[i].box.x0 <= s[j].box.x0
  }

  /** Puts `w` before the first element whose `x0` is not smaller. */
  function InsertByX(w: Word, s: seq<Word>): seq<Word> {
    if s == [] || w.box.x0 <= s[0].box.x0 then [w] + s
    else [s[0]] + InsertByX(w, s[1..])
  }

  /**
    `line_words.sort(key=lambda w: w[0])`: Python's sort is stable, and so is this
    insertion sort (see `SortByXStable`).
  */
  function SortByX(s: seq<Word>): seq<Word> {
    if s == [] then []
    else InsertByX(s[0], SortByX(s[1..]))
  }

  lemma {:induction false} InsertByXSpec(w: Word, s: seq<Word>)
    requires SortedByX(s)
    ensures SortedByX(InsertByX(w, s))
    ensures multiset(InsertByX(w, s)) == multiset(s) + multiset{w}
    ensures |InsertByX(w, s)| == |s| + 1
    ensures InsertByX(w, s)[0] == w || (s != [] && InsertByX(w, s)[0] == s[0])
  {
    if s != [] && w.box.x0 > s[0].box.x0 {
      InsertByXSpec(w, s[1..]);
      assert s == [s[0]] + s[1..];
    }
  }

  /** The sorted line is in `x0` order and holds the same words. */
  lemma {:induction false} SortByXSpec(s: seq<Word>)
    ensures SortedByX(SortByX(s))
    ensures multiset(SortByX(s)) == multiset(s)
  {
    if s != [] {
      SortByXSpec(s[1..]);
      InsertByXSpec(s[0], SortByX(s[1..]));
      assert s == [s[0]] + s[1..];
    }
  }

  /** The words of `s` whose `x0` is `v`, in their order in `s`. */
  function WithX0(s: seq<Word>, v: real): seq<Word> {
    if s == [] then []
    else (if s[0].box.x0 == v then [s[0]] else []) + WithX0(s[1..], v)
  }

  lemma {:induction false} InsertByXStable(w: Word, s: seq<Word>, v: real)
    requires SortedByX(s)
    ensures WithX0(InsertByX(w, s), v) == if w.box.x0 == v then [w] + WithX0(s, v) else WithX0(s, v)
  {
    if s == [] || w.box.x0 <= s[0].box.x0 {
      assert InsertByX(w, s)[1..] == s;
    } else {
      InsertByXStable(w, s[1..], v);
      assert InsertByX(w, s)[1..] == InsertByX(w, s[1..]);
      if w.box.x0 == v {
        // every element before w's slot has a smaller x0, so none of them is kept
        assert s[0].box.x0 != v;
        assert WithX0(s, v) == WithX0(s[1..], v);
      }
    }
  }

  /** Stability: words with equal `x0` keep their relative order. */
  lemma {:induction false} SortByXStable(s: seq<Word>, v: real)
    ensures WithX0(SortByX(s), v) == WithX0(s, v)
  {
    if s != [] {
      SortByXSpec(s[1..]);
      SortByXStable(s[1..], v);
      InsertByXStable(s[0], SortByX(s[1..]), v);
    }
  }
}
