/**
  `mark_yes_boxes_red`: a red hand-drawn X to the left of every "Yes" that looks
  like a checkbox label, that is, a "Yes" with a "No" 30 to 250 units to its right
  on the same line, no numeric word just before it, and above the page's IEQ
  heading.
*/
module YesMarks {
  import opened Wrappers
  import opened Geometry
  import opened Pdf
  import opened Lines

  /** The four `random.uniform` draws for one mark. */
  datatype Jitter = Jitter(dx: real, dy: real, db: real, dw: real)

  /** The ranges of the draws: uniform(-1.5, 1.5), (-1.2, 1.2), (-1.0, 1.2), (-0.2, 0.25). */
  predicate InRange(j: Jitter) {
    -1.5 <= j.dx <= 1.5 && -1.2 <= j.dy <= 1.2 && -1.0 <= j.db <= 1.2 && -0.2 <= j.dw <= 0.25
  }

  /**
    The random source: the draws for the `c`-th "Yes" candidate of the line with
    key `key` on page `page`. Each mark gets its own draws, as in the program.
  */
  type JitterSource = (nat, real, nat) -> Jitter

  ghost predicate JitterInRange(jit: JitterSource) {
    forall page, key, c :: InRange(jit(page, key, c))
  }

  /** The keyword parameters `x_offset`, `box` and `width`. */
  datatype Style = Style(xOffset: real, box: real, width: real)

  const DefaultStyle := Style(9.0, 10.0, 1.2)

  /** The two red strokes drawn for the "Yes" word `w`. */
  function Cross(w: Word, st: Style, j: Jitter): seq<Item> {
    var cx := w.box.x0 - (st.xOffset + j.dx);
    var cy := w.box.y0 + (w.box.y1 - w.box.y0) / 2.0 + j.dy;
    var b := Max(7.5, st.box + j.db);
    var wl := Max(0.9, st.width + j.dw);
    [Segment(Point(cx - b / 2.0, cy - b / 2.0), Point(cx + b / 2.0, cy + b / 2.0), Red, wl),
     Segment(Point(cx - b / 2.0, cy + b / 2.0), Point(cx + b / 2.0, cy - b / 2.0), Red, wl)]
  }

  /** `items` are the two diagonals, in red, of the square of side `b` centred at (cx, cy). */
  ghost predicate IsCross(items: seq<Item>, cx: real, cy: real, b: real, wl: real) {
    items == [Segment(Point(cx - b / 2.0, cy - b / 2.0), Point(cx + b / 2.0, cy + b / 2.0), Red, wl),
              Segment(Point(cx - b / 2.0, cy + b / 2.0), Point(cx + b / 2.0, cy - b / 2.0), Red, wl)]
  }

  /** Where a mark lands and how large it is, for draws in range. */
  lemma CrossGeometry(w: Word, st: Style, j: Jitter)
    requires InRange(j)
    ensures exists cx, cy, b, wl ::
              && IsCross(Cross(w, st, j), cx, cy, b, wl)
              && w.box.x0 - st.xOffset - 1.5 <= cx <= w.box.x0 - st.xOffset + 1.5
              && Abs(cy - MidY(w.box)) <= 1.2
              && Max(7.5, st.box - 1.0) <= b <= Max(7.5, st.box + 1.2)
              && 0.9 <= wl <= Max(0.9, st.width + 0.25)
  {
    var cx := w.box.x0 - (st.xOffset + j.dx);
    var cy := w.box.y0 + (w.box.y1 - w.box.y0) / 2.0 + j.dy;
    assert IsCross(Cross(w, st, j), cx, cy, Max(7.5, st.box + j.db), Max(0.9, st.width + j.dw));
  }

  /**
    With the default parameters: the centre is 7.5 to 10.5 units left of the word,
    within 1.2 of its vertical centre, the side is 7.5 to 11.2, the stroke at least
    0.9 wide, and the whole X stays left of the word.
  */
  lemma DefaultCrossGeometry(w: Word, j: Jitter)
    requires InRange(j)
    ensures exists cx, cy, b, wl ::
              && IsCross(Cross(w, DefaultStyle, j), cx, cy, b, wl)
              && w.box.x0 - 10.5 <= cx <= w.box.x0 - 7.5
              && Abs(cy - MidY(w.box)) <= 1.2
              && 7.5 <= b <= 11.2
              && 0.9 <= wl
              && cx + b / 2.0 < w.box.x0
  {
    var cx := w.box.x0 - (DefaultStyle.xOffset + j.dx);
    var cy := w.box.y0 + (w.box.y1 - w.box.y0) / 2.0 + j.dy;
    assert IsCross(Cross(w, DefaultStyle, j), cx, cy, Max(7.5, DefaultStyle.box + j.db), Max(0.9, DefaultStyle.width + j.dw));
  }

  // ---------- the qualification rules ----------

  /** The IEQ cutoff: a word at or below 2 units above the heading's top is skipped. */
  predicate Suppressed(threshold: Option<real>, w: Word) {
    threshold.Some? && w.box.y0 >= threshold.value - 2.0
  }

  /** Horizontal gap from the right edge of `yes` to the left edge of `w`. */
  function Dx(yes: Word, w: Word): real {
    w.box.x0 - yes.box.x1
  }

  /** `line[j]` is a "No" strictly right of `yes`, its left edge 30 to 250 units from yes's right edge. */
  predicate IsRightNo(line: seq<Word>, yes: Word, j: int) {
    0 <= j < |line| && line[j].text == "No" && line[j].box.x0 > yes.box.x1 &&
    30.0 <= Dx(yes, line[j]) <= 250.0
  }

  ghost predicate HasRightNo(line: seq<Word>, yes: Word) {
    exists j :: IsRightNo(line, yes, j)
  }

  /** Some `line[j]` with `j < n` is a qualifying "No". */
  function AnyRightNo(line: seq<Word>, yes: Word, n: nat): bool
    requires n <= |line|
  {
    n > 0 && (IsRightNo(line, yes, n - 1) || AnyRightNo(line, yes, n - 1))
  }

  lemma {:induction false} AnyRightNoSpec(line: seq<Word>, yes: Word, n: nat)
    requires n <= |line|
    ensures AnyRightNo(line, yes, n) <==> exists j :: 0 <= j < n && IsRightNo(line, yes, j)
  {
    if n > 0 {
      AnyRightNoSpec(line, yes, n - 1);
    }
  }

  /** A word ending at most 25 units (exclusive) left of `x0`, and not after it. */
  predicate IsLeftCandidate(w: Word, x0: real) {
    w.box.x1 <= x0 && x0 - w.box.x1 < 25.0
  }

  /** `line[k]` is the left neighbour: the candidate with the largest `x1`, the first of equals. */
  ghost predicate IsLeftNeighbor(line: seq<Word>, x0: real, k: int) {
    0 <= k < |line| && IsLeftCandidate(line[k], x0) &&
    (forall j :: 0 <= j < |line| && IsLeftCandidate(line[j], x0) ==> line[j].box.x1 <= line[k].box.x1) &&
    (forall j :: 0 <= j < k && IsLeftCandidate(line[j], x0) ==> line[j].box.x1 < line[k].box.x1)
  }

  lemma LeftNeighborUnique(line: seq<Word>, x0: real, k1: int, k2: int)
    requires IsLeftNeighbor(line, x0, k1) && IsLeftNeighbor(line, x0, k2)
    ensures k1 == k2
  {
  }

  /** The `left_neighbor` scan over `line[..n]`, step by step as the program runs it. */
  function LeftNeighborScan(line: seq<Word>, x0: real, n: nat): (r: Option<nat>)
    requires n <= |line|
    ensures r.Some? ==> r.value < n
  {
    if n == 0 then None
    else
      var r := LeftNeighborScan(line, x0, n - 1);
      if IsLeftCandidate(line[n - 1], x0) && (r.None? || line[n - 1].box.x1 > line[r.value].box.x1)
      then Some(n - 1) else r
  }

  /** The scan finds the left neighbour, and finds none only when no word is a candidate. */
  lemma {:induction false} LeftNeighborScanSpec(line: seq<Word>, x0: real, n: nat)
    requires n <= |line|
    ensures LeftNeighborScan(line, x0, n).None? <==> forall j :: 0 <= j < n ==> !IsLeftCandidate(line[j], x0)
    ensures LeftNeighborScan(line, x0, n).Some? ==> IsLeftNeighbor(line[..n], x0, LeftNeighborScan(line, x0, n).value)
  {
    if n > 0 {
      LeftNeighborScanSpec(line, x0, n - 1);
      assert forall j :: 0 <= j < n - 1 ==> line[..n][j] == line[..n - 1][j];
    }
  }

  predicate IsDigit(c: char) {
    '0' <= c <= '9'
  }

  /** `any(ch.isdigit() for ch in t) or "%" in t` */
  predicate NumericLike(t: string) {
    (exists i :: 0 <= i < |t| && IsDigit(t[i])) || '%' in t
  }

  /** No left neighbour, or one that is not numeric. */
  function LeftNeighborAllows(line: seq<Word>, x0: real): bool {
    var r := LeftNeighborScan(line, x0, |line|);
    r.None? || !NumericLike(line[r.value].text)
  }

  /** A "Yes" of the (sorted) line that gets an X, with the checks in the program's order. */
  predicate Qualifies(line: seq<Word>, yes: Word, threshold: Option<real>) {
    yes.text == "Yes" && !Suppressed(threshold, yes) && AnyRightNo(line, yes, |line|) &&
    LeftNeighborAllows(line, yes.box.x0)
  }

  /**
    What the checks mean: a "Yes" is marked exactly when it is above the cutoff,
    some "No" of its line is 30 to 250 units to its right, and its left neighbour
    (if any) has no digit and no '%'.
  */
  lemma QualifiesSpec(line: seq<Word>, yes: Word, threshold: Option<real>)
    ensures Qualifies(line, yes, threshold) <==>
      && yes.text == "Yes"
      && !Suppressed(threshold, yes)
      && HasRightNo(line, yes)
      && forall k :: IsLeftNeighbor(line, yes.box.x0, k) ==> !NumericLike(line[k].text)
  {
    var x0 := yes.box.x0;
    AnyRightNoSpec(line, yes, |line|);
    LeftNeighborScanSpec(line, x0, |line|);
    assert line[..|line|] == line;
    var r := LeftNeighborScan(line, x0, |line|);
    if r.Some? {
      forall k | IsLeftNeighbor(line, x0, k)
        ensures k == r.value
      {
        LeftNeighborUnique(line, x0, k, r.value);
      }
    }
  }

  // ---------- the scans ----------

  /**
    The `min_dx` / `right_no` scan: the nearest qualifying "No", the first in line
    order among equally near ones; none exactly when no "No" qualifies.
  */
  method NearestRightNo(line: seq<Word>, yes: Word) returns (r: Option<nat>)
    ensures r.None? <==> !HasRightNo(line, yes)
    ensures r.Some? ==> IsRightNo(line, yes, r.value)
    ensures r.Some? ==> forall j :: IsRightNo(line, yes, j) ==>
      Dx(yes, line[r.value]) <= Dx(yes, line[j]) && (j < r.value ==> Dx(yes, line[r.value]) < Dx(yes, line[j]))
  {
    r := None;
    var minDx := Big;
    for j := 0 to |line|
      invariant r.None? ==> minDx == Big && forall q :: 0 <= q < j ==> !IsRightNo(line, yes, q)
      invariant r.Some? ==> r.value < j && IsRightNo(line, yes, r.value)
      invariant r.Some? ==> minDx == Dx(yes, line[r.value])
      invariant r.Some? ==> forall q :: 0 <= q < j && IsRightNo(line, yes, q) ==>
        minDx <= Dx(yes, line[q]) && (q < r.value ==> minDx < Dx(yes, line[q]))
    {
      var ww := line[j];
      if ww.text == "No" && ww.box.x0 > yes.box.x1 {
        var dx := ww.box.x0 - yes.box.x1;
        if 30.0 <= dx <= 250.0 && dx < minDx {
          minDx := dx;
          r := Some(j);
        }
      }
    }
  }

  /**
    The `left_neighbor` scan: the word with the largest `x1` among those ending
    less than 25 units left of `x0`, the first of equals; none when there is none.
  */
  method LeftNeighbor(line: seq<Word>, x0: real) returns (r: Option<nat>)
    ensures r == LeftNeighborScan(line, x0, |line|)
    ensures r.None? ==> forall j :: 0 <= j < |line| ==> !IsLeftCandidate(line[j], x0)
    ensures r.Some? ==> IsLeftNeighbor(line, x0, r.value)
  {
    r := None;
    for j := 0 to |line|
      invariant r == LeftNeighborScan(line, x0, j)
    {
      var ww := line[j];
      if ww.box.x1 <= x0 && x0 - ww.box.x1 < 25.0 {
        if r.None? || ww.box.x1 > line[r.value].box.x1 {
          r := Some(j);
        }
      }
    }
    LeftNeighborScanSpec(line, x0, |line|);
    assert line[..|line|] == line;
  }

  /** `[w for w in line_words if w[4] == "Yes"]` */
  function YesWords(line: seq<Word>): seq<Word> {
    if line == [] then []
    else (if line[0].text == "Yes" then [line[0]] else []) + YesWords(line[1..])
  }

  /** The candidates are exactly the line's "Yes" words. */
  lemma {:induction false} YesWordsSpec(line: seq<Word>)
    ensures forall w :: w in YesWords(line) ==> w in line && w.text == "Yes"
    ensures forall i :: 0 <= i < |line| && line[i].text == "Yes" ==> line[i] in YesWords(line)
  {
    if line != [] {
      YesWordsSpec(line[1..]);
      assert forall i :: 1 <= i < |line| ==> line[i] == line[1..][i - 1];
    }
  }

  /** `any(w[4] == "No" for w in line_words)` */
  predicate HasWord(line: seq<Word>, t: string) {
    exists j :: 0 <= j < |line| && line[j].text == t
  }

  // ---------- what gets drawn ----------

  /** The strokes drawn for the first `c` "Yes" candidates `cands` of a line. */
  ghost function CandMarks(line: seq<Word>, cands: seq<Word>, c: nat, threshold: Option<real>,
                           st: Style, jit: JitterSource, page: nat, key: real): seq<Item>
    requires c <= |cands|
  {
    if c == 0 then []
    else
      CandMarks(line, cands, c - 1, threshold, st, jit, page, key) +
      (if Qualifies(line, cands[c - 1], threshold) then Cross(cands[c - 1], st, jit(page, key, c - 1)) else [])
  }

  ghost function LineMarks(line: seq<Word>, threshold: Option<real>, st: Style, jit: JitterSource,
                           page: nat, key: real): seq<Item>
  {
    CandMarks(line, YesWords(line), |YesWords(line)|, threshold, st, jit, page, key)
  }

  /** The strokes for the first `n` lines, lines taken in the order of `keys`. */
  ghost function LinesMarks(words: seq<Word>, keys: seq<real>, n: nat, threshold: Option<real>,
                            st: Style, jit: JitterSource, page: nat): seq<Item>
    requires n <= |keys|
  {
    if n == 0 then []
    else
      LinesMarks(words, keys, n - 1, threshold, st, jit, page) +
      LineMarks(SortByX(Bucket(words, keys[n - 1])), threshold, st, jit, page, keys[n - 1])
  }

  /** What the marking loop draws for the first `n` keys, reading each line from `buckets`. */
  ghost function BucketsMarks(buckets: map<real, seq<Word>>, keys: seq<real>, n: nat, threshold: Option<real>,
                              st: Style, jit: JitterSource, page: nat): seq<Item>
    requires n <= |keys|
  {
    if n == 0 then []
    else
      BucketsMarks(buckets, keys, n - 1, threshold, st, jit, page) +
      (if keys[n - 1] in buckets then LineMarks(SortByX(buckets[keys[n - 1]]), threshold, st, jit, page, keys[n - 1]) else [])
  }

  lemma {:induction false} BucketsMarksAgree(words: seq<Word>, keys: seq<real>, buckets: map<real, seq<Word>>, n: nat,
                                             threshold: Option<real>, st: Style, jit: JitterSource, page: nat)
    requires n <= |keys|
    requires forall k :: k in buckets <==> k in keys
    requires forall k :: k in buckets ==> buckets[k] == Bucket(words, k)
    ensures BucketsMarks(buckets, keys, n, threshold, st, jit, page) == LinesMarks(words, keys, n, threshold, st, jit, page)
  {
    if n > 0 {
      BucketsMarksAgree(words, keys, buckets, n - 1, threshold, st, jit, page);
      assert keys[n - 1] in keys;
    }
  }

  /** Everything drawn on one page. */
  ghost function PageMarks(p: Page, threshold: Option<real>, st: Style, jit: JitterSource, page: nat): seq<Item> {
    var keys := KeysInOrder(p.words);
    LinesMarks(p.words, keys, |keys|, threshold, st, jit, page)
  }

  /** `skip_after_y_by_page.get(idx)`, and its `y0` when the rectangle is truthy. */
  function Threshold(skip: map<nat, Rect>, page: nat): Option<real> {
    if page in skip && !IsFalsy(skip[page]) then Some(skip[page].y0) else None
  }

  // ---------- what the marks mean ----------

  /** Every stroke drawn for a line belongs to the X of a qualifying candidate. */
  lemma {:induction false} CandMarksSound(line: seq<Word>, cands: seq<Word>, c: nat, threshold: Option<real>,
                                          st: Style, jit: JitterSource, page: nat, key: real, it: Item)
    requires c <= |cands|
    requires it in CandMarks(line, cands, c, threshold, st, jit, page, key)
    ensures exists i :: 0 <= i < c && Qualifies(line, cands[i], threshold) && it in Cross(cands[i], st, jit(page, key, i))
  {
    var prev := CandMarks(line, cands, c - 1, threshold, st, jit, page, key);
    if it in prev {
      CandMarksSound(line, cands, c - 1, threshold, st, jit, page, key, it);
    }
  }

  /** Both strokes of every qualifying candidate's X are drawn. */
  lemma {:induction false} CandMarksComplete(line: seq<Word>, cands: seq<Word>, c: nat, threshold: Option<real>,
                                             st: Style, jit: JitterSource, page: nat, key: real, i: nat)
    requires i < c <= |cands|
    requires Qualifies(line, cands[i], threshold)
    ensures Occurs(Cross(cands[i], st, jit(page, key, i)), CandMarks(line, cands, c, threshold, st, jit, page, key))
  {
    var prev := CandMarks(line, cands, c - 1, threshold, st, jit, page, key);
    var step := if Qualifies(line, cands[c - 1], threshold) then Cross(cands[c - 1], st, jit(page, key, c - 1)) else [];
    OccursInAppend(Cross(cands[i], st, jit(page, key, i)), prev, step);
    if i < c - 1 {
      CandMarksComplete(line, cands, c - 1, threshold, st, jit, page, key, i);
    }
  }

  /** Every stroke of the first `n` lines comes from one of those lines. */
  lemma {:induction false} LinesMarksSound(words: seq<Word>, keys: seq<real>, n: nat, threshold: Option<real>,
                                           st: Style, jit: JitterSource, page: nat, it: Item)
    requires n <= |keys|
    requires it in LinesMarks(words, keys, n, threshold, st, jit, page)
    ensures exists i :: 0 <= i < n && it in LineMarks(SortByX(Bucket(words, keys[i])), threshold, st, jit, page, keys[i])
  {
    if it in LinesMarks(words, keys, n - 1, threshold, st, jit, page) {
      LinesMarksSound(words, keys, n - 1, threshold, st, jit, page, it);
    }
  }

  lemma {:induction false} LinesMarksComplete(words: seq<Word>, keys: seq<real>, n: nat, threshold: Option<real>,
                                              st: Style, jit: JitterSource, page: nat, i: nat)
    requires i < n <= |keys|
    ensures Occurs(LineMarks(SortByX(Bucket(words, keys[i])), threshold, st, jit, page, keys[i]),
                   LinesMarks(words, keys, n, threshold, st, jit, page))
  {
    var prev := LinesMarks(words, keys, n - 1, threshold, st, jit, page);
    var last := LineMarks(SortByX(Bucket(words, keys[n - 1])), threshold, st, jit, page, keys[n - 1]);
    OccursInAppend(LineMarks(SortByX(Bucket(words, keys[i])), threshold, st, jit, page, keys[i]), prev, last);
    if i < n - 1 {
      LinesMarksComplete(words, keys, n - 1, threshold, st, jit, page, i);
    }
  }

  /** The line a word of the page sits on, in left-to-right order. */
  function LineOf(words: seq<Word>, w: Word): seq<Word> {
    SortByX(Bucket(words, LineKey(w)))
  }

  /** A word of line `k` is on the line of every word with that key. */
  lemma InLine(words: seq<Word>, k: real, w: Word)
    requires w in SortByX(Bucket(words, k))
    ensures w in words && LineKey(w) == k
  {
    SortByXSpec(Bucket(words, k));
    assert w in multiset(SortByX(Bucket(words, k)));
    BucketSpec(words, k);
  }

  /** A "Yes" of the page that qualifies on its own line. */
  ghost predicate MarkedYes(p: Page, threshold: Option<real>, w: Word) {
    w in p.words && w.text == "Yes" && Qualifies(LineOf(p.words, w), w, threshold)
  }

  /**
    Soundness: every stroke on the page is part of the X of a "Yes" of the page
    that qualifies on its line, drawn with the draws of one of that line's candidates.
  */
  lemma PageMarksSound(p: Page, threshold: Option<real>, st: Style, jit: JitterSource, page: nat, it: Item)
    requires it in PageMarks(p, threshold, st, jit, page)
    ensures exists w, c :: MarkedYes(p, threshold, w) && it in Cross(w, st, jit(page, LineKey(w), c))
  {
    var keys := KeysInOrder(p.words);
    LinesMarksSound(p.words, keys, |keys|, threshold, st, jit, page, it);
    var i :| 0 <= i < |keys| && it in LineMarks(SortByX(Bucket(p.words, keys[i])), threshold, st, jit, page, keys[i]);
    var line := SortByX(Bucket(p.words, keys[i]));
    var cands := YesWords(line);
    CandMarksSound(line, cands, |cands|, threshold, st, jit, page, keys[i], it);
    var c :| 0 <= c < |cands| && Qualifies(line, cands[c], threshold) && it in Cross(cands[c], st, jit(page, keys[i], c));
    YesWordsSpec(line);
    assert cands[c] in cands;
    InLine(p.words, keys[i], cands[c]);
    assert MarkedYes(p, threshold, cands[c]);
  }

  /**
    Completeness: every "Yes" of the page that qualifies on its line gets both
    strokes of its X, with the draws of its place among the line's candidates.
  */
  lemma PageMarksComplete(p: Page, threshold: Option<real>, st: Style, jit: JitterSource, page: nat, w: Word)
    requires MarkedYes(p, threshold, w)
    ensures exists c: nat :: Occurs(Cross(w, st, jit(page, LineKey(w), c)), PageMarks(p, threshold, st, jit, page))
  {
    var keys := KeysInOrder(p.words);
    var k := LineKey(w);
    KeysInOrderSpec(p.words);
    var wi :| 0 <= wi < |p.words| && p.words[wi] == w;
    assert k in keys;
    var i :| 0 <= i < |keys| && keys[i] == k;
    var line := LineOf(p.words, w);
    BucketSpec(p.words, k);
    SortByXSpec(Bucket(p.words, k));
    assert w in multiset(Bucket(p.words, k));
    assert w in multiset(line);
    var li :| 0 <= li < |line| && line[li] == w;
    var cands := YesWords(line);
    YesWordsSpec(line);
    assert w in cands;
    var c :| 0 <= c < |cands| && cands[c] == w;
    CandMarksComplete(line, cands, |cands|, threshold, st, jit, page, k, c);
    LinesMarksComplete(p.words, keys, |keys|, threshold, st, jit, page, i);
    OccursTrans(Cross(w, st, jit(page, k, c)), LineMarks(line, threshold, st, jit, page, k), PageMarks(p, threshold, st, jit, page));
  }

  /** A page without any "No" gets no marks. */
  lemma NoNoNoMarks(p: Page, threshold: Option<real>, st: Style, jit: JitterSource, page: nat)
    requires forall j :: 0 <= j < |p.words| ==> p.words[j].text != "No"
    ensures PageMarks(p, threshold, st, jit, page) == []
  {
    var marks := PageMarks(p, threshold, st, jit, page);
    if marks != [] {
      PageMarksSound(p, threshold, st, jit, page, marks[0]);
      var w, c :| MarkedYes(p, threshold, w) && marks[0] in Cross(w, st, jit(page, LineKey(w), c));
      var line := LineOf(p.words, w);
      AnyRightNoSpec(line, w, |line|);
      var j :| 0 <= j < |line| && IsRightNo(line, w, j);
      InLine(p.words, LineKey(w), line[j]);
    }
  }

  /** Below the IEQ heading of the page (2 units of slack above its top), nothing is marked. */
  lemma NothingBelowHeading(p: Page, skip: map<nat, Rect>, st: Style, jit: JitterSource, page: nat, it: Item)
    requires page in skip && !IsFalsy(skip[page])
    requires it in PageMarks(p, Threshold(skip, page), st, jit, page)
    ensures exists w, c :: w in p.words && w.text == "Yes" && w.box.y0 < skip[page].y0 - 2.0 &&
                           it in Cross(w, st, jit(page, LineKey(w), c))
  {
    PageMarksSound(p, Threshold(skip, page), st, jit, page, it);
  }

  /**
    With the default style and draws in range, every stroke on the page belongs
    to an X whose centre is 7.5 to 10.5 left of a marked "Yes" and within 1.2 of
    its vertical centre, and which stays clear of the word.
  */
  lemma MarksSitLeftOfTheirYes(p: Page, threshold: Option<real>, jit: JitterSource, page: nat, it: Item)
    requires JitterInRange(jit)
    requires it in PageMarks(p, threshold, DefaultStyle, jit, page)
    ensures exists w, c, cx, cy, b, wl ::
      && MarkedYes(p, threshold, w)
      && it in Cross(w, DefaultStyle, jit(page, LineKey(w), c))
      && IsCross(Cross(w, DefaultStyle, jit(page, LineKey(w), c)), cx, cy, b, wl)
      && w.box.x0 - 10.5 <= cx <= w.box.x0 - 7.5
      && Abs(cy - MidY(w.box)) <= 1.2
      && cx + b / 2.0 < w.box.x0
  {
    PageMarksSound(p, threshold, DefaultStyle, jit, page, it);
    var w, c :| MarkedYes(p, threshold, w) && it in Cross(w, DefaultStyle, jit(page, LineKey(w), c));
    DefaultCrossGeometry(w, jit(page, LineKey(w), c));
  }

  // ---------- how many strokes ----------

  /** The number of elements of `ws` that satisfy `f`, counted with repeats. */
  function Count(ws: seq<Word>, f: Word -> bool): nat {
    if ws == [] then 0 else (if f(ws[0]) then 1 else 0) + Count(ws[1..], f)
  }

  /** Whether a candidate qualifies on `line`. */
  function QualifiesOn(line: seq<Word>, threshold: Option<real>): Word -> bool {
    (w: Word) => Qualifies(line, w, threshold)
  }

  /** Whether a word of the page `words` is a "Yes" that qualifies on its own line. */
  function MarkedOn(words: seq<Word>, threshold: Option<real>): Word -> bool {
    (w: Word) => w.text == "Yes" && Qualifies(LineOf(words, w), w, threshold)
  }

  lemma {:induction false} CountAppend(a: seq<Word>, b: seq<Word>, f: Word -> bool)
    ensures Count(a + b, f) == Count(a, f) + Count(b, f)
  {
    if a != [] {
      CountAppend(a[1..], b, f);
      assert (a + b)[1..] == a[1..] + b;
    } else {
      assert a + b == b;
    }
  }

  lemma {:induction false} CountInsert(w: Word, s: seq<Word>, f: Word -> bool)
    ensures Count(InsertByX(w, s), f) == Count([w] + s, f)
  {
    if s != [] && w.box.x0 > s[0].box.x0 {
      CountInsert(w, s[1..], f);
      assert ([w] + s[1..])[1..] == s[1..];
      assert ([w] + s)[1..] == s;
    }
  }

  /** Sorting a line does not change how many of its words satisfy `f`. */
  lemma {:induction false} CountSort(s: seq<Word>, f: Word -> bool)
    ensures Count(SortByX(s), f) == Count(s, f)
  {
    if s != [] {
      CountSort(s[1..], f);
      CountInsert(s[0], SortByX(s[1..]), f);
      CountAppend([s[0]], SortByX(s[1..]), f);
      CountAppend([s[0]], s[1..], f);
      assert s == [s[0]] + s[1..];
    }
  }

  /** Each qualifying candidate among the first `c` adds exactly two strokes. */
  lemma {:induction false} CandMarksCount(line: seq<Word>, cands: seq<Word>, c: nat, threshold: Option<real>,
                                          st: Style, jit: JitterSource, page: nat, key: real)
    requires c <= |cands|
    ensures |CandMarks(line, cands, c, threshold, st, jit, page, key)| == 2 * Count(cands[..c], QualifiesOn(line, threshold))
  {
    if c > 0 {
      CandMarksCount(line, cands, c - 1, threshold, st, jit, page, key);
      assert cands[..c] == cands[..c - 1] + [cands[c - 1]];
      CountAppend(cands[..c - 1], [cands[c - 1]], QualifiesOn(line, threshold));
    }
  }

  /** On a line of the page, the qualifying candidates are the line's marked "Yes" words. */
  lemma {:induction false} YesCount(words: seq<Word>, line: seq<Word>, s: seq<Word>, threshold: Option<real>)
    requires forall w :: w in s ==> LineOf(words, w) == line
    ensures Count(YesWords(s), QualifiesOn(line, threshold)) == Count(s, MarkedOn(words, threshold))
  {
    if s != [] {
      YesCount(words, line, s[1..], threshold);
      assert forall w :: w in s[1..] ==> w in s;
      CountAppend(if s[0].text == "Yes" then [s[0]] else [], YesWords(s[1..]), QualifiesOn(line, threshold));
    }
  }

  /** Line `k` draws two strokes per marked "Yes" on it. */
  lemma LineMarksCount(words: seq<Word>, k: real, threshold: Option<real>, st: Style, jit: JitterSource, page: nat)
    ensures |LineMarks(SortByX(Bucket(words, k)), threshold, st, jit, page, k)| ==
            2 * Count(Bucket(words, k), MarkedOn(words, threshold))
  {
    var line := SortByX(Bucket(words, k));
    var cands := YesWords(line);
    CandMarksCount(line, cands, |cands|, threshold, st, jit, page, k);
    assert cands[..|cands|] == cands;
    forall w | w in line
      ensures LineOf(words, w) == line
    {
      InLine(words, k, w);
    }
    YesCount(words, line, line, threshold);
    CountSort(Bucket(words, k), MarkedOn(words, threshold));
  }

  /** The marked "Yes" words of the first `n` lines, lines taken in the order of `keys`. */
  function LinesCount(words: seq<Word>, keys: seq<real>, n: nat, f: Word -> bool): nat
    requires n <= |keys|
  {
    if n == 0 then 0 else LinesCount(words, keys, n - 1, f) + Count(Bucket(words, keys[n - 1]), f)
  }

  lemma {:induction false} LinesMarksCount(words: seq<Word>, keys: seq<real>, n: nat, threshold: Option<real>,
                                           st: Style, jit: JitterSource, page: nat)
    requires n <= |keys|
    ensures |LinesMarks(words, keys, n, threshold, st, jit, page)| == 2 * LinesCount(words, keys, n, MarkedOn(words, threshold))
  {
    if n > 0 {
      LinesMarksCount(words, keys, n - 1, threshold, st, jit, page);
      LineMarksCount(words, keys[n - 1], threshold, st, jit, page);
    }
  }

  /** Adding one word to the page adds it to the count of its own line only. */
  lemma {:induction false} LinesCountSnoc(s: seq<Word>, w: Word, keys: seq<real>, n: nat, f: Word -> bool)
    requires n <= |keys|
    requires forall a, b :: 0 <= a < b < |keys| ==> keys[a] != keys[b]
    ensures LinesCount(s + [w], keys, n, f) ==
            LinesCount(s, keys, n, f) + (if LineKey(w) in keys[..n] then Count([w], f) else 0)
  {
    if n > 0 {
      LinesCountSnoc(s, w, keys, n - 1, f);
      assert (s + [w])[..|s|] == s;
      CountAppend(Bucket(s, keys[n - 1]), [w], f);
      assert keys[..n] == keys[..n - 1] + [keys[n - 1]];
    }
  }

  lemma {:induction false} LinesCountPrefix(s: seq<Word>, keys: seq<real>, more: seq<real>, n: nat, f: Word -> bool)
    requires n <= |keys|
    ensures LinesCount(s, keys + more, n, f) == LinesCount(s, keys, n, f)
  {
    if n > 0 {
      LinesCountPrefix(s, keys, more, n - 1, f);
    }
  }

  /** Counting line by line counts every word of the page once. */
  lemma {:induction false} LinesCountAll(s: seq<Word>, f: Word -> bool)
    ensures LinesCount(s, KeysInOrder(s), |KeysInOrder(s)|, f) == Count(s, f)
  {
    if s != [] {
      var pre := s[..|s| - 1];
      var w := s[|s| - 1];
      var ks := KeysInOrder(pre);
      assert s == pre + [w];
      LinesCountAll(pre, f);
      KeysInOrderSpec(pre);
      CountAppend(pre, [w], f);
      if LineKey(w) in ks {
        assert ks[..|ks|] == ks;
        LinesCountSnoc(pre, w, ks, |ks|, f);
      } else {
        var ks' := ks + [LineKey(w)];
        KeysInOrderSpec(s);
        assert forall a, b :: 0 <= a < b < |ks'| ==> ks'[a] != ks'[b];
        LinesCountPrefix(s, ks, [LineKey(w)], |ks|, f);
        assert ks[..|ks|] == ks;
        LinesCountSnoc(pre, w, ks, |ks|, f);
        EmptyBucket(pre, LineKey(w));
        assert KeysInOrder(s) == ks';
        assert Bucket(s, LineKey(w)) == [w];
        assert LinesCount(s, ks', |ks'|, f) == LinesCount(s, ks', |ks|, f) + Count([w], f);
      }
    }
  }

  /**
    Every marked "Yes" adds exactly two strokes, and nothing else is drawn: the
    page gets twice as many strokes as it has words (counted with repeats) that
    are a "Yes" qualifying on their own line.
  */
  lemma PageMarksCount(p: Page, threshold: Option<real>, st: Style, jit: JitterSource, page: nat)
    ensures |PageMarks(p, threshold, st, jit, page)| == 2 * Count(p.words, MarkedOn(p.words, threshold))
  {
    var keys := KeysInOrder(p.words);
    LinesMarksCount(p.words, keys, |keys|, threshold, st, jit, page);
    LinesCountAll(p.words, MarkedOn(p.words, threshold));
  }

  // ---------- two rows of a checklist ----------

  const RowYes := Word(Rect(100.0, 200.0, 130.0, 212.0), "Yes")
  const RowNo := Word(Rect(180.0, 200.0, 210.0, 212.0), "No")
  const RowPercent := Word(Rect(70.0, 200.0, 95.0, 212.0), "100%")

  lemma RowKeys()
    ensures LineKey(RowYes) == 206.0 && LineKey(RowNo) == 206.0 && LineKey(RowPercent) == 206.0
  {
  }

  /** "Yes  No" is one line, already in left-to-right order. */
  lemma CheckboxRowLine()
    ensures KeysInOrder([RowYes, RowNo]) == [206.0]
    ensures SortByX(Bucket([RowYes, RowNo], 206.0)) == [RowYes, RowNo]
  {
    var words := [RowYes, RowNo];
    RowKeys();
    assert words[..0] == [] && words[..2] == words;
    KeysStep(words, 0);
    KeysStep(words, 1);
    BucketStep(words, 0, 206.0);
    BucketStep(words, 1, 206.0);
    assert [RowNo][1..] == [];
    assert SortByX([RowNo]) == [RowNo];
    assert words[1..] == [RowNo];
  }

  /** "100% Yes  No" is one line, already in left-to-right order. */
  lemma PercentRowLine()
    ensures KeysInOrder([RowPercent, RowYes, RowNo]) == [206.0]
    ensures SortByX(Bucket([RowPercent, RowYes, RowNo], 206.0)) == [RowPercent, RowYes, RowNo]
  {
    var words := [RowPercent, RowYes, RowNo];
    RowKeys();
    assert words[..0] == [] && words[..3] == words;
    KeysStep(words, 0);
    KeysStep(words, 1);
    KeysStep(words, 2);
    BucketStep(words, 0, 206.0);
    BucketStep(words, 1, 206.0);
    BucketStep(words, 2, 206.0);
    assert [RowNo][1..] == [];
    assert SortByX([RowNo]) == [RowNo];
    assert [RowYes, RowNo][1..] == [RowNo];
    assert SortByX([RowYes, RowNo]) == [RowYes, RowNo];
    assert words[1..] == [RowYes, RowNo];
  }

  /** A checkbox row "Yes  No", 50 units apart, on a page without an IEQ heading, gets one X. */
  lemma CheckboxRowIsMarked(jit: JitterSource)
    ensures PageMarks(Page([RowYes, RowNo], map[]), None, DefaultStyle, jit, 0) == Cross(RowYes, DefaultStyle, jit(0, 206.0, 0))
  {
    var line := [RowYes, RowNo];
    CheckboxRowLine();
    assert line[1..] == [RowNo] && [RowNo][1..] == [];
    assert YesWords([RowNo]) == [];
    assert YesWords(line) == [RowYes];
    assert IsRightNo(line, RowYes, 1);
    assert LeftNeighborScan(line, 100.0, 2) == None;
    assert Qualifies(line, RowYes, None);
    assert CandMarks(line, [RowYes], 1, None, DefaultStyle, jit, 0, 206.0) ==
           [] + Cross(RowYes, DefaultStyle, jit(0, 206.0, 0));
    assert LineMarks(line, None, DefaultStyle, jit, 0, 206.0) == Cross(RowYes, DefaultStyle, jit(0, 206.0, 0));
    assert LinesMarks(line, [206.0], 1, None, DefaultStyle, jit, 0) == [] + LineMarks(line, None, DefaultStyle, jit, 0, 206.0);
  }

  /** "100% Yes  No": the "Yes" follows a percentage, so nothing is drawn. */
  lemma PercentYesIsNotMarked(jit: JitterSource)
    ensures PageMarks(Page([RowPercent, RowYes, RowNo], map[]), None, DefaultStyle, jit, 0) == []
  {
    var line := [RowPercent, RowYes, RowNo];
    PercentRowLine();
    assert line[1..] == [RowYes, RowNo] && [RowYes, RowNo][1..] == [RowNo] && [RowNo][1..] == [];
    assert YesWords([RowNo]) == [];
    assert YesWords([RowYes, RowNo]) == [RowYes];
    assert YesWords(line) == [RowYes];
    assert LeftNeighborScan(line, 100.0, 1) == Some(0);
    assert LeftNeighborScan(line, 100.0, 2) == Some(0);
    assert LeftNeighborScan(line, 100.0, 3) == Some(0);
    assert IsDigit(RowPercent.text[0]);
    assert !Qualifies(line, RowYes, None);
    assert CandMarks(line, [RowYes], 1, None, DefaultStyle, jit, 0, 206.0) == [] + [];
    assert LineMarks(line, None, DefaultStyle, jit, 0, 206.0) == [];
    assert LinesMarks(line, [206.0], 1, None, DefaultStyle, jit, 0) == [] + LineMarks(line, None, DefaultStyle, jit, 0, 206.0);
  }

  // ---------- the marking methods ----------

  /**
    The checks of the per-candidate loop of `mark_yes_boxes_red`, in the program's
    order; true exactly when the candidate gets an X.
  */
  method ShouldMark(line: seq<Word>, w: Word, threshold: Option<real>, hasNo: bool) returns (mark: bool)
    requires w.text == "Yes"
    requires hasNo == HasWord(line, "No")
    ensures mark == Qualifies(line, w, threshold)
  {
    AnyRightNoSpec(line, w, |line|);
    if threshold.Some? && w.box.y0 >= threshold.value - 2.0 {
      return false;
    }
    if !hasNo {
      assert !HasRightNo(line, w);
      return false;
    }
    var rightNo := NearestRightNo(line, w);
    if rightNo.None? {
      return false;
    }
    var left := LeftNeighbor(line, w.box.x0);
    if left.Some? && NumericLike(line[left.value].text) {
      return false;
    }
    return true;
  }

  /** The body of the per-line loop of `mark_yes_boxes_red`. */
  method MarkLine(doc: Document, page: nat, key: real, line: seq<Word>, threshold: Option<real>,
                  st: Style, jit: JitterSource)
    requires doc.Valid() && page < |doc.pages|
    modifies doc
    ensures doc.Valid()
    ensures doc.drawn == old(doc.drawn)[page := old(doc.drawn)[page] + LineMarks(line, threshold, st, jit, page, key)]
  {
    var yesCands := YesWords(line);
    YesWordsSpec(line);
    var hasNo := HasWord(line, "No");
    AppendNothing(doc.drawn, page);
    for c := 0 to |yesCands|
      invariant doc.Valid()
      invariant doc.drawn == old(doc.drawn)[page := old(doc.drawn[page]) + CandMarks(line, yesCands, c, threshold, st, jit, page, key)]
    {
      var w := yesCands[c];
      var mark := ShouldMark(line, w, threshold, hasNo);
      if !mark {
        assert CandMarks(line, yesCands, c + 1, threshold, st, jit, page, key) ==
               CandMarks(line, yesCands, c, threshold, st, jit, page, key) + [] ==
               CandMarks(line, yesCands, c, threshold, st, jit, page, key);
        continue;
      }
      var x := Cross(w, st, jit(page, key, c));
      ghost var done := CandMarks(line, yesCands, c, threshold, st, jit, page, key);
      AppendTwice(old(doc.drawn), page, done, [x[0]]);
      doc.DrawLine(page, x[0].from, x[0].to, x[0].color, x[0].width);
      AppendTwice(old(doc.drawn), page, done + [x[0]], [x[1]]);
      doc.DrawLine(page, x[1].from, x[1].to, x[1].color, x[1].width);
      assert done + [x[0]] + [x[1]] == done + x;
    }
  }

  /** The per-line loop of `mark_yes_boxes_red`, over the buckets in key order. */
  method MarkLines(doc: Document, page: nat, keys: seq<real>, buckets: map<real, seq<Word>>,
                   threshold: Option<real>, st: Style, jit: JitterSource)
    requires doc.Valid() && page < |doc.pages|
    requires forall i :: 0 <= i < |keys| ==> keys[i] in buckets
    modifies doc
    ensures doc.Valid()
    ensures doc.drawn == old(doc.drawn)[page := old(doc.drawn)[page] + BucketsMarks(buckets, keys, |keys|, threshold, st, jit, page)]
  {
    AppendNothing(doc.drawn, page);
    for n := 0 to |keys|
      invariant doc.Valid()
      invariant doc.drawn == old(doc.drawn)[page := old(doc.drawn[page]) + BucketsMarks(buckets, keys, n, threshold, st, jit, page)]
    {
      var line := SortByX(buckets[keys[n]]);
      AppendTwice(old(doc.drawn), page, BucketsMarks(buckets, keys, n, threshold, st, jit, page),
                  LineMarks(line, threshold, st, jit, page, keys[n]));
      MarkLine(doc, page, keys[n], line, threshold, st, jit);
    }
  }

  /** The body of the per-page loop of `mark_yes_boxes_red`. */
  method MarkPage(doc: Document, page: nat, threshold: Option<real>, st: Style, jit: JitterSource)
    requires doc.Valid() && page < |doc.pages|
    modifies doc
    ensures doc.Valid()
    ensures doc.drawn == old(doc.drawn)[page := old(doc.drawn)[page] + PageMarks(doc.pages[page], threshold, st, jit, page)]
  {
    var words := doc.pages[page].words;
    if |words| == 0 {
      AppendNothing(doc.drawn, page);
      return;
    }
    var keys, buckets := BucketLines(words);
    BucketsMarksAgree(words, keys, buckets, |keys|, threshold, st, jit, page);
    MarkLines(doc, page, keys, buckets, threshold, st, jit);
  }

  /**
    `mark_yes_boxes_red(doc, skip_after_y_by_page=skip)`: every page gets exactly
    its own marks appended, and nothing else changes.
  */
  method MarkYesBoxes(doc: Document, skip: map<nat, Rect>, st: Style, jit: JitterSource)
    requires doc.Valid()
    modifies doc
    ensures doc.Valid()
    ensures forall i :: 0 <= i < |doc.pages| ==>
      doc.drawn[i] == old(doc.drawn[i]) + PageMarks(doc.pages[i], Threshold(skip, i), st, jit, i)
  {
    for idx := 0 to |doc.pages|
      invariant doc.Valid()
      invariant forall i :: 0 <= i < idx ==>
        doc.drawn[i] == old(doc.drawn[i]) + PageMarks(doc.pages[i], Threshold(skip, i), st, jit, i)
      invariant forall i :: idx <= i < |doc.pages| ==> doc.drawn[i] == old(doc.drawn[i])
    {
      MarkPage(doc, idx, Threshold(skip, idx), st, jit);
    }
  }
}
