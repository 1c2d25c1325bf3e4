/**
  `find_signature_page` and `fill_signature_section_red`: choose the page that
  holds the signature block, fill the "(Name)"/"(Date)" tokens of its paragraph,
  and sign next to the "Signature"/"Date" label pair closest in height, in red.
*/
module Signature {
  import opened Wrappers
  import opened Geometry
  import opened Pdf

  const Phrase := "Signature & Stamp of Verifying Licensed Professional"
  const SignatureLabel := "Signature"
  const DateLabel := "Date"
  const NameToken := "(Name)"
  const DateToken := "(Date)"
  const NaMark := "NA"

  /** The default pairing tolerance `tol=60`. */
  const DefaultTol: real := 60.0

  // ---------------------------------------------------------------------------
  // text_width
  // ---------------------------------------------------------------------------

  /**
    The font-metric lookup `fitz.get_text_length(txt, fontsize=...)` for Helvetica:
    `None` stands for the lookup raising an exception.
  */
  type Metric = (string, real) -> Option<real>

  /**
    `text_width(txt, fontsize)`: the measured width when the lookup succeeds,
    otherwise half the font size per character.
  */
  function TextWidth(txt: string, fontsize: real, measured: Option<real>): (w: real)
    ensures measured.Some? ==> w == measured.value
    ensures measured.None? && fontsize >= 0.0 ==> w >= 0.0
    ensures measured.None? && txt == [] ==> w == 0.0
  {
    match measured
    case Some(m) => m
    case None => |txt| as real * fontsize * 0.5
  }

  /** The fallback estimate grows with the text: one more character adds half the font size. */
  lemma TextWidthFallbackStep(txt: string, c: char, fontsize: real)
    ensures TextWidth(txt + [c], fontsize, None) == TextWidth(txt, fontsize, None) + fontsize / 2.0
  {
    assert |txt + [c]| == |txt| + 1;
  }

  // ---------------------------------------------------------------------------
  // The `best, best_gap` scan over Signature x Date pairs
  // ---------------------------------------------------------------------------

  /** The state of a `best, best_gap` scan: the current winner, if any, and the gap to beat. */
  datatype Best<T> = Best(at: Option<T>, gap: real)

  /** `gap <= tol`; the page scan of `find_signature_page` has no tolerance. */
  predicate WithinTol(gap: real, tol: Option<real>) {
    tol.None? || gap <= tol.value
  }

  /** The winner, if any, is a pair of indexes into the two label lists. */
  predicate InBounds(b: Best<(nat, nat)>, sigs: seq<Rect>, dates: seq<Rect>) {
    b.at.Some? ==> b.at.value.0 < |sigs| && b.at.value.1 < |dates|
  }

  /** One pass of the loop body for `s = sigs[i]`, `d = dates[j]`: `if [gap <= tol and] gap < best_gap: ...`. */
  function Step(sigs: seq<Rect>, dates: seq<Rect>, tol: Option<real>, b: Best<(nat, nat)>, i: nat, j: nat): (r: Best<(nat, nat)>)
    requires i < |sigs| && j < |dates|
    ensures InBounds(b, sigs, dates) ==> InBounds(r, sigs, dates)
  {
    var gap := CentreGap(sigs[i], dates[j]);
    if WithinTol(gap, tol) && gap < b.gap then Best(Some((i, j)), gap) else b
  }

  /** The inner loop `for d in dates[..m]` for `s = sigs[i]`, starting from `acc`. */
  function ScanDates(sigs: seq<Rect>, dates: seq<Rect>, tol: Option<real>, acc: Best<(nat, nat)>, i: nat, m: nat): (r: Best<(nat, nat)>)
    requires i < |sigs| && m <= |dates|
    ensures InBounds(acc, sigs, dates) ==> InBounds(r, sigs, dates)
  {
    if m == 0 then acc
    else Step(sigs, dates, tol, ScanDates(sigs, dates, tol, acc, i, m - 1), i, m - 1)
  }

  /** The nested loops over `sigs[..n]` and all of `dates`, starting from `start`. */
  function ScanSigs(sigs: seq<Rect>, dates: seq<Rect>, tol: Option<real>, start: Best<(nat, nat)>, n: nat): (r: Best<(nat, nat)>)
    requires n <= |sigs|
    ensures InBounds(start, sigs, dates) ==> InBounds(r, sigs, dates)
  {
    if n == 0 then start
    else ScanDates(sigs, dates, tol, ScanSigs(sigs, dates, tol, start, n - 1), n - 1, |dates|)
  }

  /** The nested loops over every pair, from no winner and the gap `bound` to beat. */
  function PairScan(sigs: seq<Rect>, dates: seq<Rect>, tol: Option<real>, bound: real): (r: Best<(nat, nat)>)
    ensures InBounds(r, sigs, dates)
  {
    ScanSigs(sigs, dates, tol, Best(None, bound), |sigs|)
  }

  /** Pair `(i, j)` is visited before position `(si, m)` of the nested loops. */
  predicate Before(sigs: seq<Rect>, dates: seq<Rect>, i: int, j: int, si: int, m: int) {
    0 <= i < |sigs| && 0 <= j < |dates| && (i < si || (i == si && j < m))
  }

  /**
    `b` holds a visited pair within tolerance whose gap is `b.gap`, and every
    visited pair before it in loop order has a strictly wider gap.
  */
  ghost predicate FirstWinner(sigs: seq<Rect>, dates: seq<Rect>, tol: Option<real>, b: Best<(nat, nat)>, si: int, m: int) {
    && b.at.Some?
    && var i := b.at.value.0;
    && var j := b.at.value.1;
    && Before(sigs, dates, i, j, si, m)
    && WithinTol(CentreGap(sigs[i], dates[j]), tol)
    && CentreGap(sigs[i], dates[j]) == b.gap
    && forall i', j' :: Before(sigs, dates, i', j', i, j) && WithinTol(CentreGap(sigs[i'], dates[j']), tol) ==>
         b.gap < CentreGap(sigs[i'], dates[j'])
  }

  /** What the scan knows at position `(si, m)`, having started from `start`. */
  ghost predicate ScanInv(sigs: seq<Rect>, dates: seq<Rect>, tol: Option<real>, start: Best<(nat, nat)>, b: Best<(nat, nat)>, si: int, m: int) {
    && b.gap <= start.gap
    && (forall i, j :: Before(sigs, dates, i, j, si, m) && WithinTol(CentreGap(sigs[i], dates[j]), tol) ==>
          b.gap <= CentreGap(sigs[i], dates[j]))
    && (b == start || (FirstWinner(sigs, dates, tol, b, si, m) && b.gap < start.gap))
  }

  /** A pair that beats the gap so far becomes the winner. */
  lemma StepTakes(sigs: seq<Rect>, dates: seq<Rect>, tol: Option<real>, start: Best<(nat, nat)>, b: Best<(nat, nat)>, i: nat, j: nat)
    requires i < |sigs| && j < |dates|
    requires ScanInv(sigs, dates, tol, start, b, i, j)
    requires WithinTol(CentreGap(sigs[i], dates[j]), tol) && CentreGap(sigs[i], dates[j]) < b.gap
    ensures ScanInv(sigs, dates, tol, start, Step(sigs, dates, tol, b, i, j), i, j + 1)
  {
    assert FirstWinner(sigs, dates, tol, Step(sigs, dates, tol, b, i, j), i, j + 1);
  }

  /** A pair that does not beat the gap so far leaves the winner as it is. */
  lemma StepKeeps(sigs: seq<Rect>, dates: seq<Rect>, tol: Option<real>, start: Best<(nat, nat)>, b: Best<(nat, nat)>, i: nat, j: nat)
    requires i < |sigs| && j < |dates|
    requires ScanInv(sigs, dates, tol, start, b, i, j)
    requires !(WithinTol(CentreGap(sigs[i], dates[j]), tol) && CentreGap(sigs[i], dates[j]) < b.gap)
    ensures ScanInv(sigs, dates, tol, start, Step(sigs, dates, tol, b, i, j), i, j + 1)
  {
    if b != start {
      assert FirstWinner(sigs, dates, tol, b, i, j + 1);
    }
  }

  lemma {:induction false} ScanDatesInv(sigs: seq<Rect>, dates: seq<Rect>, tol: Option<real>, start: Best<(nat, nat)>, acc: Best<(nat, nat)>, i: nat, m: nat)
    requires i < |sigs| && m <= |dates|
    requires ScanInv(sigs, dates, tol, start, acc, i, 0)
    ensures ScanInv(sigs, dates, tol, start, ScanDates(sigs, dates, tol, acc, i, m), i, m)
  {
    if m > 0 {
      ScanDatesInv(sigs, dates, tol, start, acc, i, m - 1);
      var b := ScanDates(sigs, dates, tol, acc, i, m - 1);
      if WithinTol(CentreGap(sigs[i], dates[m - 1]), tol) && CentreGap(sigs[i], dates[m - 1]) < b.gap {
        StepTakes(sigs, dates, tol, start, b, i, m - 1);
      } else {
        StepKeeps(sigs, dates, tol, start, b, i, m - 1);
      }
    }
  }

  lemma {:induction false} ScanSigsInv(sigs: seq<Rect>, dates: seq<Rect>, tol: Option<real>, start: Best<(nat, nat)>, n: nat)
    requires n <= |sigs|
    ensures ScanInv(sigs, dates, tol, start, ScanSigs(sigs, dates, tol, start, n), n, 0)
  {
    if n > 0 {
      ScanSigsInv(sigs, dates, tol, start, n - 1);
      var acc := ScanSigs(sigs, dates, tol, start, n - 1);
      ScanDatesInv(sigs, dates, tol, start, acc, n - 1, |dates|);
      var b := ScanSigs(sigs, dates, tol, start, n);
      assert forall i, j :: Before(sigs, dates, i, j, n, 0) <==> Before(sigs, dates, i, j, n - 1, |dates|);
      if b != start {
        assert FirstWinner(sigs, dates, tol, b, n, 0);
      }
    }
  }

  /**
    The nested loops find a pair exactly when some pair within tolerance beats
    `bound`; the pair found has the smallest gap among the pairs within
    tolerance, and every pair before it in loop order is strictly wider, so the
    first of equally close pairs wins.
  */
  lemma PairScanSpec(sigs: seq<Rect>, dates: seq<Rect>, tol: Option<real>, bound: real)
    ensures var b := PairScan(sigs, dates, tol, bound);
      && (b.at.None? <==>
            forall i, j :: 0 <= i < |sigs| && 0 <= j < |dates| && WithinTol(CentreGap(sigs[i], dates[j]), tol) ==>
              bound <= CentreGap(sigs[i], dates[j]))
      && (b.at.None? ==> b.gap == bound)
      && (b.at.Some? ==>
            var i := b.at.value.0;
            var j := b.at.value.1;
            && i < |sigs| && j < |dates|
            && WithinTol(CentreGap(sigs[i], dates[j]), tol)
            && CentreGap(sigs[i], dates[j]) == b.gap < bound
            && (forall i', j' :: 0 <= i' < |sigs| && 0 <= j' < |dates| && WithinTol(CentreGap(sigs[i'], dates[j']), tol) ==>
                  b.gap <= CentreGap(sigs[i'], dates[j']))
            && (forall i', j' :: Before(sigs, dates, i', j', i, j) && WithinTol(CentreGap(sigs[i'], dates[j']), tol) ==>
                  b.gap < CentreGap(sigs[i'], dates[j'])))
  {
    var b := PairScan(sigs, dates, tol, bound);
    ScanSigsInv(sigs, dates, tol, Best(None, bound), |sigs|);
    assert forall i, j :: 0 <= i < |sigs| && 0 <= j < |dates| ==> Before(sigs, dates, i, j, |sigs|, 0);
    if b.at.Some? {
      var i := b.at.value.0;
      var j := b.at.value.1;
      assert CentreGap(sigs[i], dates[j]) == b.gap < bound;
    }
  }

  /**
    `for s in sigs: for d in dates: gap = ...; if [gap <= tol and] gap < best_gap: ...`,
    starting from no winner and the gap `bound` to beat.
  */
  method ScanPairs(sigs: seq<Rect>, dates: seq<Rect>, tol: Option<real>, bound: real) returns (b: Best<(nat, nat)>)
    ensures b == PairScan(sigs, dates, tol, bound)
  {
    b := Best(None, bound);
    for i := 0 to |sigs|
      invariant b == ScanSigs(sigs, dates, tol, Best(None, bound), i)
    {
      for j := 0 to |dates|
        invariant b == ScanDates(sigs, dates, tol, ScanSigs(sigs, dates, tol, Best(None, bound), i), i, j)
      {
        var gap := CentreGap(sigs[i], dates[j]);
        if WithinTol(gap, tol) && gap < b.gap {
          b := Best(Some((i, j)), gap);
        }
      }
    }
  }

  // ---------------------------------------------------------------------------
  // find_signature_page
  // ---------------------------------------------------------------------------

  function Signatures(p: Page): seq<Rect> {
    SearchFor(p, SignatureLabel)
  }

  function Dates(p: Page): seq<Rect> {
    SearchFor(p, DateLabel)
  }

  /** Every Signature/Date pair on `p` is at least `g` apart. */
  ghost predicate GapsAtLeast(p: Page, g: real) {
    forall i, j :: 0 <= i < |Signatures(p)| && 0 <= j < |Dates(p)| ==> g <= CentreGap(Signatures(p)[i], Dates(p)[j])
  }

  /** Every Signature/Date pair on `p` is more than `g` apart. */
  ghost predicate GapsAbove(p: Page, g: real) {
    forall i, j :: 0 <= i < |Signatures(p)| && 0 <= j < |Dates(p)| ==> g < CentreGap(Signatures(p)[i], Dates(p)[j])
  }

  /** Some Signature/Date pair on `p` is exactly `g` apart. */
  ghost predicate HasPairAt(p: Page, g: real) {
    exists i, j :: 0 <= i < |Signatures(p)| && 0 <= j < |Dates(p)| && CentreGap(Signatures(p)[i], Dates(p)[j]) == g
  }

  /** The fallback scan of `find_signature_page` over `pages[..n]`: the page that last lowered `best_gap`, and that gap. */
  function ScanPages(pages: seq<Page>, n: nat): (r: Best<nat>)
    requires n <= |pages|
    ensures r.at.Some? ==> r.at.value < n
  {
    if n == 0 then Best(None, Big)
    else
      var acc := ScanPages(pages, n - 1);
      var inner := PairScan(Signatures(pages[n - 1]), Dates(pages[n - 1]), None, acc.gap);
      if inner.at.Some? then Best(Some(n - 1), inner.gap) else acc
  }

  /**
    What the page scan knows after `pages[..n]`: its gap is at most every pair's
    gap there (and at most `1e9`); with no page it is still `1e9`; with a page,
    that page has a pair exactly that close and every earlier page only wider ones.
  */
  ghost predicate PagesScanned(pages: seq<Page>, n: nat, b: Best<nat>)
    requires n <= |pages|
  {
    && b.gap <= Big
    && (forall q :: 0 <= q < n ==> GapsAtLeast(pages[q], b.gap))
    && (b.at.None? ==> b.gap == Big)
    && (b.at.Some? ==>
          && b.at.value < n
          && b.gap < Big
          && HasPairAt(pages[b.at.value], b.gap)
          && forall q :: 0 <= q < b.at.value ==> GapsAbove(pages[q], b.gap))
  }

  /** A page with a pair closer than the best so far becomes the pick. */
  lemma PageTakes(pages: seq<Page>, n: nat, acc: Best<nat>)
    requires n < |pages| && PagesScanned(pages, n, acc)
    requires PairScan(Signatures(pages[n]), Dates(pages[n]), None, acc.gap).at.Some?
    ensures PagesScanned(pages, n + 1, Best(Some(n), PairScan(Signatures(pages[n]), Dates(pages[n]), None, acc.gap).gap))
  {
    var p := pages[n];
    PairScanSpec(Signatures(p), Dates(p), None, acc.gap);
    var inner := PairScan(Signatures(p), Dates(p), None, acc.gap);
    var i := inner.at.value.0;
    var j := inner.at.value.1;
    assert CentreGap(Signatures(p)[i], Dates(p)[j]) == inner.gap;
    forall q | 0 <= q < n
      ensures GapsAbove(pages[q], inner.gap) && GapsAtLeast(pages[q], inner.gap)
    {
      assert GapsAtLeast(pages[q], acc.gap);
    }
  }

  /** A page with no pair closer than the best so far leaves the pick as it is. */
  lemma PageKeeps(pages: seq<Page>, n: nat, acc: Best<nat>)
    requires n < |pages| && PagesScanned(pages, n, acc)
    requires PairScan(Signatures(pages[n]), Dates(pages[n]), None, acc.gap).at.None?
    ensures PagesScanned(pages, n + 1, acc)
  {
    PairScanSpec(Signatures(pages[n]), Dates(pages[n]), None, acc.gap);
    assert GapsAtLeast(pages[n], acc.gap);
  }

  /**
    The scan's gap is the smallest Signature/Date gap over the pages scanned
    (or `1e9` if none is smaller), and the page it picks is the first page that
    has a pair that close.
  */
  lemma {:induction false} ScanPagesSpec(pages: seq<Page>, n: nat)
    requires n <= |pages|
    ensures PagesScanned(pages, n, ScanPages(pages, n))
  {
    if n > 0 {
      ScanPagesSpec(pages, n - 1);
      var acc := ScanPages(pages, n - 1);
      if PairScan(Signatures(pages[n - 1]), Dates(pages[n - 1]), None, acc.gap).at.Some? {
        PageTakes(pages, n - 1, acc);
      } else {
        PageKeeps(pages, n - 1, acc);
      }
    }
  }

  /**
    `find_signature_page(doc)`: the first page with the exact phrase, else the
    page of the closest Signature/Date pair, else `max(0, len(doc) - 2)`.
  */
  function SignaturePage(pages: seq<Page>): (r: nat)
    ensures |pages| > 0 ==> r < |pages|
  {
    match FirstPageWith(pages, Phrase, 0)
    case Some(q) => q
    case None =>
      var b := ScanPages(pages, |pages|);
      if b.at.Some? then b.at.value
      else if |pages| >= 2 then |pages| - 2 else 0
  }

  /**
    The three rules in priority order: the first page with the phrase; otherwise
    the first page that has a Signature/Date pair of the smallest gap over the
    whole document, when that gap is below `1e9`; otherwise the second-to-last
    page, or page 0 when there are fewer than two.
  */
  lemma SignaturePageSpec(pages: seq<Page>)
    ensures var r := SignaturePage(pages);
      && ((exists q :: 0 <= q < |pages| && SearchFor(pages[q], Phrase) != []) ==>
            && r < |pages| && SearchFor(pages[r], Phrase) != []
            && forall q :: 0 <= q < r ==> SearchFor(pages[q], Phrase) == [])
      && ((forall q :: 0 <= q < |pages| ==> SearchFor(pages[q], Phrase) == []) ==>
            && ((exists q :: 0 <= q < |pages| && !GapsAtLeast(pages[q], Big)) ==>
                  exists g ::
                    && g < Big && r < |pages| && HasPairAt(pages[r], g)
                    && (forall q :: 0 <= q < |pages| ==> GapsAtLeast(pages[q], g))
                    && (forall q :: 0 <= q < r ==> GapsAbove(pages[q], g)))
            && ((forall q :: 0 <= q < |pages| ==> GapsAtLeast(pages[q], Big)) ==>
                  r == if |pages| >= 2 then |pages| - 2 else 0))
  {
    FirstPageWithSpec(pages, Phrase, 0);
    ScanPagesSpec(pages, |pages|);
    var b := ScanPages(pages, |pages|);
    if b.at.Some? {
      assert b.gap < Big && HasPairAt(pages[b.at.value], b.gap);
    }
  }

  /**
    `find_signature_page(doc)` as written: return at the first page with the
    phrase; otherwise the page scan, then the last-resort fallback.
  */
  method FindSignaturePage(doc: Document) returns (r: nat)
    ensures r == SignaturePage(doc.pages)
  {
    for i := 0 to |doc.pages|
      invariant FirstPageWith(doc.pages, Phrase, 0) == FirstPageWith(doc.pages, Phrase, i)
    {
      if SearchFor(doc.pages[i], Phrase) != [] {
        return i;
      }
    }
    var best: Option<nat> := None;
    var bestGap := Big;
    for i := 0 to |doc.pages|
      invariant Best(best, bestGap) == ScanPages(doc.pages, i)
    {
      var sigs, dates := SearchFor(doc.pages[i], SignatureLabel), SearchFor(doc.pages[i], DateLabel);
      var inner := ScanPairs(sigs, dates, None, bestGap);
      if inner.at.Some? {
        best, bestGap := Some(i), inner.gap;
      }
    }
    if best.Some? {
      return best.value;
    }
    return if |doc.pages| >= 2 then |doc.pages| - 2 else 0;
  }

  /**
    A three-page document whose pages 0 and 1 hold loose "Signature"/"Date"
    words and only page 2 holds the phrase: page 2 is chosen.
  */
  lemma PhrasePageWins()
    ensures var loose := Page([], map[SignatureLabel := [Rect(50.0, 600.0, 110.0, 612.0)],
                                      DateLabel := [Rect(300.0, 600.0, 330.0, 612.0)]]);
            var block := Page([], map[Phrase := [Rect(50.0, 500.0, 400.0, 512.0)]]);
      SignaturePage([loose, loose, block]) == 2
  {
    var loose := Page([], map[SignatureLabel := [Rect(50.0, 600.0, 110.0, 612.0)],
                              DateLabel := [Rect(300.0, 600.0, 330.0, 612.0)]]);
    var block := Page([], map[Phrase := [Rect(50.0, 500.0, 400.0, 512.0)]]);
    var pages := [loose, loose, block];
    assert SearchFor(loose, Phrase) == [];
    assert FirstPageWith(pages, Phrase, 2) == Some(2);
    assert FirstPageWith(pages, Phrase, 1) == Some(2);
  }

  // ---------------------------------------------------------------------------
  // fill_signature_section_red: the paragraph tokens
  // ---------------------------------------------------------------------------

  /** Where text of width `w` goes so that it ends 6 before `token`, on the token's bottom edge less 2. */
  function LeftOf(token: Rect, w: real): (at: Point)
    ensures at.x + w + 6.0 == token.x0 && at.y + 2.0 == token.y1
  {
    Point(token.x0 - 6.0 - w, token.y1 - 2.0)
  }

  /** The first index at or after `k` whose box top is at or below `y`. */
  function FirstAtOrBelow(rs: seq<Rect>, y: real, k: nat): (r: Option<nat>)
    ensures r.Some? ==> k <= r.value < |rs| && rs[r.value].y0 >= y
    decreases |rs| - k
  {
    if k >= |rs| then None
    else if rs[k].y0 >= y then Some(k)
    else FirstAtOrBelow(rs, y, k + 1)
  }

  lemma {:induction false} FirstAtOrBelowSpec(rs: seq<Rect>, y: real, k: nat)
    decreases |rs| - k
    ensures FirstAtOrBelow(rs, y, k).None? <==> forall i :: k <= i < |rs| ==> rs[i].y0 < y
    ensures FirstAtOrBelow(rs, y, k).Some? ==> forall i :: k <= i < FirstAtOrBelow(rs, y, k).value ==> rs[i].y0 < y
  {
    if k < |rs| && rs[k].y0 < y {
      FirstAtOrBelowSpec(rs, y, k + 1);
    }
  }

  /** Which "(Date)" token gets the "NA": the first no higher than 5 above "(Name)", else the first. */
  function ParagraphDate(names: seq<Rect>, dates: seq<Rect>): (k: nat)
    requires dates != []
    ensures k < |dates|
  {
    if names == [] then 0
    else match FirstAtOrBelow(dates, names[0].y0 - 5.0, 0)
      case Some(k) => k
      case None => 0
  }

  /**
    With a "(Name)" token, the chosen "(Date)" is the first, in search order,
    whose top is at least the name's top less 5, when there is one; in every
    other case it is the first "(Date)".
  */
  lemma ParagraphDateSpec(names: seq<Rect>, dates: seq<Rect>)
    requires dates != []
    ensures var k := ParagraphDate(names, dates);
      && (names != [] && (exists i :: 0 <= i < |dates| && dates[i].y0 >= names[0].y0 - 5.0) ==>
            dates[k].y0 >= names[0].y0 - 5.0 && forall i :: 0 <= i < k ==> dates[i].y0 < names[0].y0 - 5.0)
      && (names == [] || (forall i :: 0 <= i < |dates| ==> dates[i].y0 < names[0].y0 - 5.0) ==> k == 0)
  {
    if names != [] {
      FirstAtOrBelowSpec(dates, names[0].y0 - 5.0, 0);
    }
  }

  /** The `chosen` loop of `fill_signature_section_red`, which stops at the first acceptable "(Date)". */
  method ChooseParagraphDate(names: seq<Rect>, dates: seq<Rect>) returns (chosen: Rect)
    requires dates != []
    ensures chosen == dates[ParagraphDate(names, dates)]
  {
    if names != [] {
      var ny := names[0].y0;
      for k := 0 to |dates|
        invariant FirstAtOrBelow(dates, ny - 5.0, 0) == FirstAtOrBelow(dates, ny - 5.0, k)
      {
        if dates[k].y0 >= ny - 5.0 {
          return dates[k];
        }
      }
    }
    return dates[0];
  }

  /**
    What the paragraph step adds: the signer's name right-aligned before the
    first "(Name)", then "NA" right-aligned before the chosen "(Date)", each only
    if its token is on the page; both 11 pt red.
  */
  function ParagraphItems(p: Page, name: string, metric: Metric): seq<Item> {
    var names := SearchFor(p, NameToken);
    var dates := SearchFor(p, DateToken);
    (if names != [] then [Text(LeftOf(names[0], TextWidth(name, 11.0, metric(name, 11.0))), name, 11.0, Red)] else [])
    + (if dates != [] then [Text(LeftOf(dates[ParagraphDate(names, dates)], TextWidth(NaMark, 11.0, metric(NaMark, 11.0))), NaMark, 11.0, Red)] else [])
  }

  /**
    The paragraph step writes one item per token kind present. The name, when
    written, is the first item and ends, by the metric's width, exactly 6 before
    the first "(Name)"; the "NA" is the last item and ends 6 before the "(Date)"
    that `ParagraphDate` chooses. Both sit 2 above their token's bottom edge.
  */
  lemma ParagraphItemsSpec(p: Page, name: string, metric: Metric)
    ensures var names := SearchFor(p, NameToken);
            var dates := SearchFor(p, DateToken);
            var items := ParagraphItems(p, name, metric);
      && |items| == (if names != [] then 1 else 0) + (if dates != [] then 1 else 0)
      && (names != [] ==>
            && items[0].Text? && items[0].text == name && items[0].fontsize == 11.0 && items[0].color == Red
            && items[0].at.x + TextWidth(name, 11.0, metric(name, 11.0)) == names[0].x0 - 6.0
            && items[0].at.y == names[0].y1 - 2.0)
      && (dates != [] ==>
            var na := items[|items| - 1];
            && na.Text? && na.text == NaMark && na.fontsize == 11.0 && na.color == Red
            && var k := ParagraphDate(names, dates);
            && na.at.x + TextWidth(NaMark, 11.0, metric(NaMark, 11.0)) == dates[k].x0 - 6.0
            && na.at.y == dates[k].y1 - 2.0)
  {
  }

  // ---------------------------------------------------------------------------
  // fill_signature_section_red: the Signature/Date label pair
  // ---------------------------------------------------------------------------

  /** `min(range(n), key=keys.__getitem__)`: the first index with the smallest key. */
  function ArgMin(keys: seq<real>, n: nat): (k: nat)
    requires 0 < n <= |keys|
    ensures k < n
  {
    if n == 1 then 0
    else
      var m := ArgMin(keys, n - 1);
      if keys[n - 1] < keys[m] then n - 1 else m
  }

  /** The smallest key is at the index returned, and every earlier key is strictly larger. */
  lemma {:induction false} ArgMinSpec(keys: seq<real>, n: nat)
    requires 0 < n <= |keys|
    ensures forall i :: 0 <= i < n ==> keys[ArgMin(keys, n)] <= keys[i]
    ensures forall i :: 0 <= i < ArgMin(keys, n) ==> keys[ArgMin(keys, n)] < keys[i]
  {
    if n > 1 {
      ArgMinSpec(keys, n - 1);
    }
  }

  /** The tops of the boxes: the key of `min(sig_rects, key=lambda r: r.y0)`. */
  function Tops(rs: seq<Rect>): (ks: seq<real>)
    ensures |ks| == |rs|
  {
    seq(|rs|, i requires 0 <= i < |rs| => rs[i].y0)
  }

  /** The centre gaps to `s`: the key of the `min` that picks the Date nearest to `s`. */
  function GapsTo(rs: seq<Rect>, s: Rect): (ks: seq<real>)
    ensures |ks| == |rs|
  {
    seq(|rs|, i requires 0 <= i < |rs| => CentreGap(rs[i], s))
  }

  /**
    The `best_pair` of `fill_signature_section_red` as indexes: the closest pair
    within `tol`, else, when both kinds of label exist, the topmost Signature and
    the Date nearest to it in height.
  */
  function LabelPair(sigs: seq<Rect>, dates: seq<Rect>, tol: real): (r: Option<(nat, nat)>)
    ensures r.Some? ==> r.value.0 < |sigs| && r.value.1 < |dates|
  {
    var b := PairScan(sigs, dates, Some(tol), Big);
    if b.at.Some? then b.at
    else if sigs != [] && dates != [] then
      var i := ArgMin(Tops(sigs), |sigs|);
      Some((i, ArgMin(GapsTo(dates, sigs[i]), |dates|)))
    else None
  }

  /** A pair is chosen exactly when both kinds of label are on the page. */
  lemma LabelPairExists(sigs: seq<Rect>, dates: seq<Rect>, tol: real)
    ensures LabelPair(sigs, dates, tol).Some? <==> sigs != [] && dates != []
  {
    PairScanSpec(sigs, dates, Some(tol), Big);
  }

  /**
    When some pair is within `tol` (and below `1e9`), the chosen pair is within
    `tol` and has the smallest gap of all such pairs; the pairs before it in loop
    order are all strictly wider.
  */
  lemma LabelPairClosest(sigs: seq<Rect>, dates: seq<Rect>, tol: real)
    requires exists i, j :: 0 <= i < |sigs| && 0 <= j < |dates| &&
               CentreGap(sigs[i], dates[j]) <= tol && CentreGap(sigs[i], dates[j]) < Big
    ensures var r := LabelPair(sigs, dates, tol);
      && r.Some?
      && var i := r.value.0;
      && var j := r.value.1;
      && CentreGap(sigs[i], dates[j]) <= tol
      && (forall i', j' :: 0 <= i' < |sigs| && 0 <= j' < |dates| && CentreGap(sigs[i'], dates[j']) <= tol ==>
            CentreGap(sigs[i], dates[j]) <= CentreGap(sigs[i'], dates[j']))
      && (forall i', j' :: Before(sigs, dates, i', j', i, j) && CentreGap(sigs[i'], dates[j']) <= tol ==>
            CentreGap(sigs[i], dates[j]) < CentreGap(sigs[i'], dates[j']))
  {
    PairScanSpec(sigs, dates, Some(tol), Big);
  }

  /**
    When no pair is both within `tol` and below `1e9` (so the nested loops find
    nothing) but both kinds of label exist, the pair is the
    topmost Signature (the first of equally high ones) and the Date whose centre
    is nearest to that Signature's (the first of equally near ones), however far.
  */
  lemma LabelPairFallback(sigs: seq<Rect>, dates: seq<Rect>, tol: real)
    requires sigs != [] && dates != []
    requires forall i, j :: 0 <= i < |sigs| && 0 <= j < |dates| ==>
               !(CentreGap(sigs[i], dates[j]) <= tol && CentreGap(sigs[i], dates[j]) < Big)
    ensures var r := LabelPair(sigs, dates, tol);
      && r.Some?
      && var i := r.value.0;
      && var j := r.value.1;
      && (forall k :: 0 <= k < |sigs| ==> sigs[i].y0 <= sigs[k].y0)
      && (forall k :: 0 <= k < i ==> sigs[i].y0 < sigs[k].y0)
      && (forall k :: 0 <= k < |dates| ==> CentreGap(dates[j], sigs[i]) <= CentreGap(dates[k], sigs[i]))
      && (forall k :: 0 <= k < j ==> CentreGap(dates[j], sigs[i]) < CentreGap(dates[k], sigs[i]))
  {
    PairScanSpec(sigs, dates, Some(tol), Big);
    var i := ArgMin(Tops(sigs), |sigs|);
    ArgMinSpec(Tops(sigs), |sigs|);
    ArgMinSpec(GapsTo(dates, sigs[i]), |dates|);
    assert forall k :: 0 <= k < |sigs| ==> Tops(sigs)[k] == sigs[k].y0;
    assert forall k :: 0 <= k < |dates| ==> GapsTo(dates, sigs[i])[k] == CentreGap(dates[k], sigs[i]);
  }

  /**
    One "Signature" label and one "Date" label whose centres are 80 apart, beyond
    the default tolerance of 60: the fallback still pairs them.
  */
  lemma FarLabelsStillPaired()
    ensures LabelPair([Rect(50.0, 600.0, 110.0, 612.0)], [Rect(50.0, 680.0, 80.0, 692.0)], DefaultTol) == Some((0, 0))
  {
    var sigs := [Rect(50.0, 600.0, 110.0, 612.0)];
    var dates := [Rect(50.0, 680.0, 80.0, 692.0)];
    assert CentreGap(sigs[0], dates[0]) == 80.0;
    PairScanSpec(sigs, dates, Some(DefaultTol), Big);
  }

  /**
    What the pairing step adds: nothing without a pair; otherwise the signer's
    name (16 pt) 12 right of the Signature label and the date (12 pt) 12 right of
    the Date label, each 2 above its label's bottom edge, in red.
  */
  function PairItems(p: Page, name: string, date: string, tol: real): seq<Item> {
    var sigs := SearchFor(p, SignatureLabel);
    var dates := SearchFor(p, DateLabel);
    match LabelPair(sigs, dates, tol)
    case None => []
    case Some((i, j)) =>
      [Text(Point(sigs[i].x1 + 12.0, sigs[i].y1 - 2.0), name, 16.0, Red),
       Text(Point(dates[j].x1 + 12.0, dates[j].y1 - 2.0), date, 12.0, Red)]
  }

  /** Everything `fill_signature_section_red` adds to the signature page, in order. */
  function SignatureItems(p: Page, name: string, date: string, tol: real, metric: Metric): seq<Item> {
    ParagraphItems(p, name, metric) + PairItems(p, name, date, tol)
  }

  /**
    The pairing step writes the name and the date, in that order, exactly when
    both kinds of label are on the page: the name 12 right of the chosen
    "Signature" label and the date 12 right of the chosen "Date" label, each 2
    above its label's bottom edge. With either kind missing it writes nothing and
    the paragraph step still applies.
  */
  lemma SignatureItemsSpec(p: Page, name: string, date: string, tol: real, metric: Metric)
    ensures var sigs := SearchFor(p, SignatureLabel);
            var dates := SearchFor(p, DateLabel);
            var items := SignatureItems(p, name, date, tol, metric);
            var para := ParagraphItems(p, name, metric);
      && items[..|para|] == para
      && (sigs == [] || dates == [] ==> items == para)
      && (sigs != [] && dates != [] ==>
            && |items| == |para| + 2
            && items[|para|].Text? && items[|para|].text == name && items[|para|].fontsize == 16.0
            && items[|para| + 1].Text? && items[|para| + 1].text == date && items[|para| + 1].fontsize == 12.0
            && items[|para|].color == Red && items[|para| + 1].color == Red
            && var pair := LabelPair(sigs, dates, tol).value;
            && items[|para|].at.x == sigs[pair.0].x1 + 12.0 && items[|para|].at.y == sigs[pair.0].y1 - 2.0
            && items[|para| + 1].at.x == dates[pair.1].x1 + 12.0 && items[|para| + 1].at.y == dates[pair.1].y1 - 2.0)
  {
    var sigs := SearchFor(p, SignatureLabel);
    var dates := SearchFor(p, DateLabel);
    LabelPairExists(sigs, dates, tol);
    var para := ParagraphItems(p, name, metric);
    assert SignatureItems(p, name, date, tol, metric)[..|para|] == para;
  }

  /**
    The paragraph step of `fill_signature_section_red` on page `q`: the signer's
    name before the first "(Name)", then "NA" before the chosen "(Date)".
  */
  method FillParagraph(doc: Document, q: nat, name: string, metric: Metric)
    requires doc.Valid() && q < |doc.pages|
    modifies doc
    ensures doc.Valid()
    ensures doc.drawn == old(doc.drawn)[q := old(doc.drawn)[q] + ParagraphItems(doc.pages[q], name, metric)]
  {
    var page := doc.pages[q];
    ghost var before := doc.drawn;
    ghost var done: seq<Item> := [];
    AppendNothing(before, q);
    var nameMarks := SearchFor(page, NameToken);
    var dateMarksPara := SearchFor(page, DateToken);
    if nameMarks != [] {
      var r := nameMarks[0];
      var w := TextWidth(name, 11.0, metric(name, 11.0));
      var it := Text(LeftOf(r, w), name, 11.0, Red);
      AppendTwice(before, q, done, [it]);
      doc.InsertText(q, it.at, it.text, it.fontsize, it.color);
      done := done + [it];
    }
    if dateMarksPara != [] {
      var chosen := ChooseParagraphDate(nameMarks, dateMarksPara);
      var w := TextWidth(NaMark, 11.0, metric(NaMark, 11.0));
      var it := Text(LeftOf(chosen, w), NaMark, 11.0, Red);
      AppendTwice(before, q, done, [it]);
      doc.InsertText(q, it.at, it.text, it.fontsize, it.color);
      done := done + [it];
    }
    assert done == ParagraphItems(page, name, metric);
  }

  /**
    The `best_pair` computation: the nested loops within `tol`, then, if they
    found nothing and both kinds of label exist, Python's `min` for the topmost
    Signature and for the Date nearest to it.
  */
  method ChooseLabelPair(sigs: seq<Rect>, dates: seq<Rect>, tol: real) returns (pair: Option<(nat, nat)>)
    ensures pair == LabelPair(sigs, dates, tol)
  {
    var best := ScanPairs(sigs, dates, Some(tol), Big);
    pair := best.at;
    if pair.None? && sigs != [] && dates != [] {
      var s := ArgMin(Tops(sigs), |sigs|);
      var d := ArgMin(GapsTo(dates, sigs[s]), |dates|);
      pair := Some((s, d));
    }
  }

  /** The pairing step on page `q`: the name after the Signature label and the date after the Date label. */
  method SignNextToLabels(doc: Document, q: nat, name: string, date: string, tol: real)
    requires doc.Valid() && q < |doc.pages|
    modifies doc
    ensures doc.Valid()
    ensures doc.drawn == old(doc.drawn)[q := old(doc.drawn)[q] + PairItems(doc.pages[q], name, date, tol)]
  {
    var page := doc.pages[q];
    var sigRects := SearchFor(page, SignatureLabel);
    var dateRects := SearchFor(page, DateLabel);
    var bestPair := ChooseLabelPair(sigRects, dateRects, tol);
    if bestPair.None? {
      AppendNothing(doc.drawn, q);
      return;
    }
    ghost var before := doc.drawn;
    var s, d := sigRects[bestPair.value.0], dateRects[bestPair.value.1];
    var signed := Text(Point(s.x1 + 12.0, s.y1 - 2.0), name, 16.0, Red);
    doc.InsertText(q, signed.at, signed.text, signed.fontsize, signed.color);
    var dated := Text(Point(d.x1 + 12.0, d.y1 - 2.0), date, 12.0, Red);
    AppendTwice(before, q, [signed], [dated]);
    doc.InsertText(q, dated.at, dated.text, dated.fontsize, dated.color);
    assert [signed] + [dated] == PairItems(page, name, date, tol);
  }

  /**
    `fill_signature_section_red(doc, signer_name, bottom_date, tol)`: on the page
    `find_signature_page` picks, the paragraph step and then the pairing step
    append their texts to that page. An empty document has no such page
    (`doc[0]` raises `IndexError`): `ok` is false and nothing is drawn.
  */
  method FillSignatureSection(doc: Document, name: string, date: string, tol: real, metric: Metric) returns (ok: bool)
    requires doc.Valid()
    modifies doc
    ensures doc.Valid()
    ensures ok <==> |doc.pages| > 0
    ensures !ok ==> doc.drawn == old(doc.drawn)
    ensures ok ==> (SignaturePage(doc.pages) < |doc.pages| &&
      doc.drawn == old(doc.drawn)[SignaturePage(doc.pages) :=
        old(doc.drawn)[SignaturePage(doc.pages)] + SignatureItems(doc.pages[SignaturePage(doc.pages)], name, date, tol, metric)])
  {
    var q := FindSignaturePage(doc);
    if q >= |doc.pages| {
      return false;
    }
    ghost var before := doc.drawn;
    FillParagraph(doc, q, name, metric);
    AppendTwice(before, q, ParagraphItems(doc.pages[q], name, metric), PairItems(doc.pages[q], name, date, tol));
    SignNextToLabels(doc, q, name, date, tol);
    return true;
  }
}
