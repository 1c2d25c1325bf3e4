/**
  The rendered document as the annotator sees it. A page's text layer is given
  (its words and, per searched literal, the boxes of the hits in search order);
  what the annotator draws is appended to a per-page log.
*/
module Pdf {
  import opened Wrappers
  import opened Geometry

  /** One entry of `page.get_text("words")`: a box and the word's text. */
  datatype Word = Word(box: Rect, text: string)

  /** What the annotator adds to a page: a `draw_line` or an `insert_text` call. */
  datatype Item =
    | Segment(from: Point, to: Point, color: Rgb, width: real)
    | Text(at: Point, text: string, fontsize: real, color: Rgb)

  /** The text layer of one page. */
  datatype Page = Page(words: seq<Word>, hits: map<string, seq<Rect>>)

  /** `page.search_for(needle)`: the hit boxes in search order, empty when there are none. */
  function SearchFor(p: Page, needle: string): seq<Rect> {
    if needle in p.hits then p.hits[needle] else []
  }

  /** The first page at or after `from` on which `needle` is found. */
  function FirstPageWith(pages: seq<Page>, needle: string, from: nat): (r: Option<nat>)
    ensures r.Some? ==> from <= r.value < |pages| && SearchFor(pages[r.value], needle) != []
    decreases |pages| - from
  {
    if from >= |pages| then None
    else if SearchFor(pages[from], needle) != [] then Some(from)
    else FirstPageWith(pages, needle, from + 1)
  }

  /** There is no such page exactly when no page from `from` on has a hit; otherwise every earlier page has none. */
  lemma {:induction false} FirstPageWithSpec(pages: seq<Page>, needle: string, from: nat)
    decreases |pages| - from
    ensures FirstPageWith(pages, needle, from).None? <==>
      forall q :: from <= q < |pages| ==> SearchFor(pages[q], needle) == []
    ensures FirstPageWith(pages, needle, from).Some? ==>
      var q := FirstPageWith(pages, needle, from).value;
      from <= q < |pages| && SearchFor(pages[q], needle) != [] &&
      forall q' :: from <= q' < q ==> SearchFor(pages[q'], needle) == []
  {
    if from < |pages| && SearchFor(pages[from], needle) == [] {
      FirstPageWithSpec(pages, needle, from + 1);
    }
  }

  /** Appending nothing to one page's log leaves the logs as they were. */
  lemma AppendNothing(logs: seq<seq<Item>>, i: nat)
    requires i < |logs|
    ensures logs[i := logs[i] + []] == logs
  {
    assert logs[i] + [] == logs[i];
  }

  /** Appending `a` and then `b` to page `i`'s log is appending `a + b`. */
  lemma AppendTwice(logs: seq<seq<Item>>, i: nat, a: seq<Item>, b: seq<Item>)
    requires i < |logs|
    ensures logs[i := logs[i] + a][i := logs[i] + a + b] == logs[i := logs[i] + (a + b)]
  {
    assert logs[i] + a + b == logs[i] + (a + b);
  }

  /** `whole` holds `part` as a run of consecutive items starting at index `a`. */
  predicate OccursAt(part: seq<Item>, whole: seq<Item>, a: int) {
    0 <= a && a + |part| <= |whole| && whole[a..a + |part|] == part
  }

  /** `part` is drawn as one run of consecutive items of `whole`. */
  ghost predicate Occurs(part: seq<Item>, whole: seq<Item>) {
    exists a :: OccursAt(part, whole, a)
  }

  lemma OccursInAppend(part: seq<Item>, p: seq<Item>, q: seq<Item>)
    ensures Occurs(part, p) ==> Occurs(part, p + q)
    ensures Occurs(part, q) ==> Occurs(part, p + q)
    ensures Occurs(q, p + q)
  {
    if Occurs(part, p) {
      var a :| OccursAt(part, p, a);
      assert (p + q)[a..a + |part|] == p[a..a + |part|];
      assert OccursAt(part, p + q, a);
    }
    if Occurs(part, q) {
      var a :| OccursAt(part, q, a);
      assert (p + q)[|p| + a..|p| + a + |part|] == q[a..a + |part|];
      assert OccursAt(part, p + q, |p| + a);
    }
    assert (p + q)[|p|..|p| + |q|] == q;
    assert OccursAt(q, p + q, |p|);
  }

  lemma OccursTrans(a: seq<Item>, b: seq<Item>, c: seq<Item>)
    requires Occurs(a, b) && Occurs(b, c)
    ensures Occurs(a, c)
  {
    var i :| OccursAt(a, b, i);
    var j :| OccursAt(b, c, j);
    assert forall k :: 0 <= k < |a| ==> c[j + i + k] == b[i + k] == a[k];
    assert c[j + i..j + i + |a|] == a;
    assert OccursAt(a, c, j + i);
  }

  /** An open document: fixed pages, each with an append-only log of drawn items. */
  class Document {
    const pages: seq<Page>
    var drawn: seq<seq<Item>>

    ghost predicate Valid()
      reads this
    {
      |drawn| == |pages|
    }

    constructor (pages: seq<Page>)
      ensures Valid() && this.pages == pages
      ensures forall i :: 0 <= i < |pages| ==> drawn[i] == []
    {
      this.pages := pages;
      drawn := seq(|pages|, _ => []);
    }

    /** `page.draw_line(from, to, color, width)` on page `i`. */
    method DrawLine(i: nat, from: Point, to: Point, color: Rgb, width: real)
      requires Valid() && i < |pages|
      modifies this
      ensures Valid()
      ensures drawn == old(drawn)[i := old(drawn)[i] + [Segment(from, to, color, width)]]
    {
      drawn := drawn[i := drawn[i] + [Segment(from, to, color, width)]];
    }

    /** `page.insert_text(at, text, fontsize, fill=color)` on page `i` (the font is always Helvetica). */
    method InsertText(i: nat, at: Point, text: string, fontsize: real, color: Rgb)
      requires Valid() && i < |pages|
      modifies this
      ensures Valid()
      ensures drawn == old(drawn)[i := old(drawn)[i] + [Text(at, text, fontsize, color)]]
    {
      drawn := drawn[i := drawn[i] + [Text(at, text, fontsize, color)]];
    }
  }
}
