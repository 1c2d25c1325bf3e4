/**
  `insert_ieq_notes_na`: for every page that has an IEQ heading, in page order, a
  red "NA" next to the first "Notes:" label after the heading, on the same page
  below the heading or else on the first later page that has one.
*/
module Notes {
  import opened Wrappers
  import opened Geometry
  import opened Pdf

  const NotesLabel := "Notes:"

  /** `[r for r in rects if r.y0 > ieq.y1]`: the hits strictly below the heading. */
  function BelowHeading(rects: seq<Rect>, ieq: Rect): seq<Rect> {
    if rects == [] then []
    else (if rects[0].y0 > ieq.y1 then [rects[0]] else []) + BelowHeading(rects[1..], ieq)
  }

  /** No hit is below the heading exactly when every hit is at or above the heading's bottom. */
  lemma {:induction false} BelowHeadingEmpty(rects: seq<Rect>, ieq: Rect)
    ensures BelowHeading(rects, ieq) == [] <==> forall i :: 0 <= i < |rects| ==> rects[i].y0 <= ieq.y1
  {
    if rects != [] {
      BelowHeadingEmpty(rects[1..], ieq);
      assert forall i :: 1 <= i < |rects| ==> rects[i] == rects[1..][i - 1];
    }
  }

  /** The first hit below the heading is the earliest hit, in search order, that lies below it. */
  lemma {:induction false} BelowHeadingHead(rects: seq<Rect>, ieq: Rect)
    requires BelowHeading(rects, ieq) != []
    ensures exists i :: 0 <= i < |rects| && rects[i] == BelowHeading(rects, ieq)[0] && rects[i].y0 > ieq.y1 &&
                        forall j :: 0 <= j < i ==> rects[j].y0 <= ieq.y1
  {
    if rects[0].y0 <= ieq.y1 {
      var rest := rects[1..];
      assert BelowHeading(rects, ieq) == BelowHeading(rest, ieq);
      BelowHeadingHead(rest, ieq);
      var i :| 0 <= i < |rest| && rest[i] == BelowHeading(rest, ieq)[0] && rest[i].y0 > ieq.y1 &&
               forall j :: 0 <= j < i ==> rest[j].y0 <= ieq.y1;
      assert forall j :: 1 <= j < i + 1 ==> rects[j] == rest[j - 1];
      assert rects[i + 1] == rest[i];
    } else {
      assert rects[0] == BelowHeading(rects, ieq)[0];
    }
  }

  /** Where the "NA" for the heading `ieq` on page `start` goes: a page and the label's box. */
  function NotesTarget(pages: seq<Page>, start: nat, ieq: Rect): Option<(nat, Rect)>
    requires start < |pages|
  {
    var candidates := BelowHeading(SearchFor(pages[start], NotesLabel), ieq);
    if candidates != [] then Some((start, candidates[0]))
    else match FirstPageWith(pages, NotesLabel, start + 1)
      case None => None
      case Some(q) => Some((q, SearchFor(pages[q], NotesLabel)[0]))
  }

  /**
    The target is the first "Notes:" after the heading in reading order: the first
    hit below it on its own page, or else the first hit on the first later page
    that has any; there is none exactly when no such label exists.
  */
  lemma NotesTargetSpec(pages: seq<Page>, start: nat, ieq: Rect)
    requires start < |pages|
    ensures var t := NotesTarget(pages, start, ieq);
      && (t.None? <==>
            (forall i :: 0 <= i < |SearchFor(pages[start], NotesLabel)| ==> SearchFor(pages[start], NotesLabel)[i].y0 <= ieq.y1) &&
            (forall q :: start < q < |pages| ==> SearchFor(pages[q], NotesLabel) == []))
      && (t.Some? && t.value.0 == start ==>
            var hits := SearchFor(pages[start], NotesLabel);
            exists i :: 0 <= i < |hits| && hits[i] == t.value.1 && hits[i].y0 > ieq.y1 &&
                        forall j :: 0 <= j < i ==> hits[j].y0 <= ieq.y1)
      && (t.Some? && t.value.0 != start ==>
            && start < t.value.0 < |pages|
            && (forall i :: 0 <= i < |SearchFor(pages[start], NotesLabel)| ==> SearchFor(pages[start], NotesLabel)[i].y0 <= ieq.y1)
            && (forall q :: start < q < t.value.0 ==> SearchFor(pages[q], NotesLabel) == [])
            && t.value.1 == SearchFor(pages[t.value.0], NotesLabel)[0])
  {
    var hits := SearchFor(pages[start], NotesLabel);
    BelowHeadingEmpty(hits, ieq);
    if BelowHeading(hits, ieq) != [] {
      BelowHeadingHead(hits, ieq);
    }
    FirstPageWithSpec(pages, NotesLabel, start + 1);
  }

  /** The `insert_text` call for a label box: red "NA", 11 pt, 10 right of and 8 below its corner. */
  function NaText(target: Rect): (it: Item)
    ensures it.Text? && it.text == "NA" && it.fontsize == 11.0 && it.color == Red
    ensures it.at.x == target.x1 + 10.0 && it.at.y == target.y1 + 8.0
  {
    Text(Point(target.x1 + 10.0, target.y1 + 8.0), "NA", 11.0, Red)
  }

  /** The keys of `sections` below `n`, ascending: `sorted(ieq_sections.items())` when every key is below `n`. */
  function SectionOrder(sections: map<nat, Rect>, n: nat): (r: seq<nat>)
    ensures forall i :: 0 <= i < |r| ==> r[i] in sections && r[i] < n
  {
    if n == 0 then []
    else SectionOrder(sections, n - 1) + (if n - 1 in sections then [n - 1] else [])
  }

  /** The order lists every section below `n` and nothing else. */
  lemma {:induction false} SectionOrderMembers(sections: map<nat, Rect>, n: nat)
    ensures forall k :: k in SectionOrder(sections, n) <==> k in sections && k < n
  {
    if n > 0 {
      SectionOrderMembers(sections, n - 1);
    }
  }

  /** The order is strictly ascending, so each section is handled once. */
  lemma {:induction false} SectionOrderAscending(sections: map<nat, Rect>, n: nat)
    ensures forall a, b :: 0 <= a < b < |SectionOrder(sections, n)| ==> SectionOrder(sections, n)[a] < SectionOrder(sections, n)[b]
  {
    if n > 0 {
      SectionOrderAscending(sections, n - 1);
      SectionOrderMembers(sections, n - 1);
      var prev := SectionOrder(sections, n - 1);
      assert forall a :: 0 <= a < |prev| ==> prev[a] in prev;
    }
  }

  /** The logs after handling the sections `ks` in order, starting from `logs`. */
  ghost function NotesApplied(logs: seq<seq<Item>>, pages: seq<Page>, sections: map<nat, Rect>, ks: seq<nat>): (r: seq<seq<Item>>)
    requires |logs| == |pages|
    requires forall i :: 0 <= i < |ks| ==> ks[i] in sections && ks[i] < |pages|
    ensures |r| == |logs|
  {
    if ks == [] then logs
    else
      var prev := NotesApplied(logs, pages, sections, ks[..|ks| - 1]);
      var k := ks[|ks| - 1];
      match NotesTarget(pages, k, sections[k])
      case None => prev
      case Some((q, r)) => prev[q := prev[q] + [NaText(r)]]
  }

  /** Handling one more section: its "NA", if it has a target, is appended to the target's log. */
  lemma NotesAppliedStep(logs: seq<seq<Item>>, pages: seq<Page>, sections: map<nat, Rect>, ks: seq<nat>, i: nat)
    requires |logs| == |pages| && i < |ks|
    requires forall j :: 0 <= j < |ks| ==> ks[j] in sections && ks[j] < |pages|
    ensures NotesApplied(logs, pages, sections, ks[..i + 1]) ==
      var prev := NotesApplied(logs, pages, sections, ks[..i]);
      var t := NotesTarget(pages, ks[i], sections[ks[i]]);
      if t.Some? then prev[t.value.0 := prev[t.value.0] + [NaText(t.value.1)]] else prev
  {
    assert ks[..i + 1][..i] == ks[..i];
  }

  /** The "NA"s that the sections `ks`, in order, put on page `q`. */
  ghost function NasOn(pages: seq<Page>, sections: map<nat, Rect>, ks: seq<nat>, q: nat): seq<Item>
    requires forall i :: 0 <= i < |ks| ==> ks[i] in sections && ks[i] < |pages|
  {
    if ks == [] then []
    else
      var k := ks[|ks| - 1];
      var t := NotesTarget(pages, k, sections[k]);
      NasOn(pages, sections, ks[..|ks| - 1], q) + (if t.Some? && t.value.0 == q then [NaText(t.value.1)] else [])
  }

  /**
    Page by page: each page's log gains exactly the "NA"s of the sections that
    target it, in section order, and nothing else.
  */
  lemma {:induction false} NotesAppliedPerPage(logs: seq<seq<Item>>, pages: seq<Page>, sections: map<nat, Rect>, ks: seq<nat>, q: nat)
    requires |logs| == |pages| && q < |pages|
    requires forall i :: 0 <= i < |ks| ==> ks[i] in sections && ks[i] < |pages|
    ensures NotesApplied(logs, pages, sections, ks)[q] == logs[q] + NasOn(pages, sections, ks, q)
  {
    if ks != [] {
      NotesAppliedPerPage(logs, pages, sections, ks[..|ks| - 1], q);
    }
  }

  /** With no section recorded, no page is visited. */
  lemma {:induction false} NoSectionsNoOrder(n: nat)
    ensures SectionOrder(map[], n) == []
  {
    if n > 0 {
      NoSectionsNoOrder(n - 1);
    }
  }

  /** Without any IEQ heading there is nothing to do: every log is left as it was. */
  lemma NoHeadingNoNotes(logs: seq<seq<Item>>, pages: seq<Page>)
    requires |logs| == |pages|
    ensures NotesApplied(logs, pages, map[], SectionOrder(map[], |pages|)) == logs
  {
    NoSectionsNoOrder(|pages|);
  }

  /**
    A heading near the foot of page 0 with a "Notes:" above it on page 0 and one
    at the top of page 1: the "NA" goes to page 1, next to the label there.
  */
  lemma NotesOnNextPage()
    ensures var pages := [Page([], map[NotesLabel := [Rect(50.0, 100.0, 90.0, 112.0)]]),
                          Page([], map[NotesLabel := [Rect(50.0, 40.0, 90.0, 52.0)]])];
      NotesTarget(pages, 0, Rect(50.0, 700.0, 300.0, 720.0)) == Some((1, Rect(50.0, 40.0, 90.0, 52.0)))
  {
    var pages := [Page([], map[NotesLabel := [Rect(50.0, 100.0, 90.0, 112.0)]]),
                  Page([], map[NotesLabel := [Rect(50.0, 40.0, 90.0, 52.0)]])];
    var ieq := Rect(50.0, 700.0, 300.0, 720.0);
    var hits := [Rect(50.0, 100.0, 90.0, 112.0)];
    assert SearchFor(pages[0], NotesLabel) == hits;
    assert BelowHeading(hits, ieq) == [] + BelowHeading(hits[1..], ieq);
    assert hits[1..] == [];
    assert FirstPageWith(pages, NotesLabel, 1) == Some(1);
  }

  /**
    `find`-step of `insert_ieq_notes_na` for one heading: the same-page candidates,
    then the forward scan that stops at the first page with a "Notes:" hit.
  */
  method FindNotesTarget(doc: Document, start: nat, ieq: Rect) returns (target: Option<(nat, Rect)>)
    requires start < |doc.pages|
    ensures target == NotesTarget(doc.pages, start, ieq)
  {
    var candidates := BelowHeading(SearchFor(doc.pages[start], NotesLabel), ieq);
    if candidates != [] {
      return Some((start, candidates[0]));
    }
    for pi := start + 1 to |doc.pages|
      invariant FirstPageWith(doc.pages, NotesLabel, start + 1) == FirstPageWith(doc.pages, NotesLabel, pi)
    {
      var nxt := SearchFor(doc.pages[pi], NotesLabel);
      if nxt != [] {
        return Some((pi, nxt[0]));
      }
    }
    return None;
  }

  /**
    `insert_ieq_notes_na(doc, ieq_sections)`: the headings are handled in page
    order and each adds its "NA", if it has a target, to the target's page.
  */
  method InsertIeqNotesNa(doc: Document, sections: map<nat, Rect>)
    requires doc.Valid()
    requires forall k :: k in sections ==> k < |doc.pages|
    modifies doc
    ensures doc.Valid()
    ensures doc.drawn == NotesApplied(old(doc.drawn), doc.pages, sections, SectionOrder(sections, |doc.pages|))
  {
    var ks := SectionOrder(sections, |doc.pages|);
    for i := 0 to |ks|
      invariant doc.Valid()
      invariant doc.drawn == NotesApplied(old(doc.drawn), doc.pages, sections, ks[..i])
    {
      var start := ks[i];
      NotesAppliedStep(old(doc.drawn), doc.pages, sections, ks, i);
      var target := FindNotesTarget(doc, start, sections[start]);
      if target.Some? {
        var (q, r) := target.value;
        var na := NaText(r);
        doc.InsertText(q, na.at, na.text, na.fontsize, na.color);
      }
    }
    assert ks[..|ks|] == ks;
  }
}
