/** Locating the "Indoor Environmental Quality" heading on every page. */
module IeqSections {
  import opened Geometry
  import opened Pdf

  const Heading := "Indoor Environmental Quality"

  /**
    `find_ieq_sections`: page `i` has an entry exactly when the heading is found on
    it, and the entry is the first hit in search order.
  */
  method FindIeqSections(doc: Document) returns (sections: map<nat, Rect>)
    ensures forall i: nat :: i in sections <==> i < |doc.pages| && SearchFor(doc.pages[i], Heading) != []
    ensures forall i :: i in sections ==> sections[i] == SearchFor(doc.pages[i], Heading)[0]
  {
    sections := map[];
    for i := 0 to |doc.pages|
      invariant forall k: nat :: k in sections <==> k < i && SearchFor(doc.pages[k], Heading) != []
      invariant forall k :: k in sections ==> k < |doc.pages| && sections[k] == SearchFor(doc.pages[k], Heading)[0]
    {
      var rects := SearchFor(doc.pages[i], Heading);
      if |rects| > 0 {
        sections := sections[i := rects[0]];
      }
    }
  }
}
