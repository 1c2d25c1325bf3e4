# DVC auto-signer: a verified model of the annotation core

`auto_sign.py` annotates ENERGY STAR DVC checklists (PDF forms) in place. Its
core, modelled here, works on one open document:

- **Section locator** (`find_ieq_sections`). It records, for each page, the first box of the
  "Indoor Environmental Quality" heading.
- **Checkbox marker** (`mark_yes_boxes_red`). It groups a page's words into lines by
  rounding the vertical centre to half units, sorts each line left to right,
  and draws a jittered red X left of every "Yes" that looks like a checkbox
  label. Such a "Yes" has:
  - a "No" 30 to 250 units to its right on the same line;
  - no left neighbour holding a digit or '%';
  - a position not at or below (2 units above) the page's IEQ heading.
- **Notes filler** (`insert_ieq_notes_na`). For each heading, in page order, it writes
  a red "NA" next to the first "Notes:" after the heading. That label is on
  the same page below the heading, or else the first one on a later page.
- **Signature filler** (`find_signature_page`, `fill_signature_section_red`).
  It picks the signature page: the page with the exact phrase, else the page of
  the closest Signature/Date pair, else the second-to-last page. Then it:
  - writes the signer's name and "NA" before the "(Name)"/"(Date)" paragraph
    tokens;
  - signs and dates next to the Signature/Date label pair closest in height,
    within a tolerance, with a fallback pairing.

The model keeps the program's form:

- The document is a `Pdf.Document` object. Each page's text layer is fixed:
  its words, and the search hits per literal in search order. Each page also
  has an append-only log of drawn items.
- The four operations are methods that loop as the Python does. Each is proved
  equal to a specification function of the old state.
- Lemmas state what those functions promise: which "Yes" words get marks and
  where, which label gets the "NA", which page and pair are chosen, and the
  first-of-ties behaviour of every scan.

Modules: `Wrappers`, `Geometry`, `Pdf`, `IeqSections`, `Lines`, `YesMarks`,
`Notes`, `Signature`.

Two thresholds the model takes from the code as written:

- The docstrings at `auto_sign.py:27` and `auto_sign.py:50` say a "Yes" is
  skipped when it is BELOW the heading's Y. The check at `auto_sign.py:80`
  skips it when its top is at least the heading's top **minus 2**, so a "Yes"
  up to 2 units above the heading is skipped too. The model follows line 80.
- The paragraph "(Date)" that gets the "NA" (`auto_sign.py:189`) is the first
  whose top is at least the "(Name)" token's top **minus 5**.

## Model

| member | source | states |
|---|---|---|
| IeqSections.FindIeqSections | auto_sign.py:23-35 | A page is a key exactly when the heading is found on it; its value is the first hit in search order. |
| Lines.RoundHalfEven | auto_sign.py:65 | Python's `round`: within one half of the argument, and an even integer on an exact tie. |
| Lines.RoundHalfEvenUnique | auto_sign.py:65 | Those two properties determine the rounded value, so they specify `round` completely. |
| Lines.LineKeyNearCentre | auto_sign.py:64-65 | A line key is a multiple of one half, within a quarter unit of the word's vertical centre. |
| Lines.KeysInOrderSpec | auto_sign.py:61-66 | The dict's keys are exactly the line keys of the page's words, without repeats. |
| Lines.KeysInFirstAppearanceOrder | auto_sign.py:61-71 | The lines are visited in the order in which their first word appears (dict insertion order). |
| Lines.BucketSpec | auto_sign.py:61-66 | A bucket holds the words with that key, each exactly as often as the page does, and no others. |
| Lines.BucketInPageOrder | auto_sign.py:62-66 | A bucket lists its words in page order: its a-th word sits at the a-th ascending page position with that key, and every such position is used. |
| Lines.SameLineIff | auto_sign.py:62-66 | Two words share a bucket if and only if their keys are equal. |
| Lines.BucketLines | auto_sign.py:61-66 | The grouping loop builds exactly these keys, in first-appearance order, with exactly these buckets. |
| Lines.InsertByXSpec | auto_sign.py:72 | One insertion step keeps the line sorted by left edge and adds exactly one word. |
| Lines.SortByXSpec | auto_sign.py:72 | `line_words.sort(key=x0)` yields a sorted permutation of the line. |
| Lines.InsertByXStable | auto_sign.py:72 | Inserting a word keeps the relative order of the words with any given left edge. |
| Lines.SortByXStable | auto_sign.py:72 | The sort is stable: words with equal left edges keep their page order. |
| YesMarks.CrossGeometry | auto_sign.py:110-121 | With draws in the `uniform` ranges, the two strokes are the diagonals of a square. Its centre is within 1.5 of `x_offset` left of the word and within 1.2 of the word's centre; its side and stroke width are floored at 7.5 and 0.9. |
| YesMarks.DefaultCrossGeometry | auto_sign.py:109-121 | With the default style, the centre is 7.5 to 10.5 left of the word, the side is 7.5 to 11.2, and the whole X stays left of the word. |
| YesMarks.AnyRightNoSpec | auto_sign.py:83-96 | The right-"No" check succeeds exactly when some "No" of the line starts 30 to 250 units right of the "Yes". |
| YesMarks.LeftNeighborUnique | auto_sign.py:98-103 | The left neighbour (the right-most word ending at most 25 before the "Yes") is unique. |
| YesMarks.LeftNeighborScanSpec | auto_sign.py:99-103 | The neighbour scan finds nothing exactly when no word ends within 25 before the "Yes"; otherwise it finds the left neighbour. |
| YesMarks.QualifiesSpec | auto_sign.py:76-107 | A "Yes" is marked iff it is above the IEQ cutoff, has a qualifying "No" to its right, and has no left neighbour with a digit or '%'. |
| YesMarks.NearestRightNo | auto_sign.py:86-96 | The `min_dx` loop finds no "No" exactly when none qualifies. Otherwise it finds the nearest one, the first of equally near ones. |
| YesMarks.LeftNeighbor | auto_sign.py:99-103 | The `left_neighbor` loop returns the left neighbour, or nothing when no word qualifies. |
| YesMarks.YesWordsSpec | auto_sign.py:73 | The candidates are exactly the line's "Yes" words. |
| YesMarks.ShouldMark | auto_sign.py:79-107 | The chain of `continue` checks lets a candidate through exactly when it qualifies. |
| YesMarks.BucketsMarksAgree | auto_sign.py:71-77 | Reading lines from the built dict draws the same strokes as reading them from the words. |
| YesMarks.CandMarksSound | auto_sign.py:76-121 | Every stroke drawn for a line belongs to the X of a qualifying candidate. |
| YesMarks.CandMarksComplete | auto_sign.py:76-121 | Every qualifying candidate's X is drawn as two consecutive strokes. |
| YesMarks.LinesMarksSound | auto_sign.py:71-121 | Every stroke on the page comes from one of its lines. |
| YesMarks.LinesMarksComplete | auto_sign.py:71-121 | Every line's strokes appear, in one run, among the page's strokes. |
| YesMarks.InLine | auto_sign.py:61-72 | A word of a sorted line is a word of the page with that line's key. |
| YesMarks.PageMarksSound | auto_sign.py:55-121 | Every stroke on a page belongs to the X of a "Yes" of that page that qualifies on its line. |
| YesMarks.PageMarksComplete | auto_sign.py:55-121 | Every "Yes" that qualifies on its line gets both strokes of its X. |
| YesMarks.CountSort | auto_sign.py:72 | Sorting a line does not change how many of its words satisfy a property. |
| YesMarks.CandMarksCount | auto_sign.py:76-121 | A line's candidates draw exactly two strokes per qualifying candidate. |
| YesMarks.LineMarksCount | auto_sign.py:71-121 | A line draws exactly two strokes per marked "Yes" in its bucket. |
| YesMarks.LinesCountAll | auto_sign.py:61-71 | Counting line by line over the dict's keys counts every word of the page exactly once. |
| YesMarks.PageMarksCount | auto_sign.py:55-121 | A page gets exactly twice as many strokes as it has words (with repeats) that are a "Yes" qualifying on their line: one X each, drawn once. |
| YesMarks.MarksSitLeftOfTheirYes | auto_sign.py:109-121 | With the default style, every stroke belongs to an X centred 7.5 to 10.5 left of a marked "Yes", level with it within 1.2, and clear of the word. |
| YesMarks.NoNoNoMarks | auto_sign.py:84-85 | A page with no "No" word gets no marks. |
| YesMarks.NothingBelowHeading | auto_sign.py:68-81 | With a truthy IEQ rect on the page, every stroke belongs to a "Yes" whose top is more than 2 above the heading's top. |
| YesMarks.CheckboxRowIsMarked | auto_sign.py:55-121 | "Yes" at (100,200)-(130,212) with "No" at (180,200)-(210,212) and no heading: exactly one X, with the draws of line 206 candidate 0. |
| YesMarks.PercentYesIsNotMarked | auto_sign.py:98-107 | The same row preceded by "100%" gets no mark. |
| YesMarks.MarkLine | auto_sign.py:76-121 | Marking one line appends exactly that line's strokes to its page and changes no other page. |
| YesMarks.MarkLines | auto_sign.py:71-121 | The loop over the dict's lines appends their strokes in key order. |
| YesMarks.MarkPage | auto_sign.py:55-121 | A page's log gains exactly its marks, and no other page changes. |
| YesMarks.MarkYesBoxes | auto_sign.py:37-121 | Every page's log gains exactly that page's marks under that page's IEQ cutoff. |
| Pdf.FirstPageWithSpec | auto_sign.py:136-141 | The forward scan finds nothing iff no later page has a hit; otherwise it finds the first page that has one. |
| Notes.BelowHeadingEmpty | auto_sign.py:131 | No candidate exists exactly when every "Notes:" hit starts at or above the heading's bottom. |
| Notes.BelowHeadingHead | auto_sign.py:131-132 | The first candidate is the earliest hit, in search order, below the heading. |
| Notes.NotesTargetSpec | auto_sign.py:129-141 | The target is the first same-page "Notes:" below the heading, else the first hit on the first later page with one. There is none iff neither exists. |
| Notes.NaText | auto_sign.py:143-150 | The inserted item is a red 11-point "NA" placed 10 right of and 8 below the label's bottom-right corner. |
| Notes.SectionOrder | auto_sign.py:128 | Only recorded sections of existing pages are visited. |
| Notes.SectionOrderMembers | auto_sign.py:128 | Every recorded section is visited. |
| Notes.SectionOrderAscending | auto_sign.py:128 | Sections are visited in strictly ascending page order, each once. |
| Notes.NotesAppliedStep | auto_sign.py:128-150 | Handling one more section appends its "NA", if it has a target, to the target's page. |
| Notes.NotesAppliedPerPage | auto_sign.py:128-150 | Each page gains exactly the "NA"s of the sections that target it, in section order. |
| Notes.NoHeadingNoNotes | auto_sign.py:128 | With no IEQ heading, nothing is inserted. |
| Notes.NotesOnNextPage | auto_sign.py:129-141 | A "Notes:" above the heading is skipped, and the "NA" goes to the next page's label. |
| Notes.FindNotesTarget | auto_sign.py:129-141 | The candidate filter and the forward loop with its `break` compute the target. |
| Notes.InsertIeqNotesNa | auto_sign.py:123-150 | The logs become those produced by handling the sections in ascending page order. |
| Signature.TextWidth | auto_sign.py:17-21 | The measured width when the lookup succeeds; otherwise a non-negative estimate for a non-negative size, zero for the empty string. |
| Signature.TextWidthFallbackStep | auto_sign.py:21 | The fallback estimate grows by half the font size per character (with the empty case, it is `len * fontsize * 0.5`). |
| Signature.PairScanSpec | auto_sign.py:200-205 | The nested loops find a pair iff some pair within tolerance beats the bound. The pair has the smallest such gap, and every pair before it in loop order is strictly wider. |
| Signature.ScanPairs | auto_sign.py:200-205 | The nested `for s / for d` loops compute that scan. |
| Signature.ScanPagesSpec | auto_sign.py:158-165 | The page scan's gap is at most every pair's gap on every page and never above `1e9`. Its page has a pair at that gap, and every earlier page's pairs are wider. |
| Signature.SignaturePage | auto_sign.py:166 | The result is a valid page index for any non-empty document. |
| Signature.SignaturePageSpec | auto_sign.py:152-166 | The result is the first phrase page; else the first page with a minimal-gap pair below `1e9`; else `max(0, len(doc)-2)`. |
| Signature.FindSignaturePage | auto_sign.py:152-166 | The early return and the page loop compute that page. |
| Signature.PhrasePageWins | auto_sign.py:154-156 | With loose Signature/Date words on pages 0-1 and the phrase only on page 2, page 2 is chosen. |
| Signature.LeftOf | auto_sign.py:182 | Text of width `w` placed there ends exactly 6 before the token, 2 above its bottom edge. |
| Signature.FirstAtOrBelowSpec | auto_sign.py:188-190 | The search finds nothing iff no "(Date)" top reaches the bound; otherwise it finds the first that does. |
| Signature.ParagraphDate | auto_sign.py:185-192 | The chosen "(Date)" is one of the hits. |
| Signature.ParagraphDateSpec | auto_sign.py:185-192 | With "(Name)", the choice is the first "(Date)" whose top is at least the name's top less 5, if there is one; otherwise the first "(Date)". |
| Signature.ChooseParagraphDate | auto_sign.py:185-192 | The loop with `break` and the fallback compute that choice. |
| Signature.ParagraphItemsSpec | auto_sign.py:177-195 | One 11-point red item per token kind present. The name ends 6 before the first "(Name)" and the "NA" 6 before the "(Date)" that `ParagraphDate` chooses, each 2 above its token's bottom edge. |
| Signature.ArgMinSpec | auto_sign.py:207-208 | Python's `min(..., key=...)`: the smallest key, the first of equal ones. |
| Signature.LabelPair | auto_sign.py:200-209 | A chosen pair indexes both label lists. |
| Signature.LabelPairExists | auto_sign.py:206-211 | A pair is chosen exactly when both kinds of label are present. |
| Signature.LabelPairClosest | auto_sign.py:200-205 | When some pair is within `tol`, the chosen pair is within it, has the smallest gap, and is the first such in loop order. |
| Signature.LabelPairFallback | auto_sign.py:204-209 | When no pair is within tolerance and below 1e9, it pairs the topmost Signature (first of equals) with the Date nearest it in height (first of equals). |
| Signature.FarLabelsStillPaired | auto_sign.py:206-209 | Labels 80 apart, beyond the default tolerance of 60, are still paired. |
| Signature.SignatureItemsSpec | auto_sign.py:197-216 | The paragraph items come first. Exactly two more follow iff both label kinds exist: the name at 16 pt at (x1+12, y1-2) of the Signature label `LabelPair` chooses, then the date at 12 pt at (x1+12, y1-2) of its Date label, both red. |
| Signature.FillParagraph | auto_sign.py:176-195 | The signature page's log gains exactly the paragraph items. |
| Signature.ChooseLabelPair | auto_sign.py:198-209 | The nested loop and the `min` fallback compute the pair. |
| Signature.SignNextToLabels | auto_sign.py:211-216 | The page's log gains exactly the pair's two texts, or nothing. |
| Signature.FillSignatureSection | auto_sign.py:168-216 | It succeeds iff the document has pages. The chosen page then gains exactly the paragraph and pair items; an empty document is left untouched. |
| Pdf.Document.DrawLine | auto_sign.py:120-121 | `draw_line` appends one red segment to that page's log only. |
| Pdf.Document.InsertText | auto_sign.py:144-150 | `insert_text` appends one text item to that page's log only. |

## Left out

- The Streamlit UI, the session cache, uploads, the password check, saving, zip bundling and output names. These are I/O and interface plumbing.
- PyMuPDF itself. A page's words and search hits are given data, and the drawing calls append to a per-page log.
  - Case-insensitive and substring matching of `search_for` (a "Signature" hit inside the long phrase, a "Date" hit inside "(Date)") is whatever the given hits say.
  - Text inserted earlier is not seen by later searches on the same page.
  - The word tuples' block/line numbers and the font name "helv" are not recorded.
- Signature.TextWidth: the font metric is a parameter (`Metric`), and the model does not compute Helvetica glyph widths. Its exception path is the `None` result.
- YesMarks.JitterSource: `random.uniform` is a parameter. It returns the four draws for each (page, line key, candidate ordinal). The ranges are stated (`InRange`) and used by the geometry lemmas. The distribution is not modelled.
- YesMarks.MarkYesBoxes: `x_offset`, `box` and `width` are a `Style` parameter, and `tol` of the signature fill is a parameter; `DefaultStyle` and `DefaultTol` hold the defaults. `skip_after_y_by_page=None` is the empty map.
- Floating point: coordinates are reals, so rounding error in the gap and width arithmetic is not modelled. Python's `round` is modelled exactly (half to even).
- `str.isdigit` is modelled for ASCII digits only. Other Unicode digits are not recognised.
- Notes.InsertIeqNotesNa: it requires every recorded section to be an existing page. The program would raise `IndexError` at `doc[start_page]` otherwise, and `find_ieq_sections` only records existing pages.
- Signature.FillSignatureSection: on an empty document, `doc[0]` raises `IndexError`. The model returns `false` and draws nothing instead of raising.
