/**
  Points, rectangles and colours in PDF user space. Coordinates are reals: the
  floating-point rounding of the running program is not modelled.
*/
module Geometry {

  datatype Point = Point(x: real, y: real)

  /** An axis-aligned box (x0, y0) - (x1, y1); y grows downwards on a PDF page. */
  datatype Rect = Rect(x0: real, y0: real, x1: real, y1: real)

  datatype Rgb = Rgb(r: real, g: real, b: real)

  const Red := Rgb(1.0, 0.0, 0.0)

  /** The sentinel `1e9` that the scans use as "no gap seen yet". */
  const Big: real := 1000000000.0

  function Abs(x: real): real {
    if x < 0.0 then -x else x
  }

  function Max(a: real, b: real): real {
    if a < b then b else a
  }

  /** Vertical centre of a box. */
  function MidY(r: Rect): real {
    (r.y0 + r.y1) / 2.0
  }

  /** Distance between the vertical centres of two boxes. */
  function CentreGap(a: Rect, b: Rect): real {
    Abs(MidY(a) - MidY(b))
  }

  /** A PyMuPDF rectangle is false in a boolean context only when all four coordinates are 0. */
  predicate IsFalsy(r: Rect) {
    r.x0 == 0.0 && r.y0 == 0.0 && r.x1 == 0.0 && r.y1 == 0.0
  }
}
