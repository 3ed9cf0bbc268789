/** Page coordinates and the scan bands above and below a table. Coordinates
    are reals with the origin at the top-left corner of the page and y
    growing downwards; floating-point rounding is not modelled. */
module Geometry {

  /** An axis-aligned rectangle (x0, y0, x1, y1): left, top, right, bottom. */
  datatype BBox = BBox(x0: real, y0: real, x1: real, y1: real)

  /** Default height scanned above a table for its two title lines. */
  const HeightAbove: real := 60.0

  /** Default height scanned below a table for its footnote lines. */
  const HeightScan: real := 70.0

  /** The band above `table` where its title is looked for: the full page
      width, from `heightAbove` above the table's top edge down to that edge,
      never reaching above the top of the page. */
  function HeaderBand(pageWidth: real, table: BBox, heightAbove: real): (b: BBox)
    ensures b.x0 == 0.0 && b.x1 == pageWidth
    ensures b.y1 == table.y0
    ensures b.y0 >= 0.0
    ensures b.y0 >= table.y0 - heightAbove
    ensures b.y0 == 0.0 || b.y0 == table.y0 - heightAbove
    ensures table.y0 >= 0.0 && heightAbove >= 0.0 ==> b.y0 <= b.y1 && b.y1 - b.y0 <= heightAbove
  {
    BBox(0.0, if table.y0 - heightAbove >= 0.0 then table.y0 - heightAbove else 0.0, pageWidth, table.y0)
  }

  /** The band below `table` where its footnote is looked for: the full page
      width, from the table's bottom edge down by `heightScan`, never reaching
      below the bottom of the page. */
  function FooterBand(pageWidth: real, pageHeight: real, table: BBox, heightScan: real): (b: BBox)
    ensures b.x0 == 0.0 && b.x1 == pageWidth
    ensures b.y0 == table.y1
    ensures b.y1 <= pageHeight
    ensures b.y1 <= table.y1 + heightScan
    ensures b.y1 == pageHeight || b.y1 == table.y1 + heightScan
    ensures table.y1 <= pageHeight && heightScan >= 0.0 ==> b.y0 <= b.y1
  {
    BBox(0.0, table.y1, pageWidth, if table.y1 + heightScan <= pageHeight then table.y1 + heightScan else pageHeight)
  }

  /** A table 10 units below the top of the page gets a header band clipped
      to the page top rather than starting at -50. */
  lemma HeaderBandClippedAtTop(pageWidth: real, table: BBox)
    requires table.y0 == 10.0
    ensures HeaderBand(pageWidth, table, HeightAbove).y0 == 0.0
  {
  }
}
