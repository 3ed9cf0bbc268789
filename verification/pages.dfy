/** The per-page pipeline: normalise each detected table, read its title and
    footnote from the bands above and below it, add the metadata columns to
    every row, and stack the annotated tables of the page into one result.
    The PDF library's page object is modelled by its outputs: page size, the
    text found inside a rectangle, the detected cell grids and the detected
    table boxes. */
module Pages {
  import opened Wrappers
  import opened Text
  import opened Geometry
  import opened Cells
  import opened Resolver

  /** A page as the PDF library presents it. `tables` are the detected cell
      grids and `boxes` the bounding boxes of the detected table objects; the
      two lists correspond by position when they have the same length. */
  datatype Page<V> = Page(
    width: real,
    height: real,
    textWithin: BBox -> Option<string>,
    tables: seq<Grid<V>>,
    boxes: seq<BBox>)

  /** An output row: the table's cells followed by the metadata columns page
      number, row index, subject label, first and second title line and
      footnote. */
  datatype Row<V> = Row(
    cells: seq<Cell<V>>,
    page: int,
    index: int,
    subject: string,
    title1: string,
    title2: string,
    footnote: string)

  /** The metadata columns of a row other than the row index. */
  function Metadata<V>(row: Row<V>): (int, string, string, string, string)
  {
    (row.page, row.subject, row.title1, row.title2, row.footnote)
  }

  /** The cell part of each row. */
  function CellRows<V>(rows: seq<Row<V>>): seq<seq<Cell<V>>>
  {
    seq(|rows|, i requires 0 <= i < |rows| => rows[i].cells)
  }

  /** The row-index column. */
  function Indices<V>(rows: seq<Row<V>>): seq<int>
  {
    seq(|rows|, i requires 0 <= i < |rows| => rows[i].index)
  }

  /** 1, 2, ..., n. */
  function OneTo(n: nat): (r: seq<int>)
    ensures |r| == n
  {
    seq(n, i requires 0 <= i < n => i + 1)
  }

  /** The title and footnote columns. */
  function Texts<V>(rows: seq<Row<V>>): seq<(string, string, string)>
  {
    seq(|rows|, i requires 0 <= i < |rows| => (rows[i].title1, rows[i].title2, rows[i].footnote))
  }

  /** n copies of x. */
  function Repeat<T>(n: nat, x: T): (r: seq<T>)
    ensures |r| == n
  {
    seq(n, i requires 0 <= i < n => x)
  }

  lemma ColumnsAppend<V>(a: seq<Row<V>>, b: seq<Row<V>>)
    ensures CellRows(a + b) == CellRows(a) + CellRows(b)
    ensures Indices(a + b) == Indices(a) + Indices(b)
    ensures Texts(a + b) == Texts(a) + Texts(b)
  {
  }

  /** Adds the metadata columns to every row of a normalised table: the row
      index counts 1..N, the other columns are the same on every row, and the
      cells are kept as they are. */
  function Annotate<V>(g: Grid<V>, pageNum: int, subject: string,
                       title1: string, title2: string, footnote: string): (r: seq<Row<V>>)
    ensures CellRows(r) == g
    ensures Indices(r) == OneTo(|g|)
    ensures forall i :: 0 <= i < |r| ==> Metadata(r[i]) == (pageNum, subject, title1, title2, footnote)
  {
    seq(|g|, i requires 0 <= i < |g| => Row(g[i], pageNum, i + 1, subject, title1, title2, footnote))
  }

  /** The text in the band above a table box. */
  function HeaderText<V>(page: Page<V>, box: BBox): Option<string>
  {
    page.textWithin(HeaderBand(page.width, box, HeightAbove))
  }

  /** The text in the band below a table box. */
  function FooterText<V>(page: Page<V>, box: BBox): Option<string>
  {
    page.textWithin(FooterBand(page.width, page.height, box, HeightScan))
  }

  /** One detected table, processed: its string cells reversed, its title and
      footnote read from the bands around its box, and the metadata columns
      added. Every row carries the same page, subject, title and footnote. */
  function AnnotateTable<V(==)>(page: Page<V>, pageNum: int, subject: string,
                                grid: Grid<V>, box: BBox): (r: seq<Row<V>>)
    ensures CellRows(r) == ReverseStrings(grid)
    ensures Indices(r) == OneTo(|grid|)
    ensures forall i :: 0 <= i < |r| ==>
      r[i].page == pageNum && r[i].subject == subject && Metadata(r[i]) == Metadata(r[0])
    ensures forall i :: 0 <= i < |r| ==>
      (r[i].title1, r[i].title2) == Title(HeaderText(page, box))
      && r[i].footnote == Footnote(FooterText(page, box))
    ensures Texts(r) == Repeat(|grid|, BandTexts(page, box))
  {
    var title := Title(HeaderText(page, box));
    var footnote := Footnote(FooterText(page, box));
    Annotate(ReverseStrings(grid), pageNum, subject, title.0, title.1, footnote)
  }

  /** The title lines and footnote read from the bands around a table box. */
  function BandTexts<V>(page: Page<V>, box: BBox): (string, string, string)
  {
    var title := Title(HeaderText(page, box));
    (title.0, title.1, Footnote(FooterText(page, box)))
  }

  /** The expected title and footnote columns of a page: for each table in
      turn, one copy per row of the texts around the box paired with it. */
  function TextColumn<V>(page: Page<V>, tables: seq<Grid<V>>, boxes: seq<BBox>): seq<(string, string, string)>
    requires |tables| == |boxes|
  {
    if |tables| == 0 then []
    else Repeat(|tables[0]|, BandTexts(page, boxes[0])) + TextColumn(page, tables[1..], boxes[1..])
  }

  /** The row counts of the tables that have rows, in order. */
  function NonEmptySizes<V>(tables: seq<Grid<V>>): seq<nat>
  {
    if |tables| == 0 then []
    else (if |tables[0]| == 0 then [] else [|tables[0]|]) + NonEmptySizes(tables[1..])
  }

  /** The number of rows of each frame. */
  function Sizes<T>(frames: seq<seq<T>>): seq<nat>
  {
    seq(|frames|, k requires 0 <= k < |frames| => |frames[k]|)
  }

  /** Number of rows over all tables. */
  function TotalRows<V>(tables: seq<Grid<V>>): nat
  {
    if |tables| == 0 then 0 else |tables[0]| + TotalRows(tables[1..])
  }

  /** The expected row-index column of a page: 1..N for each table in turn. */
  function IndexColumn<V>(tables: seq<Grid<V>>): seq<int>
  {
    if |tables| == 0 then [] else OneTo(|tables[0]|) + IndexColumn(tables[1..])
  }

  /** The expected cell rows of a page: each table normalised, in turn. */
  function NormalisedCells<V(==)>(tables: seq<Grid<V>>): seq<seq<Cell<V>>>
  {
    if |tables| == 0 then [] else ReverseStrings(tables[0]) + NormalisedCells(tables[1..])
  }

  /** Stacks a list of row lists. */
  function Flatten<T>(frames: seq<seq<T>>): seq<T>
  {
    if |frames| == 0 then [] else frames[0] + Flatten(frames[1..])
  }

  /** The annotated tables of a page, in detection order, leaving out tables
      with no rows: there is one frame per non-empty table, of that table's
      size. Stacked, they have one row per table row, the row index restarts
      at 1 for each table, every row carries the page number and subject, and
      the title and footnote of each row are read around the box paired with
      its own table. */
  function Frames<V(==)>(page: Page<V>, pageNum: int, subject: string,
                         tables: seq<Grid<V>>, boxes: seq<BBox>): (r: seq<seq<Row<V>>>)
    requires |tables| == |boxes|
    ensures forall k :: 0 <= k < |r| ==> r[k] != []
    ensures Sizes(r) == NonEmptySizes(tables)
    ensures r == [] <==> TotalRows(tables) == 0
    ensures |Flatten(r)| == TotalRows(tables)
    ensures Indices(Flatten(r)) == IndexColumn(tables)
    ensures CellRows(Flatten(r)) == NormalisedCells(tables)
    ensures Texts(Flatten(r)) == TextColumn(page, tables, boxes)
    ensures forall i :: 0 <= i < |Flatten(r)| ==>
      Flatten(r)[i].page == pageNum && Flatten(r)[i].subject == subject
    decreases |tables|
  {
    if |tables| == 0 then []
    else
      var rest := Frames(page, pageNum, subject, tables[1..], boxes[1..]);
      if |tables[0]| == 0 then
        SkipEmptyTable(page, tables, boxes);
        rest
      else
        var frame := AnnotateTable(page, pageNum, subject, tables[0], boxes[0]);
        KeepTable(page, pageNum, subject, tables, boxes, frame, rest);
        [frame] + rest
  }

  /** An empty first table adds nothing to any expected column. */
  lemma SkipEmptyTable<V>(page: Page<V>, tables: seq<Grid<V>>, boxes: seq<BBox>)
    requires |tables| == |boxes| && |tables| > 0 && |tables[0]| == 0
    ensures NonEmptySizes(tables) == NonEmptySizes(tables[1..])
    ensures TotalRows(tables) == TotalRows(tables[1..])
    ensures IndexColumn(tables) == IndexColumn(tables[1..])
    ensures NormalisedCells(tables) == NormalisedCells(tables[1..])
    ensures TextColumn(page, tables, boxes) == TextColumn(page, tables[1..], boxes[1..])
  {
    assert ReverseStrings(tables[0]) == [];
    assert Repeat(0, BandTexts(page, boxes[0])) == [];
  }

  /** Putting the first table's frame in front of the others' frames extends
      every expected column by that table's part. */
  lemma KeepTable<V>(page: Page<V>, pageNum: int, subject: string,
                         tables: seq<Grid<V>>, boxes: seq<BBox>,
                         frame: seq<Row<V>>, rest: seq<seq<Row<V>>>)
    requires |tables| == |boxes| && |tables| > 0 && |tables[0]| > 0
    requires frame == AnnotateTable(page, pageNum, subject, tables[0], boxes[0])
    requires Sizes(rest) == NonEmptySizes(tables[1..])
    requires Indices(Flatten(rest)) == IndexColumn(tables[1..])
    requires CellRows(Flatten(rest)) == NormalisedCells(tables[1..])
    requires Texts(Flatten(rest)) == TextColumn(page, tables[1..], boxes[1..])
    ensures Sizes([frame] + rest) == NonEmptySizes(tables)
    ensures Flatten([frame] + rest) == frame + Flatten(rest)
    ensures Indices(Flatten([frame] + rest)) == IndexColumn(tables)
    ensures CellRows(Flatten([frame] + rest)) == NormalisedCells(tables)
    ensures Texts(Flatten([frame] + rest)) == TextColumn(page, tables, boxes)
  {
    SizesCons(frame, rest);
    FlattenCons(frame, rest);
    ColumnsAppend(frame, Flatten(rest));
  }

  lemma SizesCons<T>(frame: seq<T>, rest: seq<seq<T>>)
    ensures Sizes([frame] + rest) == [|frame|] + Sizes(rest)
  {
  }

  lemma FlattenCons<T>(frame: seq<T>, rest: seq<seq<T>>)
    ensures Flatten([frame] + rest) == frame + Flatten(rest)
  {
    var all := [frame] + rest;
    assert all[0] == frame && all[1..] == rest;
  }

  /** The consistency guard: both lists non-empty and of equal length. */
  predicate Matched<V>(page: Page<V>)
  {
    |page.tables| > 0 && |page.boxes| > 0 && |page.tables| == |page.boxes|
  }

  /** The result for one page: None when no spreadsheet is written, otherwise
      the stacked rows of its non-empty tables. A page yields rows exactly when
      the guard holds and some table has a row. */
  function ProcessPage<V(==)>(page: Page<V>, pageNum: int, subject: string): (r: Option<seq<Row<V>>>)
    ensures r.Some? <==> Matched(page) && TotalRows(page.tables) > 0
    ensures r.Some? ==> |r.value| == TotalRows(page.tables) > 0
    ensures r.Some? ==> Indices(r.value) == IndexColumn(page.tables)
    ensures r.Some? ==> CellRows(r.value) == NormalisedCells(page.tables)
    ensures r.Some? ==> Texts(r.value) == TextColumn(page, page.tables, page.boxes)
    ensures r.Some? ==> forall i :: 0 <= i < |r.value| ==>
      r.value[i].page == pageNum && r.value[i].subject == subject
  {
    if Matched(page) then
      var frames := Frames(page, pageNum, subject, page.tables, page.boxes);
      if |frames| > 0 then Some(Flatten(frames)) else None
    else
      None
  }

  /** All pages of one document, numbered from 1: entry n is the result for
      page n + 1, holds that page's rows, and every row it holds carries that
      page number. */
  function ProcessPdf<V(==)>(pages: seq<Page<V>>, subject: string): (r: seq<Option<seq<Row<V>>>>)
    ensures |r| == |pages|
    ensures forall n :: 0 <= n < |r| ==> (r[n].Some? <==> Matched(pages[n]) && TotalRows(pages[n].tables) > 0)
    ensures forall n :: 0 <= n < |r| && r[n].Some? ==>
      |r[n].value| == TotalRows(pages[n].tables)
      && Indices(r[n].value) == IndexColumn(pages[n].tables)
      && CellRows(r[n].value) == NormalisedCells(pages[n].tables)
      && Matched(pages[n])
      && Texts(r[n].value) == TextColumn(pages[n], pages[n].tables, pages[n].boxes)
    ensures forall n :: 0 <= n < |r| && r[n].Some? ==>
      forall i :: 0 <= i < |r[n].value| ==> r[n].value[i].page == n + 1
    ensures forall n :: 0 <= n < |r| && r[n].Some? ==>
      forall i :: 0 <= i < |r[n].value| ==> r[n].value[i].subject == subject
  {
    var r := seq(|pages|, n requires 0 <= n < |pages| => ProcessPage(pages[n], n + 1, subject));
    EntriesArePages(pages, subject, r);
    r
  }

  /** Each entry of the document's result carries what `ProcessPage` promises
      for its page. */
  lemma EntriesArePages<V>(pages: seq<Page<V>>, subject: string, r: seq<Option<seq<Row<V>>>>)
    requires |r| == |pages|
    requires forall n :: 0 <= n < |r| ==> r[n] == ProcessPage(pages[n], n + 1, subject)
    ensures forall n :: 0 <= n < |r| && r[n].Some? ==>
      |r[n].value| == TotalRows(pages[n].tables)
      && Indices(r[n].value) == IndexColumn(pages[n].tables)
      && CellRows(r[n].value) == NormalisedCells(pages[n].tables)
      && Matched(pages[n])
      && Texts(r[n].value) == TextColumn(pages[n], pages[n].tables, pages[n].boxes)
    ensures forall n :: 0 <= n < |r| && r[n].Some? ==>
      forall i :: 0 <= i < |r[n].value| ==> r[n].value[i].page == n + 1 && r[n].value[i].subject == subject
  {
    forall n | 0 <= n < |r| && r[n].Some?
      ensures |r[n].value| == TotalRows(pages[n].tables)
      ensures Indices(r[n].value) == IndexColumn(pages[n].tables)
      ensures CellRows(r[n].value) == NormalisedCells(pages[n].tables)
      ensures Matched(pages[n])
      ensures Texts(r[n].value) == TextColumn(pages[n], pages[n].tables, pages[n].boxes)
      ensures forall i :: 0 <= i < |r[n].value| ==> r[n].value[i].page == n + 1 && r[n].value[i].subject == subject
    {
      var res := ProcessPage(pages[n], n + 1, subject);
      assert r[n] == res;
    }
  }

  /** A page has no rows in total exactly when every table on it is empty. */
  lemma {:induction false} NoRowsIffAllEmpty<V>(tables: seq<Grid<V>>)
    ensures TotalRows(tables) == 0 <==> forall k :: 0 <= k < |tables| ==> tables[k] == []
  {
    if |tables| > 0 {
      NoRowsIffAllEmpty(tables[1..]);
      assert forall k :: 1 <= k < |tables| ==> tables[k] == tables[1..][k - 1];
    }
  }

  /** Two three-row tables on a page give the row-index column 1,2,3,1,2,3. */
  lemma RowIndexRestartsPerTable<V>(page: Page<V>, pageNum: int, subject: string)
    requires |page.tables| == 2 && |page.boxes| == 2
    requires |page.tables[0]| == 3 && |page.tables[1]| == 3
    ensures ProcessPage(page, pageNum, subject).Some?
    ensures Indices(ProcessPage(page, pageNum, subject).value) == [1, 2, 3, 1, 2, 3]
  {
    TwoTablesOfThree(page.tables);
  }

  lemma TwoTablesOfThree<V>(ts: seq<Grid<V>>)
    requires |ts| == 2 && |ts[0]| == 3 && |ts[1]| == 3
    ensures TotalRows(ts) == 6
    ensures IndexColumn(ts) == [1, 2, 3, 1, 2, 3]
  {
    assert ts[1..][0] == ts[1] && ts[1..][1..] == [];
    assert TotalRows(ts[1..]) == 3 + TotalRows(ts[1..][1..]);
    assert OneTo(3) == [1, 2, 3];
    assert IndexColumn(ts[1..]) == OneTo(3) + IndexColumn(ts[1..][1..]);
    assert IndexColumn(ts) == OneTo(3) + IndexColumn(ts[1..]);
  }

  /** A page with two detected grids but one table box yields nothing. */
  lemma MismatchYieldsNothing<V>(page: Page<V>, pageNum: int, subject: string)
    requires |page.tables| == 2 && |page.boxes| == 1
    ensures ProcessPage(page, pageNum, subject) == None
  {
  }
}
