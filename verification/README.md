# pdf-to-data: band readers and page assembly

This project models the pure post-processing part of `code/extract_tables.py`,
a batch script that turns the tables of Persian-language transcripts in PDF
files into one spreadsheet per page. Once the PDF library has found the
tables and extracted text, the script does four things, and each is a Dafny
module here:

- **Geometry**: it builds the scan band above a table (for the two title
  lines) and below it (for the footnote). The header band is clipped at the
  top of the page and the footer band at the page height.
- **Resolver**: it splits the band text into stripped, non-empty lines. The
  title is lines 1 and 2, each reversed. The footnote is lines 3, 4 and 5,
  each reversed and joined with "\n".
- **Cells**: it reverses every string cell of a detected table and leaves
  other cells alone (`reverse_strings`).
- **Pages**: it adds the page number, a per-table 1-based row index, the
  subject label, the two title lines and the footnote to every row. It
  stacks the tables of one page. A page is skipped when the detected grids
  and table boxes do not match.

`Text` holds the string primitives: reversal, Python's whitespace and
line-boundary character sets, `strip`, line splitting and joining.
`Wrappers` holds `Option`, which stands for the `None` that text extraction
can return.

The PDF library is represented by its outputs. A `Pages.Page` has a width
and a height. It has a function `textWithin` from a rectangle to an optional
string, which stands for `page.within_bbox(b).extract_text()`. It also has
the detected grids (`extract_tables`) and the detected table boxes
(`find_tables`). Coordinates are reals.

## Model

| member | source | states |
|---|---|---|
| Text.Reverse | code/extract_tables.py:21 | `s[::-1]` has the same length as `s`, and position i holds the character at position len-1-i |
| Text.ReverseInvolutive | code/extract_tables.py:21 | reversing twice gives the original string back |
| Text.Strip | code/extract_tables.py:45 | `strip()` returns the run of characters that starts right after the leading whitespace of `s` and is followed in `s` only by whitespace; neither end of the result is whitespace, and the result is empty exactly when `s` is all whitespace |
| Text.StripIdempotent | code/extract_tables.py:45 | stripping an already stripped line changes nothing |
| Text.SplitLines | code/extract_tables.py:45 | splitting at line boundaries gives pieces that contain no line break, one more piece than there are breaks |
| Text.SplitRejoin | code/extract_tables.py:45 | putting the pieces back with the breaks between them gives the original text, so splitting loses nothing |
| Text.SplitAtBreak | code/extract_tables.py:45 | the text before a line break and the text after it are split independently |
| Text.JoinCount | code/extract_tables.py:79-81 | joining pieces free of "\n" with "\n" puts exactly one separator between neighbours |
| Geometry.HeaderBand | code/extract_tables.py:36-39 | the header band spans the page width, ends at the table's top edge, never starts above the page top, starts at the larger of (top - height_above) and 0, and for a table on the page is at most height_above tall |
| Geometry.FooterBand | code/extract_tables.py:63-67 | the footer band spans the page width, starts exactly at the table's bottom edge, never ends below the page height, ends at the smaller of (bottom + height_scan) and the page height, and is not inverted for a table on the page |
| Geometry.HeaderBandClippedAtTop | code/extract_tables.py:39 | a table 10 units from the top with the default height 60 gets a header band starting at 0, not at -50 |
| Resolver.KeepLines | code/extract_tables.py:45 | every kept line is non-empty and stripped, and there are never more kept lines than pieces |
| Resolver.KeepLinesMembers | code/extract_tables.py:45 | a line is kept exactly when it is the non-empty strip of some piece |
| Resolver.KeepLinesAppend | code/extract_tables.py:45 | filtering distributes over concatenation, so the kept lines stay in top-to-bottom order |
| Resolver.Lines | code/extract_tables.py:45 | every harvested line is non-empty, stripped and free of line breaks, and empty text gives no lines |
| Resolver.LinesAtBreak | code/extract_tables.py:73 | the lines of text with a break in it are the lines above the break followed by the lines below it |
| Resolver.NoLinesIffBlank | code/extract_tables.py:42-45 | a band yields no lines exactly when its text is all whitespace |
| Resolver.LinesOfJoin | code/extract_tables.py:73 | harvesting "\n"-joined harvested lines gives the same lines back |
| Resolver.Title | code/extract_tables.py:42-48 | no text or empty text gives ("", ""); the first title is "" exactly when there are no lines and otherwise reverses to line 1; the second is "" exactly when there are fewer than two lines and otherwise reverses to line 2 |
| Resolver.TitleOfOneLine | code/extract_tables.py:46-47 | a band with one line gives (reversed line, "") |
| Resolver.TitleIgnoresLaterLines | code/extract_tables.py:46-47 | text below the second line of the header band does not change the title |
| Resolver.AppendedIsJoin | code/extract_tables.py:74-83 | the third line with the fourth and fifth appended when non-empty equals the "\n"-join of the reversed lines 3 up to 5, and is "" exactly when there are fewer than three lines |
| Resolver.Footnote | code/extract_tables.py:70-83 | no text or empty text gives ""; the footnote is "" exactly when there are fewer than three lines, and otherwise is the reversed lines from the third up to the fifth joined with "\n" |
| Resolver.FootnoteLines | code/extract_tables.py:74-83 | the footnote holds one "\n" fewer than the lines it takes (so at most two), and harvesting it again gives exactly those reversed lines |
| Resolver.FootnoteIgnoresLaterLines | code/extract_tables.py:74-76 | text below the fifth line of the footer band does not change the footnote |
| Resolver.FootnoteOfFiveLines | code/extract_tables.py:74-83 | band lines A, B, C, D, E give reverse(C) "\n" reverse(D) "\n" reverse(E) |
| Cells.ReverseStrings | code/extract_tables.py:16-21 | the table keeps its shape, every string cell is reversed character by character, and every other cell is left as it was |
| Cells.ReverseStringsInvolutive | code/extract_tables.py:21 | normalising a table twice gives the original table back |
| Pages.Annotate | code/extract_tables.py:125-130 | dropping the metadata columns gives the table back, the row index column is 1..N, and page, label, titles and footnote are the same on every row |
| Pages.AnnotateTable | code/extract_tables.py:115-130 | a processed table's cells are the normalised grid, its row index is 1..N, every row carries the page number and label, and every row's titles and footnote are the ones read from the bands above and below this table's own box |
| Pages.Frames | code/extract_tables.py:107-132 | there is one frame per non-empty table, in detection order and of that table's size; stacked, the cells are each table normalised in turn, the row index reads 1..N per table, every row carries the page number and label, and the titles and footnote of each table's rows are read around the box paired with that table (the k-th grid with the k-th box) |
| Pages.ProcessPage | code/extract_tables.py:104-138 | a page gives output exactly when the grid and box lists are non-empty and equally long and some table has a row; the output then has the total number of rows, the per-table index column, the normalised cells, and per table the titles and footnote of its paired box, with page number and label on every row |
| Pages.ProcessPdf | code/extract_tables.py:99-138 | there is one result per page; the n-th page (counting from 1) gives output exactly when its guard holds and some table has a row, and that output has the page's total row count, per-table index column, normalised cells and paired-box titles and footnotes, with page number n and the subject label on every row |
| Pages.NoRowsIffAllEmpty | code/extract_tables.py:112-113 | a page has no rows in total exactly when every table on it is empty |
| Pages.RowIndexRestartsPerTable | code/extract_tables.py:126 | two three-row tables on a page give the row-index column 1, 2, 3, 1, 2, 3 |
| Pages.MismatchYieldsNothing | code/extract_tables.py:110 | a page with two detected grids but one table box gives no output |

## Left out

- PDF library calls (`pdfplumber.open`, `pages`, `within_bbox`, `extract_text`, `extract_tables`, `find_tables`): foreign code. Their results are fields of `Pages.Page`.
- pandas (`DataFrame`, `applymap`, `concat`, `to_excel`): a table is a sequence of rows of cells. Padding ragged rows with missing values, aligning columns in `concat`, re-numbering the frame index and writing the spreadsheet are not modelled.
- Directory listing, the `.pdf` suffix filter, output file naming, `os.makedirs` and the progress messages (lines 8-10, 101, 137-139, 146-149): file-system I/O and logging.
- Floating-point page coordinates: bands are computed over reals, without IEEE rounding.
- Text.SplitLines: it cuts at every line-break character. Python's `splitlines` treats "\r\n" as one boundary and gives no empty piece after a final boundary. Both differences are only empty pieces, and the strip-and-keep-non-empty filter drops those, so the harvested lines are the same.
- Text.Strip: whitespace is the explicit set that Python's `str.isspace` accepts (U+0009-U+000D, U+001C-U+001F, space, U+0085, U+00A0, U+1680, U+2000-U+200A, U+2028, U+2029, U+202F, U+205F, U+3000), checked character by character.
- The band heights are parameters of the band functions. The page pipeline uses the script's defaults, 60 above and 70 below.
