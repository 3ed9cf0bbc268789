/** Table cells and the normaliser that reverses every string cell of a
    table to undo the right-to-left extraction order. */
module Cells {
  import opened Text

  /** A table cell: a string, or any other value the table library holds
      (for detected tables, the missing-cell marker). */
  datatype Cell<V> = Str(s: string) | Other(v: V)

  /** A table as a sequence of rows of cells; rows may differ in length. */
  type Grid<V> = seq<seq<Cell<V>>>

  function ReverseCell<V>(c: Cell<V>): Cell<V>
  {
    match c
    case Str(s) => Str(Reverse(s))
    case Other(_) => c
  }

  /** `b` is `a` with its characters in reverse order when `a` is a string,
      and `a` itself otherwise. */
  predicate Mirrors<V(==)>(a: Cell<V>, b: Cell<V>)
  {
    match a
    case Other(_) => b == a
    case Str(s) =>
      b.Str? && |b.s| == |s| && forall k :: 0 <= k < |s| ==> b.s[k] == s[|s| - 1 - k]
  }

  /** Reverses every string cell and leaves every other cell alone, keeping
      the shape of the table. */
  function ReverseStrings<V(==)>(g: Grid<V>): (r: Grid<V>)
    ensures |r| == |g|
    ensures forall i :: 0 <= i < |g| ==> |r[i]| == |g[i]|
    ensures forall i, j :: 0 <= i < |g| && 0 <= j < |g[i]| ==> Mirrors(g[i][j], r[i][j])
  {
    seq(|g|, i requires 0 <= i < |g| =>
      seq(|g[i]|, j requires 0 <= j < |g[i]| => ReverseCell(g[i][j])))
  }

  /** Normalising twice gives the original table back. */
  lemma ReverseStringsInvolutive<V>(g: Grid<V>)
    ensures ReverseStrings(ReverseStrings(g)) == g
  {
    var r := ReverseStrings(ReverseStrings(g));
    forall i | 0 <= i < |g| ensures r[i] == g[i] {
      forall j | 0 <= j < |g[i]| ensures r[i][j] == g[i][j] {
        if g[i][j].Str? {
          ReverseInvolutive(g[i][j].s);
        }
      }
    }
  }
}
