/** The two-dimensional arrays behind the bucket tables: a cell holds an id, or -1 when it is empty. */
module BucketTable {
  import opened AddrManState

  const EMPTY_CELL := -1

  /** The occupied slots of a bucket table. */
  ghost function TableOf(cells: array2<int>): Table
    reads cells
  {
    map b, p | 0 <= b < cells.Length0 && 0 <= p < cells.Length1 && cells[b, p] != EMPTY_CELL
      :: Slot(b, p) := cells[b, p]
  }

  /** Writes one cell of a bucket table. */
  method SetCell(cells: array2<int>, b: int, p: int, v: int)
    requires 0 <= b < cells.Length0 && 0 <= p < cells.Length1
    modifies cells
    ensures TableOf(cells)
      == if v == EMPTY_CELL then old(TableOf(cells)) - {Slot(b, p)} else old(TableOf(cells))[Slot(b, p) := v]
  {
    cells[b, p] := v;
  }

  lemma CellIs(cells: array2<int>, b: int, p: int)
    requires 0 <= b < cells.Length0 && 0 <= p < cells.Length1
    ensures Slot(b, p) in TableOf(cells) <==> cells[b, p] != EMPTY_CELL
    ensures cells[b, p] != EMPTY_CELL ==> TableOf(cells)[Slot(b, p)] == cells[b, p]
  {
  }
}
