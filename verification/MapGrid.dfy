/** The map being edited: a grid of cells, each with four layers. The editor's
    map class itself is not part of this model; cells are plain storage. */
module MapGrid {
  datatype Cell = Cell(surface: int, object_: int, resource: int, height: real)

  /** The cells by column. */
  type Grid = seq<seq<Cell>>

  predicate Sized(g: Grid, w: int, h: int) {
    |g| == w && forall i :: 0 <= i < w ==> |g[i]| == h
  }

  class MapPreview {
    const w: nat
    const h: nat
    const cells: array2<Cell>

    ghost predicate Valid() { cells.Length0 == w && cells.Length1 == h }

    constructor (w: nat, h: nat)
      ensures Valid() && this.w == w && this.h == h && fresh(cells)
    {
      this.w, this.h := w, h;
      cells := new Cell[w, h]((i, j) => Cell(0, 0, 0, 0.0));
    }

    ghost function State(): (g: Grid)
      requires Valid()
      reads cells
      ensures Sized(g, w, h) && forall i, j :: 0 <= i < w && 0 <= j < h ==> g[i][j] == cells[i, j]
    {
      seq(w, i requires 0 <= i < w reads cells => seq(h, j requires 0 <= j < h reads cells => cells[i, j]))
    }

    /** copyXY: all layers of one cell are copied from another. */
    method CopyXY(x: nat, y: nat, sx: nat, sy: nat)
      requires Valid() && x < w && y < h && sx < w && sy < h
      modifies cells
      ensures forall i, j :: 0 <= i < w && 0 <= j < h ==> cells[i, j] == if i == x && j == y then old(cells[sx, sy]) else old(cells[i, j])
    {
      cells[x, y] := cells[sx, sy];
    }
  }

  /** The index of a cell in a layer that is saved row by row. */
  function At(i: int, j: int, w: int): int { j * w + i }

  lemma RowsApart(j: int, j': int, w: int)
    requires j < j' && w >= 0
    ensures j * w + w <= j' * w
  {
    var k := j' - j - 1;
    NonNegative(k, w);
    assert j' * w == (k + j + 1) * w == k * w + j * w + w;
  }

  lemma NonNegative(a: int, b: int)
    requires a >= 0 && b >= 0
    ensures a * b >= 0
  {
  }

  lemma AtInRange(i: int, j: int, w: int, h: int)
    requires 0 <= i < w && 0 <= j < h
    ensures 0 <= At(i, j, w) < w * h
  {
    NonNegative(j, w);
    RowsApart(j, h, w);
    assert h * w == w * h;
  }

  lemma AtUnique(i: int, j: int, i': int, j': int, w: int)
    requires 0 <= i < w && 0 <= i' < w && At(i, j, w) == At(i', j', w)
    ensures i == i' && j == j'
  {
    if j < j' {
      RowsApart(j, j', w);
    } else if j > j' {
      RowsApart(j', j, w);
    }
  }
}
