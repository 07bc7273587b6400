/** The editor's diagonal transforms, in place on the cells
    (source/glest_map_editor/program.cpp:306-333 and 397-414). */
module MapMirror {
  import opened MapGrid

  /** The first index of block k, when blocks are s long. */
  function First(k: int, s: int): int { k * s }

  lemma FirstOf(k: int, n: int, s: int)
    requires 0 <= k < n && s > 0
    ensures 0 <= First(k, s) && First(k, s) + s <= First(n, s)
    ensures First(n - 1 - k, s) == First(n, s) - s - First(k, s) && First(0, s) == 0
  {
    NonNegative(k, s);
    RowsApart(k, n, s);
    assert (n - 1 - k) * s == n * s - s - k * s;
  }

  // ---- rotatecopyXY

  /** The cell whose old content ends up at x, y. Row y is copied from column
      First(y, s) on; a cell before that column keeps its content, and one from
      there on gets that of its image, unless the image is copied too, and earlier. */
  function WideSource(x: int, y: int, w: int, h: int, s: int): (int, int) {
    if x < First(y, s) then (x, y)
    else if w - 1 - x < First(h - 1 - y, s) then (w - 1 - x, h - 1 - y)
    else if y > h - 1 - y || (y == h - 1 - y && x >= w - 1 - x) then (x, y)
    else (w - 1 - x, h - 1 - y)
  }

  lemma WideInside(x: int, y: int, w: int, h: int, s: int)
    requires Inside((x, y), w, h)
    ensures Inside(WideSource(x, y, w, h, s), w, h)
  {
    hide First;
  }

  /** Of two images at least one is copied. */
  predicate Covers(w: int, h: int, s: int) { First(h - 1, s) <= w }

  lemma WideImage(x: int, y: int, w: int, h: int, s: int)
    requires 0 <= x < w && 0 <= y < h && s > 0 && Covers(w, h, s)
    ensures WideSource(x, y, w, h, s) == WideSource(w - 1 - x, h - 1 - y, w, h, s)
  {
    hide First;
    FirstSum(y, h - 1 - y, s);
  }

  lemma FirstSum(a: int, b: int, s: int)
    ensures First(a, s) + First(b, s) == First(a + b, s) && First(0, s) == 0
  {
    assert a * s + b * s == (a + b) * s;
  }

  /** The part of a row that is copied, before row j and up to column i of row j. */
  predicate WideDone(x: int, y: int, i: int, j: int, s: int) {
    x >= First(y, s) && (y < j || (y == j && x < i))
  }

  /** Where the content of x, y comes from at that time. */
  function WideNow(x: int, y: int, i: int, j: int, w: int, h: int, s: int): (int, int) {
    if WideDone(x, y, i, j, s) then WideSource(x, y, w, h, s) else (x, y)
  }

  /** Whether or not the image was overwritten before, it has the right content. */
  lemma WideNext(i: int, j: int, w: int, h: int, s: int)
    requires 0 <= i < w && 0 <= j < h && s > 0 && i >= First(j, s)
    ensures WideNow(w - 1 - i, h - 1 - j, i, j, w, h, s) == WideSource(i, j, w, h, s)
  {
    hide First;
  }

  /** After all rows, or all but the last of at least two, everything has the
      right content. */
  lemma WideRest(x: int, y: int, rows: int, w: int, h: int, s: int)
    requires 0 <= x < w && 0 <= y < h && s > 0 && (rows == h || (rows == h - 1 && h >= 2))
    ensures WideNow(x, y, First(rows, s), rows, w, h, s) == WideSource(x, y, w, h, s)
  {
    hide First;
    FirstSum(0, 0, s);
  }

  predicate Inside(c: (int, int), w: int, h: int) { 0 <= c.0 < w && 0 <= c.1 < h }

  /** The cells of now are those of g, as far as the loops have come. */
  ghost predicate WidePlaced(now: Grid, g: Grid, i: int, j: int, w: int, h: int, s: int) {
    && Sized(now, w, h) && Sized(g, w, h)
    && forall x, y :: 0 <= x < w && 0 <= y < h ==> Moved(now, g, x, y, WideNow(x, y, i, j, w, h, s), w, h)
  }

  ghost predicate Moved(now: Grid, g: Grid, x: int, y: int, c: (int, int), w: int, h: int)
    requires Sized(now, w, h) && Sized(g, w, h) && 0 <= x < w && 0 <= y < h
  {
    Inside(c, w, h) && now[x][y] == g[c.0][c.1]
  }

  /** Copying one more cell. */
  lemma WideStep(now: Grid, g: Grid, next: Grid, i: int, j: int, w: int, h: int, s: int)
    requires WidePlaced(now, g, i, j, w, h, s) && 0 <= i < w && 0 <= j < h && s > 0 && i >= First(j, s)
    requires Copied(now, next, i, j, w - i - 1, h - j - 1, w, h)
    ensures WidePlaced(next, g, i + 1, j, w, h, s)
  {
    hide First, WideSource;
    var i' := i + 1;
    forall x, y | 0 <= x < w && 0 <= y < h ensures Moved(next, g, x, y, WideNow(x, y, i', j, w, h, s), w, h) {
      if x == i && y == j {
        WideNext(i, j, w, h, s);
        WideInside(i, j, w, h, s);
        assert Moved(now, g, w - i - 1, h - j - 1, WideNow(w - i - 1, h - j - 1, i, j, w, h, s), w, h);
      } else {
        assert Moved(now, g, x, y, WideNow(x, y, i, j, w, h, s), w, h);
      }
    }
  }

  /** What copyXY does, on grids. */
  ghost predicate Copied(now: Grid, next: Grid, x: int, y: int, sx: int, sy: int, w: int, h: int) {
    && Sized(now, w, h) && Sized(next, w, h) && Inside((sx, sy), w, h)
    && forall i, j :: 0 <= i < w && 0 <= j < h ==> next[i][j] == if i == x && j == y then now[sx][sy] else now[i][j]
  }

  lemma WideRow(now: Grid, g: Grid, i: int, j: int, w: int, h: int, s: int)
    requires WidePlaced(now, g, i, j, w, h, s) && i >= w
    ensures WidePlaced(now, g, First(j + 1, s), j + 1, w, h, s)
  {
    hide First, WideSource;
    var i', j' := First(j + 1, s), j + 1;
    forall x, y | 0 <= x < w && 0 <= y < h ensures Moved(now, g, x, y, WideNow(x, y, i', j', w, h, s), w, h) {
      assert Moved(now, g, x, y, WideNow(x, y, i, j, w, h, s), w, h);
    }
  }

  lemma WideStart(g: Grid, w: int, h: int, s: int)
    requires Sized(g, w, h)
    ensures WidePlaced(g, g, First(0, s), 0, w, h, s)
  {
    hide First;
  }

  /** Every cell ends up equal to its image under a half turn. */
  ghost predicate HalfTurn(now: Grid, w: int, h: int) {
    Sized(now, w, h) && forall x, y :: 0 <= x < w && 0 <= y < h ==> Turned(now, x, y, w, h)
  }

  ghost predicate Turned(now: Grid, x: int, y: int, w: int, h: int)
    requires Sized(now, w, h) && 0 <= x < w && 0 <= y < h
  {
    now[x][y] == now[w - 1 - x][h - 1 - y]
  }

  lemma WideEnd(now: Grid, g: Grid, rows: int, w: int, h: int, s: int)
    requires WidePlaced(now, g, First(rows, s), rows, w, h, s) && s > 0
    requires rows == h || (rows == h - 1 && h >= 2)
    ensures Covers(w, h, s) ==> HalfTurn(now, w, h)
    ensures forall x, y :: 0 <= x < w && 0 <= y < h ==> Moved(now, g, x, y, WideSource(x, y, w, h, s), w, h)
  {
    hide First, WideSource;
    forall x, y | 0 <= x < w && 0 <= y < h
      ensures Covers(w, h, s) ==> Turned(now, x, y, w, h)
      ensures Moved(now, g, x, y, WideSource(x, y, w, h, s), w, h)
    {
      WideRest(x, y, rows, w, h, s);
      WideRest(w - 1 - x, h - 1 - y, rows, w, h, s);
      assert Moved(now, g, x, y, WideNow(x, y, First(rows, s), rows, w, h, s), w, h);
      assert Moved(now, g, w - 1 - x, h - 1 - y, WideNow(w - 1 - x, h - 1 - y, First(rows, s), rows, w, h, s), w, h);
      if Covers(w, h, s) {
        WideImage(x, y, w, h, s);
      }
    }
  }

  method RotateWide(m: MapPreview, s: nat)
    requires m.Valid() && s > 0 && m.h >= 1
    modifies m.cells
    ensures m.h == 1 ==> m.State() == old(m.State())
    ensures m.h > 1 && Covers(m.w, m.h, s) ==> HalfTurn(m.State(), m.w, m.h)
    ensures m.h > 1 ==> forall x, y :: 0 <= x < m.w && 0 <= y < m.h ==>
      Moved(m.State(), old(m.State()), x, y, WideSource(x, y, m.w, m.h, s), m.w, m.h)
  {
    hide First, WideSource, WidePlaced, HalfTurn, Covers;
    var w, h := m.w, m.h;
    ghost var g := m.State();
    WideStart(g, w, h, s);
    for j := 0 to h - 1
      invariant WidePlaced(m.State(), g, First(j, s), j, w, h, s) && (j == 0 ==> m.State() == g)
    {
      FirstOf(j, h, s);
      var i := First(j, s);
      while i < w
        invariant First(j, s) <= i && WidePlaced(m.State(), g, i, j, w, h, s)
      {
        ghost var now := m.State();
        m.CopyXY(i, j, w - i - 1, h - j - 1);
        WideStep(now, g, m.State(), i, j, w, h, s);
        i := i + 1;
      }
      WideRow(m.State(), g, i, j, w, h, s);
    }
    if h > 1 {
      WideEnd(m.State(), g, h - 1, w, h, s);
    }
  }

  /** A tall map seen as a wide one: columns from the right as rows from the top,
      and their cells from the bottom. */
  ghost function Turn(g: Grid, w: int, h: int): (t: Grid)
    requires Sized(g, w, h) && w >= 0 && h >= 0
    ensures Sized(t, h, w)
    ensures forall x, y :: 0 <= x < h && 0 <= y < w ==> t[x][y] == g[w - 1 - y][h - 1 - x]
  {
    seq(h, x requires 0 <= x < h => seq(w, y requires 0 <= y < w => g[w - 1 - y][h - 1 - x]))
  }

  lemma TurnCopied(now: Grid, next: Grid, x: int, y: int, sx: int, sy: int, w: int, h: int)
    requires Copied(now, next, x, y, sx, sy, w, h) && w >= 0 && h >= 0 && Inside((x, y), w, h)
    ensures Copied(Turn(now, w, h), Turn(next, w, h), h - 1 - y, w - 1 - x, h - 1 - sy, w - 1 - sx, h, w)
  {
  }

  lemma TurnHalf(g: Grid, w: int, h: int)
    requires Sized(g, w, h) && w >= 0 && h >= 0 && HalfTurn(Turn(g, w, h), h, w)
    ensures HalfTurn(g, w, h)
  {
    var t := Turn(g, w, h);
    forall x, y | 0 <= x < w && 0 <= y < h ensures Turned(g, x, y, w, h) {
      assert Turned(t, h - 1 - y, w - 1 - x, h, w);
    }
  }

  /** The source of a cell of a tall map. */
  function TallSource(x: int, y: int, w: int, h: int, s: int): (int, int) {
    var c := WideSource(h - 1 - y, w - 1 - x, h, w, s);
    (w - 1 - c.1, h - 1 - c.0)
  }

  lemma TallEnd(now: Grid, g: Grid, w: int, h: int, s: int)
    requires Sized(now, w, h) && Sized(g, w, h) && w > 0 && h >= 0 && s > 0
    requires WidePlaced(Turn(now, w, h), Turn(g, w, h), First(w, s), w, h, w, s)
    ensures Covers(h, w, s) ==> HalfTurn(now, w, h)
    ensures forall x, y :: 0 <= x < w && 0 <= y < h ==> Moved(now, g, x, y, TallSource(x, y, w, h, s), w, h)
  {
    hide First, WideSource;
    var t, t0 := Turn(now, w, h), Turn(g, w, h);
    WideEnd(t, t0, w, h, w, s);
    if Covers(h, w, s) {
      TurnHalf(now, w, h);
    }
    forall x, y | 0 <= x < w && 0 <= y < h ensures Moved(now, g, x, y, TallSource(x, y, w, h, s), w, h) {
      assert Moved(t, t0, h - 1 - y, w - 1 - x, WideSource(h - 1 - y, w - 1 - x, h, w, s), h, w);
    }
  }

  method RotateTall(m: MapPreview, s: nat)
    requires m.Valid() && s > 0 && m.w > 0
    modifies m.cells
    ensures Covers(m.h, m.w, s) ==> HalfTurn(m.State(), m.w, m.h)
    ensures forall x, y :: 0 <= x < m.w && 0 <= y < m.h ==>
      Moved(m.State(), old(m.State()), x, y, TallSource(x, y, m.w, m.h, s), m.w, m.h)
  {
    hide First, WideSource, TallSource, WidePlaced, HalfTurn, Turn, Covers;
    var w, h := m.w, m.h;
    ghost var g := m.State();
    WideStart(Turn(g, w, h), h, w, s);
    for i := 0 to w
      invariant WidePlaced(Turn(m.State(), w, h), Turn(g, w, h), First(i, s), i, h, w, s)
    {
      FirstOf(i, w, s);
      var j: int := h - 1 - First(i, s);
      while j >= 0
        invariant j <= h - 1 - First(i, s)
        invariant WidePlaced(Turn(m.State(), w, h), Turn(g, w, h), h - 1 - j, i, h, w, s)
      {
        ghost var now := m.State();
        m.CopyXY(w - i - 1, j, i, h - j - 1);
        TurnCopied(now, m.State(), w - i - 1, j, i, h - j - 1, w, h);
        WideStep(Turn(now, w, h), Turn(g, w, h), Turn(m.State(), w, h), h - 1 - j, i, h, w, s);
        j := j - 1;
      }
      WideRow(Turn(m.State(), w, h), Turn(g, w, h), h - 1 - j, i, h, w, s);
    }
    TallEnd(m.State(), g, w, h, s);
  }

  /** Where rotatecopyXY does what it should: maps of more than one row, or of one
      cell, that are not higher than wide by two rows or more, or at least twice as
      high as wide. */
  predicate Turnable(w: int, h: int) { (h > 1 || w == 1) && (h <= w + 1 || h >= 2 * w) }

  /** The cells that are written. Row y from column y times w / h on, or y on if the
      map is higher than wide; but of a map at least twice as high as wide, column x
      up to as many lots of h / w rows from below as it is columns from the right. */
  predicate Written(x: int, y: int, w: nat, h: nat)
    requires w > 0 && h > 0
  {
    if h >= 2 * w then y < h - (w - 1 - x) * (h / w)
    else if w >= h then x >= y * (w / h)
    else x >= y
  }

  /** The cell is in the second half, row by row from the top, or column by column
      from the right. */
  predicate SecondHalf(x: int, y: int, w: nat, h: nat) {
    if h >= 2 * w then w - 1 - x > x || (w - 1 - x == x && h - 1 - y >= y)
    else y > h - 1 - y || (y == h - 1 - y && x >= w - 1 - x)
  }

  /** Cells that are not written stay, and their images take their content; where both
      are written, it is the second half that both get. */
  ghost predicate Rotated(now: Grid, was: Grid, w: nat, h: nat)
    requires w > 0 && h > 0
  {
    Sized(now, w, h) && Sized(was, w, h) && forall x, y :: 0 <= x < w && 0 <= y < h ==> RotatedAt(now, was, x, y, w, h)
  }

  ghost predicate RotatedAt(now: Grid, was: Grid, x: int, y: int, w: nat, h: nat)
    requires Sized(now, w, h) && Sized(was, w, h) && 0 <= x < w && 0 <= y < h
  {
    var x', y' := w - 1 - x, h - 1 - y;
    && (!Written(x, y, w, h) ==> now[x][y] == was[x][y])
    && (Written(x, y, w, h) && !Written(x', y', w, h) ==> now[x][y] == was[x'][y'])
    && (Written(x, y, w, h) && Written(x', y', w, h) ==>
          now[x][y] == if SecondHalf(x, y, w, h) then was[x][y] else was[x'][y'])
  }

  lemma RotatedWide(now: Grid, was: Grid, w: nat, h: nat, s: nat)
    requires Sized(now, w, h) && Sized(was, w, h) && w > 0 && h > 0 && h < 2 * w && s == if w >= h then w / h else 1
    requires forall x, y :: 0 <= x < w && 0 <= y < h ==> Moved(now, was, x, y, WideSource(x, y, w, h, s), w, h)
    ensures Rotated(now, was, w, h)
  {
    hide WideSource;
    forall x, y | 0 <= x < w && 0 <= y < h ensures RotatedAt(now, was, x, y, w, h) {
      assert Moved(now, was, x, y, WideSource(x, y, w, h, s), w, h);
      WideSourceIs(x, y, w, h, s);
      WrittenWide(x, y, w, h, s);
      WrittenWide(w - 1 - x, h - 1 - y, w, h, s);
    }
  }

  lemma WrittenWide(x: int, y: int, w: nat, h: nat, s: nat)
    requires w > 0 && h > 0 && h < 2 * w && s == if w >= h then w / h else 1
    ensures Written(x, y, w, h) <==> x >= First(y, s)
  {
  }

  lemma WideSourceIs(x: int, y: int, w: int, h: int, s: int)
    ensures x < First(y, s) ==> WideSource(x, y, w, h, s) == (x, y)
    ensures x >= First(y, s) && w - 1 - x < First(h - 1 - y, s) ==> WideSource(x, y, w, h, s) == (w - 1 - x, h - 1 - y)
    ensures x >= First(y, s) && w - 1 - x >= First(h - 1 - y, s) ==>
      WideSource(x, y, w, h, s) == (if y > h - 1 - y || (y == h - 1 - y && x >= w - 1 - x) then (x, y) else (w - 1 - x, h - 1 - y))
  {
    hide First;
  }

  lemma RotatedTall(now: Grid, was: Grid, w: nat, h: nat, s: nat)
    requires Sized(now, w, h) && Sized(was, w, h) && w > 0 && h >= 2 * w && s == h / w
    requires forall x, y :: 0 <= x < w && 0 <= y < h ==> Moved(now, was, x, y, TallSource(x, y, w, h, s), w, h)
    ensures Rotated(now, was, w, h)
  {
    hide WideSource;
    forall x, y | 0 <= x < w && 0 <= y < h ensures RotatedAt(now, was, x, y, w, h) {
      assert Moved(now, was, x, y, TallSource(x, y, w, h, s), w, h);
      WideSourceIs(h - 1 - y, w - 1 - x, h, w, s);
      WrittenTall(x, y, w, h, s);
      WrittenTall(w - 1 - x, h - 1 - y, w, h, s);
    }
  }

  lemma WrittenTall(x: int, y: int, w: nat, h: nat, s: nat)
    requires w > 0 && h >= 2 * w && s == h / w
    ensures Written(x, y, w, h) <==> h - 1 - y >= First(w - 1 - x, s)
  {
  }

  /** rotatecopyXY, its part on the cells: which cells stay and which take the
      content of their image, for maps of all sizes. Where it can, it makes every cell
      equal to its image. Else it leaves a single row as it was, and in higher maps at
      least the first cell of the second row and its image. */
  method RotateCopyXY(m: MapPreview)
    requires m.Valid() && m.w > 0 && m.h > 0
    modifies m.cells
    ensures m.h > 1 ==> Rotated(m.State(), old(m.State()), m.w, m.h)
    ensures Turnable(m.w, m.h) ==> HalfTurn(m.State(), m.w, m.h)
    ensures m.h == 1 ==> m.State() == old(m.State())
    ensures !Turnable(m.w, m.h) && m.h > 1 ==> KeepsPair(m.State(), old(m.State()), m.w, m.h)
  {
    hide First, HalfTurn, WideSource, TallSource, KeepsPair, Rotated;
    var sw, sh := m.w / m.h, m.h / m.w;
    if sw < 1 { sw := 1; }
    if sh < 1 { sh := 1; }
    Sides(m.w, m.h);
    ghost var g := m.State();
    if sh == 1 {
      RotateWide(m, sw);
      OneCell(m.State(), m.w, m.h);
      if m.h > 1 {
        RotatedWide(m.State(), g, m.w, m.h, sw);
        if !Turnable(m.w, m.h) {
          PairKept(m.State(), g, m.w, m.h);
        }
      }
    } else {
      RotateTall(m, sh);
      RotatedTall(m.State(), g, m.w, m.h, sh);
    }
  }

  /** The first cell of the second row, and its image, are as they were. */
  ghost predicate KeepsPair(now: Grid, g: Grid, w: int, h: int) {
    Sized(now, w, h) && Sized(g, w, h) && w >= 1 && h >= 2 && now[0][1] == g[0][1] && now[w - 1][h - 2] == g[w - 1][h - 2]
  }

  lemma PairKept(now: Grid, g: Grid, w: int, h: int)
    requires Sized(now, w, h) && Sized(g, w, h) && w >= 1 && h > w + 1
    requires forall x, y :: 0 <= x < w && 0 <= y < h ==> Moved(now, g, x, y, WideSource(x, y, w, h, 1), w, h)
    ensures KeepsPair(now, g, w, h)
  {
    assert Moved(now, g, 0, 1, WideSource(0, 1, w, h, 1), w, h);
    assert Moved(now, g, w - 1, h - 2, WideSource(w - 1, h - 2, w, h, 1), w, h);
  }

  lemma OneCell(g: Grid, w: int, h: int)
    requires Sized(g, w, h)
    ensures w == h == 1 ==> HalfTurn(g, w, h)
  {
  }

  /** The rows of a wide map, or the columns of a tall one, are copied far enough;
      and a map that is higher than wide, but not twice, is copied row by row. */
  lemma Sides(w: nat, h: nat)
    requires w > 0 && h > 0
    ensures h / w <= 1 <==> h < 2 * w
    ensures w >= h ==> w / h >= 1 && Covers(w, h, w / h) && First(h, w / h) <= w
    ensures w / h > 1 <==> w >= 2 * h
    ensures w < h ==> w / h == 0 && (Covers(w, h, 1) <==> h <= w + 1)
    ensures h / w > 1 ==> Covers(h, w, h / w)
  {
    Quotient(w, h);
    Quotient(h, w);
  }

  lemma Quotient(w: nat, h: nat)
    requires w > 0 && h > 0
    ensures w < h ==> w / h == 0
    ensures w >= h ==> w / h >= 1 && First(h - 1, w / h) <= First(h, w / h) <= w
    ensures w / h > 1 <==> w >= 2 * h
  {
    var q := w / h;
    assert w == h * q + w % h;
    MulGrows(h, q, 1);
    MulGrows(h, q, 2);
    FirstOf(h - 1, h, if q > 0 then q else 1);
  }

  /** One factor more is one h more at least. */
  lemma MulGrows(h: nat, q: nat, k: nat)
    ensures q >= k ==> h * q >= h * k
    ensures q < k ==> h * q + h <= h * k
  {
    if q >= k {
      NonNegative(h, q - k);
      assert h * (q - k) == h * q - h * k;
    } else {
      NonNegative(h, k - q - 1);
      assert h * (k - q - 1) == h * k - h * q - h;
    }
  }

  /** Hence for every other size there is a map that does not become its own image. */
  lemma FailsElsewhere(w: nat, h: nat, a: Cell, b: Cell) returns (g: Grid)
    requires w > 0 && h > 0 && !Turnable(w, h) && a != b
    ensures Sized(g, w, h)
    ensures h == 1 ==> !HalfTurn(g, w, h)
    ensures h > 1 ==> forall now | KeepsPair(now, g, w, h) :: !HalfTurn(now, w, h)
  {
    var r := if h == 1 then 0 else 1;
    g := seq(w, x => seq(h, y => if x == 0 && y == r then a else b));
    if h == 1 {
      assert !Turned(g, 0, 0, w, h);
    } else {
      forall now | KeepsPair(now, g, w, h) ensures !HalfTurn(now, w, h) {
        assert !Turned(now, 0, 1, w, h);
      }
    }
  }

  // ---- mirrorXY

  /** The p-th cell of block a in line b, of a map s times as wide as high. */
  function InBlock(g: Grid, a: int, b: int, p: int, w: int, h: int, s: int): Cell
    requires Sized(g, w, h) && First(h, s) <= w && 0 <= a < h && 0 <= b < h && 0 <= p < s
  {
    AtInRange(p, a, s, h);
    g[At(p, a, s)][b]
  }

  /** Blocks that are copied onto, when the other side of the diagonal is the
      source: right of it or left of it. */
  predicate Onto(a: int, b: int, right: bool) { if right then a > b else a < b }

  /** Blocks i and j are being exchanged, up to cell q of them; pairs with a
      smaller block, or with i and one before j, are done. */
  predicate Passed(a: int, b: int, p: int, i: int, j: int, q: int) {
    var lo, hi := if a < b then a else b, if a < b then b else a;
    lo < i || (lo == i && (hi < j || (hi == j && p < q)))
  }

  lemma BlockInRange(p: int, a: int, w: int, h: int, s: int)
    requires 0 <= a < h && 0 <= p < s && First(h, s) <= w
    ensures 0 <= At(p, a, s) < w
    ensures At(p, a, s) < First(h, s)
  {
    AtInRange(p, a, s, h);
    assert s * h == h * s;
  }

  ghost predicate BlockIs(now: Grid, g: Grid, a: int, b: int, p: int, i: int, j: int, q: int, w: int, h: int, s: int, right: bool)
    requires Sized(now, w, h) && Sized(g, w, h) && First(h, s) <= w && 0 <= a < h && 0 <= b < h && 0 <= p < s
  {
    InBlock(now, a, b, p, w, h, s) ==
      if Onto(a, b, right) && Passed(a, b, p, i, j, q) then InBlock(g, b, a, p, w, h, s) else InBlock(g, a, b, p, w, h, s)
  }

  ghost predicate BlockMirrors(now: Grid, a: int, b: int, p: int, w: int, h: int, s: int)
    requires Sized(now, w, h) && First(h, s) <= w && 0 <= a < h && 0 <= b < h && 0 <= p < s
  {
    InBlock(now, a, b, p, w, h, s) == InBlock(now, b, a, p, w, h, s)
  }

  ghost predicate BlockStays(now: Grid, g: Grid, a: int, b: int, p: int, w: int, h: int, s: int)
    requires Sized(now, w, h) && Sized(g, w, h) && First(h, s) <= w && 0 <= a < h && 0 <= b < h && 0 <= p < s
  {
    InBlock(now, a, b, p, w, h, s) == InBlock(g, a, b, p, w, h, s)
  }

  /** What is left over beside the blocks is not touched. */
  ghost predicate StripStays(now: Grid, g: Grid, w: int, h: int, s: int)
    requires Sized(now, w, h) && Sized(g, w, h)
  {
    forall x, y :: 0 <= x < w && 0 <= y < h && x >= First(h, s) ==> now[x][y] == g[x][y]
  }

  ghost predicate MirrorPlaced(now: Grid, g: Grid, i: int, j: int, q: int, w: int, h: int, s: int, right: bool) {
    && Sized(now, w, h) && Sized(g, w, h) && First(h, s) <= w && StripStays(now, g, w, h, s)
    && forall a, b, p :: 0 <= a < h && 0 <= b < h && 0 <= p < s ==>
      BlockIs(now, g, a, b, p, i, j, q, w, h, s, right)
  }

  /** The map is symmetric across the diagonal of blocks; one side of it, the blocks
      on it and what is left over beside the blocks are as they were. */
  ghost predicate Mirrored(now: Grid, g: Grid, w: int, h: int, s: int, right: bool) {
    && Sized(now, w, h) && Sized(g, w, h) && First(h, s) <= w && StripStays(now, g, w, h, s)
    && (forall a, b, p :: 0 <= a < h && 0 <= b < h && 0 <= p < s ==> BlockMirrors(now, a, b, p, w, h, s))
    && (forall a, b, p :: 0 <= a < h && 0 <= b < h && 0 <= p < s && !Onto(a, b, right) ==> BlockStays(now, g, a, b, p, w, h, s))
  }

  lemma MirrorStep(now: Grid, g: Grid, next: Grid, i: int, j: int, q: int, w: int, h: int, s: int, right: bool)
    requires MirrorPlaced(now, g, i, j, q, w, h, s, right) && 0 <= i < j < h && 0 <= q < s
    requires var a, b := if right then j else i, if right then i else j;
      Copied(now, next, At(q, a, s), b, At(q, b, s), a, w, h)
    ensures MirrorPlaced(next, g, i, j, q + 1, w, h, s, right)
  {
    hide At, First;
    var q' := q + 1;
    BlockInRange(q, i, w, h, s);
    BlockInRange(q, j, w, h, s);
    var x, y := if right then j else i, if right then i else j;
    forall a, b, p | 0 <= a < h && 0 <= b < h && 0 <= p < s
      ensures BlockIs(next, g, a, b, p, i, j, q', w, h, s, right)
    {
      BlockInRange(p, a, w, h, s);
      if a == x && b == y && p == q {
        assert BlockIs(now, g, y, x, q, i, j, q, w, h, s, right);
      } else {
        if At(p, a, s) == At(q, x, s) {
          AtUnique(p, a, q, x, s);
        }
        assert BlockIs(now, g, a, b, p, i, j, q, w, h, s, right);
      }
    }
  }

  /** From one pair of blocks, or one line of them, to the next. */
  lemma MirrorOn(now: Grid, g: Grid, i: int, j: int, q: int, i': int, j': int, q': int, w: int, h: int, s: int, right: bool)
    requires MirrorPlaced(now, g, i, j, q, w, h, s, right)
    requires (q == s && i' == i && j' == j + 1 && q' == 0) || (j >= h && q == 0 && i' == i + 1 && j' == i + 2 && q' == 0)
    ensures MirrorPlaced(now, g, i', j', q', w, h, s, right)
  {
    hide At, First, InBlock;
    forall a, b, p | 0 <= a < h && 0 <= b < h && 0 <= p < s
      ensures BlockIs(now, g, a, b, p, i', j', q', w, h, s, right)
    {
      assert BlockIs(now, g, a, b, p, i, j, q, w, h, s, right);
    }
  }

  lemma MirrorStart(g: Grid, w: int, h: int, s: int, right: bool)
    requires Sized(g, w, h) && First(h, s) <= w
    ensures MirrorPlaced(g, g, 0, 1, 0, w, h, s, right)
  {
    hide At, First;
  }

  lemma MirrorEnd(now: Grid, g: Grid, i: int, w: int, h: int, s: int, right: bool)
    requires MirrorPlaced(now, g, i, i + 1, 0, w, h, s, right) && i >= h - 1
    ensures Mirrored(now, g, w, h, s, right)
  {
    hide At, First, InBlock;
    forall a, b, p | 0 <= a < h && 0 <= b < h && 0 <= p < s
      ensures BlockMirrors(now, a, b, p, w, h, s)
      ensures !Onto(a, b, right) ==> BlockStays(now, g, a, b, p, w, h, s)
    {
      assert BlockIs(now, g, a, b, p, i, i + 1, 0, w, h, s, right);
      assert BlockIs(now, g, b, a, p, i, i + 1, 0, w, h, s, right);
    }
  }

  method MirrorWide(m: MapPreview, s: nat)
    requires m.Valid() && s > 0 && m.h > 0 && First(m.h, s) <= m.w
    modifies m.cells
    ensures Mirrored(m.State(), old(m.State()), m.w, m.h, s, true)
  {
    hide At, First, MirrorPlaced, Mirrored;
    var w, h := m.w, m.h;
    ghost var g := m.State();
    MirrorStart(g, w, h, s, true);
    Lines(w, h, s);
    for i := 0 to w / s - 1
      invariant MirrorPlaced(m.State(), g, i, i + 1, 0, w, h, s, true)
    {
      var j := i + 1;
      while j < h
        invariant j > i && MirrorPlaced(m.State(), g, i, j, 0, w, h, s, true)
      {
        for p := 0 to s
          invariant MirrorPlaced(m.State(), g, i, j, p, w, h, s, true)
        {
          ghost var now := m.State();
          BlockInRange(p, j, w, h, s);
          BlockInRange(p, i, w, h, s);
          m.CopyXY(At(p, j, s), i, At(p, i, s), j);
          MirrorStep(now, g, m.State(), i, j, p, w, h, s, true);
        }
        MirrorOn(m.State(), g, i, j, s, i, j + 1, 0, w, h, s, true);
        j := j + 1;
      }
      MirrorOn(m.State(), g, i, j, 0, i + 1, i + 2, 0, w, h, s, true);
    }
    MirrorEnd(m.State(), g, w / s - 1, w, h, s, true);
  }

  /** A tall map seen as a wide one, by exchanging its coordinates. */
  ghost function Transpose(g: Grid, w: int, h: int): (t: Grid)
    requires Sized(g, w, h) && w >= 0 && h >= 0
    ensures Sized(t, h, w) && forall x, y :: 0 <= x < h && 0 <= y < w ==> t[x][y] == g[y][x]
  {
    seq(h, x requires 0 <= x < h => seq(w, y requires 0 <= y < w => g[y][x]))
  }

  lemma TransposeCopied(now: Grid, next: Grid, x: int, y: int, sx: int, sy: int, w: int, h: int)
    requires Copied(now, next, x, y, sx, sy, w, h) && w >= 0 && h >= 0
    ensures Copied(Transpose(now, w, h), Transpose(next, w, h), y, x, sy, sx, h, w)
  {
  }

  method MirrorTall(m: MapPreview, s: nat)
    requires m.Valid() && s > 0 && m.w > 0 && m.h / s == m.w
    modifies m.cells
    ensures Mirrored(Transpose(m.State(), m.w, m.h), Transpose(old(m.State()), m.w, m.h), m.h, m.w, s, false)
  {
    hide At, First, MirrorPlaced, Mirrored, Transpose;
    var w, h := m.w, m.h;
    ghost var g := Transpose(m.State(), w, h);
    Lines(h, w, s);
    MirrorStart(g, h, w, s, false);
    for i := 0 to w - 1
      invariant MirrorPlaced(Transpose(m.State(), w, h), g, i, i + 1, 0, h, w, s, false)
    {
      for j := i + 1 to h / s
        invariant MirrorPlaced(Transpose(m.State(), w, h), g, i, j, 0, h, w, s, false)
      {
        for p := 0 to s
          invariant MirrorPlaced(Transpose(m.State(), w, h), g, i, j, p, h, w, s, false)
        {
          ghost var now := m.State();
          BlockInRange(p, j, h, w, s);
          BlockInRange(p, i, h, w, s);
          m.CopyXY(j, At(p, i, s), i, At(p, j, s));
          TransposeCopied(now, m.State(), j, At(p, i, s), i, At(p, j, s), w, h);
          MirrorStep(Transpose(now, w, h), g, Transpose(m.State(), w, h), i, j, p, h, w, s, false);
        }
        MirrorOn(Transpose(m.State(), w, h), g, i, j, s, i, j + 1, 0, h, w, s, false);
      }
      MirrorOn(Transpose(m.State(), w, h), g, i, w, 0, i + 1, i + 2, 0, h, w, s, false);
    }
    MirrorEnd(Transpose(m.State(), w, h), g, w - 1, h, w, s, false);
  }

  /** As many lines of blocks as the side holds are enough for h of them. */
  lemma Lines(w: int, h: int, s: int)
    requires s > 0 && h >= 0 && w >= 0
    ensures First(h, s) <= w <==> w / s >= h
  {
    assert w == s * (w / s) + w % s;
    if w / s >= h {
      NonNegative(w / s - h, s);
      assert (w / s - h) * s == s * (w / s) - h * s;
    } else {
      NonNegative(h - w / s - 1, s);
      assert (h - w / s - 1) * s == h * s - s * (w / s) - s;
    }
  }

  /** Cell by cell: right of the diagonal of blocks a cell gets what is across it,
      and all others stay. Blocks are w / h cells wide and one high, or in a higher map
      one wide and h / w high. */
  ghost predicate CopiedAcross(now: Grid, was: Grid, w: nat, h: nat)
    requires w > 0 && h > 0
  {
    && Sized(now, w, h) && Sized(was, w, h)
    && forall x, y :: 0 <= x < w && 0 <= y < h ==>
      if h <= w then AcrossWide(now, was, x, y, w, h, w / h) else AcrossTall(now, was, x, y, w, h, h / w)
  }

  ghost predicate AcrossWide(now: Grid, was: Grid, x: int, y: int, w: int, h: int, s: int)
    requires Sized(now, w, h) && Sized(was, w, h) && 0 <= x < w && 0 <= y < h
  {
    s > 0 &&
    if y < x / s < h then Moved(now, was, x, y, (y * s + x % s, x / s), w, h) else now[x][y] == was[x][y]
  }

  ghost predicate AcrossTall(now: Grid, was: Grid, x: int, y: int, w: int, h: int, s: int)
    requires Sized(now, w, h) && Sized(was, w, h) && 0 <= x < w && 0 <= y < h
  {
    s > 0 &&
    if y / s < x then Moved(now, was, x, y, (y / s, x * s + y % s), w, h) else now[x][y] == was[x][y]
  }

  lemma AcrossIs(now: Grid, was: Grid, x: int, y: int, w: int, h: int, s: int)
    requires Mirrored(now, was, w, h, s, true) && 0 <= x < w && 0 <= y < h && s > 0
    ensures AcrossWide(now, was, x, y, w, h, s)
  {
    hide First, At, BlockMirrors, BlockStays, StripStays;
    var a, p := x / s, x % s;
    Parts(x, s);
    if a < h {
      BlockIn(now, was, a, y, p, w, h, s, true);
      BlockInRange(p, y, w, h, s);
      Named(p, y, s);
    } else {
      BeyondBlocks(x, h, s);
      StripIs(now, was, x, y, w, h, s);
    }
  }

  lemma Parts(x: int, s: int)
    requires x >= 0 && s > 0
    ensures 0 <= x / s && 0 <= x % s < s && At(x % s, x / s, s) == x
  {
    assert x == s * (x / s) + x % s;
  }

  lemma Named(p: int, b: int, s: int)
    ensures At(p, b, s) == b * s + p
  {
  }

  lemma BeyondBlocks(x: int, h: int, s: int)
    requires x >= 0 && s > 0 && x / s >= h
    ensures x >= First(h, s)
  {
    Parts(x, s);
    NonNegative(x / s - h, s);
    assert (x / s - h) * s == x / s * s - h * s;
  }

  lemma StripIs(now: Grid, was: Grid, x: int, y: int, w: int, h: int, s: int)
    requires Mirrored(now, was, w, h, s, true) && 0 <= x < w && 0 <= y < h && x >= First(h, s)
    ensures now[x][y] == was[x][y]
  {
    hide First, BlockMirrors, BlockStays;
  }

  /** Both blocks across the diagonal hold what the one that is not copied onto held. */
  lemma BlockIn(now: Grid, was: Grid, a: int, b: int, p: int, w: int, h: int, s: int, right: bool)
    requires Mirrored(now, was, w, h, s, right) && 0 <= a < h && 0 <= b < h && 0 <= p < s
    ensures 0 <= At(p, a, s) < w && 0 <= At(p, b, s) < w
    ensures (if right then a > b else a < b) ==> now[At(p, a, s)][b] == was[At(p, b, s)][a]
    ensures !(if right then a > b else a < b) ==> now[At(p, a, s)][b] == was[At(p, a, s)][b]
  {
    hide First, At;
    BlockInRange(p, a, w, h, s);
    BlockInRange(p, b, w, h, s);
    assert BlockMirrors(now, a, b, p, w, h, s);
    if !Onto(a, b, right) {
      assert BlockStays(now, was, a, b, p, w, h, s);
    }
    if !Onto(b, a, right) {
      assert BlockStays(now, was, b, a, p, w, h, s);
    }
  }

  lemma AcrossTallIs(now: Grid, was: Grid, x: int, y: int, w: int, h: int, s: int)
    requires Sized(now, w, h) && Sized(was, w, h) && h >= 0 && 0 <= x < w && 0 <= y < h && s > 0 && h / s == w
    requires Mirrored(Transpose(now, w, h), Transpose(was, w, h), h, w, s, false)
    ensures AcrossTall(now, was, x, y, w, h, s)
  {
    hide First, At, BlockMirrors, BlockStays, StripStays, Mirrored, Transpose;
    var t, t0 := Transpose(now, w, h), Transpose(was, w, h);
    var a, p := y / s, y % s;
    Parts(y, s);
    if a < w {
      BlockIn(t, t0, a, x, p, h, w, s, false);
      BlockInTall(p, x, w, h, s);
      Named(p, x, s);
    } else {
      BeyondBlocks(y, w, s);
      StripTall(t, t0, x, y, w, h, s);
    }
  }

  lemma BlockInTall(p: int, x: int, w: int, h: int, s: int)
    requires 0 <= x < w && 0 <= p < s && h >= 0 && h / s == w
    ensures 0 <= At(p, x, s) < h
  {
    Lines(h, w, s);
    BlockInRange(p, x, h, w, s);
  }

  lemma StripTall(t: Grid, t0: Grid, x: int, y: int, w: int, h: int, s: int)
    requires Mirrored(t, t0, h, w, s, false) && 0 <= x < w && 0 <= y < h && y >= First(w, s)
    ensures t[y][x] == t0[y][x]
  {
    hide First, BlockMirrors, BlockStays;
  }

  lemma AllAcross(now: Grid, was: Grid, w: nat, h: nat)
    requires w > 0 && h > 0 && Sized(now, w, h) && Sized(was, w, h)
    requires h <= w ==> w / h > 0 && Mirrored(now, was, w, h, w / h, true)
    requires h > w ==> h / w > 0 && h / (h / w) == w && Mirrored(Transpose(now, w, h), Transpose(was, w, h), h, w, h / w, false)
    ensures CopiedAcross(now, was, w, h)
  {
    hide Mirrored, Transpose, AcrossWide, AcrossTall;
    forall x, y | 0 <= x < w && 0 <= y < h
      ensures if h <= w then AcrossWide(now, was, x, y, w, h, w / h) else AcrossTall(now, was, x, y, w, h, h / w)
    {
      if h <= w {
        AcrossIs(now, was, x, y, w, h, w / h);
      } else {
        AcrossTallIs(now, was, x, y, w, h, h / w);
      }
    }
  }

  /** mirrorXY, its part on the cells. A square map is a wide one with blocks of
      one cell. A map higher than wide must hold just as many blocks below one another
      as it has columns: else the source writes a column that the map does not have. */
  method MirrorXY(m: MapPreview)
    requires m.Valid() && m.w > 0 && m.h > 0 && (m.h <= m.w || (m.h / m.w > 0 && m.h / (m.h / m.w) == m.w))
    modifies m.cells
    ensures CopiedAcross(m.State(), old(m.State()), m.w, m.h)
    ensures m.h <= m.w ==> Mirrored(m.State(), old(m.State()), m.w, m.h, m.w / m.h, true)
    ensures m.h > m.w ==>
      Mirrored(Transpose(m.State(), m.w, m.h), Transpose(old(m.State()), m.w, m.h), m.h, m.w, m.h / m.w, false)
  {
    hide First, Mirrored, CopiedAcross, Transpose;
    ghost var g := m.State();
    Sides(m.w, m.h);
    if m.h == m.w {
      MirrorWide(m, 1);
    } else if m.h < m.w {
      MirrorWide(m, m.w / m.h);
    } else {
      MirrorTall(m, m.h / m.w);
    }
    AllAcross(m.State(), g, m.w, m.h);
  }
}
