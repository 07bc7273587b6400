/** The editor's brushes and cell setters
    (source/shared_lib/sources/map/map_preview.cpp:114-150 and 442-514). */
module MapBrush {
  import opened MapGrid

  // ---- setters, on one cell

  /** setObject: an object takes the place of a resource. */
  function WithObject(c: Cell, object_: int): Cell {
    c.(object_ := object_, resource := if object_ != 0 then 0 else c.resource)
  }

  /** setResource: and the other way round. */
  function WithResource(c: Cell, resource: int): Cell {
    c.(resource := resource, object_ := if resource != 0 then 0 else c.object_)
  }

  /** A cell does not have both. */
  predicate Clear(c: Cell) { c.object_ == 0 || c.resource == 0 }

  predicate AllClear(g: Grid) {
    forall i, j :: 0 <= i < |g| && 0 <= j < |g[i]| ==> Clear(g[i][j])
  }

  // ---- which cells a brush paints

  function Nearest(d: nat, n: nat): nat
    decreases if d <= n then 0 else d - n
  {
    if d <= n * n + n then n else Grows(n); Nearest(d, n + 1)
  }

  lemma Grows(n: nat)
    ensures n * n + n >= n
  {
  }

  /** get_dist: the distance rounded to the nearest whole number. */
  function GetDist(dx: int, dy: int): nat {
    SquareNat(dx); SquareNat(dy);
    Nearest(dx * dx + dy * dy, 0)
  }

  lemma SquareNat(x: int)
    ensures x * x >= 0
  {
  }

  /** A half less than it is not reached by any smaller number. */
  lemma {:induction false} NearestIs(d: nat, n: nat, r: nat)
    requires n == 0 || d > n * n - n
    ensures Nearest(d, n) < r <==> n < r && d <= r * r - r
    decreases if d <= n then 0 else d - n
  {
    if d <= n * n + n {
      if n < r {
        Step(n, r);
      }
    } else {
      Grows(n);
      assert (n + 1) * (n + 1) - (n + 1) == n * n + n;
      NearestIs(d, n + 1, r);
      if n + 1 == r {
        assert r * r - r == n * n + n;
      }
    }
  }

  lemma Step(n: nat, r: nat)
    requires n < r
    ensures n * n + n <= r * r - r
  {
    assert r * r - r == (r - 1) * r;
    Square(n, r - 1);
    assert (r - 1) * r == (r - 1) * (r - 1) + (r - 1);
  }

  lemma Square(a: int, b: int)
    requires 0 <= a <= b
    ensures a * a <= b * b
  {
    assert b * b == a * a + (b - a) * (b + a);
    NonNegative(b - a, b + a);
  }

  /** The cells within the radius, which is half a cell less than it says. */
  predicate InBrush(i: int, j: int, x: int, y: int, radius: int) {
    radius > 0 && (i - x) * (i - x) + (j - y) * (j - y) <= radius * radius - radius
  }

  lemma InBrushIs(i: int, j: int, x: int, y: int, radius: int)
    ensures InBrush(i, j, x, y, radius) <==> radius > GetDist(i - x, j - y)
    ensures InBrush(i, j, x, y, radius) ==> x - radius < i < x + radius && y - radius < j < y + radius
  {
    SquareNat(i - x);
    SquareNat(j - y);
    if radius > 0 {
      NearestIs((i - x) * (i - x) + (j - y) * (j - y), 0, radius);
      if InBrush(i, j, x, y, radius) {
        Far(i - x, j - y, radius);
        Far(j - y, i - x, radius);
      }
    }
  }

  lemma Far(a: int, b: int, r: int)
    requires r > 0 && a * a + b * b <= r * r - r
    ensures -r < a < r
  {
    SquareNat(b);
    if a >= 0 {
      Square(r, if a >= r then a else r);
    } else {
      Square(r, if -a >= r then -a else r);
      assert (-a) * (-a) == a * a;
    }
  }

  /** Every cell of the brush is changed in the same way, which may depend on its
      distance, and no other. */
  ghost predicate Painted(now: Grid, was: Grid, w: int, h: int, x: int, y: int, radius: int, put: (Cell, nat) -> Cell) {
    && Sized(now, w, h) && Sized(was, w, h)
    && forall i, j :: 0 <= i < w && 0 <= j < h ==>
      now[i][j] == if InBrush(i, j, x, y, radius) then put(was[i][j], GetDist(i - x, j - y)) else was[i][j]
  }

  /** The loops that all brushes have. */
  method Paint(m: MapPreview, x: int, y: int, radius: int, put: (Cell, nat) -> Cell)
    requires m.Valid()
    modifies m.cells
    ensures Painted(m.State(), old(m.State()), m.w, m.h, x, y, radius, put)
  {
    hide InBrush, GetDist;
    ghost var was := m.State();
    forall i, j | InBrush(i, j, x, y, radius) ensures x - radius < i < x + radius && y - radius < j < y + radius {
      InBrushIs(i, j, x, y, radius);
    }
    var i := x - radius + 1;
    while i < x + radius
      invariant i >= x - radius + 1
      invariant forall i', j' :: 0 <= i' < m.w && 0 <= j' < m.h ==>
        m.cells[i', j'] == if i' < i && InBrush(i', j', x, y, radius) then put(was[i'][j'], GetDist(i' - x, j' - y)) else was[i'][j']
    {
      var j := y - radius + 1;
      while j < y + radius
        invariant j >= y - radius + 1
        invariant forall i', j' :: 0 <= i' < m.w && 0 <= j' < m.h ==>
          m.cells[i', j'] == if (i' < i || (i' == i && j' < j)) && InBrush(i', j', x, y, radius)
            then put(was[i'][j'], GetDist(i' - x, j' - y)) else was[i'][j']
      {
        if 0 <= i < m.w && 0 <= j < m.h {
          var dist := GetDist(i - x, j - y);
          InBrushIs(i, j, x, y, radius);
          if radius > dist {
            m.cells[i, j] := put(m.cells[i, j], dist);
          }
        }
        j := j + 1;
      }
      i := i + 1;
    }
  }

  // ---- what each brush does to a cell

  /** Division in C, towards zero. */
  function Quot(a: int, b: int): int
    requires b > 0
  {
    if a >= 0 then a / b else -(-a / b)
  }

  /** A cast to int, towards zero. */
  function Whole(r: real): int { if r >= 0.0 then r.Floor else -(-r).Floor }

  /** glestChangeHeight: cells are raised (or lowered) to a cone around a reference
      height, if that is up (or down) for them and from 0 to 20. */
  function Raised(c: Cell, dist: nat, refAlt: int, height: int, radius: int): Cell {
    if radius <= dist then c
    else
      var oldAlt := Whole(c.height);
      var newAlt := refAlt + Quot(height * (radius - dist - 1), radius) + if height > 0 then 1 else if height < 0 then -1 else 0;
      if ((height > 0 && newAlt > oldAlt) || (height < 0 && newAlt < oldAlt) || height == 0) && 0 <= newAlt <= 20
      then c.(height := newAlt as real) else c
  }

  /** changeObject and changeResource clear the other one. */
  function Brushed(kind: ChangeType, c: Cell, dist: nat, value: int, radius: int, refAlt: int): Cell {
    match kind
    case Height => Raised(c, dist, refAlt, value, radius)
    case Surface => c.(surface := value)
    case Object_ => c.(object_ := value, resource := 0)
    case Resource => c.(resource := value, object_ := 0)
    case _ => c
  }

  datatype ChangeType = NoChange | Height | Surface | Object_ | Resource | Location | Gradient | All

  /** What an edit of each kind leaves alone in a cell. */
  predicate SameBut(kind: ChangeType, c: Cell, d: Cell) {
    match kind
    case Height => c.surface == d.surface && c.object_ == d.object_ && c.resource == d.resource
    case Gradient => c.surface == d.surface && c.object_ == d.object_ && c.resource == d.resource
    case Surface => c.object_ == d.object_ && c.resource == d.resource && c.height == d.height
    case Object_ => c.surface == d.surface && c.height == d.height
    case Resource => c.surface == d.surface && c.height == d.height
    case All => true
    case NoChange => c == d
    case Location => c == d
  }

  lemma BrushedIs(kind: ChangeType, c: Cell, dist: nat, value: int, radius: int, refAlt: int)
    ensures SameBut(kind, c, Brushed(kind, c, dist, value, radius, refAlt))
    ensures Clear(c) ==> Clear(Brushed(kind, c, dist, value, radius, refAlt))
  {
    hide Quot, Whole;
  }
}
