/** Undo and redo in the map editor, by points that save only the layers an edit
    may change (source/glest_map_editor/program.cpp:45-139 and 207-240,
    source/glest_map_editor/program.h:29-87). */
module MapUndo {
  import opened History
  import opened MapGrid
  import opened MapBrush

  predicate SavesHeight(c: ChangeType) { c in {All, Height, Gradient} }

  predicate SavesSurface(c: ChangeType) { c in {All, Surface} }

  predicate SavesObjects(c: ChangeType) { c in {All, Object_, Resource} }

  /** The cell with the layers of c taken from another one. */
  function MergeCell(onto: Cell, from: Cell, c: ChangeType): Cell {
    Cell(if SavesSurface(c) then from.surface else onto.surface,
         if SavesObjects(c) then from.object_ else onto.object_,
         if SavesObjects(c) then from.resource else onto.resource,
         if SavesHeight(c) then from.height else onto.height)
  }

  /** What a cell becomes when the layers of c are set to those of another one: its
      object first, and then its resource. */
  function RestoreCell(onto: Cell, from: Cell, c: ChangeType): Cell {
    var x := if SavesHeight(c) then onto.(height := from.height) else onto;
    var y := if SavesSurface(c) then x.(surface := from.surface) else x;
    if SavesObjects(c) then WithResource(WithObject(y, from.object_), from.resource) else y
  }

  /** It has those layers if and only if the other cell has not both an object and a
      resource. */
  lemma RestoresIff(onto: Cell, from: Cell, c: ChangeType)
    ensures RestoreCell(onto, from, c) == MergeCell(onto, from, c) <==> !SavesObjects(c) || Clear(from)
  {
  }

  /** An edit of kind c turns s into t, or the other way round: all other layers
      are the same. */
  predicate Within(c: ChangeType, s: Grid, t: Grid, w: nat, h: nat) {
    && Sized(s, w, h) && Sized(t, w, h)
    && forall i, j :: 0 <= i < w && 0 <= j < h ==> MergeCell(t[i][j], s[i][j], c) == s[i][j]
  }

  /** Field by field: what each kind of edit leaves alone. */
  lemma WithinIff(c: ChangeType, s: Grid, t: Grid, w: nat, h: nat)
    requires Sized(s, w, h) && Sized(t, w, h)
    ensures Within(c, s, t, w, h) <==> forall i, j :: 0 <= i < w && 0 <= j < h ==> SameBut(c, s[i][j], t[i][j])
  {
    forall i, j | 0 <= i < w && 0 <= j < h
      ensures MergeCell(t[i][j], s[i][j], c) == s[i][j] <==> SameBut(c, s[i][j], t[i][j])
    {
      MergedIff(c, s[i][j], t[i][j]);
    }
  }

  lemma MergedIff(c: ChangeType, s: Cell, t: Cell)
    ensures MergeCell(t, s, c) == s <==> SameBut(c, s, t)
  {
  }

  /** A layer is saved in a row-by-row array. */
  ghost predicate Keeps<T>(a: seq<T>, g: Grid, get: Cell -> T, w: nat, h: nat) {
    && Sized(g, w, h)
    && forall i, j :: 0 <= i < w && 0 <= j < h ==> 0 <= At(i, j, w) < |a| && a[At(i, j, w)] == get(g[i][j])
  }

  /** One of the loops of init. */
  method SaveLayer<T(0)>(map_: MapPreview, get: Cell -> T) returns (a: array<T>)
    requires map_.Valid()
    ensures fresh(a) && Keeps(a[..], map_.State(), get, map_.w, map_.h)
  {
    hide At;
    var w, h := map_.w, map_.h;
    a := new T[w * h];
    for i := 0 to w
      invariant forall i', j' :: 0 <= i' < i && 0 <= j' < h ==> 0 <= At(i', j', w) < a.Length && a[At(i', j', w)] == get(map_.cells[i', j'])
    {
      for j := 0 to h
        invariant forall i', j' :: 0 <= i' <= i && 0 <= j' < h && (i' < i || j' < j) ==>
          0 <= At(i', j', w) < a.Length && a[At(i', j', w)] == get(map_.cells[i', j'])
      {
        AtInRange(i, j, w, h);
        forall i', j' | 0 <= i' <= i && 0 <= j' < h && (i' < i || j' < j) ensures At(i', j', w) != At(i, j, w) {
          if At(i', j', w) == At(i, j, w) {
            AtUnique(i', j', i, j, w);
          }
        }
        a[At(i, j, w)] := get(map_.cells[i, j]);
      }
    }
  }

  /** One of the loops of revert. */
  method RestoreLayer<T>(map_: MapPreview, a: array<T>, put: (Cell, T) -> Cell, get: Cell -> T, ghost g: Grid)
    requires map_.Valid() && Keeps(a[..], g, get, map_.w, map_.h)
    modifies map_.cells
    ensures forall i, j :: 0 <= i < map_.w && 0 <= j < map_.h ==> map_.cells[i, j] == put(old(map_.cells[i, j]), get(g[i][j]))
  {
    hide At;
    var w, h := map_.w, map_.h;
    for i := 0 to w
      invariant forall i', j' :: 0 <= i' < w && 0 <= j' < h ==>
        map_.cells[i', j'] == if i' < i then put(old(map_.cells[i', j']), get(g[i'][j'])) else old(map_.cells[i', j'])
    {
      for j := 0 to h
        invariant forall i', j' :: 0 <= i' < w && 0 <= j' < h ==>
          map_.cells[i', j'] == if i' < i || (i' == i && j' < j) then put(old(map_.cells[i', j']), get(g[i'][j'])) else old(map_.cells[i', j'])
      {
        assert a[..][At(i, j, w)] == get(g[i][j]);
        map_.cells[i, j] := put(map_.cells[i, j], a[At(i, j, w)]);
      }
    }
  }

  class UndoPoint {
    var change: ChangeType
    var surface: array?<int>
    var object_: array?<int>
    var resource: array?<int>
    var height: array?<real>

    constructor ()
      ensures change == NoChange && Arrays() == {}
    {
      change, surface, object_, resource, height := NoChange, null, null, null, null;
    }

    ghost function Arrays(): set<object>
      reads this
    {
      (if surface == null then {} else {surface as object}) + (if object_ == null then {} else {object_ as object}) +
      (if resource == null then {} else {resource as object}) + (if height == null then {} else {height as object})
    }

    /** The point holds the layers of its change as they are in the given state. */
    ghost predicate Saved(g: Grid, w: nat, h: nat)
      reads this, Arrays()
    {
      && Sized(g, w, h)
      && (SavesHeight(change) ==> height != null && Keeps(height[..], g, (c: Cell) => c.height, w, h))
      && (SavesSurface(change) ==> surface != null && Keeps(surface[..], g, (c: Cell) => c.surface, w, h))
      && (SavesObjects(change) ==> object_ != null && Keeps(object_[..], g, (c: Cell) => c.object_, w, h))
      && (SavesObjects(change) ==> resource != null && Keeps(resource[..], g, (c: Cell) => c.resource, w, h))
    }

    /** The layers that an edit of this kind may change are copied. */
    method Init(change: ChangeType, map_: MapPreview)
      requires map_.Valid()
      modifies this
      ensures this.change == change && Saved(map_.State(), map_.w, map_.h)
      ensures fresh(Arrays() - old(Arrays()))
    {
      hide Keeps;
      this.change := change;
      if SavesHeight(change) {
        height := SaveLayer(map_, (c: Cell) => c.height);
      }
      if SavesSurface(change) {
        surface := SaveLayer(map_, (c: Cell) => c.surface);
      }
      if SavesObjects(change) {
        object_ := SaveLayer(map_, (c: Cell) => c.object_);
        resource := SaveLayer(map_, (c: Cell) => c.resource);
      }
    }

    /** The saved layers are written back; the others stay. */
    method Revert(map_: MapPreview, ghost g: Grid)
      requires map_.Valid() && Saved(g, map_.w, map_.h)
      modifies map_.cells
      ensures forall i, j :: 0 <= i < map_.w && 0 <= j < map_.h ==> map_.cells[i, j] == RestoreCell(old(map_.cells[i, j]), g[i][j], change)
    {
      hide Keeps, WithObject, WithResource;
      if SavesHeight(change) {
        RestoreLayer(map_, height, (c: Cell, v) => c.(height := v), (c: Cell) => c.height, g);
      }
      if SavesSurface(change) {
        RestoreLayer(map_, surface, (c: Cell, v) => c.(surface := v), (c: Cell) => c.surface, g);
      }
      if SavesObjects(change) {
        RestoreLayer(map_, object_, (c: Cell, v) => WithObject(c, v), (c: Cell) => c.object_, g);
        RestoreLayer(map_, resource, (c: Cell, v) => WithResource(c, v), (c: Cell) => c.resource, g);
      }
    }
  }

  /** A stack of at most maxSize points: a push onto a full one drops the oldest. */
  class ChangeStack {
    var c: seq<UndoPoint>

    constructor ()
      ensures c == []
    {
      c := [];
    }

    method Clear()
      modifies this
      ensures c == []
    {
      c := [];
    }

    method Push(p: UndoPoint)
      modifies this
      ensures c == (if |old(c)| >= MAX_SIZE then old(c)[1..] else old(c)) + [p]
    {
      if |c| >= MAX_SIZE {
        c := c[1..];
      }
      c := c + [p];
    }

    method Pop()
      requires c != []
      modifies this
      ensures c == old(c)[..|old(c)| - 1]
    {
      c := c[..|c| - 1];
    }

    function Top(): UndoPoint
      requires c != []
      reads this
    {
      c[|c| - 1]
    }
  }

  lemma WithinBack(c: ChangeType, s: Grid, t: Grid, w: nat, h: nat)
    requires Within(c, s, t, w, h)
    ensures Within(c, t, s, w, h)
  {
  }

  lemma WithinNone(c: ChangeType, s: Grid, w: nat, h: nat)
    requires Sized(s, w, h)
    ensures Within(c, s, s, w, h)
  {
  }

  lemma SameGrid(s: Grid, t: Grid, w: nat, h: nat)
    requires Sized(s, w, h) && Sized(t, w, h) && forall i, j :: 0 <= i < w && 0 <= j < h ==> s[i][j] == t[i][j]
    ensures s == t
  {
    forall i | 0 <= i < w ensures s[i] == t[i] {
    }
  }

  /** The points are those between the given states, the last of which is
      followed by now; they and their arrays belong to repr. */
  ghost predicate Points(ps: seq<UndoPoint>, gs: seq<Grid>, now: Grid, w: nat, h: nat, repr: set<object>)
    reads repr
  {
    |ps| == |gs| && forall k :: 0 <= k < |ps| ==> PointAt(ps[k], gs[k], After(gs, now, k), w, h, repr)
  }

  /** The state after the k-th. */
  function After(gs: seq<Grid>, now: Grid, k: nat): Grid {
    if k + 1 < |gs| then gs[k + 1] else now
  }

  ghost predicate PointAt(p: UndoPoint, g: Grid, next: Grid, w: nat, h: nat, repr: set<object>)
    reads repr
  {
    p in repr && p.Arrays() <= repr && p.Saved(g, w, h) && Within(p.change, g, next, w, h) && AllClear(g)
  }

  lemma PointsPush(ps: seq<UndoPoint>, gs: seq<Grid>, now: Grid, p: UndoPoint, now': Grid, w: nat, h: nat, repr: set<object>)
    requires Points(ps, gs, now, w, h, repr) && p.Saved(now, w, h) && Within(p.change, now, now', w, h) && AllClear(now)
    ensures Points(ps + [p], gs + [now], now', w, h, repr + {p} + p.Arrays())
  {
    hide Within, UndoPoint.Saved, UndoPoint.Arrays;
    var qs, hs := ps + [p], gs + [now];
    forall k | 0 <= k < |qs|
      ensures PointAt(qs[k], hs[k], After(hs, now', k), w, h, repr + {p} + p.Arrays())
    {
      if k < |ps| {
        assert PointAt(ps[k], gs[k], After(gs, now, k), w, h, repr);
      }
    }
  }

  lemma PointsPop(ps: seq<UndoPoint>, gs: seq<Grid>, now: Grid, w: nat, h: nat, repr: set<object>)
    requires Points(ps, gs, now, w, h, repr) && ps != []
    ensures var n := |ps| - 1; Points(ps[..n], gs[..n], gs[n], w, h, repr) && PointAt(ps[n], gs[n], now, w, h, repr)
  {
    hide PointAt;
    var n := |ps| - 1;
    forall k | 0 <= k < n ensures PointAt(ps[..n][k], gs[..n][k], After(gs[..n], gs[n], k), w, h, repr) {
      assert PointAt(ps[k], gs[k], After(gs, now, k), w, h, repr);
    }
    assert PointAt(ps[n], gs[n], After(gs, now, n), w, h, repr);
  }

  lemma PointsDrop(ps: seq<UndoPoint>, gs: seq<Grid>, now: Grid, w: nat, h: nat, repr: set<object>)
    requires Points(ps, gs, now, w, h, repr) && ps != []
    ensures Points(ps[1..], gs[1..], now, w, h, repr)
  {
    hide PointAt;
    forall k | 0 <= k < |ps| - 1
      ensures PointAt(ps[1..][k], gs[1..][k], After(gs[1..], now, k), w, h, repr)
    {
      assert PointAt(ps[k + 1], gs[k + 1], After(gs, now, k + 1), w, h, repr);
    }
  }

  /** Only the last point looks at the present. */
  lemma PointsNow(ps: seq<UndoPoint>, gs: seq<Grid>, was: Grid, now: Grid, w: nat, h: nat, repr: set<object>)
    requires Points(ps, gs, was, w, h, repr) && ps != []
    requires Within(ps[|ps| - 1].change, was, now, w, h)
    ensures Points(ps, gs, now, w, h, repr)
  {
    hide Within, UndoPoint.Saved, UndoPoint.Arrays;
    forall k | 0 <= k < |ps| ensures PointAt(ps[k], gs[k], After(gs, now, k), w, h, repr) {
      assert PointAt(ps[k], gs[k], After(gs, was, k), w, h, repr);
      if k + 1 == |ps| {
        WithinOn(ps[k].change, gs[k], was, now, w, h);
      }
    }
  }

  lemma WithinOn(c: ChangeType, r: Grid, s: Grid, t: Grid, w: nat, h: nat)
    requires Within(c, r, s, w, h) && Within(c, s, t, w, h)
    ensures Within(c, r, t, w, h)
  {
  }

  /** A push of a point for the present, onto a stack that may be full. */
  lemma PointsMark(ps: seq<UndoPoint>, gs: seq<Grid>, now: Grid, p: UndoPoint, w: nat, h: nat, repr: set<object>)
    requires Points(ps, gs, now, w, h, repr) && p.Saved(now, w, h) && Sized(now, w, h) && AllClear(now)
    ensures |ps| == |gs|
    ensures Points((if |ps| >= MAX_SIZE then ps[1..] else ps) + [p], (if |gs| >= MAX_SIZE then gs[1..] else gs) + [now],
                   now, w, h, repr + {p} + p.Arrays())
  {
    hide Within, PointAt, UndoPoint.Saved, Sized;
    WithinNone(p.change, now, w, h);
    if |ps| >= MAX_SIZE {
      PointsDrop(ps, gs, now, w, h, repr);
      PointsPush(ps[1..], gs[1..], now, p, now, w, h, repr);
    } else {
      PointsPush(ps, gs, now, p, now, w, h, repr);
    }
  }

  lemma PointsMore(ps: seq<UndoPoint>, gs: seq<Grid>, now: Grid, w: nat, h: nat, repr: set<object>, repr': set<object>)
    requires Points(ps, gs, now, w, h, repr) && repr <= repr'
    ensures Points(ps, gs, now, w, h, repr')
  {
    hide Within, UndoPoint.Saved, UndoPoint.Arrays;
    forall k | 0 <= k < |ps| ensures PointAt(ps[k], gs[k], After(gs, now, k), w, h, repr') {
      assert PointAt(ps[k], gs[k], After(gs, now, k), w, h, repr);
    }
  }

  class Program {
    const map_: MapPreview
    const undoStack: ChangeStack
    const redoStack: ChangeStack
    // the states before the points
    ghost var past: seq<Grid>
    ghost var future: seq<Grid>
    // the points and their arrays
    ghost var repr: set<object>

    ghost predicate Valid()
      reads this, map_.cells, undoStack, redoStack, repr
    {
      && map_.Valid() && AllClear(map_.State()) && undoStack != redoStack && |past| + |future| <= MAX_SIZE
      && this !in repr && undoStack !in repr && redoStack !in repr && map_.cells !in repr
      && Points(undoStack.c, past, map_.State(), map_.w, map_.h, repr)
      && Points(redoStack.c, future, map_.State(), map_.w, map_.h, repr)
    }

    /** What the points stand for: a history of whole states. */
    ghost function Hist(): History<Grid>
      requires map_.Valid()
      reads this, map_.cells
    {
      History(past, map_.State(), future)
    }

    constructor (map_: MapPreview)
      requires map_.Valid() && AllClear(map_.State())
      ensures Valid() && this.map_ == map_ && Hist() == History([], map_.State(), [])
    {
      this.map_, past, future, repr := map_, [], [], {};
      undoStack := new ChangeStack();
      redoStack := new ChangeStack();
    }

    /** A point for the present goes onto a stack (lines 210-211, 221-222, 234-235). */
    method Save(stack: ChangeStack, kind: ChangeType) returns (ghost p: UndoPoint)
      requires map_.Valid()
      modifies stack
      ensures stack.c == (if |old(stack.c)| >= MAX_SIZE then old(stack.c)[1..] else old(stack.c)) + [p]
      ensures fresh(p) && fresh(p.Arrays()) && p.change == kind && p.Saved(map_.State(), map_.w, map_.h)
    {
      hide UndoPoint.Saved, Sized;
      var point := new UndoPoint();
      stack.Push(point);
      stack.Top().Init(kind, map_);
      p := point;
    }

    /** setUndoPoint, called before an edit of the given kind. */
    method SetUndoPoint(change: ChangeType)
      requires Valid()
      modifies this, undoStack, redoStack
      ensures Valid() && map_.State() == old(map_.State())
      ensures Hist() == if change == Location then old(Hist()) else old(Hist()).Mark()
      ensures change != Location ==> undoStack.c != [] && undoStack.Top().change == change && redoStack.c == []
    {
      hide Within, Points, UndoPoint.Saved, Sized;
      if change == Location {
        return;
      }
      Lengths();
      ghost var now, ps := map_.State(), undoStack.c;
      ghost var p := Save(undoStack, change);
      redoStack.Clear();
      PointsMark(ps, past, now, p, map_.w, map_.h, repr);
      past, future, repr := (if |past| >= MAX_SIZE then past[1..] else past) + [now], [], repr + {p} + p.Arrays();
      NoPoints(now);
    }

    /** One step back or forward: the present is saved to one stack with the layers
        of the other's top, and that point is written back and taken off. */
    method Step(from: ChangeStack, to: ChangeStack, ghost before: seq<Grid>, ghost after: seq<Grid>)
      requires map_.Valid() && AllClear(map_.State()) && from != to && before != [] && |after| < MAX_SIZE
      requires this !in repr && from !in repr && to !in repr && map_.cells !in repr
      requires Points(from.c, before, map_.State(), map_.w, map_.h, repr) && Points(to.c, after, map_.State(), map_.w, map_.h, repr)
      modifies map_.cells, from, to, this`repr
      ensures fresh(repr - old(repr)) && old(repr) <= repr
      ensures map_.State() == before[|before| - 1] && AllClear(map_.State())
      ensures Points(from.c, before[..|before| - 1], map_.State(), map_.w, map_.h, repr)
      ensures Points(to.c, after + [old(map_.State())], map_.State(), map_.w, map_.h, repr)
    {
      hide Within, Points, PointAt, UndoPoint.Saved;
      ghost var w, h, now, g := map_.w, map_.h, map_.State(), before[|before| - 1];
      ghost var ps, qs := from.c, to.c;
      SameLength(ps, before, now);
      SameLength(qs, after, now);
      PointsPop(ps, before, now, w, h, repr);
      ghost var p := Save(to, from.Top().change);
      TopIs(from.Top(), g, now);
      ghost var kind := from.Top().change;
      from.Top().Revert(map_, g);
      from.Pop();
      GivesBack(g, now, kind);
      WithinBack(kind, g, now, w, h);
      PointsPush(qs, after, now, p, g, w, h, repr);
      PointsMore(from.c, before[..|before| - 1], g, w, h, repr, repr + {p} + p.Arrays());
      repr := repr + {p} + p.Arrays();
    }

    lemma GivesBack(g: Grid, now: Grid, kind: ChangeType)
      requires map_.Valid() && Within(kind, g, now, map_.w, map_.h) && AllClear(g)
      requires forall i, j :: 0 <= i < map_.w && 0 <= j < map_.h ==> map_.cells[i, j] == RestoreCell(now[i][j], g[i][j], kind)
      ensures map_.State() == g
    {
      hide MergeCell, RestoreCell;
      forall i, j | 0 <= i < map_.w && 0 <= j < map_.h ensures map_.cells[i, j] == g[i][j] {
        RestoresIff(now[i][j], g[i][j], kind);
      }
      SameGrid(map_.State(), g, map_.w, map_.h);
    }

    /** undo: the map goes back to the last point, unless there is none. */
    method Undo() returns (done: bool)
      requires Valid()
      modifies this, map_.cells, undoStack, redoStack
      ensures Valid() && (done <==> old(past) != [])
      ensures Hist() == if done then old(Hist()).Undone() else old(Hist())
    {
      hide Points;
      Lengths();
      if undoStack.c == [] {
        return false;
      }
      ghost var now := map_.State();
      Step(undoStack, redoStack, past, future);
      past, future := past[..|past| - 1], future + [now];
      return true;
    }

    /** redo: and forward again. */
    method Redo() returns (done: bool)
      requires Valid()
      modifies this, map_.cells, undoStack, redoStack
      ensures Valid() && (done <==> old(future) != [])
      ensures Hist() == if done then old(Hist()).Redone() else old(Hist())
    {
      hide Points;
      Lengths();
      if redoStack.c == [] {
        return false;
      }
      ghost var now := map_.State();
      Step(redoStack, undoStack, future, past);
      past, future := past + [now], future[..|future| - 1];
      return true;
    }

    /** An edit after its point, of no more than the point's layers, changes the
        present of the history and nothing else. */
    twostate lemma EditKeeps()
      requires old(Valid()) && old(redoStack.c) == [] && old(undoStack.c) != []
      requires unchanged(this) && unchanged(undoStack) && unchanged(redoStack) && forall o :: o in repr ==> unchanged(o)
      requires Within(undoStack.Top().change, old(map_.State()), map_.State(), map_.w, map_.h) && AllClear(map_.State())
      ensures Valid() && Hist() == old(Hist()).Edited(map_.State())
    {
      hide Within, Points, PointAt;
      PointsNow(undoStack.c, past, old(map_.State()), map_.State(), map_.w, map_.h, repr);
      SameLength(redoStack.c, future, old(map_.State()));
      NoPoints(map_.State());
    }

    /** A stroke of a brush, after a point of its kind. */
    method Change(kind: ChangeType, x: int, y: int, value: int, radius: int, refAlt: int)
      requires Valid() && redoStack.c == [] && undoStack.c != [] && undoStack.Top().change == kind
      requires kind in {Height, Surface, Object_, Resource}
      modifies map_.cells
      ensures Valid() && Hist() == old(Hist()).Edited(map_.State())
      ensures Painted(map_.State(), old(map_.State()), map_.w, map_.h, x, y, radius,
                      (c: Cell, dist: nat) => Brushed(kind, c, dist, value, radius, refAlt))
    {
      hide Within, Points, PointAt, Brushed, AllClear;
      ghost var was := map_.State();
      Paint(map_, x, y, radius, (c: Cell, dist: nat) => Brushed(kind, c, dist, value, radius, refAlt));
      StrokeWithin(was, map_.State(), kind, x, y, value, radius, refAlt);
      EditKeeps();
    }

    lemma StrokeWithin(was: Grid, now: Grid, kind: ChangeType, x: int, y: int, value: int, radius: int, refAlt: int)
      requires AllClear(was)
      requires Painted(now, was, map_.w, map_.h, x, y, radius, (c: Cell, dist: nat) => Brushed(kind, c, dist, value, radius, refAlt))
      ensures Within(kind, was, now, map_.w, map_.h) && AllClear(now)
    {
      hide Brushed, InBrush, GetDist, MergeCell;
      forall i, j | 0 <= i < map_.w && 0 <= j < map_.h ensures SameBut(kind, was[i][j], now[i][j]) && Clear(now[i][j]) {
        BrushedIs(kind, was[i][j], GetDist(i - x, j - y), value, radius, refAlt);
      }
      WithinIff(kind, was, now, map_.w, map_.h);
    }

    lemma Lengths()
      requires Valid()
      ensures |undoStack.c| == |past| && |redoStack.c| == |future|
    {
    }

    lemma SameLength(ps: seq<UndoPoint>, gs: seq<Grid>, now: Grid)
      requires Points(ps, gs, now, map_.w, map_.h, repr)
      ensures |ps| == |gs|
    {
    }

    lemma TopIs(p: UndoPoint, g: Grid, now: Grid)
      requires PointAt(p, g, now, map_.w, map_.h, repr)
      ensures p in repr && p.Arrays() <= repr && p.Saved(g, map_.w, map_.h) && Within(p.change, g, now, map_.w, map_.h) && AllClear(g)
    {
    }

    lemma NoPoints(now: Grid)
      ensures Points([], [], now, map_.w, map_.h, repr)
    {
    }
  }
}
