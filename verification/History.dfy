/** What undo and redo mean: a cursor on the list of the map's states, of which
    only the last ones before the cursor are remembered. */
module History {
  /** The points kept at most, in both directions together. */
  const MAX_SIZE := 100

  /** The states before the present one, oldest first, and those undone, the one
      undone last at the end. */
  datatype History<T> = History(past: seq<T>, present: T, future: seq<T>) {

    predicate Bounded() { |past| + |future| <= MAX_SIZE }

    /** A new point: the present is remembered, and what was undone is forgotten. */
    function Mark(): (h: History<T>)
      ensures h.Bounded() || |past| > MAX_SIZE
    {
      History((if |past| >= MAX_SIZE then past[1..] else past) + [present], present, [])
    }

    function Edited(now: T): History<T> { History(past, now, future) }

    function Undone(): History<T>
      requires past != []
    {
      History(past[..|past| - 1], past[|past| - 1], future + [present])
    }

    function Redone(): History<T>
      requires future != []
    {
      History(past + [present], future[|future| - 1], future[..|future| - 1])
    }

    /** All states on record, in the order of time. */
    function Timeline(): (t: seq<T>)
      ensures |t| == |past| + 1 + |future|
    {
      past + [present] + Reversed(future)
    }
  }

  function Reversed<T>(s: seq<T>): (r: seq<T>)
    ensures |r| == |s|
    ensures forall k :: 0 <= k < |s| ==> r[k] == s[|s| - 1 - k]
  {
    seq(|s|, k requires 0 <= k < |s| => s[|s| - 1 - k])
  }

  /** Undoing moves the cursor back by one on an unchanged list. */
  lemma UndoIsBack<T>(h: History<T>)
    requires h.past != []
    ensures h.Undone().Timeline() == h.Timeline() && |h.Undone().past| == |h.past| - 1
    ensures h.Bounded() ==> h.Undone().Bounded()
    ensures h.Undone().future != [] && h.Undone().Redone() == h
  {
    var u := h.Undone();
    assert h.past == u.past + [u.present];
    assert Reversed(u.future) == [h.present] + Reversed(h.future);
    assert u.future[..|u.future| - 1] == h.future;
  }

  /** Redoing moves it forward by one. */
  lemma RedoIsForward<T>(h: History<T>)
    requires h.future != []
    ensures h.Redone().Timeline() == h.Timeline() && |h.Redone().past| == |h.past| + 1
    ensures h.Bounded() ==> h.Redone().Bounded()
    ensures h.Redone().past != [] && h.Redone().Undone() == h
  {
    var r := h.Redone();
    assert h.future == r.future + [r.present];
    assert Reversed(h.future) == [r.present] + Reversed(r.future);
    assert r.past[..|r.past| - 1] == h.past;
  }

  /** A point, any edits, and an undo: everything is as it was, but that a full past
      lost its oldest state and that the edit can be redone. */
  lemma UndoTakesBack<T>(h: History<T>, now: T)
    ensures var u := h.Mark().Edited(now).Undone();
      u.present == h.present && u.future == [now] && u.past == if |h.past| >= MAX_SIZE then h.past[1..] else h.past
    ensures h.Mark().Edited(now).Undone().Redone() == h.Mark().Edited(now)
  {
  }

  /** The present is what the timeline has at the cursor. */
  lemma CursorIsPresent<T>(h: History<T>)
    ensures h.Timeline()[|h.past|] == h.present
  {
  }

  function Undos<T>(h: History<T>, n: nat): (r: History<T>)
    requires n <= |h.past|
    ensures |r.past| == |h.past| - n && |r.future| == |h.future| + n
    decreases n
  {
    if n == 0 then h else Undos(h.Undone(), n - 1)
  }

  function Redos<T>(h: History<T>, n: nat): (r: History<T>)
    requires n <= |h.future|
    ensures |r.future| == |h.future| - n && |r.past| == |h.past| + n
    decreases n
  {
    if n == 0 then h else Redos(h.Redone(), n - 1)
  }

  /** Any number of undos brings back the state of that many points ago, and as
      many redos lead forward again to exactly where one was. */
  lemma {:induction false} UndosAndRedos<T>(h: History<T>, n: nat)
    requires n <= |h.past|
    ensures Undos(h, n).present == h.Timeline()[|h.past| - n]
    ensures Redos(Undos(h, n), n) == h
    decreases n
  {
    CursorIsPresent(h);
    if n > 0 {
      UndoIsBack(h);
      UndosAndRedos(h.Undone(), n - 1);
      RedosSplit(Undos(h, n), n - 1);
    }
  }

  lemma {:induction false} RedosSplit<T>(h: History<T>, n: nat)
    requires n + 1 <= |h.future|
    ensures Redos(h, n).future != [] && Redos(h, n + 1) == Redos(h, n).Redone()
    decreases n
  {
    if n > 0 {
      RedosSplit(h.Redone(), n - 1);
    }
  }

  /** The bounded history is the end of the unbounded one. */
  predicate EndOf<T(==)>(h: History<T>, full: History<T>) {
    && |h.past| <= |full.past| && h.past == full.past[|full.past| - |h.past|..]
    && h.present == full.present && h.future == full.future
  }

  function MarkAll<T>(full: History<T>): History<T> { History(full.past + [full.present], full.present, []) }

  /** Whatever is done, what is remembered is the end of what a history without a
      bound would have: and a point is dropped only when there are as many. */
  lemma EndsStay<T>(h: History<T>, full: History<T>, now: T)
    requires EndOf(h, full) && h.Bounded()
    ensures EndOf(h.Mark(), MarkAll(full)) && h.Mark().Bounded()
    ensures |h.Mark().past| == if |h.past| < 100 then |h.past| + 1 else 100
    ensures EndOf(h.Edited(now), full.Edited(now))
    ensures h.past != [] ==> full.past != [] && EndOf(h.Undone(), full.Undone())
    ensures h.future != [] ==> EndOf(h.Redone(), full.Redone())
  {
    EndStays(h.past, full.past, h.present);
    EndShrinks(h.past, full.past);
  }

  lemma EndShrinks<T>(s: seq<T>, t: seq<T>)
    requires |s| <= |t| && s == t[|t| - |s|..]
    ensures s != [] ==> t != [] && t[..|t| - 1][|t| - |s|..] == s[..|s| - 1] && t[|t| - 1] == s[|s| - 1]
  {
    if s != [] {
      var x, y := t[..|t| - 1][|t| - |s|..], s[..|s| - 1];
      assert |x| == |y|;
      assert forall k :: 0 <= k < |x| ==> x[k] == y[k];
    }
  }

  lemma EndStays<T>(s: seq<T>, t: seq<T>, x: T)
    requires |s| <= |t| && s == t[|t| - |s|..]
    ensures (t + [x])[|t| - |s|..] == s + [x]
    ensures s != [] ==> (t + [x])[|t| + 1 - |s|..] == s[1..] + [x]
  {
    if s != [] {
      assert t[|t| + 1 - |s|..] == s[1..];
    }
  }
}
