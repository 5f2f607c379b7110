/** BBox<Point> of freestyle/geometry/BBox.h, instantiated at Vec3r: an
    axis-aligned box given by an empty flag and two corners.

    `Box` is the value a BBox holds; the functions on it say what each
    operation does to that value, and the class `BBox` implements the
    operations in place, the way the C++ class does, proved against them. */
module Boxes {
  import opened Geometry

  /** The state of a BBox: its empty flag and its `_min`/`_max` corners. */
  datatype Box = Box(empty: bool, lo: Point, hi: Point)

  /** The box a default-constructed BBox holds. */
  const EmptyBox: Box := Box(true, Origin, Origin)

  /** lo <= hi on every axis. */
  predicate Ordered(b: Box)
  {
    forall i :: 0 <= i < Dim ==> b.lo[i] <= b.hi[i]
  }

  /** A non-empty box is ordered. */
  predicate Valid(b: Box)
  {
    !b.empty ==> Ordered(b)
  }

  /** What `inside(p)` answers: false for an empty box, otherwise inclusive
      containment on every axis. */
  predicate Contains(b: Box, p: Point)
  {
    !b.empty && forall i :: 0 <= i < Dim ==> b.lo[i] <= p[i] <= b.hi[i]
  }

  /** `extendToContain(p)`. An empty box becomes the single point `p`; otherwise
      each axis moves its lower corner down to `p`, or else (only when the
      lower corner did not move) its upper corner up to `p`. */
  function Extended(b: Box, p: Point): Box
  {
    if b.empty then Box(false, p, p)
    else
      Box(false,
          seq(Dim, i requires 0 <= i < Dim => if p[i] < b.lo[i] then p[i] else b.lo[i]),
          seq(Dim, i requires 0 <= i < Dim =>
                if p[i] < b.lo[i] then b.hi[i] else if p[i] > b.hi[i] then p[i] else b.hi[i]))
  }

  /** `clear()`: only the flag changes. */
  function Cleared(b: Box): Box
  {
    b.(empty := true)
  }

  /** `operator=` and the converting copy constructor: the corners of `b`, and
      the result is marked non-empty whatever `b`'s flag says. */
  function Assigned(b: Box): Box
  {
    Box(false, b.lo, b.hi)
  }

  /** `operator+=`. Into an empty box, `c`'s corners are copied; otherwise every
      axis takes the smaller lower corner and the larger upper corner. The flag
      of `c` is never consulted. */
  function Merged(b: Box, c: Box): Box
  {
    if b.empty then Box(false, c.lo, c.hi)
    else
      Box(false,
          seq(Dim, i requires 0 <= i < Dim => if c.lo[i] < b.lo[i] then c.lo[i] else b.lo[i]),
          seq(Dim, i requires 0 <= i < Dim => if c.hi[i] > b.hi[i] then c.hi[i] else b.hi[i]))
  }

  /** The free `operator+`: per-axis minimum of the lower corners and maximum of
      the upper corners, marked non-empty, ignoring both operands' flags. */
  function Plus(b1: Box, b2: Box): (r: Box)
    ensures !r.empty
    ensures forall i :: 0 <= i < Dim ==>
      r.lo[i] <= b1.lo[i] && r.lo[i] <= b2.lo[i] && (r.lo[i] == b1.lo[i] || r.lo[i] == b2.lo[i])
    ensures forall i :: 0 <= i < Dim ==>
      r.hi[i] >= b1.hi[i] && r.hi[i] >= b2.hi[i] && (r.hi[i] == b1.hi[i] || r.hi[i] == b2.hi[i])
  {
    Box(false,
        seq(Dim, i requires 0 <= i < Dim => if b1.lo[i] < b2.lo[i] then b1.lo[i] else b2.lo[i]),
        seq(Dim, i requires 0 <= i < Dim => if b1.hi[i] > b2.hi[i] then b1.hi[i] else b2.hi[i]))
  }

  // ---------------------------------------------------------------------------
  // extendToContain

  /** On a valid box, extending by `p` keeps the box valid, puts `p` inside,
      keeps every point that was inside, and moves each corner only to `p`. */
  lemma ExtendedGrows(b: Box, p: Point)
    requires Valid(b)
    ensures Valid(Extended(b, p))
    ensures Contains(Extended(b, p), p)
    ensures forall q :: Contains(b, q) ==> Contains(Extended(b, p), q)
    ensures forall i :: 0 <= i < Dim ==>
      (Extended(b, p).lo[i] == b.lo[i] || Extended(b, p).lo[i] == p[i]) &&
      (Extended(b, p).hi[i] == b.hi[i] || Extended(b, p).hi[i] == p[i])
  {
  }

  /** The box after extending `b` by each point of `ps` in turn. */
  function ExtendedByAll(b: Box, ps: seq<Point>): Box
  {
    if ps == [] then b else Extended(ExtendedByAll(b, ps[..|ps| - 1]), ps[|ps| - 1])
  }

  /** Every point of `ps` lies within the corners of `b`, axis by axis. */
  predicate Bounds(b: Box, ps: seq<Point>)
  {
    forall j, i :: 0 <= j < |ps| && 0 <= i < Dim ==> b.lo[i] <= ps[j][i] <= b.hi[i]
  }

  /** Every corner coordinate of `b` is the coordinate of some point of `ps`. */
  predicate Attained(b: Box, ps: seq<Point>)
  {
    forall i :: 0 <= i < Dim ==>
      (exists j :: 0 <= j < |ps| && b.lo[i] == ps[j][i]) &&
      (exists j :: 0 <= j < |ps| && b.hi[i] == ps[j][i])
  }

  /** `b` is the smallest non-empty box around the points `ps`. */
  predicate Tight(b: Box, ps: seq<Point>)
  {
    !b.empty && Bounds(b, ps) && Attained(b, ps)
  }

  /** Extending the smallest box around some points by one more point gives
      the smallest box around all of them. */
  lemma ExtendedStaysTight(b: Box, ps: seq<Point>, p: Point)
    requires Tight(b, ps)
    ensures Tight(Extended(b, p), ps + [p])
  {
    var qs, r := ps + [p], Extended(b, p);
    assert ps != [] by {
      var j :| 0 <= j < |ps| && b.lo[0] == ps[j][0];
    }
    assert Ordered(b) by {
      forall i | 0 <= i < Dim ensures b.lo[i] <= b.hi[i] {
        assert b.lo[i] <= ps[0][i] <= b.hi[i];
      }
    }
    ExtendedGrows(b, p);
    forall j, i | 0 <= j < |qs| && 0 <= i < Dim ensures r.lo[i] <= qs[j][i] <= r.hi[i] {
      if j < |ps| {
        assert qs[j] == ps[j] && Contains(b, ps[j]);
      }
    }
    forall i | 0 <= i < Dim
      ensures (exists j :: 0 <= j < |qs| && r.lo[i] == qs[j][i]) &&
              (exists j :: 0 <= j < |qs| && r.hi[i] == qs[j][i])
    {
      var jl :| 0 <= jl < |ps| && b.lo[i] == ps[jl][i];
      var jh :| 0 <= jh < |ps| && b.hi[i] == ps[jh][i];
      assert qs[jl] == ps[jl] && qs[jh] == ps[jh] && qs[|ps|] == p;
      if r.lo[i] == b.lo[i] { assert r.lo[i] == qs[jl][i]; } else { assert r.lo[i] == qs[|ps|][i]; }
      if r.hi[i] == b.hi[i] { assert r.hi[i] == qs[jh][i]; } else { assert r.hi[i] == qs[|ps|][i]; }
    }
  }

  /** Any sequence of extendToContain calls, starting from an empty box, ends
      with the smallest box containing every point absorbed. */
  lemma {:induction false} ExtendedByAllIsTight(b: Box, ps: seq<Point>)
    requires b.empty && ps != []
    ensures Tight(ExtendedByAll(b, ps), ps)
    ensures forall j :: 0 <= j < |ps| ==> Contains(ExtendedByAll(b, ps), ps[j])
  {
    var n := |ps| - 1;
    var r := ExtendedByAll(b, ps);
    if n == 0 {
      assert r == Box(false, ps[0], ps[0]);
      forall i | 0 <= i < Dim
        ensures (exists j :: 0 <= j < |ps| && r.lo[i] == ps[j][i]) &&
                (exists j :: 0 <= j < |ps| && r.hi[i] == ps[j][i])
      {
        assert r.lo[i] == ps[0][i] && r.hi[i] == ps[0][i];
      }
    } else {
      ExtendedByAllIsTight(b, ps[..n]);
      ExtendedStaysTight(ExtendedByAll(b, ps[..n]), ps[..n], ps[n]);
      assert ps[..n] + [ps[n]] == ps;
    }
  }

  /** The smallest box around a set of points is unique: two tight boxes for the
      same points are the same box. */
  lemma TightIsUnique(b: Box, c: Box, ps: seq<Point>)
    requires Tight(b, ps) && Tight(c, ps)
    ensures b == c
  {
    forall i | 0 <= i < Dim ensures b.lo[i] == c.lo[i] && b.hi[i] == c.hi[i] {
      var j1 :| 0 <= j1 < |ps| && b.lo[i] == ps[j1][i];
      var j2 :| 0 <= j2 < |ps| && c.lo[i] == ps[j2][i];
      var j3 :| 0 <= j3 < |ps| && b.hi[i] == ps[j3][i];
      var j4 :| 0 <= j4 < |ps| && c.hi[i] == ps[j4][i];
      assert c.lo[i] <= ps[j1][i] && b.lo[i] <= ps[j2][i];
      assert c.hi[i] >= ps[j3][i] && b.hi[i] >= ps[j4][i];
    }
    assert b.lo == c.lo && b.hi == c.hi;
  }

  /** Example: empty, then (1,2,3), then (0,5,3)
      gives min (0,2,3) and max (1,5,3). */
  lemma ExtendExample()
    ensures Extended(Extended(EmptyBox, [1.0, 2.0, 3.0]), [0.0, 5.0, 3.0])
         == Box(false, [0.0, 2.0, 3.0], [1.0, 5.0, 3.0])
  {
    var b := Extended(Extended(EmptyBox, [1.0, 2.0, 3.0]), [0.0, 5.0, 3.0]);
    assert b.lo == [0.0, 2.0, 3.0] && b.hi == [1.0, 5.0, 3.0];
  }

  // ---------------------------------------------------------------------------
  // operator+= and operator+

  /** `+=` on a valid non-empty box never shrinks it, and also takes in every
      point inside the other box; the result is valid whatever the other box. */
  lemma MergedGrows(b: Box, c: Box)
    requires Valid(b) && !b.empty
    ensures Valid(Merged(b, c))
    ensures forall q :: Contains(b, q) ==> Contains(Merged(b, c), q)
    ensures forall q :: Contains(c, q) ==> Contains(Merged(b, c), q)
  {
  }

  /** On two non-empty boxes `+=` is commutative. */
  lemma MergedCommutes(b: Box, c: Box)
    requires !b.empty && !c.empty
    ensures Merged(b, c) == Merged(c, b)
  {
    var m, n := Merged(b, c), Merged(c, b);
    assert forall i :: 0 <= i < Dim ==> m.lo[i] == n.lo[i] && m.hi[i] == n.hi[i];
    assert m.lo == n.lo && m.hi == n.hi;
  }

  /** On non-empty boxes `+=` is associative. */
  lemma MergedAssociates(a: Box, b: Box, c: Box)
    requires !a.empty && !b.empty && !c.empty
    ensures Merged(Merged(a, b), c) == Merged(a, Merged(b, c))
  {
    var m, n := Merged(Merged(a, b), c), Merged(a, Merged(b, c));
    assert forall i :: 0 <= i < Dim ==> m.lo[i] == n.lo[i] && m.hi[i] == n.hi[i];
    assert m.lo == n.lo && m.hi == n.hi;
  }

  /** With a non-empty left operand, the free `operator+` computes what `+=`
      computes. */
  lemma PlusIsMergedWhenNonEmpty(b: Box, c: Box)
    requires !b.empty
    ensures Plus(b, c) == Merged(b, c)
  {
    var m, n := Plus(b, c), Merged(b, c);
    assert forall i :: 0 <= i < Dim ==> m.lo[i] == n.lo[i] && m.hi[i] == n.hi[i];
    assert m.lo == n.lo && m.hi == n.hi;
  }

  /** With an empty left operand the two disagree: `+=` takes the other box's
      corners, while `operator+` also folds in the empty box's stale corners. */
  lemma PlusIgnoresEmptiness()
    ensures Plus(EmptyBox, Box(false, [1.0, 1.0, 1.0], [2.0, 2.0, 2.0]))
         != Merged(EmptyBox, Box(false, [1.0, 1.0, 1.0], [2.0, 2.0, 2.0]))
  {
    assert Plus(EmptyBox, Box(false, [1.0, 1.0, 1.0], [2.0, 2.0, 2.0])).lo[0] == 0.0;
  }

  /** `+=` does not look at the other box's flag either: an empty right operand
      still widens a non-empty box to its stale corners. */
  lemma MergedWithEmptyWidens()
    ensures Merged(Box(false, [1.0, 1.0, 1.0], [2.0, 2.0, 2.0]), EmptyBox).lo == Origin
  {
  }

  // ---------------------------------------------------------------------------
  // The class

  /** BBox<Vec3r>. */
  class BBox {
    var empty: bool
    var lo: Point
    var hi: Point

    /** The value this box holds. */
    function Value(): Box
      reads this
    {
      Box(empty, lo, hi)
    }

    /** `BBox()`: an empty box; the corners are default Vec3r values. */
    constructor ()
      ensures Value() == EmptyBox
    {
      empty, lo, hi := true, Origin, Origin;
    }

    /** `BBox(min, max)`: a non-empty box with the given corners, unchecked. */
    constructor FromCorners(minIn: Point, maxIn: Point)
      ensures Value() == Box(false, minIn, maxIn)
    {
      empty, lo, hi := false, minIn, maxIn;
    }

    /** The converting copy constructor `BBox(const BBox<T>&)`. */
    constructor CopyOf(b: BBox)
      ensures Value() == Assigned(b.Value())
    {
      lo, hi, empty := b.lo, b.hi, false;
    }

    method ExtendToContain(p: Point)
      modifies this
      ensures Value() == Extended(old(Value()), p)
    {
      if empty {
        lo, hi, empty := p, p, false;
        return;
      }
      ghost var want := Extended(old(Value()), p);
      var i := 0;
      while i < Dim
        invariant 0 <= i <= Dim
        invariant !empty
        invariant forall j :: 0 <= j < i ==> lo[j] == want.lo[j] && hi[j] == want.hi[j]
        invariant forall j :: i <= j < Dim ==> lo[j] == old(lo[j]) && hi[j] == old(hi[j])
      {
        if p[i] < lo[i] {
          lo := lo[i := p[i]];
        } else if p[i] > hi[i] {
          hi := hi[i := p[i]];
        }
        i := i + 1;
      }
      empty := false;
      assert lo == want.lo && hi == want.hi;
    }

    method Clear()
      modifies this`empty
      ensures Value() == Cleared(old(Value()))
    {
      empty := true;
    }

    /** `operator=`. */
    method Assign(b: BBox)
      modifies this
      ensures Value() == Assigned(old(b.Value()))
    {
      lo, hi, empty := b.lo, b.hi, false;
    }

    /** `operator+=`. Axis i of `b` is read before axis i of this box is
        written, so `b` may be this box itself. */
    method MergeWith(b: BBox)
      modifies this
      ensures Value() == Merged(old(Value()), old(b.Value()))
    {
      if empty {
        lo, hi, empty := b.lo, b.hi, false;
        return;
      }
      ghost var want := Merged(old(Value()), old(b.Value()));
      var bLo, bHi := b.lo, b.hi;
      var i := 0;
      while i < Dim
        invariant 0 <= i <= Dim
        invariant !empty
        invariant forall j :: 0 <= j < i ==> lo[j] == want.lo[j] && hi[j] == want.hi[j]
        invariant forall j :: i <= j < Dim ==> lo[j] == old(lo[j]) && hi[j] == old(hi[j])
      {
        if bLo[i] < lo[i] {
          lo := lo[i := bLo[i]];
        }
        if bHi[i] > hi[i] {
          hi := hi[i := bHi[i]];
        }
        i := i + 1;
      }
      assert lo == want.lo && hi == want.hi;
    }

    /** `inside(p)`. */
    method Inside(p: Point) returns (r: bool)
      ensures r == Contains(Value(), p)
    {
      if empty {
        return false;
      }
      var i := 0;
      while i < Dim
        invariant 0 <= i <= Dim
        invariant forall j :: 0 <= j < i ==> lo[j] <= p[j] <= hi[j]
      {
        if lo[i] > p[i] || hi[i] < p[i] {
          return false;
        }
        i := i + 1;
      }
      return true;
    }
  }
}
