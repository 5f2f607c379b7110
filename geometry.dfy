/** Points of the view map: Vec3r values, three real coordinates. Both the 3D
    position and the projected "2D" position of an SVertex are Vec3r. */
module Geometry {

  const Dim: nat := 3

  /** A Vec3r. Coordinates are only assigned and compared in this model. */
  type Point = p: seq<real> | |p| == Dim witness [0.0, 0.0, 0.0]

  /** The value of a default-constructed Vec3r. */
  const Origin: Point := [0.0, 0.0, 0.0]

  /** Vec3r's operator<: lexicographic comparison, coordinate by coordinate;
      equal vectors are not less than each other. */
  predicate LexLess(p: seq<real>, q: seq<real>)
    requires |p| == |q|
  {
    |p| > 0 && (p[0] < q[0] || (p[0] == q[0] && LexLess(p[1..], q[1..])))
  }

  lemma {:induction false} LexLessIrreflexive(p: seq<real>)
    ensures !LexLess(p, p)
  {
    if |p| > 0 {
      LexLessIrreflexive(p[1..]);
    }
  }

  lemma {:induction false} LexLessAsymmetric(p: seq<real>, q: seq<real>)
    requires |p| == |q|
    ensures LexLess(p, q) ==> !LexLess(q, p)
  {
    if |p| > 0 && p[0] == q[0] {
      LexLessAsymmetric(p[1..], q[1..]);
    }
  }

  lemma {:induction false} LexLessTransitive(p: seq<real>, q: seq<real>, r: seq<real>)
    requires |p| == |q| == |r|
    requires LexLess(p, q) && LexLess(q, r)
    ensures LexLess(p, r)
  {
    if p[0] == q[0] && q[0] == r[0] {
      LexLessTransitive(p[1..], q[1..], r[1..]);
    }
  }

  /** Any two distinct vectors are ordered one way or the other. */
  lemma {:induction false} LexLessTotal(p: seq<real>, q: seq<real>)
    requires |p| == |q|
    ensures p == q || LexLess(p, q) || LexLess(q, p)
  {
    if |p| > 0 && p[0] == q[0] {
      LexLessTotal(p[1..], q[1..]);
      if p[1..] == q[1..] {
        assert p == [p[0]] + p[1..] && q == [q[0]] + q[1..];
      }
    }
  }
}
