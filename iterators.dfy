// The iterator over the two endpoints of an FEdge (namespace FEdgeInternal,
// class SVertexIterator, and FEdge's verticesBegin/verticesEnd and
// pointsBegin/pointsEnd).
//
// The iterator is a pair (vertex, edge). Incrementing moves from the first
// endpoint A to the second endpoint B and from B to the end position, NULL;
// decrementing moves from B to A and from A to NULL.

module FEdgeInternal {
  import opened Silhouette

  /** Where `increment()` moves an iterator standing at `v` on an edge whose
      endpoints are `a` and `b`. */
  function Forward(v: SVertex?, a: SVertex?, b: SVertex?): (r: SVertex?)
    ensures r == null <==> v == b || b == null
    ensures r != null ==> r == b
  {
    if v == b then null else b
  }

  /** Where `decrement()` moves an iterator standing at `v`. */
  function Backward(v: SVertex?, a: SVertex?, b: SVertex?): (r: SVertex?)
    ensures r == null <==> v == a || a == null
    ensures r != null ==> r == a
  {
    if v == a then null else a
  }

  /** `u()`: the parameter of the iterator's position along the edge. */
  function Parameter(v: SVertex?, a: SVertex?): (r: real)
    ensures r == 0.0 <==> v == a
    ensures r == 0.0 || r == 1.0
  {
    if v == a then 0.0 else 1.0
  }

  /** The positions an iterator standing at `v` goes through when it is
      incremented until it reaches the end position, `v` included. */
  ghost function ForwardWalk(v: SVertex?, a: SVertex?, b: SVertex?): seq<SVertex>
    decreases if v == null then 0 else if v == b then 1 else 2
  {
    if v == null then [] else [v] + ForwardWalk(Forward(v, a, b), a, b)
  }

  /** The positions an iterator standing at `v` goes through when it is
      decremented until it reaches the end position, `v` included. */
  ghost function BackwardWalk(v: SVertex?, a: SVertex?, b: SVertex?): seq<SVertex>
    decreases if v == null then 0 else if v == a then 1 else 2
  {
    if v == null then [] else [v] + BackwardWalk(Backward(v, a, b), a, b)
  }

  /** From `verticesBegin()`, incrementing visits A, then B, then the end;
      when both endpoints are the same vertex it visits that vertex once. */
  lemma {:induction false} WalkFromBegin(a: SVertex, b: SVertex)
    ensures ForwardWalk(a, a, b) == if a == b then [a] else [a, b]
  {
    if a != b {
      assert ForwardWalk(b, a, b) == [b] + ForwardWalk(null, a, b);
    }
  }

  /** Decrementing from B visits B, then A, then the end; decrementing from A
      reaches the end at once. */
  lemma {:induction false} WalkBackFromLast(a: SVertex, b: SVertex)
    ensures BackwardWalk(b, a, b) == if a == b then [b] else [b, a]
    ensures Backward(a, a, b) == null
  {
    if a != b {
      assert BackwardWalk(a, a, b) == [a] + BackwardWalk(null, a, b);
    }
  }

  /** On an edge with two distinct endpoints, `decrement()` undoes
      `increment()` at A and `increment()` undoes `decrement()` at B. */
  lemma StepsUndo(a: SVertex, b: SVertex)
    requires a != b
    ensures Backward(Forward(a, a, b), a, b) == a
    ensures Forward(Backward(b, a, b), a, b) == b
  {
  }

  class SVertexIterator {
    var vertex: SVertex?
    var edge: FEdge?

    /** `SVertexIterator()`: no vertex, no edge. */
    constructor Default()
      ensures vertex == null && edge == null
    {
      vertex, edge := null, null;
    }

    /** The copy constructor. */
    constructor Copy(other: SVertexIterator)
      ensures vertex == other.vertex && edge == other.edge
    {
      vertex, edge := other.vertex, other.edge;
    }

    /** `SVertexIterator(v, edge)`. */
    constructor (v: SVertex?, e: FEdge?)
      ensures vertex == v && edge == e
    {
      vertex, edge := v, e;
    }

    /** `operator=`. */
    method Assign(other: SVertexIterator)
      modifies this
      ensures vertex == old(other.vertex) && edge == old(other.edge)
    {
      vertex, edge := other.vertex, other.edge;
    }

    /** `increment()`, and `operator++`. */
    method Increment()
      requires edge != null
      modifies this`vertex
      ensures vertex == Forward(old(vertex), edge.vertexA, edge.vertexB)
    {
      if vertex == edge.vertexB {
        vertex := null;
        return;
      }
      vertex := edge.vertexB;
    }

    /** `decrement()`, and `operator--`. */
    method Decrement()
      requires edge != null
      modifies this`vertex
      ensures vertex == Backward(old(vertex), edge.vertexA, edge.vertexB)
    {
      if vertex == edge.vertexA {
        vertex := null;
        return;
      }
      vertex := edge.vertexA;
    }

    /** The postfix `operator++(int)`: the iterator moves on and a copy of
        its former position is returned. */
    method PostIncrement() returns (ret: SVertexIterator)
      requires edge != null
      modifies this`vertex
      ensures fresh(ret) && ret.vertex == old(vertex) && ret.edge == edge
      ensures vertex == Forward(old(vertex), edge.vertexA, edge.vertexB)
    {
      ret := new SVertexIterator.Copy(this);
      Increment();
    }

    /** The postfix `operator--(int)`. */
    method PostDecrement() returns (ret: SVertexIterator)
      requires edge != null
      modifies this`vertex
      ensures fresh(ret) && ret.vertex == old(vertex) && ret.edge == edge
      ensures vertex == Backward(old(vertex), edge.vertexA, edge.vertexB)
    {
      ret := new SVertexIterator.Copy(this);
      Decrement();
    }

    /** `isBegin()`: the iterator stands at A, where `u()` is 0 and from
        where decrementing reaches the end position. */
    predicate IsBegin()
      requires edge != null
      reads this, edge`vertexA
      ensures IsBegin() <==> Parameter(vertex, edge.vertexA) == 0.0
      ensures edge.vertexA != null ==> (IsBegin() <==> Backward(vertex, edge.vertexA, edge.vertexB) == null)
    {
      vertex == edge.vertexA
    }

    /** `isEnd()`: the iterator stands at B, the last vertex, from where
        incrementing reaches the end position; at that end position itself,
        the NULL that `verticesEnd()` returns, it is false. */
    predicate IsEnd()
      requires edge != null
      reads this, edge`vertexB
      ensures edge.vertexB != null ==> (IsEnd() <==> Forward(vertex, edge.vertexA, edge.vertexB) == null)
    {
      vertex == edge.vertexB
    }

    /** `u()`: 0 at A and 1 everywhere else, the end position included. */
    function U(): (r: real)
      requires edge != null
      reads this, edge`vertexA
      ensures r == 0.0 <==> vertex == edge.vertexA
      ensures r == 0.0 || r == 1.0
    {
      Parameter(vertex, edge.vertexA)
    }

    /** `operator==` against another SVertexIterator: same vertex and same edge. */
    predicate Equals(other: SVertexIterator)
      reads this, other
    {
      vertex == other.vertex && edge == other.edge
    }
  }

  /** `FEdge::verticesBegin()`: an iterator at A. */
  method VerticesBegin(e: FEdge) returns (it: SVertexIterator)
    ensures fresh(it) && it.vertex == e.vertexA && it.edge == e
  {
    it := new SVertexIterator(e.vertexA, e);
  }

  /** `FEdge::verticesEnd()`: an iterator at the end position NULL. */
  method VerticesEnd(e: FEdge) returns (it: SVertexIterator)
    ensures fresh(it) && it.vertex == null && it.edge == e
  {
    it := new SVertexIterator(null, e);
  }

  /** `FEdge::pointsBegin(t)`: `t` is ignored. */
  method PointsBegin(e: FEdge, t: real) returns (it: SVertexIterator)
    ensures fresh(it) && it.vertex == e.vertexA && it.edge == e
  {
    it := VerticesBegin(e);
  }

  /** `FEdge::pointsEnd(t)`: `t` is ignored. */
  method PointsEnd(e: FEdge, t: real) returns (it: SVertexIterator)
    ensures fresh(it) && it.vertex == null && it.edge == e
  {
    it := VerticesEnd(e);
  }
}
