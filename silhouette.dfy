/** The feature-edge graph of freestyle/view_map/Silhouette.h: SVertex, the
    FEdge family (FEdge, FEdgeSharp, FEdgeSmooth, FEdgeIntersection) and
    SShape. The three classes refer to one another through pointers, so they
    live in one module; the C++ raw pointers are Dafny references, nullable
    where the C++ code stores or tests NULL. */
module Silhouette {
  import opened Geometry
  import opened Boxes
  import opened Seqs

  /** Identifier of a vertex, an edge or a shape. */
  type Id = nat

  /** Nature::EdgeNature, a bit set of feature kinds; 0 is NO_FEATURE. */
  type EdgeNature = nat
  const NoFeature: EdgeNature := 0

  /** A pointer to an object outside this model (WEdge, WFace, WVertex,
      ViewVertex, ViewEdge, ViewShape): copied and compared, never followed.
      0 stands for NULL. */
  type ExternalRef = nat
  const NullRef: ExternalRef := 0

  /** Opaque payloads the copy constructors duplicate by value. */
  datatype CurvatureInfo = CurvatureInfo(payload: seq<real>)
  datatype Material = Material(payload: seq<real>)

  datatype Option<T> = None | Some(value: T)

  /** Exception::raiseException, as raised by SVertex::normal(). */
  datatype Error = AmbiguousNormal
  datatype Result<T> = Ok(value: T) | Err(error: Error)

  /** The element of a one-element set. */
  function TheElement<T>(s: set<T>): (x: T)
    requires |s| == 1
    ensures s == {x}
  {
    var x :| x in s;
    assert |s - {x}| == 0;
    x
  }

  // ---------------------------------------------------------------------------
  // The FEdge family as one tagged class

  /** Which C++ class an FEdge was built as. */
  datatype Variant = PlainEdge | SharpEdge | SmoothEdge | IntersectionEdge

  /** The variant-specific fields. FEdgeIntersection derives from FEdgeSmooth
      and so carries FEdgeSmooth's fields as well as its two faces. */
  datatype EdgeKind =
    | Plain
    | Sharp(aNormal: Point, bNormal: Point, aMaterialIndex: nat, bMaterialIndex: nat, meshEdge: ExternalRef)
    | Smooth(normal: Point, materialIndex: nat, face: ExternalRef)
    | Intersection(normal: Point, materialIndex: nat, face: ExternalRef, face1: ExternalRef, face2: ExternalRef)

  /** The variant fields as the (vA, vB) constructors leave them: material
      indices 0, every face or mesh-edge pointer NULL, normals default Vec3r. */
  function InitialKind(v: Variant): EdgeKind
  {
    match v
    case PlainEdge => Plain
    case SharpEdge => Sharp(Origin, Origin, 0, 0, NullRef)
    case SmoothEdge => Smooth(Origin, 0, NullRef)
    case IntersectionEdge => Intersection(Origin, 0, NullRef, NullRef, NullRef)
  }

  /** `_isSmooth` after a (vA, vB) constructor: FEdge and FEdgeSharp set it
      false, FEdgeSmooth sets it true, and FEdgeIntersection inherits that. */
  function SmoothWhenBuilt(v: Variant): bool
  {
    v == SmoothEdge || v == IntersectionEdge
  }

  /** `_isSmooth` after a copy constructor: FEdge and FEdgeSharp copy the flag,
      FEdgeSmooth forces it true, FEdgeIntersection forces it false. */
  function SmoothWhenDuplicated(k: EdgeKind, flag: bool): bool
  {
    match k
    case Plain => flag
    case Sharp(_, _, _, _, _) => flag
    case Smooth(_, _, _) => true
    case Intersection(_, _, _, _, _) => false
  }

  /** The one asymmetry between building and copying: an FEdgeIntersection is
      smooth when built and not smooth once copied; every other variant copies
      what it was built with. */
  lemma IntersectionSmoothness()
    ensures SmoothWhenBuilt(IntersectionEdge)
    ensures !SmoothWhenDuplicated(InitialKind(IntersectionEdge), SmoothWhenBuilt(IntersectionEdge))
    ensures forall v :: v != IntersectionEdge ==>
      SmoothWhenDuplicated(InitialKind(v), SmoothWhenBuilt(v)) == SmoothWhenBuilt(v)
  {
  }

  // ---------------------------------------------------------------------------
  // SVertex

  class SVertex {
    const id: Id
    const point3D: Point
    var point2D: Point
    /** A std::set: inserting a normal already present changes nothing. */
    var normals: set<Point>
    /** The edges containing this vertex, in insertion order. */
    var fedges: seq<FEdge?>
    var shape: SShape?
    const viewVertex: ExternalRef
    /** The owned CurvatureInfo, deep-copied by the copy constructor. */
    const curvature: Option<CurvatureInfo>
    const poProjected: bool
    const sourceEdge: ExternalRef
    const sourceVertex: ExternalRef
    /** The public user-data slot; the copy constructor stores the clone here. */
    var userdata: SVertex?

    /** `SVertex(iPoint3D, id)`. */
    constructor (p3: Point, vid: Id)
      ensures id == vid && point3D == p3 && point2D == Origin
      ensures normals == {} && fedges == [] && shape == null && userdata == null
      ensures viewVertex == NullRef && curvature == None && !poProjected
      ensures sourceEdge == NullRef && sourceVertex == NullRef
    {
      id, point3D, point2D := vid, p3, Origin;
      normals, fedges, shape, userdata := {}, [], null, null;
      viewVertex, curvature, poProjected := NullRef, None, false;
      sourceEdge, sourceVertex := NullRef, NullRef;
    }

    /** The copy constructor `SVertex(SVertex& iBrother)`. The edge list and the
        shape are the brother's, unmapped; the brother's user data now points at
        the copy. */
    constructor Copy(brother: SVertex)
      modifies brother`userdata
      ensures CopiesVertexData(this, brother)
      ensures fedges == brother.fedges && shape == brother.shape
      ensures userdata == null && brother.userdata == this
    {
      id, point3D, point2D := brother.id, brother.point3D, brother.point2D;
      normals, fedges, shape := brother.normals, brother.fedges, brother.shape;
      viewVertex, curvature, poProjected := brother.viewVertex, brother.curvature, brother.poProjected;
      sourceEdge, sourceVertex := brother.sourceEdge, brother.sourceVertex;
      userdata := null;
      new;
      brother.userdata := this;
    }

    /** `normalsSize()`: the number of distinct normals. */
    function NormalsSize(): (n: nat)
      reads this`normals
      ensures n == 0 <==> normals == {}
      ensures forall m :: m in normals ==> n >= 1
    {
      |normals|
    }

    method AddNormal(n: Point)
      modifies this`normals
      ensures normals == old(normals) + {n}
    {
      normals := normals + {n};
    }

    /** `normal()`: the single normal when there is exactly one, and an
        AmbiguousNormal failure otherwise. */
    function Normal(): (r: Result<Point>)
      reads this`normals
      ensures r.Ok? <==> NormalsSize() == 1
      ensures r.Ok? ==> normals == {r.value}
    {
      if |normals| == 1 then Ok(TheElement(normals)) else Err(AmbiguousNormal)
    }

    method AddFEdge(e: FEdge?)
      modifies this`fedges
      ensures fedges == old(fedges) + [e]
    {
      fedges := fedges + [e];
    }

    /** `Replace(e1, e2)`: insert e2 before the first e1, then erase that e1. */
    method Replace(e1: FEdge?, e2: FEdge?)
      modifies this`fedges
      ensures fedges == ReplaceFirst(old(fedges), e1, e2)
    {
      ReplaceFirstAt(fedges, e1, e2);
      var i := Find(fedges, e1);
      if i < |fedges| {
        fedges := fedges[..i] + [e2] + fedges[i..];
        fedges := fedges[..i + 1] + fedges[i + 2..];
      }
    }
  }

  /** Adding a normal is idempotent: the set and its size change only when the
      normal is new, and then the size grows by one. */
  lemma AddNormalIsSetInsertion(normals: set<Point>, n: Point)
    ensures n in normals ==> normals + {n} == normals
    ensures |normals + {n}| == if n in normals then |normals| else |normals| + 1
  {
    if n !in normals {
      assert normals + {n} - {n} == normals;
    }
  }

  /** The identity-independent data a vertex copy takes over from its brother. */
  ghost predicate CopiesVertexData(c: SVertex, o: SVertex)
    reads c`point2D, c`normals, o`point2D, o`normals
  {
    && c.id == o.id && c.point3D == o.point3D && c.point2D == o.point2D
    && c.normals == o.normals && c.viewVertex == o.viewVertex && c.curvature == o.curvature
    && c.poProjected == o.poProjected && c.sourceEdge == o.sourceEdge
    && c.sourceVertex == o.sourceVertex
  }

  // ---------------------------------------------------------------------------
  // FEdge

  class FEdge {
    const kind: EdgeKind
    var vertexA: SVertex?
    var vertexB: SVertex?
    const id: Id
    const nature: EdgeNature
    /** The chain links; NULL at the ends of a chain. */
    var nextEdge: FEdge?
    var previousEdge: FEdge?
    const viewEdge: ExternalRef
    /** The occluded face, a Polygon3r, kept as its vertex list. */
    const aFace: seq<Point>
    const occludeeIntersection: Point
    const occludeeEmpty: bool
    const isSmooth: bool
    const visSource: ExternalRef
    /** The public user-data slot; the copy constructor stores the clone here. */
    var userdata: FEdge?

    /** `FEdge(vA, vB)`, `FEdgeSharp(vA, vB)`, `FEdgeSmooth(vA, vB)` and
        `FEdgeIntersection(vA, vB)`, chosen by `variant`. */
    constructor (variant: Variant, vA: SVertex?, vB: SVertex?)
      ensures kind == InitialKind(variant) && isSmooth == SmoothWhenBuilt(variant)
      ensures vertexA == vA && vertexB == vB && id == 0 && nature == NoFeature
      ensures nextEdge == null && previousEdge == null && viewEdge == NullRef
      ensures aFace == [] && occludeeIntersection == Origin && occludeeEmpty
      ensures visSource == NullRef && userdata == null
    {
      kind, isSmooth := InitialKind(variant), SmoothWhenBuilt(variant);
      vertexA, vertexB, id, nature := vA, vB, 0, NoFeature;
      nextEdge, previousEdge, viewEdge := null, null, NullRef;
      aFace, occludeeIntersection, occludeeEmpty := [], Origin, true;
      visSource, userdata := NullRef, null;
    }

    /** `dupplicate()`: the copy constructor of the edge's own class. The
        endpoints and chain links are the brother's, unmapped, and the
        brother's user data now points at the copy. */
    constructor Duplicate(brother: FEdge)
      modifies brother`userdata
      ensures CopiesEdgeData(this, brother)
      ensures vertexA == brother.vertexA && vertexB == brother.vertexB
      ensures nextEdge == brother.nextEdge && previousEdge == brother.previousEdge
      ensures userdata == null && brother.userdata == this
    {
      kind := brother.kind;
      vertexA, vertexB := brother.vertexA, brother.vertexB;
      nextEdge, previousEdge := brother.nextEdge, brother.previousEdge;
      nature, id, viewEdge := brother.nature, brother.id, brother.viewEdge;
      aFace, occludeeEmpty := brother.aFace, brother.occludeeEmpty;
      isSmooth := SmoothWhenDuplicated(brother.kind, brother.isSmooth);
      occludeeIntersection := Origin;
      visSource, userdata := brother.visSource, null;
      new;
      brother.userdata := this;
    }

    /** `operator[](i)`: vertex A for even i, vertex B for odd i. */
    function Endpoint(i: nat): (r: SVertex?)
      reads this`vertexA, this`vertexB
      requires i < 0x1_0000
      ensures r == vertexA || r == vertexB
      ensures i % 2 == 0 ==> r == vertexA
      ensures i % 2 == 1 ==> r == vertexB
    {
      if i % 2 == 0 then vertexA else vertexB
    }

    /** `getLength2D()`: 0 when an endpoint is missing, otherwise the norm of
        the 2D difference; the norm itself is given as `norm`. */
    function Length2D(norm: (real, real) -> real): (r: real)
      reads this`vertexA, this`vertexB, vertexA, vertexB
      ensures vertexA == null || vertexB == null ==> r == 0.0
      ensures vertexA != null && vertexB != null ==>
        r == norm(vertexB.point2D[0] - vertexA.point2D[0], vertexB.point2D[1] - vertexA.point2D[1])
    {
      if vertexA == null || vertexB == null then 0.0
      else norm(vertexB.point2D[0] - vertexA.point2D[0], vertexB.point2D[1] - vertexA.point2D[1])
    }

    /** `min2d()`: the endpoint whose 2D point comes first in Vec3r order. */
    function Min2d(): (r: SVertex)
      reads this`vertexA, this`vertexB, vertexA, vertexB
      requires vertexA != null && vertexB != null
      ensures r == vertexA || r == vertexB
      ensures !LexLess(OtherEnd(r).point2D, r.point2D)
      ensures r == vertexA && vertexA != vertexB ==> LexLess(vertexA.point2D, vertexB.point2D)
    {
      if LexLess(vertexA.point2D, vertexB.point2D) then
        LexLessAsymmetric(vertexA.point2D, vertexB.point2D);
        vertexA
      else vertexB
    }

    /** `max2d()`: the endpoint that `min2d()` does not return. */
    function Max2d(): (r: SVertex)
      reads this`vertexA, this`vertexB, vertexA, vertexB
      requires vertexA != null && vertexB != null
      ensures r == OtherEnd(Min2d())
    {
      if LexLess(vertexA.point2D, vertexB.point2D) then vertexB else vertexA
    }

    /** The endpoint opposite `v`. */
    function OtherEnd(v: SVertex): (r: SVertex)
      reads this`vertexA, this`vertexB
      requires vertexA != null && vertexB != null
      requires v == vertexA || v == vertexB
    {
      if v == vertexA then vertexB else vertexA
    }

    /** `FEdge::CommonVertex(iEdge1, iEdge2)`. */
    static function CommonVertex(e1: FEdge?, e2: FEdge?): (r: SVertex?)
      reads e1, e2
      ensures e1 == null || e2 == null ==> r == null
      ensures r != null ==> e1 != null && e2 != null && IsEndpoint(r, e1) && IsEndpoint(r, e2)
      ensures e1 != null && e2 != null && e1.vertexA != null && IsEndpoint(e1.vertexA, e2) ==> r == e1.vertexA
      ensures e1 != null && e2 != null && e1.vertexA != null && e1.vertexB != null ==>
        (r == null <==> !IsEndpoint(e1.vertexA, e2) && !IsEndpoint(e1.vertexB, e2))
    {
      if e1 == null || e2 == null then null
      else
        var sv1, sv2, sv3, sv4 := e1.vertexA, e1.vertexB, e2.vertexA, e2.vertexB;
        if sv1 == sv3 || sv1 == sv4 then sv1
        else if sv2 == sv3 || sv2 == sv4 then sv2
        else null
    }
  }

  /** `v` is one of the endpoints of `e`. */
  predicate IsEndpoint(v: SVertex?, e: FEdge)
    reads e`vertexA, e`vertexB
  {
    v == e.vertexA || v == e.vertexB
  }

  /** When two edges share exactly one endpoint, CommonVertex finds it whichever
      edge is passed first. */
  lemma CommonVertexSymmetric(e1: FEdge, e2: FEdge, v: SVertex)
    requires e1.vertexA != null && e1.vertexB != null && e2.vertexA != null && e2.vertexB != null
    requires IsEndpoint(v, e1) && IsEndpoint(v, e2)
    requires forall w: SVertex :: IsEndpoint(w, e1) && IsEndpoint(w, e2) ==> w == v
    ensures FEdge.CommonVertex(e1, e2) == v && FEdge.CommonVertex(e2, e1) == v
  {
  }

  /** min2d and max2d are the two endpoints in complementary order: the first's
      2D point does not come after the second's, and when the endpoints are two
      distinct vertices the pair is {A, B}, with min2d == A iff A's 2D point is
      the smaller. With equal 2D points, min2d is B and max2d is A. */
  lemma Min2dMax2dComplementary(e: FEdge)
    requires e.vertexA != null && e.vertexB != null
    ensures !LexLess(e.Max2d().point2D, e.Min2d().point2D)
    ensures e.vertexA != e.vertexB ==> e.Min2d() != e.Max2d()
    ensures e.vertexA != e.vertexB ==>
      (e.Min2d() == e.vertexA <==> LexLess(e.vertexA.point2D, e.vertexB.point2D))
    ensures e.vertexA.point2D == e.vertexB.point2D ==> e.Min2d() == e.vertexB && e.Max2d() == e.vertexA
  {
    LexLessIrreflexive(e.vertexA.point2D);
  }

  /** `operator[]` depends only on the parity of its argument. */
  lemma EndpointParity(e: FEdge, i: nat)
    requires i + 2 < 0x1_0000
    ensures e.Endpoint(i) == e.Endpoint(i + 2)
    ensures e.Endpoint(i) == e.Endpoint(i % 2)
  {
  }

  /** The data a copy of an edge takes over from its brother: everything but the
      endpoints, the chain links and the user data, except that the occludee
      intersection point is not copied and the smooth flag follows the rule of
      the edge's class. */
  ghost predicate CopiesEdgeData(c: FEdge, o: FEdge)
  {
    && c.kind == o.kind && c.id == o.id && c.nature == o.nature && c.viewEdge == o.viewEdge
    && c.aFace == o.aFace && c.occludeeEmpty == o.occludeeEmpty && c.visSource == o.visSource
    && c.isSmooth == SmoothWhenDuplicated(o.kind, o.isSmooth)
    && c.occludeeIntersection == Origin
  }

  /** `r` lists the edges that the user data of the edges of `fs` points at,
      in order: what the SShape copy constructor puts in place of `fs`. */
  ghost predicate ImagesOf(r: seq<FEdge?>, fs: seq<FEdge?>)
    requires null !in fs
    reads fs`userdata
  {
    |r| == |fs| && forall j :: 0 <= j < |fs| ==> r[j] == fs[j].userdata
  }

  /** The remapping loop of the SShape copy constructor: it follows each
      edge's `userdata` in turn. */
  method MapThroughUserData(fs: seq<FEdge?>) returns (r: seq<FEdge?>)
    requires null !in fs
    ensures ImagesOf(r, fs)
  {
    r := [];
    var j := 0;
    while j < |fs|
      invariant 0 <= j <= |fs| && |r| == j
      invariant forall m :: 0 <= m < j ==> r[m] == fs[m].userdata
    {
      r := r + [fs[j].userdata];
      j := j + 1;
    }
  }

  /** The state a vertex copy is left in by the first pass of the SShape copy
      constructor: the brother's data and edge list, the new shape. */
  ghost predicate CopiedVertex(c: SVertex, o: SVertex, s: SShape)
    reads c`point2D, c`normals, c`fedges, c`shape, o`point2D, o`normals, o`fedges
  {
    CopiesVertexData(c, o) && c.fedges == o.fedges && c.shape == s
  }

  /** The state an edge copy is left in by the second pass of the SShape copy
      constructor: the brother's data and pointers. */
  ghost predicate CopiedEdge(c: FEdge, o: FEdge)
    reads c`vertexA, c`vertexB, c`nextEdge, c`previousEdge
    reads o`vertexA, o`vertexB, o`nextEdge, o`previousEdge
  {
    && CopiesEdgeData(c, o) && c.vertexA == o.vertexA && c.vertexB == o.vertexB
    && c.nextEdge == o.nextEdge && c.previousEdge == o.previousEdge
  }

  /** Position by position, each vertex of `cs` holds the data of the vertex of `os`. */
  ghost predicate VertexDataCopied(cs: seq<SVertex>, os: seq<SVertex>)
    reads cs`point2D, cs`normals, os`point2D, os`normals
  {
    |cs| == |os| && forall k :: 0 <= k < |cs| ==> CopiesVertexData(cs[k], os[k])
  }

  /** Position by position, each edge of `cs` holds the data of the edge of `os`. */
  ghost predicate EdgeDataCopied(cs: seq<FEdge>, os: seq<FEdge>)
  {
    |cs| == |os| && forall k :: 0 <= k < |cs| ==> CopiesEdgeData(cs[k], os[k])
  }

  /** Position by position, the vertices of `cs` share the edge lists of those of `os`. */
  ghost predicate SameEdgeLists(cs: seq<SVertex>, os: seq<SVertex>)
    reads cs`fedges, os`fedges
  {
    |cs| == |os| && forall k :: 0 <= k < |cs| ==> cs[k].fedges == os[k].fedges
  }

  /** Position by position, the edges of `cs` have the endpoints and chain
      neighbours of those of `os`. */
  ghost predicate SameLinks(cs: seq<FEdge>, os: seq<FEdge>)
    reads cs`vertexA, cs`vertexB, cs`nextEdge, cs`previousEdge
    reads os`vertexA, os`vertexB, os`nextEdge, os`previousEdge
  {
    |cs| == |os| && forall k :: 0 <= k < |cs| ==>
      && cs[k].vertexA == os[k].vertexA && cs[k].vertexB == os[k].vertexB
      && cs[k].nextEdge == os[k].nextEdge && cs[k].previousEdge == os[k].previousEdge
  }

  /** Every vertex of `vs` belongs to the shape `s`. */
  ghost predicate OwnedBy(vs: seq<SVertex>, s: SShape)
    reads vs`shape
  {
    forall k :: 0 <= k < |vs| ==> vs[k].shape == s
  }

  ghost predicate VertexUserDataCleared(vs: seq<SVertex>)
    reads vs`userdata
  {
    forall k :: 0 <= k < |vs| ==> vs[k].userdata == null
  }

  ghost predicate EdgeUserDataCleared(es: seq<FEdge>)
    reads es`userdata
  {
    forall k :: 0 <= k < |es| ==> es[k].userdata == null
  }

  /** The user data of each vertex of `os` points at the vertex of `cs` at the
      position of its last occurrence in `os`. */
  ghost predicate VertexUserDataLeadsTo(os: seq<SVertex>, cs: seq<SVertex>)
    reads os`userdata
  {
    && |os| == |cs|
    && forall k {:trigger LastBefore(os, k, |os|)} ::
         0 <= k < |os| && LastBefore(os, k, |os|) ==> os[k].userdata == cs[k]
  }

  /** The user data of each edge of `os` points at the edge of `cs` at the
      position of its last occurrence in `os`. */
  ghost predicate EdgeUserDataLeadsTo(os: seq<FEdge>, cs: seq<FEdge>)
    reads os`userdata
  {
    && |os| == |cs|
    && forall k {:trigger LastBefore(os, k, |os|)} ::
         0 <= k < |os| && LastBefore(os, k, |os|) ==> os[k].userdata == cs[k]
  }

  /** The edge list of each vertex of `cs` is that of the vertex of `os` at the
      same position, passed through `userdata`. */
  ghost predicate VertexEdgesRemapped(cs: seq<SVertex>, os: seq<SVertex>)
    reads cs`fedges, os`fedges
    reads (set k, j | 0 <= k < |os| && 0 <= j < |os[k].fedges| :: os[k].fedges[j])`userdata
  {
    && |cs| == |os|
    && forall k :: 0 <= k < |os| ==> null !in os[k].fedges && ImagesOf(cs[k].fedges, os[k].fedges)
  }

  /** The endpoints and chain neighbours of each edge of `cs` are those of the
      edge of `os` at the same position, passed through `userdata`. */
  ghost predicate EdgeLinksRemapped(cs: seq<FEdge>, os: seq<FEdge>)
    reads cs`vertexA, cs`vertexB, cs`nextEdge, cs`previousEdge
    reads os`vertexA, os`vertexB, os`nextEdge, os`previousEdge
    reads (set k | 0 <= k < |os| :: os[k].vertexA)`userdata
    reads (set k | 0 <= k < |os| :: os[k].vertexB)`userdata
    reads (set k | 0 <= k < |os| :: os[k].nextEdge)`userdata
    reads (set k | 0 <= k < |os| :: os[k].previousEdge)`userdata
  {
    && |cs| == |os|
    && forall k :: 0 <= k < |os| ==>
         && os[k].vertexA != null && os[k].vertexB != null
         && os[k].nextEdge != null && os[k].previousEdge != null
         && cs[k].vertexA == os[k].vertexA.userdata && cs[k].vertexB == os[k].vertexB.userdata
         && cs[k].nextEdge == os[k].nextEdge.userdata
         && cs[k].previousEdge == os[k].previousEdge.userdata
  }

  /** A copied edge pointer `c`, taken over from `o`, leads to the copy of its
      target whenever the target is one of the originals `os`: the copy, in
      `cs`, of the target's last occurrence. */
  ghost predicate EdgeRedirected(c: FEdge?, o: FEdge?, os: seq<FEdge>, cs: seq<FEdge>)
    requires |cs| == |os|
  {
    o != null && o in os ==> c == cs[LastIndexOf(os, o)]
  }

  /** The same, for a vertex pointer. */
  ghost predicate VertexRedirected(c: SVertex?, o: SVertex?, os: seq<SVertex>, cs: seq<SVertex>)
    requires |cs| == |os|
  {
    o != null && o in os ==> c == cs[LastIndexOf(os, o)]
  }

  /** The chain list `cs` is `chains` with every edge redirected to its copy. */
  ghost predicate ChainsCopied(cs: seq<FEdge?>, chains: seq<FEdge?>, eos: seq<FEdge>, es: seq<FEdge>)
    requires |es| == |eos|
  {
    |cs| == |chains| && forall j :: 0 <= j < |chains| ==> EdgeRedirected(cs[j], chains[j], eos, es)
  }

  /** The edge list of each vertex of `vs` is that of the vertex of `vos` at the
      same position, with every edge redirected to its copy. */
  ghost predicate VertexEdgesCopied(vs: seq<SVertex>, vos: seq<SVertex>, eos: seq<FEdge>, es: seq<FEdge>)
    requires |es| == |eos|
    reads vs`fedges, vos`fedges
  {
    && |vs| == |vos|
    && forall k :: 0 <= k < |vos| ==>
         && |vs[k].fedges| == |vos[k].fedges|
         && forall j :: 0 <= j < |vos[k].fedges| ==> EdgeRedirected(vs[k].fedges[j], vos[k].fedges[j], eos, es)
  }

  /** The endpoints and chain neighbours of `es[k]` are those of `eos[k]`,
      redirected to their copies. */
  ghost predicate EdgeLinksCopiedAt(es: seq<FEdge>, eos: seq<FEdge>, vos: seq<SVertex>, vs: seq<SVertex>, k: int)
    requires |vs| == |vos| && |es| == |eos| && 0 <= k < |eos|
    reads es`vertexA, es`vertexB, es`nextEdge, es`previousEdge
    reads eos`vertexA, eos`vertexB, eos`nextEdge, eos`previousEdge
  {
    && VertexRedirected(es[k].vertexA, eos[k].vertexA, vos, vs)
    && VertexRedirected(es[k].vertexB, eos[k].vertexB, vos, vs)
    && EdgeRedirected(es[k].nextEdge, eos[k].nextEdge, eos, es)
    && EdgeRedirected(es[k].previousEdge, eos[k].previousEdge, eos, es)
  }

  /** The endpoints and chain neighbours of each edge of `es` are those of the
      edge of `eos` at the same position, redirected to their copies. */
  ghost predicate EdgeLinksCopied(es: seq<FEdge>, eos: seq<FEdge>, vos: seq<SVertex>, vs: seq<SVertex>)
    requires |vs| == |vos|
    reads es`vertexA, es`vertexB, es`nextEdge, es`previousEdge
    reads eos`vertexA, eos`vertexB, eos`nextEdge, eos`previousEdge
  {
    |es| == |eos| && forall k :: 0 <= k < |eos| ==> EdgeLinksCopiedAt(es, eos, vos, vs, k)
  }

  /** The endpoints of `es[k]` are in `vs`, and its chain neighbours in `es`. */
  ghost predicate EdgeLinksInside(es: seq<FEdge>, vs: seq<SVertex>, k: int)
    requires 0 <= k < |es|
    reads es`vertexA, es`vertexB, es`nextEdge, es`previousEdge
  {
    && es[k].vertexA in vs && es[k].vertexB in vs
    && es[k].nextEdge in es && es[k].previousEdge in es
  }

  /** After the copy passes, the user data of every original edge is the copy
      of its last occurrence. */
  lemma EdgeUserDataIsCopy(eos: seq<FEdge>, es: seq<FEdge>)
    requires EdgeUserDataLeadsTo(eos, es)
    ensures forall e :: e in eos ==> e.userdata == es[LastIndexOf(eos, e)]
  {
    forall e | e in eos ensures e.userdata == es[LastIndexOf(eos, e)] {
      var j := LastIndexOf(eos, e);
      var k := LastOccurrence(eos, j, |eos|);
      LastBeforeIsLastIndex(eos, k);
    }
  }

  /** After the copy passes, the user data of every original vertex is the
      copy of its last occurrence. */
  lemma VertexUserDataIsCopy(vos: seq<SVertex>, vs: seq<SVertex>)
    requires VertexUserDataLeadsTo(vos, vs)
    ensures forall v :: v in vos ==> v.userdata == vs[LastIndexOf(vos, v)]
  {
    forall v | v in vos ensures v.userdata == vs[LastIndexOf(vos, v)] {
      var j := LastIndexOf(vos, v);
      var k := LastOccurrence(vos, j, |vos|);
      LastBeforeIsLastIndex(vos, k);
    }
  }

  /** Redirecting through the user data that the copy passes left behind sends
      every pointer to the copy of its target. */
  lemma RemappedIsCopied(vs: seq<SVertex>, es: seq<FEdge>, cs: seq<FEdge?>,
                         vos: seq<SVertex>, eos: seq<FEdge>, chains: seq<FEdge?>)
    requires null !in chains
    requires VertexUserDataLeadsTo(vos, vs) && EdgeUserDataLeadsTo(eos, es)
    requires ImagesOf(cs, chains)
    requires VertexEdgesRemapped(vs, vos) && EdgeLinksRemapped(es, eos)
    ensures ChainsCopied(cs, chains, eos, es)
    ensures VertexEdgesCopied(vs, vos, eos, es)
    ensures EdgeLinksCopied(es, eos, vos, vs)
  {
    EdgeUserDataIsCopy(eos, es);
    VertexUserDataIsCopy(vos, vs);
  }

  /** The vertex pass of the SShape copy constructor: a copy of each vertex,
      in list order, owned by `owner`. */
  method CopyVertices(originals: seq<SVertex>, owner: SShape) returns (copies: seq<SVertex>)
    modifies originals`userdata
    ensures Distinct(copies) && forall k :: 0 <= k < |copies| ==> fresh(copies[k])
    ensures VertexDataCopied(copies, originals) && SameEdgeLists(copies, originals)
    ensures OwnedBy(copies, owner) && VertexUserDataLeadsTo(originals, copies)
  {
    copies := [];
    var i := 0;
    while i < |originals|
      invariant 0 <= i <= |originals| && |copies| == i
      invariant Distinct(copies)
      invariant forall k :: 0 <= k < i ==> fresh(copies[k])
      invariant forall k {:trigger copies[k]} :: 0 <= k < i ==> CopiedVertex(copies[k], originals[k], owner)
      invariant forall k {:trigger LastBefore(originals, k, i)} ::
        0 <= k < i && LastBefore(originals, k, i) ==> originals[k].userdata == copies[k]
    {
      var nv := new SVertex.Copy(originals[i]);
      nv.shape := owner;
      copies := copies + [nv];
      i := i + 1;
    }
  }

  /** The edge pass of the SShape copy constructor: `dupplicate()` of each
      edge, in list order. */
  method CopyEdges(originals: seq<FEdge>) returns (copies: seq<FEdge>)
    modifies originals`userdata
    ensures Distinct(copies) && forall k :: 0 <= k < |copies| ==> fresh(copies[k])
    ensures EdgeDataCopied(copies, originals) && SameLinks(copies, originals)
    ensures EdgeUserDataLeadsTo(originals, copies)
  {
    copies := [];
    var i := 0;
    while i < |originals|
      invariant 0 <= i <= |originals| && |copies| == i
      invariant Distinct(copies)
      invariant forall k :: 0 <= k < i ==> fresh(copies[k])
      invariant forall k {:trigger copies[k]} :: 0 <= k < i ==> CopiedEdge(copies[k], originals[k])
      invariant forall k {:trigger LastBefore(originals, k, i)} ::
        0 <= k < i && LastBefore(originals, k, i) ==> originals[k].userdata == copies[k]
    {
      var ne := new FEdge.Duplicate(originals[i]);
      copies := copies + [ne];
      i := i + 1;
    }
  }

  /** The pass that redirects the edge list of each vertex of `vs`, a copy of
      the vertex of `os` at the same position, through `userdata`. */
  method RemapVertexEdges(vs: seq<SVertex>, os: seq<SVertex>)
    requires Distinct(vs) && SameEdgeLists(vs, os)
    requires forall k, m :: 0 <= k < |vs| && 0 <= m < |os| ==> vs[k] != os[m]
    requires forall k :: 0 <= k < |os| ==> null !in os[k].fedges
    modifies vs`fedges
    ensures VertexEdgesRemapped(vs, os)
  {
    var i := 0;
    while i < |vs|
      invariant 0 <= i <= |vs|
      invariant forall k {:trigger vs[k]} :: i <= k < |vs| ==> vs[k].fedges == os[k].fedges
      invariant forall k {:trigger vs[k]} :: 0 <= k < i ==> ImagesOf(vs[k].fedges, os[k].fedges)
    {
      var remapped := MapThroughUserData(vs[i].fedges);
      vs[i].fedges := remapped;
      i := i + 1;
    }
  }

  /** The pass that redirects the endpoints and chain neighbours of each edge
      of `es`, a copy of the edge of `os` at the same position, through
      `userdata`. */
  method RemapEdgeLinks(es: seq<FEdge>, os: seq<FEdge>)
    requires Distinct(es) && SameLinks(es, os)
    requires forall k, m :: 0 <= k < |es| && 0 <= m < |os| ==> es[k] != os[m]
    requires forall k :: 0 <= k < |os| ==>
      os[k].vertexA != null && os[k].vertexB != null && os[k].nextEdge != null && os[k].previousEdge != null
    modifies es`vertexA, es`vertexB, es`nextEdge, es`previousEdge
    ensures EdgeLinksRemapped(es, os)
  {
    var i := 0;
    while i < |es|
      invariant 0 <= i <= |es|
      invariant forall k {:trigger es[k]} :: i <= k < |es| ==>
        && es[k].vertexA == os[k].vertexA && es[k].vertexB == os[k].vertexB
        && es[k].nextEdge == os[k].nextEdge && es[k].previousEdge == os[k].previousEdge
      invariant forall k {:trigger es[k]} :: 0 <= k < i ==>
        && es[k].vertexA == os[k].vertexA.userdata && es[k].vertexB == os[k].vertexB.userdata
        && es[k].nextEdge == os[k].nextEdge.userdata
        && es[k].previousEdge == os[k].previousEdge.userdata
    {
      RedirectLinks(es[i]);
      i := i + 1;
    }
  }

  /** One step of that pass: the endpoints and chain neighbours of `e` are
      replaced by their `userdata`. */
  method RedirectLinks(e: FEdge)
    requires e.vertexA != null && e.vertexB != null && e.nextEdge != null && e.previousEdge != null
    modifies e`vertexA, e`vertexB, e`nextEdge, e`previousEdge
    ensures e.vertexA == old(e.vertexA.userdata) && e.vertexB == old(e.vertexB.userdata)
    ensures e.nextEdge == old(e.nextEdge.userdata) && e.previousEdge == old(e.previousEdge.userdata)
  {
    e.vertexA := e.vertexA.userdata;
    e.vertexB := e.vertexB.userdata;
    e.nextEdge := e.nextEdge.userdata;
    e.previousEdge := e.previousEdge.userdata;
  }

  /** The two copy passes of the SShape copy constructor: vertices first,
      owned by `owner`, then edges. Each original's `userdata` is left
      pointing at its copy. */
  method CopyElements(vos: seq<SVertex>, eos: seq<FEdge>, owner: SShape) returns (vs: seq<SVertex>, es: seq<FEdge>)
    modifies vos`userdata, eos`userdata
    ensures Distinct(vs) && forall k :: 0 <= k < |vs| ==> fresh(vs[k])
    ensures Distinct(es) && forall k :: 0 <= k < |es| ==> fresh(es[k])
    ensures forall k, m :: 0 <= k < |vs| && 0 <= m < |vos| ==> vs[k] != vos[m]
    ensures forall k, m :: 0 <= k < |es| && 0 <= m < |eos| ==> es[k] != eos[m]
    ensures VertexDataCopied(vs, vos) && SameEdgeLists(vs, vos) && OwnedBy(vs, owner)
    ensures EdgeDataCopied(es, eos) && SameLinks(es, eos)
    ensures VertexUserDataLeadsTo(vos, vs) && EdgeUserDataLeadsTo(eos, es)
  {
    vs := CopyVertices(vos, owner);
    es := CopyEdges(eos);
  }

  /** The three remapping passes of the SShape copy constructor: the chain
      list, the edge list of each copied vertex, and the endpoints and chain
      neighbours of each copied edge are redirected through `userdata`. */
  method RemapPointers(vs: seq<SVertex>, es: seq<FEdge>, vos: seq<SVertex>, eos: seq<FEdge>, chains: seq<FEdge?>)
    returns (cs: seq<FEdge?>)
    requires null !in chains
    requires Distinct(vs) && SameEdgeLists(vs, vos)
    requires forall k, m :: 0 <= k < |vs| && 0 <= m < |vos| ==> vs[k] != vos[m]
    requires forall k :: 0 <= k < |vos| ==> null !in vos[k].fedges
    requires Distinct(es) && SameLinks(es, eos)
    requires forall k, m :: 0 <= k < |es| && 0 <= m < |eos| ==> es[k] != eos[m]
    requires forall k :: 0 <= k < |eos| ==>
      eos[k].vertexA != null && eos[k].vertexB != null && eos[k].nextEdge != null && eos[k].previousEdge != null
    modifies vs`fedges, es`vertexA, es`vertexB, es`nextEdge, es`previousEdge
    ensures ImagesOf(cs, chains)
    ensures VertexEdgesRemapped(vs, vos) && EdgeLinksRemapped(es, eos)
  {
    cs := MapThroughUserData(chains);
    RemapVertexEdges(vs, vos);
    RemapEdgeLinks(es, eos);
  }

  /** The closing passes of the SShape copy constructor: they clear the
      `userdata` of the new shape's vertices and edges. */
  method ResetUserData(vs: seq<SVertex>, es: seq<FEdge>)
    modifies vs`userdata, es`userdata
    ensures VertexUserDataCleared(vs) && EdgeUserDataCleared(es)
  {
    var i := 0;
    while i < |vs|
      invariant 0 <= i <= |vs|
      invariant forall k :: 0 <= k < i ==> vs[k].userdata == null
    {
      vs[i].userdata := null;
      i := i + 1;
    }
    i := 0;
    while i < |es|
      invariant 0 <= i <= |es|
      invariant forall k :: 0 <= k < |vs| ==> vs[k].userdata == null
      invariant forall k :: 0 <= k < i ==> es[k].userdata == null
    {
      es[i].userdata := null;
      i := i + 1;
    }
  }

  /** `vs`, `es` and `cs` are the vertex, edge and chain lists of a copy,
      owned by `owner`, of the lists `vos`, `eos` and `chains`: position by
      position the data is the original's, every pointer inside the copy is
      redirected to the copy of its target, the copies' user data is clear,
      and the originals' user data leads to their copies. The reads clause
      names whole objects, so that the fact carries over cheaply when the
      owning shape's own fields are assigned. */
  ghost predicate IsCopy(vs: seq<SVertex>, es: seq<FEdge>, cs: seq<FEdge?>,
                         vos: seq<SVertex>, eos: seq<FEdge>, chains: seq<FEdge?>, owner: SShape)
    reads vs, vos, es, eos
  {
    && |vs| == |vos| && |es| == |eos|
    && VertexDataCopied(vs, vos) && OwnedBy(vs, owner) && EdgeDataCopied(es, eos)
    && VertexUserDataCleared(vs) && EdgeUserDataCleared(es)
    && VertexUserDataLeadsTo(vos, vs) && EdgeUserDataLeadsTo(eos, es)
    && ChainsCopied(cs, chains, eos, es)
    && VertexEdgesCopied(vs, vos, eos, es) && EdgeLinksCopied(es, eos, vos, vs)
  }

  /** The conjuncts of `IsCopy`, gathered into one fact. */
  lemma AssembleCopy(vs: seq<SVertex>, es: seq<FEdge>, cs: seq<FEdge?>,
                     vos: seq<SVertex>, eos: seq<FEdge>, chains: seq<FEdge?>, owner: SShape)
    requires |vs| == |vos| && |es| == |eos|
    requires VertexDataCopied(vs, vos) && OwnedBy(vs, owner) && EdgeDataCopied(es, eos)
    requires VertexUserDataCleared(vs) && EdgeUserDataCleared(es)
    requires VertexUserDataLeadsTo(vos, vs) && EdgeUserDataLeadsTo(eos, es)
    requires ChainsCopied(cs, chains, eos, es)
    requires VertexEdgesCopied(vs, vos, eos, es) && EdgeLinksCopied(es, eos, vos, vs)
    ensures IsCopy(vs, es, cs, vos, eos, chains, owner)
  {
  }

  /** The copy passes and the remapping passes of the SShape copy constructor. */
  method CopyAndRemap(vos: seq<SVertex>, eos: seq<FEdge>, chains: seq<FEdge?>, owner: SShape)
    returns (vs: seq<SVertex>, es: seq<FEdge>, cs: seq<FEdge?>)
    requires null !in chains
    requires forall k :: 0 <= k < |vos| ==> null !in vos[k].fedges
    requires forall k :: 0 <= k < |eos| ==>
      eos[k].vertexA != null && eos[k].vertexB != null && eos[k].nextEdge != null && eos[k].previousEdge != null
    modifies vos`userdata, eos`userdata
    ensures Distinct(vs) && forall k :: 0 <= k < |vs| ==> fresh(vs[k])
    ensures Distinct(es) && forall k :: 0 <= k < |es| ==> fresh(es[k])
    ensures |vs| == |vos| && |es| == |eos|
    ensures VertexDataCopied(vs, vos) && OwnedBy(vs, owner) && EdgeDataCopied(es, eos)
    ensures VertexUserDataLeadsTo(vos, vs) && EdgeUserDataLeadsTo(eos, es)
    ensures ChainsCopied(cs, chains, eos, es)
    ensures VertexEdgesCopied(vs, vos, eos, es) && EdgeLinksCopied(es, eos, vos, vs)
  {
    vs, es := CopyElements(vos, eos, owner);
    cs := RemapPointers(vs, es, vos, eos, chains);
    RemappedIsCopied(vs, es, cs, vos, eos, chains);
  }

  /** All the passes of the SShape copy constructor, in the source's order,
      over the lists of the shape being copied: copies of the vertices (owned
      by `owner`) and of the edges, the remapped chain list, and the copies'
      pointers and user data fixed up. */
  method CopyShape(vos: seq<SVertex>, eos: seq<FEdge>, chains: seq<FEdge?>, owner: SShape)
    returns (vs: seq<SVertex>, es: seq<FEdge>, cs: seq<FEdge?>)
    requires null !in chains
    requires forall k :: 0 <= k < |vos| ==> null !in vos[k].fedges
    requires forall k :: 0 <= k < |eos| ==>
      eos[k].vertexA != null && eos[k].vertexB != null && eos[k].nextEdge != null && eos[k].previousEdge != null
    modifies vos`userdata, eos`userdata
    ensures Distinct(vs) && forall k :: 0 <= k < |vs| ==> fresh(vs[k])
    ensures Distinct(es) && forall k :: 0 <= k < |es| ==> fresh(es[k])
    ensures IsCopy(vs, es, cs, vos, eos, chains, owner)
  {
    vs, es, cs := CopyAndRemap(vos, eos, chains, owner);
    ResetUserData(vs, es);
    AssembleCopy(vs, es, cs, vos, eos, chains, owner);
  }


  // ---------------------------------------------------------------------------
  // SShape

  class SShape {
    /** The edges that start chains. */
    var chains: seq<FEdge?>
    var vertices: seq<SVertex>
    var edges: seq<FEdge>
    const id: Id
    /** The BBox<Vec3r> member, held by value. */
    var bbox: Box
    const materials: seq<Material>
    const importance: real
    const viewShape: ExternalRef

    /** The default constructor. */
    constructor ()
      ensures chains == [] && vertices == [] && edges == [] && id == 0
      ensures bbox == EmptyBox && materials == [] && importance == 0.0 && viewShape == NullRef
    {
      chains, vertices, edges, id := [], [], [], 0;
      bbox, materials, importance, viewShape := EmptyBox, [], 0.0, NullRef;
    }

    /** Every pointer the copy constructor follows without testing it is non-null:
        the chain heads, the entries of each vertex's edge list, and each edge's
        two endpoints and two chain neighbours. */
    ghost predicate Cloneable()
      reads this`chains, this`vertices, this`edges, vertices`fedges
      reads edges`vertexA, edges`vertexB, edges`nextEdge, edges`previousEdge
    {
      && null !in chains
      && (forall k :: 0 <= k < |vertices| ==> null !in vertices[k].fedges)
      && (forall k :: 0 <= k < |edges| ==>
            && edges[k].vertexA != null && edges[k].vertexB != null
            && edges[k].nextEdge != null && edges[k].previousEdge != null)
    }

    /** Every pointer held by the shape or its elements leads back into the
        shape's own vertex and edge lists. */
    ghost predicate Closed()
      reads this`chains, this`vertices, this`edges, vertices`fedges
      reads edges`vertexA, edges`vertexB, edges`nextEdge, edges`previousEdge
    {
      && (forall c :: c in chains ==> c in edges)
      && (forall k, j :: 0 <= k < |vertices| && 0 <= j < |vertices[k].fedges| ==>
            vertices[k].fedges[j] in edges)
      && (forall k :: 0 <= k < |edges| ==> EdgeLinksInside(edges, vertices, k))
    }

    /** The copy constructor `SShape(SShape& iBrother)`, which `dupplicate()`
        calls. Each vertex and edge is copied, in list order; each original's
        `userdata` is left pointing at its copy (at the copy of its last
        occurrence, should it occur twice), and every pointer inside the copies
        is redirected through the originals' `userdata`. The closing loops clear
        the `userdata` of the copies, which is already NULL, so the originals
        keep theirs. */
    constructor Clone(brother: SShape)
      requires brother.Cloneable()
      modifies brother.vertices`userdata, brother.edges`userdata
      ensures id == brother.id && bbox == Assigned(brother.bbox) && materials == brother.materials
      ensures importance == brother.importance && viewShape == brother.viewShape
      ensures Distinct(vertices) && forall k :: 0 <= k < |vertices| ==> fresh(vertices[k])
      ensures Distinct(edges) && forall k :: 0 <= k < |edges| ==> fresh(edges[k])
      // compared with `true` so that it is checked as one fact, not unfolded
      ensures IsCopy(vertices, edges, chains, brother.vertices, brother.edges, brother.chains, this) == true
    {
      id, bbox, materials := brother.id, Assigned(brother.bbox), brother.materials;
      importance, viewShape := brother.importance, brother.viewShape;
      new;
      CopyFrom(brother);
    }

    /** The body of the copy constructor after its member initialisers: the
        vertex, edge and chain lists become a copy, owned by this shape, of the
        brother's. */
    method CopyFrom(brother: SShape)
      requires brother.Cloneable() && brother != this
      modifies this`vertices, this`edges, this`chains, brother.vertices`userdata, brother.edges`userdata
      ensures Distinct(vertices) && forall k :: 0 <= k < |vertices| ==> fresh(vertices[k])
      ensures Distinct(edges) && forall k :: 0 <= k < |edges| ==> fresh(edges[k])
      // compared with `true` so that it is checked as one fact, not unfolded
      ensures IsCopy(vertices, edges, chains, brother.vertices, brother.edges, brother.chains, this) == true
    {
      vertices, edges, chains := CopyShape(brother.vertices, brother.edges, brother.chains, this);
    }

    /** `dupplicate()`: a new shape built by the copy constructor. A closed
        shape gives a closed copy, none of whose pointers leads back into
        this shape. */
    method Dupplicate() returns (clone: SShape)
      requires Cloneable()
      modifies vertices`userdata, edges`userdata
      ensures fresh(clone)
      // compared with `true` so that it is checked as one fact, not unfolded
      ensures IsCopy(clone.vertices, clone.edges, clone.chains, vertices, edges, chains, clone) == true
      ensures Closed() ==> clone.Closed()
      ensures Closed() ==> forall k :: 0 <= k < |clone.edges| ==>
        && clone.edges[k].vertexA !in vertices && clone.edges[k].vertexB !in vertices
        && clone.edges[k].nextEdge !in edges && clone.edges[k].previousEdge !in edges
    {
      clone := new SShape.Clone(this);
      if Closed() {
        CloneIsClosed(clone, this);
        CloneIsSeparate(clone, this);
      }
    }

    method AddEdge(e: FEdge)
      modifies this`edges
      ensures edges == old(edges) + [e]
    {
      edges := edges + [e];
    }

    /** `AddNewVertex(iv)`: the vertex joins the list and now belongs to this shape. */
    method AddNewVertex(v: SVertex)
      modifies this`vertices, v`shape
      ensures vertices == old(vertices) + [v] && v.shape == this
    {
      v.shape := this;
      vertices := vertices + [v];
    }

    method AddChain(e: FEdge?)
      modifies this`chains
      ensures chains == old(chains) + [e]
    {
      chains := chains + [e];
    }

    /** `CreateSVertex(P3D, P2D, id)`: a new vertex with both positions, added
        to this shape. */
    method CreateSVertex(p3: Point, p2: Point, vid: Id) returns (v: SVertex)
      modifies this`vertices
      ensures fresh(v) && vertices == old(vertices) + [v]
      ensures v.point3D == p3 && v.point2D == p2 && v.id == vid && v.shape == this
      ensures v.normals == {} && v.fedges == [] && v.userdata == null
    {
      v := new SVertex(p3, vid);
      v.point2D := p2;
      AddNewVertex(v);
    }

    /** `SetBBox(iBBox)`, an assignment through BBox's `operator=`. */
    method SetBBox(b: Box)
      modifies this`bbox
      ensures bbox == Assigned(b)
    {
      bbox := Assigned(b);
    }

    /** The 3D positions of the vertices, in list order. */
    ghost function Points3D(): (ps: seq<Point>)
      reads this`vertices, vertices
      ensures |ps| == |vertices|
      ensures forall j :: 0 <= j < |ps| ==> ps[j] == vertices[j].point3D
    {
      var vs := vertices;
      seq(|vs|, j requires 0 <= j < |vs| reads vs => vs[j].point3D)
    }

    /** The scan of `ComputeBBox()`: the per-axis minimum and maximum of the
        vertices' 3D positions, starting from the first vertex and visiting
        every vertex, the first included. */
    method Extrema() returns (lo: Point, hi: Point)
      requires |vertices| > 0
      ensures Tight(Box(false, lo, hi), Points3D())
    {
      ghost var ps := Points3D();
      var first := vertices[0].point3D;
      var xMax, yMax, zMax := first[0], first[1], first[2];
      var xMin, yMin, zMin := first[0], first[1], first[2];
      // the vertex each extremum was taken from
      ghost var xl, yl, zl, xh, yh, zh := 0, 0, 0, 0, 0, 0;
      var i := 0;
      while i < |vertices|
        invariant 0 <= i <= |vertices|
        invariant forall j :: 0 <= j < i ==>
          && xMin <= ps[j][0] <= xMax && yMin <= ps[j][1] <= yMax && zMin <= ps[j][2] <= zMax
        invariant 0 <= xl < |ps| && 0 <= yl < |ps| && 0 <= zl < |ps|
        invariant 0 <= xh < |ps| && 0 <= yh < |ps| && 0 <= zh < |ps|
        invariant xMin == ps[xl][0] && yMin == ps[yl][1] && zMin == ps[zl][2]
        invariant xMax == ps[xh][0] && yMax == ps[yh][1] && zMax == ps[zh][2]
      {
        var p := vertices[i].point3D;
        assert p == ps[i];
        if p[0] > xMax { xMax, xh := p[0], i; }
        if p[0] < xMin { xMin, xl := p[0], i; }
        if p[1] > yMax { yMax, yh := p[1], i; }
        if p[1] < yMin { yMin, yl := p[1], i; }
        if p[2] > zMax { zMax, zh := p[2], i; }
        if p[2] < zMin { zMin, zl := p[2], i; }
        i := i + 1;
      }
      lo, hi := [xMin, yMin, zMin], [xMax, yMax, zMax];
      forall j, a | 0 <= j < |ps| && 0 <= a < Dim ensures lo[a] <= ps[j][a] <= hi[a] {
        assert a == 0 || a == 1 || a == 2;
      }
    }

    /** `ComputeBBox()`: nothing happens without vertices; otherwise the box
        becomes the smallest one around every vertex's 3D position, the box
        that extending an empty box by each position in turn would give. */
    method ComputeBBox()
      modifies this`bbox
      ensures |vertices| == 0 ==> bbox == old(bbox)
      ensures |vertices| > 0 ==> Tight(bbox, Points3D())
      ensures |vertices| > 0 ==> bbox == ExtendedByAll(EmptyBox, Points3D())
    {
      if |vertices| == 0 {
        return;
      }
      var lo, hi := Extrema();
      SetBBox(Box(false, lo, hi));
      ExtendedByAllIsTight(EmptyBox, Points3D());
      TightIsUnique(bbox, ExtendedByAll(EmptyBox, Points3D()), Points3D());
    }

    /** `RemoveEdgeFromChain(iEdge)`: erase the first chain head equal to `e`. */
    method RemoveEdgeFromChain(e: FEdge?)
      modifies this`chains
      ensures chains == RemoveFirst(old(chains), e)
    {
      RemoveFirstAt(chains, e);
      var i := Find(chains, e);
      if i < |chains| {
        chains := chains[..i] + chains[i + 1..];
      }
    }

    /** `RemoveEdge(iEdge)`: erase the first entry of the edge list equal to `e`. */
    method RemoveEdge(e: FEdge)
      modifies this`edges
      ensures edges == RemoveFirst(old(edges), e)
    {
      RemoveFirstAt(edges, e);
      var i := Find(edges, e);
      if i < |edges| {
        edges := edges[..i] + edges[i + 1..];
      }
    }

    /** `RemoveVertex(sv)`: erase the first entry of the vertex list equal to `v`. */
    method RemoveVertex(v: SVertex)
      modifies this`vertices
      ensures vertices == RemoveFirst(old(vertices), v)
    {
      RemoveFirstAt(vertices, v);
      var i := Find(vertices, v);
      if i < |vertices| {
        vertices := vertices[..i] + vertices[i + 1..];
      }
    }
  }

  /** Copied chains stay inside the copied edge list when the original
      chains were inside the original one. */
  lemma ChainsStayInside(cs: seq<FEdge?>, chains: seq<FEdge?>, eos: seq<FEdge>, es: seq<FEdge>)
    requires |es| == |eos|
    requires forall c :: c in chains ==> c in eos
    requires ChainsCopied(cs, chains, eos, es)
    ensures forall c :: c in cs ==> c in es
  {
    forall c | c in cs ensures c in es {
      var j :| 0 <= j < |cs| && cs[j] == c;
      assert chains[j] in eos;
    }
  }

  /** Copied vertex edge lists stay inside the copied edge list when the
      original ones were inside the original one. */
  lemma VertexEdgesStayInside(vs: seq<SVertex>, vos: seq<SVertex>, eos: seq<FEdge>, es: seq<FEdge>)
    requires |es| == |eos|
    requires forall k, j :: 0 <= k < |vos| && 0 <= j < |vos[k].fedges| ==> vos[k].fedges[j] in eos
    requires VertexEdgesCopied(vs, vos, eos, es)
    ensures forall k, j :: 0 <= k < |vs| && 0 <= j < |vs[k].fedges| ==> vs[k].fedges[j] in es
  {
    forall k, j | 0 <= k < |vs| && 0 <= j < |vs[k].fedges| ensures vs[k].fedges[j] in es {
      assert vos[k].fedges[j] in eos;
    }
  }

  /** Copied endpoints and chain neighbours stay inside the copied lists when
      the original ones were inside the original lists. */
  lemma EdgeLinksStayInside(es: seq<FEdge>, eos: seq<FEdge>, vos: seq<SVertex>, vs: seq<SVertex>)
    requires |vs| == |vos|
    requires forall k :: 0 <= k < |eos| ==> EdgeLinksInside(eos, vos, k)
    requires EdgeLinksCopied(es, eos, vos, vs)
    ensures forall k :: 0 <= k < |es| ==> EdgeLinksInside(es, vs, k)
  {
    forall k | 0 <= k < |es| ensures EdgeLinksInside(es, vs, k) {
      assert EdgeLinksInside(eos, vos, k) && EdgeLinksCopiedAt(es, eos, vos, vs, k);
    }
  }


  /** The copy of a closed shape is closed: every pointer of the copy leads
      to the copy of its target, and every target is in the brother's lists. */
  lemma CloneIsClosed(s: SShape, b: SShape)
    requires b.Closed()
    requires IsCopy(s.vertices, s.edges, s.chains, b.vertices, b.edges, b.chains, s)
    ensures s.Closed()
  {
    ChainsStayInside(s.chains, b.chains, b.edges, s.edges);
    VertexEdgesStayInside(s.vertices, b.vertices, b.edges, s.edges);
    EdgeLinksStayInside(s.edges, b.edges, b.vertices, s.vertices);
  }

  /** No remapped pointer of the copy of a closed shape leads into the
      brother, once the copy's elements are new objects (as `Clone` ensures):
      every pointer lands in the copy's own lists. */
  lemma CloneIsSeparate(s: SShape, b: SShape)
    requires b.Closed()
    requires IsCopy(s.vertices, s.edges, s.chains, b.vertices, b.edges, b.chains, s)
    requires forall v :: v in s.vertices ==> v !in b.vertices
    requires forall e :: e in s.edges ==> e !in b.edges
    ensures forall c :: c in s.chains ==> c !in b.edges
    ensures forall k, j :: 0 <= k < |s.vertices| && 0 <= j < |s.vertices[k].fedges| ==>
      s.vertices[k].fedges[j] !in b.edges
    ensures forall k :: 0 <= k < |s.edges| ==>
      && s.edges[k].vertexA !in b.vertices && s.edges[k].vertexB !in b.vertices
      && s.edges[k].nextEdge !in b.edges && s.edges[k].previousEdge !in b.edges
  {
    CloneIsClosed(s, b);
    forall k | 0 <= k < |s.edges|
      ensures && s.edges[k].vertexA !in b.vertices && s.edges[k].vertexB !in b.vertices
              && s.edges[k].nextEdge !in b.edges && s.edges[k].previousEdge !in b.edges
    {
      assert EdgeLinksInside(s.edges, s.vertices, k);
    }
  }


}
