# Freestyle feature-edge graph and bounding box, in Dafny

This project models the core of Freestyle's view-map data structures, the
feature-edge graph that Blender's line renderer builds before it chains and
draws strokes:

- `freestyle/view_map/Silhouette.h`:
  - `SVertex`, a feature vertex. It has a 3D and a 2D position, a *set* of
    normals, an ordered list of incident edges, an owning shape, and a public
    `userdata` slot;
  - `FEdge` with its variants `FEdgeSharp`, `FEdgeSmooth` and
    `FEdgeIntersection`. An edge has endpoints A and B, next/previous chain
    links, and a smoothness flag;
  - `FEdgeInternal::SVertexIterator`, the iterator over an edge's two
    endpoints;
  - `SShape`, which owns the vertex, edge and chain-head lists. It has a
    bounding box, registration and removal operations, and the two-pass
    structural copy constructor.
- `freestyle/geometry/BBox.h`: `BBox<Vec3r>` and the free `operator+`.

Files and modules:

- `geometry.dfy` (module `Geometry`): `Vec3r` as a sequence of three reals,
  and its lexicographic `operator<`.
- `bbox.dfy` (module `Boxes`): the value a box holds (`Box`) and one
  function per operation saying what it does to that value. It also holds
  the properties of those functions and the class `BBox`, whose methods
  update the corners in place and are proved against the functions.
- `seqs.dfy` (module `Seqs`): the first-occurrence scan, erase and replace
  that `SVertex::Replace` and `SShape::Remove*` perform on their vectors,
  and the "last occurrence" facts that the shape copy relies on.
- `silhouette.dfy` (module `Silhouette`): the classes `SVertex`, `FEdge`
  (one class with a variant tag) and `SShape`. It also holds the passes of
  the shape copy constructor, each proved separately, and the lemmas that
  relate a copy to its brother.
- `iterators.dfy` (module `FEdgeInternal`): `SVertexIterator` and the
  `verticesBegin`/`verticesEnd`/`pointsBegin`/`pointsEnd` accessors.

C++ raw pointers are Dafny references. They are nullable where the C++ code
stores or tests NULL. The `userdata` slots are real fields typed by what the
copy constructors store in them. Pointers to objects outside the core (mesh
`WEdge`/`WVertex`/`WFace`, `ViewVertex`, `ViewEdge`, `ViewShape`) are opaque
numbers, with 0 standing for NULL.

Behaviour of the code that the model keeps as written:

- The SShape copy constructor follows `nextEdge()` and `previousEdge()`
  without testing them for NULL (`Silhouette.h:1145-1146`). `Clone`
  therefore requires every chain pointer it follows to be non-null
  (`SShape.Cloneable`). The code never reports a missing chain link: a NULL
  link is dereferenced.
- The loops under "reset all brothers userdata" (`Silhouette.h:1150-1170`)
  run over the *copy's* lists. So they clear the copies' `userdata`, which
  is already NULL. The originals keep pointing at their copies, and `Clone`
  states this (`VertexUserDataLeadsTo`, `EdgeUserDataLeadsTo` inside
  `IsCopy`).
- The FEdge copy constructor does not copy `_occludeeIntersection`. The copy
  holds a default `Vec3r`.
- An `FEdgeIntersection` built from two vertices is smooth, because it
  inherits `FEdgeSmooth`'s constructor. Its copy constructor sets the flag
  to false.
- `operator=` and the converting constructor of `BBox` mark the result
  non-empty even when the source box is empty. So a shape copied from one
  with an empty box gets a non-empty box.
- `operator+=` never looks at the other box's empty flag, so it also widens
  a box by an empty box's stale corners. `operator+` looks at neither flag.
- `SVertex::normal()` raises its exception whenever the set does not hold
  exactly one normal: when it holds several, and also when it is empty. The
  model returns `Err(AmbiguousNormal)` in both cases.
- `isEnd()` is true when the iterator stands at B, the last vertex. It is
  false at the end position NULL that `verticesEnd()` returns.
- When a vertex occurs twice in a shape's vertex list (or an edge twice in
  its edge list), its `userdata` is overwritten by the later copy. Every
  pointer to it is then redirected to the copy of its *last* occurrence, and
  the model states the redirection that way.

## Model

| member | source | states |
|---|---|---|
| Boxes.Plus | freestyle/geometry/BBox.h:127-139 | the result is non-empty; on each axis its lower corner is the smaller of the two lower corners and its upper corner the larger of the two upper corners, whatever either flag says |
| Boxes.ExtendedGrows | freestyle/geometry/BBox.h:53-67 | extending a valid box by p keeps it valid, puts p inside, keeps every point that was inside, and moves each corner coordinate only to p's |
| Boxes.ExtendedStaysTight | freestyle/geometry/BBox.h:53-67 | extending the smallest box around some points by one more point gives the smallest box around all of them |
| Boxes.ExtendedByAllIsTight | freestyle/geometry/BBox.h:53-67 | extending an empty box by a non-empty sequence of points, in turn, ends in the smallest box around them: every point inside, every corner coordinate attained by some point |
| Boxes.TightIsUnique | freestyle/geometry/BBox.h:53-67 | two boxes that are each the smallest around the same points are equal |
| Boxes.ExtendExample | freestyle/geometry/BBox.h:53-67 | empty, then (1,2,3), then (0,5,3) gives min (0,2,3) and max (1,5,3) |
| Boxes.MergedGrows | freestyle/geometry/BBox.h:92-107 | `+=` on a valid non-empty box keeps it valid and leaves inside it every point that was inside either box |
| Boxes.MergedCommutes | freestyle/geometry/BBox.h:92-107 | on two non-empty boxes `+=` gives the same box in either order |
| Boxes.MergedAssociates | freestyle/geometry/BBox.h:92-107 | on non-empty boxes `+=` is associative |
| Boxes.MergedWithEmptyWidens | freestyle/geometry/BBox.h:92-107 | an empty right operand still widens a non-empty box to its stale corners |
| Boxes.PlusIsMergedWhenNonEmpty | freestyle/geometry/BBox.h:127-139 | with a non-empty left operand, `operator+` and `+=` give the same box |
| Boxes.PlusIgnoresEmptiness | freestyle/geometry/BBox.h:127-139 | with an empty left operand they differ: `operator+` folds in the empty box's stale corners |
| Boxes.BBox.constructor | freestyle/geometry/BBox.h:38-40 | a new box is empty |
| Boxes.BBox.FromCorners | freestyle/geometry/BBox.h:42-45 | the box holds the given corners and is non-empty, whether or not the corners are ordered |
| Boxes.BBox.CopyOf | freestyle/geometry/BBox.h:47-50 | the box holds the other box's corners and is non-empty even when the other box is empty |
| Boxes.BBox.ExtendToContain | freestyle/geometry/BBox.h:53-67 | the per-axis loop leaves the box holding exactly `Extended` of its former value, whose properties the lemmas above state |
| Boxes.BBox.Clear | freestyle/geometry/BBox.h:69-71 | only the empty flag changes, to true; the corners stay |
| Boxes.BBox.Assign | freestyle/geometry/BBox.h:85-90 | the box takes the other box's corners and becomes non-empty whatever the other box's flag |
| Boxes.BBox.MergeWith | freestyle/geometry/BBox.h:92-107 | the per-axis loop leaves the box holding exactly `Merged` of the two former values, also when both are the same object |
| Boxes.BBox.Inside | freestyle/geometry/BBox.h:109-118 | the answer is false on an empty box and otherwise true exactly when every coordinate of p lies between the corners, both included |
| Geometry.LexLessAsymmetric | freestyle/view_map/Silhouette.h:593-606 | the Vec3r order used by min2d/max2d never holds both ways |
| Geometry.LexLessTotal | freestyle/view_map/Silhouette.h:593-606 | two distinct Vec3r values are ordered one way or the other |
| Geometry.LexLessIrreflexive | freestyle/view_map/Silhouette.h:593-606 | no Vec3r value comes before itself, so with equal 2D points min2d returns B |
| Geometry.LexLessTransitive | freestyle/view_map/Silhouette.h:593-606 | the Vec3r order used by min2d/max2d is transitive |
| Seqs.IndexOf | freestyle/view_map/Silhouette.h:1292-1304 | the index is that of the first entry equal to x, or the length exactly when x is absent |
| Seqs.Find | freestyle/view_map/Silhouette.h:1294-1303 | the scanning loop stops at the first entry equal to x, or at the end when there is none |
| Seqs.RemoveFirst | freestyle/view_map/Silhouette.h:1306-1318 | erasing shortens the list by one exactly when x is present |
| Seqs.RemoveFirstAt | freestyle/view_map/Silhouette.h:1306-1318 | erasing removes exactly the entry at the first occurrence and keeps all others in order; without x the list is unchanged |
| Seqs.RemoveFirstPointwise | freestyle/view_map/Silhouette.h:1306-1318 | after erasing, entries before the first occurrence keep their positions and later ones move up by one |
| Seqs.ReplaceFirst | freestyle/view_map/Silhouette.h:298-315 | replacing keeps the length |
| Seqs.ReplaceFirstAt | freestyle/view_map/Silhouette.h:298-315 | replacing puts y at the first occurrence of x and keeps every other entry in order; without x the list is unchanged |
| Seqs.ReplaceFirstPointwise | freestyle/view_map/Silhouette.h:298-315 | position by position, only the first occurrence of x changes, to y |
| Seqs.LastOccurrence | freestyle/view_map/Silhouette.h:1080-1101 | every entry of a list has a last occurrence, the copy whose pointer its `userdata` finally holds |
| Seqs.LastIndexOf | freestyle/view_map/Silhouette.h:1080-1101 | the index is that of an entry equal to x with no equal entry after it |
| Seqs.LastBeforeIsLastIndex | freestyle/view_map/Silhouette.h:1080-1101 | a position holding the last occurrence of its entry is the one LastIndexOf finds |
| Silhouette.SVertex.constructor | freestyle/view_map/Silhouette.h:189-199 | the vertex has the given 3D point and id, no normals, no edges, no shape and no user data |
| Silhouette.SVertex.Copy | freestyle/view_map/Silhouette.h:202-219 | the copy holds the brother's data, edge list and shape, unmapped, with NULL user data, and the brother's user data now points at the copy |
| Silhouette.SVertex.NormalsSize | freestyle/view_map/Silhouette.h:248 | the count is zero exactly when the vertex has no normal, and at least one when it has any |
| Silhouette.SVertex.AddNormal | freestyle/view_map/Silhouette.h:268-271 | the normal set becomes the old set with the normal inserted |
| Silhouette.AddNormalIsSetInsertion | freestyle/view_map/Silhouette.h:268-271 | inserting a normal already present changes neither the set nor its size; a new normal grows the size by one |
| Silhouette.SVertex.Normal | freestyle/view_map/Silhouette.h:331 | the result is the single normal exactly when `normalsSize()` is 1, and an AmbiguousNormal failure otherwise, the empty set included |
| Silhouette.SVertex.AddFEdge | freestyle/view_map/Silhouette.h:296 | the edge is appended to the incident-edge list |
| Silhouette.SVertex.Replace | freestyle/view_map/Silhouette.h:298-315 | the list becomes ReplaceFirst of the old one: e2 stands where the first e1 stood, all else unchanged |
| Silhouette.IntersectionSmoothness | freestyle/view_map/Silhouette.h:990-996 | an FEdgeIntersection is smooth when built and not smooth once copied; every other variant's copy keeps what it was built with |
| Silhouette.FEdge.constructor | freestyle/view_map/Silhouette.h:460-472 | a new edge has the given endpoints, no chain links, no nature, the variant's default fields, and a smooth flag set only for the smooth and intersection variants |
| Silhouette.FEdge.Duplicate | freestyle/view_map/Silhouette.h:474-492 | the copy holds the brother's data and pointers, unmapped, but not its occludee intersection, with the smooth flag of its variant's copy rule; the brother's user data now points at the copy |
| Silhouette.FEdge.Endpoint | freestyle/view_map/Silhouette.h:508-510 | the result is A for an even index and B for an odd one |
| Silhouette.EndpointParity | freestyle/view_map/Silhouette.h:508-510 | `operator[]` depends only on the parity of its argument |
| Silhouette.FEdge.Length2D | freestyle/view_map/Silhouette.h:397-401 | the length is 0 when an endpoint is missing, and otherwise the norm of B's 2D point minus A's |
| Silhouette.FEdge.Min2d | freestyle/view_map/Silhouette.h:593-599 | the result is an endpoint whose 2D point does not come after the other endpoint's; A is returned only when A's point is the smaller |
| Silhouette.FEdge.Max2d | freestyle/view_map/Silhouette.h:600-606 | the result is the endpoint min2d does not return |
| Silhouette.Min2dMax2dComplementary | freestyle/view_map/Silhouette.h:593-606 | max2d's point never comes before min2d's; for distinct endpoints they are the two endpoints and min2d is A exactly when A's 2D point is the smaller; with equal 2D points min2d is B and max2d is A |
| Silhouette.FEdge.CommonVertex | freestyle/view_map/Silhouette.h:571-591 | NULL when either edge is NULL; any result is an endpoint of both edges; edge 1's A wins when it is shared; NULL exactly when neither endpoint of edge 1 is an endpoint of edge 2 |
| Silhouette.CommonVertexSymmetric | freestyle/view_map/Silhouette.h:571-591 | for two edges sharing exactly one vertex, CommonVertex finds it in either argument order |
| Silhouette.MapThroughUserData | freestyle/view_map/Silhouette.h:1107-1114 | the new list holds, in order, the `userdata` of each entry of the old one |
| Silhouette.CopyVertices | freestyle/view_map/Silhouette.h:1080-1089 | each vertex gets a new, distinct copy holding its data and edge list, owned by the new shape, and each original's `userdata` points at the copy of its last occurrence |
| Silhouette.CopyEdges | freestyle/view_map/Silhouette.h:1094-1102 | each edge gets a new, distinct copy holding its data and pointers, and each original's `userdata` points at the copy of its last occurrence |
| Silhouette.CopyElements | freestyle/view_map/Silhouette.h:1080-1102 | the two copy passes in order: new, distinct copies of every vertex (owned by the new shape) and every edge, none of them an original, with each original's `userdata` leading to the copy of its last occurrence |
| Silhouette.RemapVertexEdges | freestyle/view_map/Silhouette.h:1119-1134 | each copied vertex's edge list becomes its brother's passed through `userdata`, entry by entry |
| Silhouette.RemapEdgeLinks | freestyle/view_map/Silhouette.h:1139-1147 | each copied edge's endpoints and chain links become its brother's passed through `userdata` |
| Silhouette.RedirectLinks | freestyle/view_map/Silhouette.h:1143-1146 | an edge's four pointers are replaced by their targets' `userdata` |
| Silhouette.ResetUserData | freestyle/view_map/Silhouette.h:1150-1170 | the `userdata` of every vertex and edge of the new shape is NULL |
| Silhouette.RemappedIsCopied | freestyle/view_map/Silhouette.h:1104-1147 | after the copy passes, redirecting through `userdata` sends every chain head, incident edge, endpoint and chain link of a listed target to the copy of that target |
| Silhouette.RemapPointers | freestyle/view_map/Silhouette.h:1104-1147 | the three remapping passes: the chain list, each copied vertex's edge list, and each copied edge's endpoints and chain links become the brother's passed through `userdata` |
| Silhouette.CopyAndRemap | freestyle/view_map/Silhouette.h:1080-1147 | copying then remapping sends every pointer inside the copies, and every chain head, whose target is in the brother's lists to the copy of that target's last occurrence |
| Silhouette.CopyShape | freestyle/view_map/Silhouette.h:1076-1170 | all passes together: the lists become a copy of the brother's, owned by the new shape, with every pointer redirected to the copy of its target and the copies' user data clear |
| Silhouette.SShape.constructor | freestyle/view_map/Silhouette.h:1057-1063 | a new shape has empty lists, an empty box, importance 0 and no view shape |
| Silhouette.SShape.Clone | freestyle/view_map/Silhouette.h:1065-1171 | the copy has the brother's id, materials, importance and view shape, the brother's box marked non-empty, and new vertex and edge lists that are a redirected copy of the brother's (IsCopy) |
| Silhouette.SShape.CopyFrom | freestyle/view_map/Silhouette.h:1076-1170 | the copy constructor's body: the three lists become a copy of the brother's, owned by this shape |
| Silhouette.SShape.Dupplicate | freestyle/view_map/Silhouette.h:1173-1177 | the result is a new shape that copies this one; when this shape is closed, so is the copy, and none of its edges' pointers leads back into this shape |
| Silhouette.CloneIsClosed | freestyle/view_map/Silhouette.h:1104-1147 | the copy of a shape whose pointers all lead into its own lists has the same property |
| Silhouette.CloneIsSeparate | freestyle/view_map/Silhouette.h:1104-1147 | in the copy of such a shape, no chain head, incident edge, endpoint or chain link points into the original's lists |
| Silhouette.SShape.AddEdge | freestyle/view_map/Silhouette.h:1182-1185 | the edge is appended to the edge list |
| Silhouette.SShape.AddNewVertex | freestyle/view_map/Silhouette.h:1190 | the vertex is appended and now belongs to this shape |
| Silhouette.SShape.AddChain | freestyle/view_map/Silhouette.h:1191-1193 | the edge is appended to the chain-head list |
| Silhouette.SShape.CreateSVertex | freestyle/view_map/Silhouette.h:1195-1201 | exactly one new vertex is appended, with the given positions and id, owned by this shape |
| Silhouette.SShape.SetBBox | freestyle/view_map/Silhouette.h:1241 | the box takes the given corners through `operator=`, so it is non-empty |
| Silhouette.SShape.Extrema | freestyle/view_map/Silhouette.h:1249-1286 | the six running extrema end as the smallest box around the vertices' 3D points |
| Silhouette.SShape.ComputeBBox | freestyle/view_map/Silhouette.h:1244-1290 | without vertices the box is unchanged; otherwise it is the smallest box around every vertex's 3D point, and equals extending an empty box by each point in turn |
| Silhouette.SShape.RemoveEdgeFromChain | freestyle/view_map/Silhouette.h:1292-1304 | the chain list loses its first occurrence of the edge and nothing else |
| Silhouette.SShape.RemoveEdge | freestyle/view_map/Silhouette.h:1306-1318 | the edge list loses its first occurrence of the edge and nothing else |
| Silhouette.SShape.RemoveVertex | freestyle/view_map/Silhouette.h:1345-1353 | the vertex list loses its first occurrence of the vertex and nothing else |
| FEdgeInternal.Forward | freestyle/view_map/Silhouette.h:741-748 | incrementing reaches the end position exactly at B (or when B is NULL), and otherwise moves to B |
| FEdgeInternal.Backward | freestyle/view_map/Silhouette.h:750-756 | decrementing reaches the end position exactly at A (or when A is NULL), and otherwise moves to A |
| FEdgeInternal.Parameter | freestyle/view_map/Silhouette.h:780-785 | the parameter is 0 exactly at A and 1 everywhere else |
| FEdgeInternal.WalkFromBegin | freestyle/view_map/Silhouette.h:741-748 | incrementing from A visits A, then B, then the end; when A and B are one vertex it visits it once |
| FEdgeInternal.WalkBackFromLast | freestyle/view_map/Silhouette.h:750-756 | decrementing from B visits B, then A, then the end; decrementing from A gives the end at once |
| FEdgeInternal.StepsUndo | freestyle/view_map/Silhouette.h:741-756 | on an edge with distinct endpoints, decrementing undoes incrementing at A and incrementing undoes decrementing at B |
| FEdgeInternal.SVertexIterator.Default | freestyle/view_map/Silhouette.h:686-689 | no vertex, no edge |
| FEdgeInternal.SVertexIterator.Copy | freestyle/view_map/Silhouette.h:691-694 | the same vertex and edge as the other iterator |
| FEdgeInternal.SVertexIterator.constructor | freestyle/view_map/Silhouette.h:696-699 | the given vertex and edge |
| FEdgeInternal.SVertexIterator.Assign | freestyle/view_map/Silhouette.h:701-705 | takes the other iterator's vertex and edge |
| FEdgeInternal.SVertexIterator.Increment | freestyle/view_map/Silhouette.h:741-748 | the vertex moves as Forward says; the edge stays |
| FEdgeInternal.SVertexIterator.Decrement | freestyle/view_map/Silhouette.h:750-756 | the vertex moves as Backward says; the edge stays |
| FEdgeInternal.SVertexIterator.PostIncrement | freestyle/view_map/Silhouette.h:724-728 | returns a new iterator at the former position, and moves as Forward says |
| FEdgeInternal.SVertexIterator.PostDecrement | freestyle/view_map/Silhouette.h:735-739 | returns a new iterator at the former position, and moves as Backward says |
| FEdgeInternal.SVertexIterator.IsBegin | freestyle/view_map/Silhouette.h:758-760 | true exactly where the parameter is 0, that is from where decrementing reaches the end |
| FEdgeInternal.SVertexIterator.IsEnd | freestyle/view_map/Silhouette.h:762-764 | true exactly from where incrementing reaches the end position, that is at B and not at the end position |
| FEdgeInternal.SVertexIterator.U | freestyle/view_map/Silhouette.h:780-785 | 0 exactly at A, 1 everywhere else, the end position included |
| FEdgeInternal.VerticesBegin | freestyle/view_map/Silhouette.h:800-803 | a new iterator on the edge, at A |
| FEdgeInternal.VerticesEnd | freestyle/view_map/Silhouette.h:805-808 | a new iterator on the edge, at the end position NULL |
| FEdgeInternal.PointsBegin | freestyle/view_map/Silhouette.h:810-812 | the iterator verticesBegin gives; the sampling argument is ignored |
| FEdgeInternal.PointsEnd | freestyle/view_map/Silhouette.h:814-816 | the iterator verticesEnd gives; the sampling argument is ignored |

## Left out

- Setters and plain accessors (`SetPoint3D`, `SetId`, `SetNature`, `SetNextEdge`, `getId`, `bbox()`, `empty()`, `getMin()` and the like) are field assignments and reads. Fields that no modelled operation changes are `const`.
- Floating point: `getLength2D`'s Euclidean norm is a parameter of `Length2D`; the `Vec2f` casts and `float` truncations are not modelled.
- `SVertexIterator::t()` (a float length), `operator*`/`operator->`, `copy()` (the copy constructor on the heap) and `getExactTypeName()` are left out, as are `center2d`/`center3d`/`orientation2d`/`orientation3d`.
- FEdgeInternal.SVertexIterator.Equals compares with another `SVertexIterator` only; the `dynamic_cast` to other `Interface0DIteratorNested` kinds, which answers false, is not modelled. It has no contract of its own and no row.
- The Interface0D/Interface1D plumbing (type-name strings, `castTo*`, the virtual iterator wrappers) is not part of this model.
- Members declared without bodies in these files (`SplitEdge`, `SplitEdgeIn2`, `getFEdge`, `fedge`, `qi`, `occluders_*`, `occludee*`, `shape_id`, `material`, `getColorID`, `intersectParametric`, `~SShape` and the like) have no behaviour to model.
- The commented-out `FEdgePOIntersection` and the base `FEdge::getFace1`/`getFace2` `assert(0)` stubs are not modelled.
- `CurvatureInfo`, `Material`, `Polygon3r` are opaque payloads copied by value; mesh and view-map objects are opaque numbers (see above). `Exception::raiseException` is the `Err(AmbiguousNormal)` result.
- The free `operator+` returns a reference to a temporary; only its value is modelled.
- Boxes.BBox.CopyOf models the converting template constructor, which C++ uses only when the point types differ. A copy from a box of the same point type uses the implicit copy constructor, which keeps the empty flag; that copy is not modelled, and no modelled operation copy-constructs a box.
- The `userdata` slot of `SShape` itself is never read by the core and is not modelled.
- Silhouette.SShape.Clone: the redirection is stated for pointers whose target is in the brother's lists; a pointer to an element outside them takes that element's `userdata`, which the pass-level contracts (`RemapVertexEdges`, `RemapEdgeLinks`, `MapThroughUserData`) state but `Clone` does not repeat.
- Silhouette.SShape.Clone: the copy is stated to be made of new objects, which keeps it apart from the brother, but aliasing between the copy's lists and other shapes is not otherwise stated.
- The default constructors `FEdge()`, `FEdgeSharp()`, `FEdgeSmooth()` and `FEdgeIntersection()` leave the endpoints uninitialised; the model has only the two-vertex constructors, which cover them with NULL endpoints.
- `freestyle/geometry/VecMat.h` is not part of this model: `Vec3r` is three reals, its default value is the origin, and its `operator<` is taken to be lexicographic.
