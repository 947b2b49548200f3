# Reflection paths and profile simplification

This project models two parts of a noise-propagation tool that builds
cross-section profiles between a sound source and a receiver.

* `ReflectionPath` (`code/simpleReflection.py`) finds first- and second-order
  reflection paths off building walls with the image-source method. It covers
  the Hessian normal form of a wall's line, the mirror image and the
  orthogonal foot of a point, parametric segment intersection, the two ways of
  cutting a wall into candidate points, and the side tests that keep every
  path outside the building.
* `XmlParser` (`code/xmlParser.py`) post-processes a profile. It moves the
  profile so that it starts at the receiver and no vertex lies below height
  zero. It then simplifies the profile with a seeded Douglas-Peucker pass that
  keeps every extension point and every material change. Finally it renumbers
  the extension dictionary and keeps only the chosen vertices and materials.

Modules:

* `Wrappers` (`wrappers.dfy`): `Option` and the sequence combinators
  `MapSeq`, `FilterMap` and `FlatMap`, with their membership lemmas.
* `Geometry` (`geometry.dfy`): points as exact reals, the squared distance,
  and `misc.side_test` taken as the 2D cross product. Python's `math.sqrt` is
  a parameter `sqrt: real -> real` constrained by `IsSqrt`.
* `ReflectionGeometry` (`reflection_geometry.dfy`): `get_line_equation`,
  `get_mirror_point`, `get_closest_point`, `line_intersect`, `split_lineseg`
  and `split_lineseg2`.
* `SimpleReflection` (`simple_reflection.dfy`): `get_candidate_point`,
  `get_first_paths` and `get_second_paths`. They are methods of the class
  `ReflectionPath`, whose fields stand for the module-level `f_dict`,
  `c_list`, `p1_list` and `p2_list`. Each method appends to its list, in the
  source's loop order. Each method is proved equal to a functional definition.
  The first- and second-order results are characterised exactly relative to
  the per-wall tests `ReflectAt` and `ChainAt`: a point or chain is in the
  result if and only if that test accepts it at some wall. Each per-wall test
  is in turn proved sound and complete: it accepts exactly the common point of
  the wall and the segment from the mirrored source, when the two are not
  parallel and the other tests pass. The
  candidates are characterised in one direction: every candidate lies on a
  wall of its building.
* `XmlParsing` (`xml_parser.dfy`): the class `XmlParser`, with `vts` as an
  array standing for the numpy buffer, `mat` as a sequence and `ext` as a map.

Two points where the code does less than its comments suggest:

* The simplifier measures offsets in the plane of columns 0 and 2 (x and z)
  of each vertex. Column 0 stands in for the horizontal distance along the
  profile. The unfolding of the path into a (distance, height) plane is
  commented out at code/xmlParser.py:30-31. So is the step that makes the path
  run in positive x and y (lines 33-35), although the docstring of
  `normalize_path` still announces it (line 17).
* A first-order reflection needs the source and the receiver on the same,
  outer side of the wall (code/simpleReflection.py:195). With the two on opposite sides of a wall no path is
  produced. `SimpleReflection.OppositeSidesNoReflection` shows this on a
  concrete wall.

## Model

| member | source | states |
|---|---|---|
| XmlParsing.XmlParser.constructor | code/xmlParser.py:8-11 | the vertex buffer holds the given path; the extensions and materials are the given ones |
| XmlParsing.XmlParser.NormalizePath | code/xmlParser.py:13-27 | the buffer becomes the normalised profile of its old contents, in place |
| XmlParsing.MinZ | code/xmlParser.py:26 | the result is a lower bound of every height and is attained by some vertex |
| XmlParsing.NormalizedShape | code/xmlParser.py:23-27 | the normalised profile keeps its length, starts at x = y = 0, has no height below 0 and some height equal to 0, and keeps every difference between two vertices |
| XmlParsing.ChordIsLength | code/xmlParser.py:52 | `line_length` is the length of the chord in the (x, z) plane; it is 0 exactly when both ends project to the same point |
| XmlParsing.XmlParser.GetOffsetsPerpendicular | code/xmlParser.py:38-60 | one offset per interior vertex, in order, each the offset of that vertex from the chord, never negative |
| XmlParsing.OffsetIsDistance | code/xmlParser.py:52-57 | an offset is the absolute distance from the chord's line in normal form, so the side test divided by the chord length is a true perpendicular distance |
| XmlParsing.OffsetNonNegative | code/xmlParser.py:57 | an offset is never negative |
| XmlParsing.OffsetOnChord | code/xmlParser.py:57 | a vertex lying on the chord has offset 0 |
| XmlParsing.ArgMax | code/xmlParser.py:100 | `np.argmax`: an index of a largest entry, the first one among equals |
| XmlParsing.BisectRight | code/xmlParser.py:78 | `bisect.insort` position: every entry before it is at most x, the entry at it exceeds x |
| XmlParsing.Insert | code/xmlParser.py:105 | `list.insert`: x at the position, the prefix kept, the rest shifted by one |
| XmlParsing.InsortIncreasing | code/xmlParser.py:78 | inserting a new index keeps the list strictly increasing and adds exactly that index |
| XmlParsing.InsertElems | code/xmlParser.py:105 | inserting adds exactly the inserted index to the list's elements |
| XmlParsing.InsertBetween | code/xmlParser.py:105 | inserting between two neighbours that bracket x is the same as `insort` and keeps the list increasing |
| XmlParsing.IncreasingUnique | code/xmlParser.py:75-84 | two increasing lists with the same elements are equal, so the seed list does not depend on the dictionary's iteration order |
| XmlParsing.IncreasingFloor | code/xmlParser.py:111 | the j-th index of an increasing list of non-negative indices is at least j, so renumbering never moves a key up |
| XmlParsing.IncreasingLength | code/xmlParser.py:88 | an increasing list of vertex indices is no longer than the buffer, so refinement ends |
| XmlParsing.SeedMaterialStep | code/xmlParser.py:81-84 | one step of the material loop keeps the list increasing, and the list then holds the keys and every material change seen so far |
| XmlParsing.XmlParser.SeedPath | code/xmlParser.py:75-84 | the initial list is strictly increasing and holds exactly the extension keys and the material changes |
| XmlParsing.SeedsNonEmpty | code/xmlParser.py:76-84 | with at least one extension the seed list is not empty and its ends are seeds |
| XmlParsing.SeedsInRange | code/xmlParser.py:77-84 | every seed is a vertex index when every key is |
| XmlParsing.XmlParser.LargestOffset | code/xmlParser.py:97-101 | the index chosen lies strictly inside the pair, has the largest offset, and is the first such index |
| XmlParsing.JustifiedGrows | code/xmlParser.py:105 | kept indices are never removed, so a vertex inserted for a pair of kept indices stays justified |
| XmlParsing.JustifiedInsert | code/xmlParser.py:103-105 | inserting the first largest offset of a kept pair, when it is above the threshold, keeps every non-seed index justified |
| XmlParsing.ShapeInsert | code/xmlParser.py:105 | the insertion keeps the list increasing, keeps the seeds and both ends, and adds exactly the new index |
| XmlParsing.SettledInsert | code/xmlParser.py:105 | the insertion after position i leaves the settled pairs before i settled |
| XmlParsing.RefineInsert | code/xmlParser.py:103-105 | inserting the first largest offset of the pair at i, when it is above the threshold, keeps the refinement invariant, justification included |
| XmlParsing.RefineSkip | code/xmlParser.py:92-94 | moving past a settled pair keeps the refinement invariant |
| XmlParsing.XmlParser.Refine | code/xmlParser.py:87-107 | the refined list is increasing, keeps every seed and both ends, and every consecutive pair is settled: adjacent, zero-length, or with no interior offset above the threshold. Every index beyond the seeds is justified: for some pair of kept indices it is the first vertex of largest offset, and that offset exceeds the threshold |
| XmlParsing.RemappedKeys | code/xmlParser.py:111-114 | the renumbered map sends the entry of every old key to that key's position in the list, never to a larger key, keeps the keys' order and merges no two keys |
| XmlParsing.KeyPosition | code/xmlParser.py:111 | every listed index has a position, at most the index itself |
| XmlParsing.RemapStart | code/xmlParser.py:111 | before the loop the closed-form state is the old map |
| XmlParsing.RemapHasNext | code/xmlParser.py:112-114 | visiting position id adds key id exactly when the old index has an entry, removes the old index, and changes nothing else |
| XmlParsing.RemapMove | code/xmlParser.py:112-114 | when the old index carries an entry under another key, one visit moves that entry to key id |
| XmlParsing.RemapStay | code/xmlParser.py:112 | when the old index has no entry, or equals id, one visit leaves the map unchanged |
| XmlParsing.RemapStep | code/xmlParser.py:111-114 | one visit performs the source's pop-and-store on the closed-form state, so `ext[id]` never overwrites a live entry |
| XmlParsing.RemapDone | code/xmlParser.py:111-114 | after the last visit the state is the renumbered map |
| XmlParsing.XmlParser.RemapExtensions | code/xmlParser.py:111-114 | the in-place loop leaves `ext` equal to the renumbered old map |
| XmlParsing.XmlParser.Rebuild | code/xmlParser.py:109-117 | the extensions are renumbered, and the materials and vertices are those at the listed indices, in order; the object stays consistent |
| XmlParsing.XmlParser.DouglasPeucker | code/xmlParser.py:62-117 | the kept indices are increasing, include every extension and material change, and start and end at seeds. No consecutive pair keeps an interior offset above the threshold. Every other kept index is the first vertex of largest offset, above the threshold, of some pair of kept indices. Materials, vertices and extensions are rebuilt from the kept indices |
| XmlParsing.ExampleTie | code/xmlParser.py:97-105 | on a five-vertex profile with a raised middle, vertices 1 and 2 tie for the largest offset from the chord 0 -> 3; `np.argmax` picks vertex 1, whose offset exceeds 0.05 |
| XmlParsing.ExampleKeepsAll | code/xmlParser.py:87-107 | on that profile with threshold 0.05 and seeds 0 and 4, the only index list whose pairs are all settled is [0, 1, 2, 3, 4], so every vertex is kept |
| ReflectionGeometry.GetLineEquation | code/simpleReflection.py:13-36 | the line has a unit normal and passes through both points |
| ReflectionGeometry.NormalizedLine | code/simpleReflection.py:26-35 | dividing a, b, c by the norm gives a unit normal and keeps both points on the line |
| ReflectionGeometry.LineEquationSide | code/simpleReflection.py:13-36 | the signed distance times the segment length is minus the side test, so left of p1->p2 is the negative side |
| ReflectionGeometry.GetMirrorPoint | code/simpleReflection.py:38-53 | the mirror image moves along the normal and negates the signed distance |
| ReflectionGeometry.MirrorInvolution | code/simpleReflection.py:38-53 | mirroring twice returns the point |
| ReflectionGeometry.MirrorFixedPoints | code/simpleReflection.py:38-53 | a point is its own mirror image exactly when it lies on the line |
| ReflectionGeometry.MirrorIsometry | code/simpleReflection.py:38-53 | mirroring keeps the distance to every point of the line |
| ReflectionGeometry.GetClosestPoint | code/simpleReflection.py:55-70 | the foot lies on the line, along the normal, midway between the point and its mirror image |
| ReflectionGeometry.ClosestIsNearest | code/simpleReflection.py:55-70 | no point of the line is closer than the foot |
| ReflectionGeometry.CramerMeet | code/simpleReflection.py:83-86 | with a non-zero determinant the parameters uA and uB give the same point on both lines |
| ReflectionGeometry.CramerUnique | code/simpleReflection.py:83-86 | those parameters are the only ones that meet |
| ReflectionGeometry.LineIntersect | code/simpleReflection.py:72-93 | no result for parallel lines; a result lies on both segments |
| ReflectionGeometry.LineIntersectComplete | code/simpleReflection.py:72-93 | a common point of two non-parallel segments is found |
| ReflectionGeometry.StepIsPointAt | code/simpleReflection.py:110-118 | the k-th repeated step is the point at parameter k / n |
| ReflectionGeometry.SplitLineseg | code/simpleReflection.py:95-119 | n + 1 points from start to end, the k-th at parameter k / n, equal steps between them |
| ReflectionGeometry.LengthPositive | code/simpleReflection.py:135 | the length is non-negative, squares to the squared distance, and is positive exactly for a proper segment |
| ReflectionGeometry.SampleCountBound | code/simpleReflection.py:136-139 | no sample height exceeds the length |
| ReflectionGeometry.SampleParameter | code/simpleReflection.py:138-143 | the k-th sample is the point at parameter k * dim / length, within (0, 1] |
| ReflectionGeometry.SampleDistance | code/simpleReflection.py:138-143 | the k-th sample lies at distance k * dim from the start |
| ReflectionGeometry.SampleWall | code/simpleReflection.py:137-143 | the loop yields the start followed by the samples |
| ReflectionGeometry.SplitLineseg2 | code/simpleReflection.py:121-148 | the result is the subdivision of the wall |
| ReflectionGeometry.SubdivisionOnWall | code/simpleReflection.py:121-148 | every point lies on the wall, the k-th sample at distance k * dim from its start |
| ReflectionGeometry.SubdivisionShape | code/simpleReflection.py:121-148 | starts at the start, ends at the end, and has one point more when the last sample is not the end |
| SimpleReflection.ReflectionPath.constructor | code/simpleReflection.py:8-11 | the buildings are stored and the three path lists start empty |
| SimpleReflection.ReflectionPath.AddWallCandidates | code/simpleReflection.py:163-168 | one wall appends one candidate per subdivision point, at roof height |
| SimpleReflection.ReflectionPath.AddBuildingCandidates | code/simpleReflection.py:160-168 | one building appends its walls' candidates in order |
| SimpleReflection.ReflectionPath.GetCandidatePoint | code/simpleReflection.py:150-168 | `c_list` grows by the candidates of every wall of every building, in order |
| SimpleReflection.CandidatesOfWallOnWall | code/simpleReflection.py:163-168 | every candidate of a wall lies on that wall, at roof height, between the wall's ends |
| SimpleReflection.CandidatesOfWallsOnWalls | code/simpleReflection.py:163-168 | every candidate of a building lies on one of its walls |
| SimpleReflection.CandidatesOnWalls | code/simpleReflection.py:150-168 | every candidate lies on a wall of some building |
| SimpleReflection.ReflectAt | code/simpleReflection.py:193-197 | the per-wall test of `get_first_paths`: a point comes back only when the receiver and the source both pass the side test, and it lies on the wall |
| SimpleReflection.ReflectAtSound | code/simpleReflection.py:193-198 | a reflection is found only with source and receiver left of the wall, and it lies on the wall and on the line from the mirrored source to the receiver |
| SimpleReflection.ReflectionEqualDistance | code/simpleReflection.py:196-197 | the reflection point is as far from the source as from its mirror image |
| SimpleReflection.ReflectAtComplete | code/simpleReflection.py:193-198 | every common point of the wall and that line, in the non-parallel case, is found |
| SimpleReflection.FirstHitsOfWallsMembers | code/simpleReflection.py:192-203 | the hits of one building are exactly the reflection points of its walls, at roof height |
| SimpleReflection.FirstHitsMembers | code/simpleReflection.py:170-205 | the hits are exactly the reflection points of all walls of all buildings |
| SimpleReflection.ReflectionPath.AddBuildingHits | code/simpleReflection.py:190-203 | one building appends its hits, their heights and their paths |
| SimpleReflection.ReflectionPath.GetFirstPaths | code/simpleReflection.py:170-205 | `coords` are the hits, `heights` their roof heights, and `p1_list` grows by the path s -> hit -> r of each |
| SimpleReflection.DistanceGuard | code/simpleReflection.py:243-244 | `dist > 0.1` gives two distinct points, so the line through them is defined |
| SimpleReflection.ChainAt | code/simpleReflection.py:233-248 | the per-wall test of `get_second_paths`: a chain comes back only when the candidate and the source pass the first wall's side test, b lies on that wall, and b and the receiver pass the candidate wall's side test; the chain keeps the wall's height, the candidate and the receiver's height |
| SimpleReflection.ChainAtSound | code/simpleReflection.py:233-253 | an accepted chain passes every side test, the distance guard and the tolerance test, and its first point lies on the wall and on the mirrored-source line |
| SimpleReflection.ChainAtComplete | code/simpleReflection.py:233-248 | conversely, a point on the wall and on the segment from the mirrored source to the candidate, not parallel, that passes the candidate wall's side tests, the distance guard and the tolerance test, is accepted as the chain's first point |
| SimpleReflection.ChainReceiverOnLine | code/simpleReflection.py:242-248 | the projected receiver lies on the line from the mirrored first point to the candidate, no farther from r than the candidate |
| SimpleReflection.ChainsOfBuildingsMembers | code/simpleReflection.py:229-253 | the chains of one candidate are exactly those accepted at some wall |
| SimpleReflection.SecondChainsMembers | code/simpleReflection.py:227-253 | the chains are exactly those accepted for some candidate at some wall |
| SimpleReflection.ReflectionPath.AddWallChains | code/simpleReflection.py:232-253 | one building appends its accepted chains' coordinates, heights and paths |
| SimpleReflection.ReflectionPath.GetSecondPaths | code/simpleReflection.py:207-255 | `coords`, `heights` and the growth of `p2_list` are the accepted chains, in loop order |
| SimpleReflection.ExampleWallLine | code/simpleReflection.py:26-35 | the wall from (0, 0) to (10, 0) has the line 0x - y + 0 = 0 |
| SimpleReflection.ExampleMirror | code/simpleReflection.py:50-53 | (2, 5) mirrors to (2, -5) in that line |
| SimpleReflection.ExampleIntersection | code/simpleReflection.py:83-93 | the segment (2, -5)-(8, 5) meets the wall at (5, 0) |
| SimpleReflection.ExampleReflection | code/simpleReflection.py:193-197 | a source at (2, 5) and a receiver at (8, 5) reflect at (5, 0) |
| SimpleReflection.SameSideReflection | code/simpleReflection.py:189-203 | with one building of height 5 that is the only first-order hit, at height 5 |
| SimpleReflection.OppositeSidesNoReflection | code/simpleReflection.py:195 | a source and a receiver on opposite sides of the wall give no first-order hit |

## Left out

- `write_xml`, `read_buildings`, `read_points` and the `write_*` functions are left out. So are the `__main__` blocks and the manager modules. They are file I/O over fiona, XML and Shapely.
- Floating point is left out: coordinates are exact reals. Rounding, `inf` and NaN are not modelled.
- `math.sqrt` is a parameter. `IsSqrt` says only that it returns the non-negative square root of a non-negative argument.
- The helper module `misc` is not part of this model. `misc.side_test` is taken to be the cross product (b - a) x (p - a), positive to the left of a->b.
- The `print` calls of the two path searches are left out.
- Aliasing is not modelled: points and lists are values.
  - `get_candidate_point` appends `h_dak` to the point lists returned by `split_lineseg2`. The first point is always the wall's own start list. The last point is the wall's own end list only when `split_lineseg2` appended it, that is, when the last sample falls short of the end (`SubdivisionShape`). The model keeps walls two-dimensional, because no later computation reads a third coordinate of a wall end.
  - `get_first_paths` and `get_second_paths` append a height to a point list they have already stored in `coords`. The model stores the changed value.
  - `XmlParser` shares the `ext` dictionary with its caller; the model owns the map.
- SimpleReflection.ReflectionPath.constructor: the source constructor stores `sources`, `receivers` and `footprints`, which the modelled methods never read; they are dropped. `f_dict`, filled by `read_buildings`, is passed in. The module-level lists `c_list`, `p1_list` and `p2_list`, which every instance shares in Python, become fields of each object.
- `f_dict` iteration order is taken to be the order of the building sequence. Dictionary iteration order in `douglas_Peucker` does not matter: `IncreasingUnique` shows the seed list depends only on the set of keys.
- XmlParsing.XmlParser.GetOffsetsPerpendicular: requires a non-zero chord. The source divides by zero there, and numpy yields NaN or infinity.
- XmlParsing.XmlParser.NormalizePath: requires a non-empty buffer. On an empty one the source raises an index error at `self.vts[0]` (code/xmlParser.py:24).
- XmlParsing.XmlParser.Refine: a zero-length chord is an explicit branch that moves to the next pair. In the source every offset is then NaN, `argmax` is 0, and `NaN > threshold` is false.
- XmlParsing.XmlParser.DouglasPeucker: `assert(len(self.ext) > 1)` is a precondition. So is `Consistent`: one material per vertex, every extension key a vertex index. Outside `Consistent` the source behaves in different ways, and the model covers none of them:
  - It raises an index error for a key beyond the last vertex, or for one material per segment (line 116).
  - It runs to completion for more materials than vertices when no material change falls at or past the last vertex.
  - A negative key indexes from the end.
- XmlParsing.XmlParser.DouglasPeucker: the kept index list is returned as a ghost value, because the source does not return it.
- ReflectionGeometry.GetLineEquation: requires two distinct points. The source divides by zero otherwise; every caller passes a wall that has passed a side test, or two points more than 0.1 apart.
- ReflectionGeometry.LineIntersect: the `if d:` test is taken as `d != 0`. The failure value `False` becomes `None`.
- ReflectionGeometry.SplitLineseg2: requires `dim != 0`. The source raises on `length // dim` otherwise.
- `mat` is a sequence of strings. The source also uses `None` as a roof-edge material. Only equality between materials matters (code/xmlParser.py:82), so any distinct string stands in for it.
- That a larger threshold never keeps more vertices is not stated. It relates two runs of the simplification, and the model specifies one run by its outcome, not by a function of the threshold.
- The `Extension` payload is reduced to the fields the model needs. The writer reads further fields, and the writer is not part of this model.
