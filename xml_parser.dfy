/**
 * The path post-processing of `XmlParser` (code/xmlParser.py): moving a
 * cross-section profile so that it starts at the receiver with no vertex
 * below height zero, and the seeded Douglas-Peucker simplification that
 * keeps every extension point and every material change.
 */
module XmlParsing {
  import opened Geometry
  import opened ReflectionGeometry

  /** The payload of an extension point, `[kind, height, ...]` in the source. */
  datatype Extension =
    | Source(h: real, lineLength: real)
    | Receiver(h: real)
    | Wall(h: real, material: string)
    | Edge(h: real, material: string)

  // ---------------------------------------------------------------------------
  // Normalisation
  // ---------------------------------------------------------------------------

  /** The componentwise difference p - q of two vertices. */
  function Minus(p: Point3, q: Point3): Point3
  {
    Point3(p.x - q.x, p.y - q.y, p.z - q.z)
  }

  /** Every vertex moved by -d (`vts -= d` on the whole buffer). */
  function Translated(ps: seq<Point3>, d: Point3): (r: seq<Point3>)
    ensures |r| == |ps|
  {
    seq(|ps|, i requires 0 <= i < |ps| => Minus(ps[i], d))
  }

  /** `np.min(vts[:, 2])`: the lowest height of a non-empty profile. */
  function MinZ(ps: seq<Point3>): (m: real)
    requires |ps| > 0
    ensures forall i :: 0 <= i < |ps| ==> m <= ps[i].z
    ensures exists i :: 0 <= i < |ps| && ps[i].z == m
  {
    if |ps| == 1 then ps[0].z
    else
      var m := MinZ(ps[..|ps| - 1]);
      assert forall i :: 0 <= i < |ps| - 1 ==> ps[..|ps| - 1][i] == ps[i];
      if ps[|ps| - 1].z < m then ps[|ps| - 1].z else m
  }

  /**
   * What `normalize_path` leaves in the buffer: every vertex relative to the
   * first one, then lifted by -z_min when some height is negative.
   */
  function Normalized(ps: seq<Point3>): seq<Point3>
    requires |ps| > 0
  {
    var rel := Translated(ps, ps[0]);
    var zMin := MinZ(rel);
    if zMin < 0.0 then Translated(rel, Point3(0.0, 0.0, zMin)) else rel
  }

  /**
   * The normalised profile starts at x = y = 0, has no negative height and
   * touches height zero, and is a translate of the original: all differences
   * between vertices are unchanged.
   */
  lemma NormalizedShape(ps: seq<Point3>)
    requires |ps| > 0
    ensures |Normalized(ps)| == |ps|
    ensures Normalized(ps)[0].x == 0.0 && Normalized(ps)[0].y == 0.0
    ensures forall i :: 0 <= i < |ps| ==> 0.0 <= Normalized(ps)[i].z
    ensures exists i :: 0 <= i < |ps| && Normalized(ps)[i].z == 0.0
    ensures forall i, j :: 0 <= i < |ps| && 0 <= j < |ps| ==>
      Minus(Normalized(ps)[i], Normalized(ps)[j]) == Minus(ps[i], ps[j])
  {
    var rel := Translated(ps, ps[0]);
    var zMin := MinZ(rel);
    assert rel[0].z == 0.0;
    var i0 :| 0 <= i0 < |rel| && rel[i0].z == zMin;
    if zMin < 0.0 {
      assert Normalized(ps)[i0].z == 0.0;
    } else {
      assert Normalized(ps)[0].z == 0.0;
    }
  }

  // ---------------------------------------------------------------------------
  // Sorted index lists (`bisect.insort`)
  // ---------------------------------------------------------------------------

  /** Strictly increasing: sorted and free of duplicates. */
  ghost predicate Increasing(s: seq<int>)
  {
    forall a, b :: 0 <= a < b < |s| ==> s[a] < s[b]
  }

  /** The elements of an index list. */
  ghost function Elems(s: seq<int>): set<int>
  {
    set x | x in s
  }

  /** Only the empty list has no elements. */
  lemma ElemsEmpty(s: seq<int>)
    ensures Elems(s) == {} <==> |s| == 0
  {
    if |s| > 0 {
      assert s[0] in Elems(s);
    }
  }

  /** `bisect.bisect_right(s, x)`: the position after every leading entry <= x. */
  function BisectRight(s: seq<int>, x: int): (k: int)
    ensures 0 <= k <= |s|
    ensures forall j :: 0 <= j < k ==> s[j] <= x
    ensures k < |s| ==> x < s[k]
  {
    if |s| == 0 || x < s[0] then 0 else 1 + BisectRight(s[1..], x)
  }

  /** `list.insert(at, x)`: x placed before the entry at position at. */
  function Insert(s: seq<int>, at: int, x: int): (r: seq<int>)
    requires 0 <= at <= |s|
    ensures |r| == |s| + 1 && r[at] == x
    ensures forall j :: 0 <= j < at ==> r[j] == s[j]
    ensures forall j :: at < j < |r| ==> r[j] == s[j - 1]
  {
    s[..at] + [x] + s[at..]
  }

  /** `bisect.insort(s, x)`: x inserted at `bisect_right(s, x)`. */
  function Insort(s: seq<int>, x: int): seq<int>
  {
    Insert(s, BisectRight(s, x), x)
  }

  /** Inserting a new index into a strictly increasing list keeps it so and adds exactly that index. */
  lemma InsortIncreasing(s: seq<int>, x: int)
    requires Increasing(s) && x !in s
    ensures Increasing(Insort(s, x))
    ensures Elems(Insort(s, x)) == Elems(s) + {x}
    ensures |Insort(s, x)| == |s| + 1
  {
    var k := BisectRight(s, x);
    InsertElems(s, k, x);
    assert forall j :: 0 <= j < k ==> s[j] < x;
  }

  /** Insertion adds exactly the inserted index to the elements. */
  lemma InsertElems(s: seq<int>, at: int, x: int)
    requires 0 <= at <= |s|
    ensures Elems(Insert(s, at, x)) == Elems(s) + {x}
  {
    assert s == s[..at] + s[at..];
  }

  /** An insertion strictly inside a list keeps its two ends, and keeps its entries within bounds. */
  lemma InsertBounds(s: seq<int>, at: int, x: int, n: int)
    requires 0 < at < |s| && 0 <= x < n && forall j :: 0 <= j < |s| ==> 0 <= s[j] < n
    ensures Insert(s, at, x)[0] == s[0] && Insert(s, at, x)[|s|] == s[|s| - 1]
    ensures forall j :: 0 <= j < |s| + 1 ==> 0 <= Insert(s, at, x)[j] < n
  {
  }

  /**
   * In a strictly increasing list, inserting x between its neighbours at
   * position at is the sorted insertion of a new index.
   */
  lemma InsertBetween(s: seq<int>, at: int, x: int)
    requires Increasing(s) && 0 < at < |s| && s[at - 1] < x < s[at]
    ensures x !in s && Insert(s, at, x) == Insort(s, x)
    ensures Increasing(Insert(s, at, x)) && Elems(Insert(s, at, x)) == Elems(s) + {x}
  {
    assert forall j :: 0 <= j < at ==> s[j] <= s[at - 1];
    assert BisectRight(s, x) == at;
    InsortIncreasing(s, x);
  }

  /** In a strictly increasing list each entry exceeds the first by at least its position. */
  lemma {:induction false} IncreasingFloor(s: seq<int>, j: int)
    requires Increasing(s) && 0 <= j < |s|
    ensures s[0] + j <= s[j]
  {
    if j > 0 {
      IncreasingFloor(s, j - 1);
    }
  }

  /** A strictly increasing list lies between its first and its last entry. */
  lemma IncreasingBounds(s: seq<int>)
    requires Increasing(s) && |s| > 0
    ensures forall j :: 0 <= j < |s| ==> s[0] <= s[j] <= s[|s| - 1]
  {
  }

  /** A strictly increasing list of indices into [lo, hi) has at most hi - lo entries. */
  lemma IncreasingLength(s: seq<int>, lo: int, hi: int)
    requires Increasing(s) && lo <= hi && forall j :: 0 <= j < |s| ==> lo <= s[j] < hi
    ensures |s| <= hi - lo
  {
    if |s| > 0 {
      IncreasingFloor(s, |s| - 1);
      assert lo <= s[0] && s[|s| - 1] < hi;
    }
  }

  /** Two strictly increasing lists with the same elements are equal: the sorted list of a set is unique. */
  lemma {:induction false} IncreasingUnique(a: seq<int>, b: seq<int>)
    requires Increasing(a) && Increasing(b) && Elems(a) == Elems(b)
    ensures a == b
  {
    if |a| == 0 {
      ElemsEmpty(b);
    } else {
      assert a[0] in Elems(b);
      assert b != [];
      assert b[0] in Elems(a);
      assert a[0] == b[0];
      assert Elems(a[1..]) == Elems(a) - {a[0]} by {
        assert a == [a[0]] + a[1..];
        assert forall j :: 0 < j < |a| ==> a[0] < a[j];
      }
      assert Elems(b[1..]) == Elems(b) - {b[0]} by {
        assert b == [b[0]] + b[1..];
        assert forall j :: 0 < j < |b| ==> b[0] < b[j];
      }
      IncreasingUnique(a[1..], b[1..]);
      assert a == [a[0]] + a[1..] && b == [b[0]] + b[1..];
    }
  }

  // ---------------------------------------------------------------------------
  // Seeds of the simplification
  // ---------------------------------------------------------------------------

  /** The indices i below n where the material changes between vertex i and i + 1. */
  ghost function MaterialChangesBelow(mat: seq<string>, n: int): set<int>
  {
    set i | 0 <= i < n && MaterialChangesAt(mat, i)
  }

  /** `mat[i] != mat[i + 1]`. */
  predicate MaterialChangesAt(mat: seq<string>, i: int)
  {
    0 <= i && i + 1 < |mat| && mat[i] != mat[i + 1]
  }

  /** Extending the bound by one adds index i exactly when the material changes there. */
  lemma MaterialChangesNext(mat: seq<string>, i: int)
    ensures MaterialChangesBelow(mat, i + 1) == MaterialChangesBelow(mat, i) + if MaterialChangesAt(mat, i) then {i} else {}
  {
  }

  /** There is no change below a bound of zero or less. */
  lemma MaterialChangesNone(mat: seq<string>, n: int)
    requires n <= 0
    ensures MaterialChangesBelow(mat, n) == {}
  {
  }

  /** One step of the material loop of the seeding keeps the seed list sorted and adds the change at i, if any. */
  lemma SeedMaterialStep(path: seq<int>, keys: set<int>, mat: seq<string>, i: int)
    requires Increasing(path) && Elems(path) == keys + MaterialChangesBelow(mat, i) && 0 <= i < |mat| - 1
    ensures var next := if mat[i] != mat[i + 1] && i !in keys then Insort(path, i) else path;
      Increasing(next) && Elems(next) == keys + MaterialChangesBelow(mat, i + 1)
  {
    MaterialChangesNext(mat, i);
    if mat[i] != mat[i + 1] && i !in keys {
      assert i !in Elems(path);
      InsortIncreasing(path, i);
    }
  }

  /** Every extension index and every material change: the points that must survive. */
  ghost function Seeds(keys: set<int>, mat: seq<string>): set<int>
  {
    keys + MaterialChangesBelow(mat, |mat| - 1)
  }

  /**
   * The sorted list of a seed set holding some extension index is not empty;
   * its entries are seeds.
   */
  lemma SeedsNonEmpty(seeds: seq<int>, keys: set<int>, mat: seq<string>)
    requires Elems(seeds) == Seeds(keys, mat) && |keys| > 0
    ensures |seeds| > 0 && seeds[0] in Seeds(keys, mat) && seeds[|seeds| - 1] in Seeds(keys, mat)
    ensures forall j :: 0 <= j < |seeds| ==> seeds[j] in Seeds(keys, mat)
  {
    ElemsEmpty(seeds);
    assert keys != {};
    assert forall j :: 0 <= j < |seeds| ==> seeds[j] in Elems(seeds);
  }

  /** Bounded form of the seeds: every index refers to a vertex. */
  lemma SeedsInRange(keys: set<int>, mat: seq<string>, n: int)
    requires |mat| == n && forall k :: k in keys ==> 0 <= k < n
    ensures forall k :: k in Seeds(keys, mat) ==> 0 <= k < n
  {
  }

  // ---------------------------------------------------------------------------
  // Offsets in the (x, z) plane
  // ---------------------------------------------------------------------------

  /** A vertex seen in the profile's (x, z) plane, columns 0 and 2 of `vts`. */
  function XZ(p: Point3): Point2
  {
    Point2(p.x, p.z)
  }

  /** `line_length` of `get_offsets_perpendicular`: the chord length in the (x, z) plane
      (the source sums the squared z and x differences, the same radicand as Dist2). */
  function ChordLength(s: Point3, e: Point3, sqrt: real -> real): real
    requires IsSqrt(sqrt)
  {
    sqrt(Dist2(XZ(e), XZ(s)))
  }

  /** The chord is the wall length of the (x, z) segment; it vanishes exactly for coinciding ends. */
  lemma ChordIsLength(s: Point3, e: Point3, sqrt: real -> real)
    requires IsSqrt(sqrt)
    ensures ChordLength(s, e, sqrt) == Length(Segment(XZ(s), XZ(e)), sqrt)
    ensures ChordLength(s, e, sqrt) == 0.0 <==> XZ(s) == XZ(e)
  {
    LengthPositive(Segment(XZ(s), XZ(e)), sqrt);
  }

  /**
   * The offset of p from the chord s -> e: |side test| divided by the chord
   * length, the perpendicular distance in the (x, z) plane.
   */
  function Offset(s: Point3, e: Point3, p: Point3, sqrt: real -> real): real
    requires IsSqrt(sqrt) && ChordLength(s, e, sqrt) != 0.0
  {
    Abs(SideTest(XZ(s), XZ(e), XZ(p))) / ChordLength(s, e, sqrt)
  }

  /** |x * m| / m == |x| for m > 0. */
  lemma AbsScaled(x: real, m: real, y: real)
    requires 0.0 < m && y == -(x * m)
    ensures Abs(y) / m == Abs(x)
  {
    if x < 0.0 {
      assert Abs(y) == (-x) * m;
    } else {
      assert Abs(y) == x * m;
    }
  }

  /**
   * The offset is the distance from p to the chord's line in Hessian normal
   * form: the absolute signed distance of `get_line_equation`.
   */
  lemma OffsetIsDistance(s: Point3, e: Point3, p: Point3, sqrt: real -> real)
    requires IsSqrt(sqrt) && ChordLength(s, e, sqrt) != 0.0
    ensures XZ(s) != XZ(e)
    ensures Offset(s, e, p, sqrt) == Abs(SignedDistance(GetLineEquation(XZ(s), XZ(e), sqrt), XZ(p)))
  {
    ChordIsLength(s, e, sqrt);
    LineEquationSide(XZ(s), XZ(e), XZ(p), sqrt);
    AbsScaled(SignedDistance(GetLineEquation(XZ(s), XZ(e), sqrt), XZ(p)), ChordLength(s, e, sqrt), SideTest(XZ(s), XZ(e), XZ(p)));
  }

  /** Offsets are never negative. */
  lemma OffsetNonNegative(s: Point3, e: Point3, p: Point3, sqrt: real -> real)
    requires IsSqrt(sqrt) && ChordLength(s, e, sqrt) != 0.0
    ensures 0.0 <= Offset(s, e, p, sqrt)
  {
    LengthPositive(Segment(XZ(s), XZ(e)), sqrt);
    ChordIsLength(s, e, sqrt);
  }

  /** Points on the chord's line have offset zero. */
  lemma OffsetOnChord(s: Point3, e: Point3, p: Point3, u: real, sqrt: real -> real)
    requires IsSqrt(sqrt) && ChordLength(s, e, sqrt) != 0.0
    requires XZ(p) == PointAt(Segment(XZ(s), XZ(e)), u)
    ensures Offset(s, e, p, sqrt) == 0.0
  {
    assert SideTest(XZ(s), XZ(e), XZ(p)) == u * ((e.x - s.x) * (e.z - s.z) - (e.z - s.z) * (e.x - s.x));
  }

  /** `np.argmax(offsets)`: the first position of the largest value. */
  function ArgMax(v: seq<real>): (k: int)
    requires |v| > 0
    ensures 0 <= k < |v|
    ensures forall j :: 0 <= j < |v| ==> v[j] <= v[k]
    ensures forall j :: 0 <= j < k ==> v[j] < v[k]
  {
    if |v| == 1 then 0
    else
      var k := ArgMax(v[..|v| - 1]);
      assert forall j :: 0 <= j < |v| - 1 ==> v[..|v| - 1][j] == v[j];
      if v[|v| - 1] > v[k] then |v| - 1 else k
  }

  /**
   * The pair (start, end) of the index list needs no further point: it has
   * no interior vertex, a zero-length chord, or all interior offsets within
   * the threshold.
   */
  ghost predicate Settled(ps: seq<Point3>, start: int, end: int, threshold: real, sqrt: real -> real)
    requires IsSqrt(sqrt) && 0 <= start && end < |ps|
  {
    end - start < 2 || ChordLength(ps[start], ps[end], sqrt) == 0.0 ||
    forall id :: start < id < end ==> Offset(ps[start], ps[end], ps[id], sqrt) <= threshold
  }

  /**
   * v is the vertex `np.argmax` picks for the pair (start, end): strictly
   * inside it, under a chord of non-zero length, with the largest offset
   * from the chord and the first of its interior vertices to reach it.
   */
  ghost predicate FirstMax(ps: seq<Point3>, start: int, end: int, v: int, sqrt: real -> real)
    requires IsSqrt(sqrt)
  {
    0 <= start < v < end < |ps| && ChordLength(ps[start], ps[end], sqrt) != 0.0 &&
    (forall id :: start < id < end ==> Offset(ps[start], ps[end], ps[id], sqrt) <= Offset(ps[start], ps[end], ps[v], sqrt)) &&
    (forall id :: start < id < v ==> Offset(ps[start], ps[end], ps[id], sqrt) < Offset(ps[start], ps[end], ps[v], sqrt))
  }

  /**
   * v was worth keeping: some pair (start, end) of kept vertices has v as
   * its first vertex of largest offset, and that offset exceeds the
   * threshold.
   */
  ghost predicate Justified(ps: seq<Point3>, keep: set<int>, v: int, threshold: real, sqrt: real -> real)
    requires IsSqrt(sqrt)
  {
    exists start, end :: start in keep && end in keep && FirstMax(ps, start, end, v, sqrt) &&
      Offset(ps[start], ps[end], ps[v], sqrt) > threshold
  }

  /** Keeping more vertices never withdraws the reason a vertex was kept. */
  lemma JustifiedGrows(ps: seq<Point3>, keep: set<int>, more: set<int>, v: int, threshold: real, sqrt: real -> real)
    requires IsSqrt(sqrt) && keep <= more && Justified(ps, keep, v, threshold, sqrt)
    ensures Justified(ps, more, v, threshold, sqrt)
  {
    var start, end :| start in keep && end in keep && FirstMax(ps, start, end, v, sqrt) &&
      Offset(ps[start], ps[end], ps[v], sqrt) > threshold;
    assert start in more && end in more;
  }

  /** Every kept vertex that is not a seed is justified by a pair of kept vertices. */
  ghost predicate AllJustified(ps: seq<Point3>, seeds: set<int>, keep: set<int>, threshold: real, sqrt: real -> real)
    requires IsSqrt(sqrt)
  {
    forall w :: w in keep && w !in seeds ==> Justified(ps, keep, w, threshold, sqrt)
  }

  /** Adding the vertex picked for a pair of kept vertices keeps every kept vertex justified. */
  lemma JustifiedInsert(ps: seq<Point3>, seeds: set<int>, keep: set<int>, start: int, end: int, v: int,
                        threshold: real, sqrt: real -> real)
    requires IsSqrt(sqrt) && AllJustified(ps, seeds, keep, threshold, sqrt)
    requires start in keep && end in keep && FirstMax(ps, start, end, v, sqrt)
    requires Offset(ps[start], ps[end], ps[v], sqrt) > threshold
    ensures AllJustified(ps, seeds, keep + {v}, threshold, sqrt)
  {
    forall w | w in keep + {v} && w !in seeds
      ensures Justified(ps, keep + {v}, w, threshold, sqrt)
    {
      if w == v {
        assert start in keep + {v} && end in keep + {v};
      } else {
        JustifiedGrows(ps, keep, keep + {v}, w, threshold, sqrt);
      }
    }
  }

  /**
   * The shape the refinement loop keeps: a strictly increasing list of vertex
   * indices holding every seed, with the seeds' two ends, and a position i
   * inside it.
   */
  ghost predicate RefineShape(ps: seq<Point3>, seeds: seq<int>, path: seq<int>, i: int)
  {
    0 <= i && (i <= |path| - 1 || i == 0) &&
    Increasing(path) && Elems(seeds) <= Elems(path) && |seeds| <= |path| &&
    (forall j :: 0 <= j < |path| ==> 0 <= path[j] < |ps|) &&
    (|seeds| > 0 ==> path[0] == seeds[0] && path[|path| - 1] == seeds[|seeds| - 1])
  }

  /** The pairs of path before position i are settled. */
  ghost predicate SettledBelow(ps: seq<Point3>, path: seq<int>, i: int, threshold: real, sqrt: real -> real)
    requires IsSqrt(sqrt) && i < |path| && forall j :: 0 <= j < |path| ==> 0 <= path[j] < |ps|
  {
    forall j :: 0 <= j < i ==> Settled(ps, path[j], path[j + 1], threshold, sqrt)
  }

  /**
   * The invariant of the refinement loop over the index list path: its shape,
   * the pairs before position i settled, and every vertex it holds beyond the
   * seeds justified by a pair it holds.
   */
  ghost predicate RefineInv(ps: seq<Point3>, seeds: seq<int>, path: seq<int>, i: int, threshold: real, sqrt: real -> real)
    requires IsSqrt(sqrt)
  {
    RefineShape(ps, seeds, path, i) &&
    (i < |path| ==> SettledBelow(ps, path, i, threshold, sqrt)) &&
    AllJustified(ps, Elems(seeds), Elems(path), threshold, sqrt)
  }

  /** Inserting a vertex strictly between entries i and i + 1 keeps the shape. */
  lemma ShapeInsert(ps: seq<Point3>, seeds: seq<int>, path: seq<int>, i: int, v: int)
    requires RefineShape(ps, seeds, path, i) && i < |path| - 1 && path[i] < v < path[i + 1] && v < |ps|
    ensures RefineShape(ps, seeds, Insert(path, i + 1, v), i)
    ensures Elems(Insert(path, i + 1, v)) == Elems(path) + {v}
  {
    InsertBetween(path, i + 1, v);
    InsertBounds(path, i + 1, v, |ps|);
  }

  /** Inserting a vertex after position i leaves the pairs before i as they were. */
  lemma SettledInsert(ps: seq<Point3>, seeds: seq<int>, path: seq<int>, i: int, v: int, threshold: real, sqrt: real -> real)
    requires IsSqrt(sqrt) && i < |path| - 1
    requires RefineShape(ps, seeds, path, i) && RefineShape(ps, seeds, Insert(path, i + 1, v), i)
    requires SettledBelow(ps, path, i, threshold, sqrt)
    ensures SettledBelow(ps, Insert(path, i + 1, v), i, threshold, sqrt)
  {
    var next := Insert(path, i + 1, v);
    assert forall j :: 0 <= j <= i ==> next[j] == path[j];
  }

  /** Inserting the vertex picked for the pair at position i keeps the invariant at i. */
  lemma RefineInsert(ps: seq<Point3>, seeds: seq<int>, path: seq<int>, i: int, v: int, threshold: real, sqrt: real -> real)
    requires IsSqrt(sqrt) && RefineInv(ps, seeds, path, i, threshold, sqrt)
    requires i < |path| - 1 && FirstMax(ps, path[i], path[i + 1], v, sqrt)
    requires Offset(ps[path[i]], ps[path[i + 1]], ps[v], sqrt) > threshold
    ensures RefineInv(ps, seeds, Insert(path, i + 1, v), i, threshold, sqrt)
  {
    ShapeInsert(ps, seeds, path, i, v);
    SettledInsert(ps, seeds, path, i, v, threshold, sqrt);
    assert path[i] in Elems(path) && path[i + 1] in Elems(path);
    JustifiedInsert(ps, Elems(seeds), Elems(path), path[i], path[i + 1], v, threshold, sqrt);
  }

  /** Passing over a settled pair moves the invariant one position on. */
  lemma RefineSkip(ps: seq<Point3>, seeds: seq<int>, path: seq<int>, i: int, threshold: real, sqrt: real -> real)
    requires IsSqrt(sqrt) && RefineInv(ps, seeds, path, i, threshold, sqrt) && i < |path| - 1
    requires Settled(ps, path[i], path[i + 1], threshold, sqrt)
    ensures RefineInv(ps, seeds, path, i + 1, threshold, sqrt)
  {
  }

  // ---------------------------------------------------------------------------
  // Remapping and rebuilding
  // ---------------------------------------------------------------------------

  /** The extension map after the remap: position p of the index list carries the old entry of path[p]. */
  ghost function Remapped(ext: map<int, Extension>, path: seq<int>): map<int, Extension>
  {
    map p | 0 <= p < |path| && path[p] in ext :: ext[path[p]]
  }

  /** The entries of xs selected by the indices in path, in order. */
  function Select<T>(xs: seq<T>, path: seq<int>): (r: seq<T>)
    requires forall j :: 0 <= j < |path| ==> 0 <= path[j] < |xs|
    ensures |r| == |path|
  {
    seq(|path|, j requires 0 <= j < |path| => xs[path[j]])
  }

  /**
   * The remap moves every old extension key k to its position p in the index
   * list with its value, keeps the keys' order, and maps no two keys together;
   * a new key never exceeds the old one.
   */
  lemma RemappedKeys(ext: map<int, Extension>, path: seq<int>)
    requires Increasing(path) && (|path| > 0 ==> 0 <= path[0]) && ext.Keys <= Elems(path)
    ensures forall p :: p in Remapped(ext, path) ==> 0 <= p < |path| && path[p] in ext && p <= path[p]
    ensures forall p :: p in Remapped(ext, path) ==> Remapped(ext, path)[p] == ext[path[p]]
    ensures forall k :: k in ext ==> exists p :: 0 <= p < |path| && path[p] == k && p in Remapped(ext, path)
    ensures forall p, q :: p in Remapped(ext, path) && q in Remapped(ext, path) && p < q ==> path[p] < path[q]
  {
    forall p | p in Remapped(ext, path)
      ensures p <= path[p]
    {
      IncreasingFloor(path, p);
    }
    forall k | k in ext
      ensures exists p :: 0 <= p < |path| && path[p] == k && p in Remapped(ext, path)
    {
      assert k in Elems(path);
      var p :| 0 <= p < |path| && path[p] == k;
      assert p in Remapped(ext, path);
    }
  }

  /** An index held by an increasing list of non-negative indices sits at a position no larger than itself. */
  lemma KeyPosition(path: seq<int>, k: int) returns (p: int)
    requires Increasing(path) && (|path| > 0 ==> 0 <= path[0]) && k in Elems(path)
    ensures 0 <= p < |path| && p <= k && path[p] == k
  {
    p :| 0 <= p < |path| && path[p] == k;
    IncreasingFloor(path, p);
  }

  /**
   * Key k of the extension map after the remap has visited positions
   * 0 .. id - 1 of the index list: a visited position whose old index held an
   * entry, or an old key beyond path[id - 1], not yet touched.
   */
  predicate RemapHas(e0: map<int, Extension>, path: seq<int>, id: int, k: int)
    requires 0 <= id <= |path|
  {
    0 <= k && ((k < id && path[k] in e0) || (k in e0 && id <= k && (id == 0 || path[id - 1] < k)))
  }

  /** The entry under key k at that point: the old entry of path[k] for a visited position. */
  function RemapValue(e0: map<int, Extension>, path: seq<int>, id: int, k: int): Extension
    requires 0 <= id <= |path| && RemapHas(e0, path, id, k)
  {
    if k < id then e0[path[k]] else e0[k]
  }

  /** The extension map after the remap has visited positions 0 .. id - 1. */
  ghost function RemapState(e0: map<int, Extension>, path: seq<int>, id: int): map<int, Extension>
    requires 0 <= id <= |path|
  {
    map k | 0 <= k < id + (if |path| > 0 && 0 <= path[|path| - 1] then path[|path| - 1] + 1 else 0) && RemapHas(e0, path, id, k) ::
      RemapValue(e0, path, id, k)
  }

  /** Every old key lies in the index list, at most its last entry. */
  lemma KeysBelowLast(e0: map<int, Extension>, path: seq<int>)
    requires Increasing(path) && e0.Keys <= Elems(path)
    ensures forall k :: k in e0 ==> 0 < |path| && k <= path[|path| - 1]
  {
    forall k | k in e0
      ensures 0 < |path| && k <= path[|path| - 1]
    {
      var p :| 0 <= p < |path| && path[p] == k;
    }
  }

  /** The keys and entries of RemapState, without the bound that makes the map finite. */
  lemma RemapStateHas(e0: map<int, Extension>, path: seq<int>, id: int)
    requires Increasing(path) && e0.Keys <= Elems(path) && 0 <= id <= |path|
    ensures forall k :: k in RemapState(e0, path, id) <==> RemapHas(e0, path, id, k)
    ensures forall k :: k in RemapState(e0, path, id) ==> RemapState(e0, path, id)[k] == RemapValue(e0, path, id, k)
  {
    KeysBelowLast(e0, path);
  }

  /** Every old key beyond path[id - 1] is at least path[id]: the list holds the keys in order. */
  lemma NextKeyFloor(e0: map<int, Extension>, path: seq<int>, id: int)
    requires Increasing(path) && 0 <= id < |path| && e0.Keys <= Elems(path)
    ensures forall k :: k in e0 && (id == 0 || path[id - 1] < k) ==> path[id] <= k
  {
    forall k | k in e0 && (id == 0 || path[id - 1] < k)
      ensures path[id] <= k
    {
      var p :| 0 <= p < |path| && path[p] == k;
    }
  }

  /** Before the first visit the map is the old one. */
  lemma RemapStart(e0: map<int, Extension>, path: seq<int>)
    requires Increasing(path) && (|path| > 0 ==> 0 <= path[0]) && e0.Keys <= Elems(path)
    ensures RemapState(e0, path, 0) == e0
  {
    RemapStateHas(e0, path, 0);
    forall k | k in e0
      ensures 0 <= k
    {
      var p :| 0 <= p < |path| && path[p] == k;
      IncreasingFloor(path, p);
    }
  }

  /**
   * Visiting position id adds key id when its old index path[id] has an
   * entry, with that entry, and drops key path[id]; nothing else changes.
   */
  lemma RemapHasNext(e0: map<int, Extension>, path: seq<int>, id: int, k: int)
    requires Increasing(path) && 0 <= id < |path| && 0 <= path[0] && e0.Keys <= Elems(path)
    ensures RemapHas(e0, path, id + 1, k) <==>
      (k == id && path[id] in e0) || (k != id && k != path[id] && RemapHas(e0, path, id, k))
    ensures RemapHas(e0, path, id + 1, k) ==>
      RemapValue(e0, path, id + 1, k) == if k == id then e0[path[id]] else RemapValue(e0, path, id, k)
    ensures RemapHas(e0, path, id, id) <==> path[id] == id && id in e0
    ensures id < path[id] ==> (RemapHas(e0, path, id, path[id]) <==> path[id] in e0)
  {
    IncreasingFloor(path, id);
    NextKeyFloor(e0, path, id);
  }

  /** Visiting a position whose old index is an extension key elsewhere moves that entry to key id. */
  lemma RemapMove(e0: map<int, Extension>, path: seq<int>, id: int)
    requires Increasing(path) && 0 <= id < |path| && 0 <= path[0] && e0.Keys <= Elems(path)
    requires path[id] in e0 && id != path[id]
    ensures path[id] in RemapState(e0, path, id)
    ensures RemapState(e0, path, id + 1) ==
      (RemapState(e0, path, id) - {path[id]})[id := RemapState(e0, path, id)[path[id]]]
  {
    IncreasingFloor(path, id);
    RemapStateHas(e0, path, id);
    RemapStateHas(e0, path, id + 1);
    RemapHasNext(e0, path, id, id);
    var e, e' := RemapState(e0, path, id), RemapState(e0, path, id + 1);
    var moved := (e - {path[id]})[id := e[path[id]]];
    forall k
      ensures k in e' <==> k in moved
      ensures k in e' ==> e'[k] == moved[k]
    {
      RemapHasNext(e0, path, id, k);
    }
    assert e' == moved;
  }

  /** Visiting a position whose old index carries no extension, or is the key id itself, changes nothing. */
  lemma RemapStay(e0: map<int, Extension>, path: seq<int>, id: int)
    requires Increasing(path) && 0 <= id < |path| && 0 <= path[0] && e0.Keys <= Elems(path)
    requires path[id] !in e0 || id == path[id]
    ensures path[id] in RemapState(e0, path, id) <==> path[id] in e0
    ensures RemapState(e0, path, id + 1) == RemapState(e0, path, id)
  {
    IncreasingFloor(path, id);
    RemapStateHas(e0, path, id);
    RemapStateHas(e0, path, id + 1);
    RemapHasNext(e0, path, id, id);
    var e, e' := RemapState(e0, path, id), RemapState(e0, path, id + 1);
    forall k
      ensures k in e' <==> k in e
      ensures k in e' ==> e'[k] == e[k]
    {
      RemapHasNext(e0, path, id, k);
    }
    assert e' == e;
  }

  /**
   * One visit of the remap: when the old index path[id] still carries an
   * entry under another key, the entry moves to key id; otherwise nothing
   * changes.
   */
  lemma RemapStep(e0: map<int, Extension>, path: seq<int>, id: int)
    requires Increasing(path) && 0 <= id < |path| && 0 <= path[0] && e0.Keys <= Elems(path)
    ensures var e := RemapState(e0, path, id);
      RemapState(e0, path, id + 1) == if path[id] in e && id != path[id] then (e - {path[id]})[id := e[path[id]]] else e
  {
    if path[id] in e0 && id != path[id] {
      RemapMove(e0, path, id);
    } else {
      RemapStay(e0, path, id);
    }
  }

  /** After the last visit the map is Remapped(e0, path). */
  lemma RemapDone(e0: map<int, Extension>, path: seq<int>)
    requires Increasing(path) && e0.Keys <= Elems(path)
    ensures RemapState(e0, path, |path|) == Remapped(e0, path)
  {
    KeysBelowLast(e0, path);
    RemapStateHas(e0, path, |path|);
    assert forall k :: k in RemapState(e0, path, |path|) <==> k in Remapped(e0, path);
  }

  /** The profile data of `douglas_Peucker`; `vts` is the numpy buffer of vertices. */
  class XmlParser {
    var vts: array<Point3>
    var mat: seq<string>
    var ext: map<int, Extension>

    /** One material per vertex and every extension index on a vertex. */
    ghost predicate Consistent()
      reads this
    {
      |mat| == vts.Length && forall k :: k in ext ==> 0 <= k < vts.Length
    }

    /** `XmlParser(path, ext, mat)`: the vertices are copied into a fresh buffer. */
    constructor(path: seq<Point3>, ext: map<int, Extension>, mat: seq<string>)
      ensures fresh(vts) && vts[..] == path && this.ext == ext && this.mat == mat
    {
      vts := new Point3[|path|](i requires 0 <= i < |path| => path[i]);
      this.ext := ext;
      this.mat := mat;
    }

    /**
     * `normalize_path` (code/xmlParser.py:13-27): the whole buffer moved by
     * its first vertex, then the heights lifted by -z_min when negative.
     */
    method NormalizePath()
      requires vts.Length > 0
      modifies vts
      ensures vts[..] == Normalized(old(vts[..]))
    {
      var p0 := vts[0];
      forall i | 0 <= i < vts.Length {
        vts[i] := Minus(vts[i], p0);
      }
      assert vts[..] == Translated(old(vts[..]), p0);
      var zMin := MinZ(vts[..]);
      if zMin < 0.0 {
        forall i | 0 <= i < vts.Length {
          vts[i] := Minus(vts[i], Point3(0.0, 0.0, zMin));
        }
      }
    }

    /**
     * `get_offsets_perpendicular(start, end)` (code/xmlParser.py:38-60): the
     * offset of every interior vertex start < id < end from the chord.
     */
    method GetOffsetsPerpendicular(start: int, end: int, sqrt: real -> real) returns (offsets: seq<real>)
      requires IsSqrt(sqrt) && 0 <= start < end < vts.Length
      requires ChordLength(vts[start], vts[end], sqrt) != 0.0
      ensures |offsets| == end - start - 1
      ensures forall k :: 0 <= k < |offsets| ==> offsets[k] == Offset(vts[start], vts[end], vts[start + 1 + k], sqrt)
      ensures forall k :: 0 <= k < |offsets| ==> 0.0 <= offsets[k]
    {
      var pStart, pEnd := vts[start], vts[end];
      offsets := [];
      var id := start + 1;
      while id < end
        invariant start + 1 <= id <= end
        invariant |offsets| == id - start - 1
        invariant forall k :: 0 <= k < |offsets| ==> offsets[k] == Offset(pStart, pEnd, vts[start + 1 + k], sqrt)
        invariant forall k :: 0 <= k < |offsets| ==> 0.0 <= offsets[k]
      {
        OffsetNonNegative(pStart, pEnd, vts[id], sqrt);
        var diff := Abs(SideTest(XZ(pStart), XZ(pEnd), XZ(vts[id]))) / ChordLength(pStart, pEnd, sqrt);
        offsets := offsets + [diff];
        id := id + 1;
      }
    }

    /**
     * The seeding of `douglas_Peucker` (code/xmlParser.py:75-84): every
     * extension index, then every material change that is no extension,
     * each put in place with `bisect.insort`.
     */
    method SeedPath() returns (path: seq<int>)
      ensures Increasing(path) && Elems(path) == Seeds(ext.Keys, mat)
    {
      path := [];
      var keys := ext.Keys;
      while exists key :: key in keys
        invariant keys <= ext.Keys
        invariant Increasing(path) && Elems(path) == ext.Keys - keys
        decreases keys
      {
        var key :| key in keys;
        InsortIncreasing(path, key);
        path := Insort(path, key);
        keys := keys - {key};
      }
      var i := 0;
      while i < |mat| - 1
        invariant 0 <= i && (i <= |mat| - 1 || i == 0)
        invariant Increasing(path) && Elems(path) == ext.Keys + MaterialChangesBelow(mat, i)
      {
        SeedMaterialStep(path, ext.Keys, mat, i);
        if mat[i] != mat[i + 1] && i !in ext {
          path := Insort(path, i);
        }
        i := i + 1;
      }
      if |mat| == 0 {
        MaterialChangesNone(mat, i);
        MaterialChangesNone(mat, |mat| - 1);
      }
    }

    /**
     * The offsets of the interior of start .. end and their `np.argmax`
     * (code/xmlParser.py:97-101): the interior vertex v farthest from the
     * chord, the first one in case of ties, and its offset.
     */
    method LargestOffset(start: int, end: int, sqrt: real -> real) returns (v: int, offset: real)
      requires IsSqrt(sqrt) && 0 <= start && start + 1 < end < vts.Length
      requires ChordLength(vts[start], vts[end], sqrt) != 0.0
      ensures start < v < end && offset == Offset(vts[start], vts[end], vts[v], sqrt)
      ensures forall id :: start < id < end ==> Offset(vts[start], vts[end], vts[id], sqrt) <= offset
      ensures forall id :: start < id < v ==> Offset(vts[start], vts[end], vts[id], sqrt) < offset
      ensures FirstMax(vts[..], start, end, v, sqrt)
    {
      var offsets := GetOffsetsPerpendicular(start, end, sqrt);
      var idMax := ArgMax(offsets);
      v, offset := idMax + start + 1, offsets[idMax];
      forall id | start < id < end
        ensures Offset(vts[start], vts[end], vts[id], sqrt) <= offset
        ensures id < v ==> Offset(vts[start], vts[end], vts[id], sqrt) < offset
      {
        assert offsets[id - start - 1] == Offset(vts[start], vts[end], vts[id], sqrt);
      }
    }

    /**
     * The refinement loop of `douglas_Peucker` (code/xmlParser.py:87-107):
     * between consecutive entries with an interior vertex, the vertex of
     * largest offset is inserted while that offset exceeds the threshold.
     * The result keeps every seed and its two ends, and every consecutive
     * pair ends settled. A zero-length chord yields 0/0 offsets in the
     * source, which never exceed the threshold, so that pair is passed over.
     */
    method Refine(seeds: seq<int>, threshold: real, sqrt: real -> real) returns (path: seq<int>)
      requires IsSqrt(sqrt) && Increasing(seeds)
      requires forall j :: 0 <= j < |seeds| ==> 0 <= seeds[j] < vts.Length
      ensures Increasing(path) && Elems(seeds) <= Elems(path) && |seeds| <= |path|
      ensures forall j :: 0 <= j < |path| ==> 0 <= path[j] < vts.Length
      ensures |seeds| > 0 ==> path[0] == seeds[0] && path[|path| - 1] == seeds[|seeds| - 1]
      ensures forall j :: 0 <= j < |path| - 1 ==> Settled(vts[..], path[j], path[j + 1], threshold, sqrt)
      ensures forall v :: v in Elems(path) && v !in Elems(seeds) ==> Justified(vts[..], Elems(path), v, threshold, sqrt)
    {
      path := seeds;
      ghost var ps := vts[..];
      var i := 0;
      while i < |path| - 1
        invariant RefineInv(ps, seeds, path, i, threshold, sqrt)
        decreases |ps| - |path|, |path| - i
      {
        IncreasingLength(path, 0, |ps|);
        var start, end := path[i], path[i + 1];
        if end - start < 2 {
          RefineSkip(ps, seeds, path, i, threshold, sqrt);
          i := i + 1;
        } else if ChordLength(vts[start], vts[end], sqrt) == 0.0 {
          RefineSkip(ps, seeds, path, i, threshold, sqrt);
          i := i + 1;
        } else {
          var v, offset := LargestOffset(start, end, sqrt);
          if offset > threshold {
            RefineInsert(ps, seeds, path, i, v, threshold, sqrt);
            path := Insert(path, i + 1, v);
          } else {
            RefineSkip(ps, seeds, path, i, threshold, sqrt);
            i := i + 1;
          }
        }
      }
    }

    /**
     * The extension update of `douglas_Peucker` (code/xmlParser.py:111-114):
     * walking the index list, the entry of old index path[id] moves to key id.
     */
    method RemapExtensions(path: seq<int>)
      requires Increasing(path) && (|path| > 0 ==> 0 <= path[0]) && ext.Keys <= Elems(path)
      modifies this`ext
      ensures ext == Remapped(old(ext), path)
    {
      ghost var e0 := ext;
      RemapStart(e0, path);
      var id := 0;
      while id < |path|
        invariant 0 <= id <= |path| && ext == RemapState(e0, path, id)
      {
        RemapStep(e0, path, id);
        var idOld := path[id];
        if idOld in ext && id != idOld {
          ext := (ext - {idOld})[id := ext[idOld]];
        }
        id := id + 1;
      }
      RemapDone(e0, path);
      assert e0 == old(ext);
    }

    /**
     * The post-processing of `douglas_Peucker` (code/xmlParser.py:109-117):
     * the extensions renumbered to their positions in the index list, and
     * the materials and vertices cut down to the listed ones, the vertices
     * into a new buffer.
     */
    method Rebuild(path: seq<int>)
      requires Increasing(path) && |path| > 0 && 0 <= path[0] && path[|path| - 1] < vts.Length
      requires |mat| == vts.Length && ext.Keys <= Elems(path)
      modifies this
      ensures ext == Remapped(old(ext), path)
      ensures mat == Select(old(mat), path) && vts[..] == Select(old(vts[..]), path)
      ensures fresh(vts) && Consistent()
    {
      IncreasingBounds(path);
      var newMat, sel := Select(mat, path), Select(vts[..], path);
      RemapExtensions(path);
      mat := newMat;
      vts := new Point3[|path|](j requires 0 <= j < |path| => sel[j]);
    }

    /**
     * `douglas_Peucker(threshold)` (code/xmlParser.py:62-117): seed, refine,
     * then renumber the extensions and keep only the chosen vertices and
     * their materials. The chosen indices are returned as a ghost value.
     */
    method DouglasPeucker(threshold: real, sqrt: real -> real) returns (ghost path: seq<int>)
      requires IsSqrt(sqrt) && Consistent() && |ext| > 1
      modifies this
      ensures Increasing(path) && Seeds(old(ext).Keys, old(mat)) <= Elems(path)
      ensures |path| > 0 && path[0] in Seeds(old(ext).Keys, old(mat)) && path[|path| - 1] in Seeds(old(ext).Keys, old(mat))
      ensures forall k :: k in Seeds(old(ext).Keys, old(mat)) ==> path[0] <= k <= path[|path| - 1]
      ensures forall j :: 0 <= j < |path| - 1 ==> Settled(old(vts[..]), path[j], path[j + 1], threshold, sqrt)
      ensures forall v :: v in Elems(path) && v !in Seeds(old(ext).Keys, old(mat)) ==>
        Justified(old(vts[..]), Elems(path), v, threshold, sqrt)
      ensures mat == Select(old(mat), path) && vts[..] == Select(old(vts[..]), path)
      ensures ext == Remapped(old(ext), path)
      ensures fresh(vts) && Consistent()
    {
      var seeds := SeedPath();
      SeedsInRange(ext.Keys, mat, vts.Length);
      SeedsNonEmpty(seeds, ext.Keys, mat);
      var refined := Refine(seeds, threshold, sqrt);
      IncreasingBounds(refined);
      Rebuild(refined);
      path := refined;
    }
  }

  // ---------------------------------------------------------------------------
  // A worked example: a raised middle section
  // ---------------------------------------------------------------------------

  /** Five vertices along x whose middle two stand about 5 high. */
  function ExampleProfile(): (ps: seq<Point3>)
    ensures |ps| == 5
  {
    [Point3(0.0, 0.0, 0.0), Point3(1.0, 0.0, 0.1), Point3(2.0, 0.0, 5.0), Point3(3.0, 0.0, 5.1), Point3(4.0, 0.0, 0.0)]
  }

  /** Under a chord shorter than 6, a side test above 0.3 in magnitude is an offset above 0.05. */
  lemma OffsetAbove(s: Point3, e: Point3, p: Point3, sqrt: real -> real)
    requires IsSqrt(sqrt) && Dist2(XZ(e), XZ(s)) < 36.0 && Abs(SideTest(XZ(s), XZ(e), XZ(p))) > 0.3
    ensures ChordLength(s, e, sqrt) != 0.0 && Offset(s, e, p, sqrt) > 0.05
  {
    SideTestNonZero(XZ(s), XZ(e), XZ(p));
    LengthPositive(Segment(XZ(s), XZ(e)), sqrt);
    ChordIsLength(s, e, sqrt);
    var len := ChordLength(s, e, sqrt);
    assert len < 6.0;
    assert Abs(SideTest(XZ(s), XZ(e), XZ(p))) > 0.05 * len;
  }

  /** No pair of the example with an interior vertex is settled at threshold 0.05. */
  lemma ExampleUnsettled(a: int, b: int, sqrt: real -> real)
    requires IsSqrt(sqrt) && 0 <= a && a + 2 <= b <= 4
    ensures !Settled(ExampleProfile(), a, b, 0.05, sqrt)
  {
    var ps := ExampleProfile();
    var id := if b == 4 && a >= 1 then 2 + a / 2 else if a == 1 then 2 else if b == 4 then 3 else 1;
    OffsetAbove(ps[a], ps[b], ps[id], sqrt);
  }

  /** A list that climbs from its first entry in steps of one holds first + j at position j. */
  lemma {:induction false} UnitSteps(s: seq<int>)
    requires |s| > 0 && forall j :: 0 <= j < |s| - 1 ==> s[j + 1] == s[j] + 1
    ensures forall j :: 0 <= j < |s| ==> s[j] == s[0] + j
  {
    if |s| > 1 {
      var init := s[..|s| - 1];
      assert forall j :: 0 <= j < |init| - 1 ==> init[j + 1] == init[j] + 1;
      UnitSteps(init);
      assert forall j :: 0 <= j < |s| - 1 ==> s[j] == init[j] == s[0] + j;
      assert s[|s| - 1] == s[|s| - 2] + 1;
    }
  }

  /**
   * On the example, threshold 0.05 keeps every vertex: from seeds 0 and 4,
   * the only index list whose consecutive pairs are all settled is the full
   * one.
   */
  lemma ExampleKeepsAll(path: seq<int>, sqrt: real -> real)
    requires IsSqrt(sqrt) && Increasing(path) && |path| > 0 && path[0] == 0 && path[|path| - 1] == 4
    requires forall j :: 0 <= j < |path| - 1 ==> Settled(ExampleProfile(), path[j], path[j + 1], 0.05, sqrt)
    ensures path == [0, 1, 2, 3, 4]
  {
    forall j | 0 <= j < |path| - 1
      ensures path[j + 1] == path[j] + 1
    {
      if path[j + 1] - path[j] >= 2 {
        ExampleUnsettled(path[j], path[j + 1], sqrt);
        assert false;
      }
    }
    UnitSteps(path);
  }

  /**
   * On the example, vertices 1 and 2 are equally far from the chord 0 -> 3,
   * so `np.argmax` picks the first of them, vertex 1, and its offset exceeds
   * 0.05.
   */
  lemma ExampleTie(sqrt: real -> real)
    requires IsSqrt(sqrt)
    ensures var ps := ExampleProfile();
      ChordLength(ps[0], ps[3], sqrt) != 0.0 &&
      Offset(ps[0], ps[3], ps[1], sqrt) == Offset(ps[0], ps[3], ps[2], sqrt) &&
      FirstMax(ps, 0, 3, 1, sqrt) && Offset(ps[0], ps[3], ps[1], sqrt) > 0.05
  {
    var ps := ExampleProfile();
    OffsetAbove(ps[0], ps[3], ps[1], sqrt);
    assert SideTest(XZ(ps[0]), XZ(ps[3]), XZ(ps[1])) == -4.8;
    assert SideTest(XZ(ps[0]), XZ(ps[3]), XZ(ps[2])) == 4.8;
  }
}
