/**
 * The first- and second-order reflection search of `ReflectionPath`
 * (code/simpleReflection.py:150-255): candidate points along every wall, the
 * side tests that keep a path outside the building, and the image-source
 * construction of each reflection point.
 *
 * The module-level `f_dict`, `c_list`, `p1_list` and `p2_list` are fields of
 * the class. `f_dict` is a sequence of buildings in the dictionary's
 * insertion order. Python lists of coordinates are values here; where the
 * source's `.append(h_dak)` on a shared list changes an entry it already
 * stored, the stored value is the changed one.
 */
module SimpleReflection {
  import opened Wrappers
  import opened Geometry
  import opened ReflectionGeometry

  /** One `f_dict` entry: the roof height `h_dak` and the footprint's walls. */
  datatype Building = Building(hDak: real, walls: seq<Segment>)

  /** A `c_list` entry `[wall[0], point, wall[1]]`; the point carries `h_dak` as its z. */
  datatype Candidate = Candidate(wallStart: Point2, point: Point3, wallEnd: Point2)

  /** A `p1_list` entry `[s, ref_z, r]`. */
  datatype FirstPath = FirstPath(source: Point3, reflection: Point3, receiver: Point3)

  /** A `p2_list` entry `[s, b_z, candidate[1], r_closest]`. */
  datatype SecondPath = SecondPath(source: Point3, first: Point3, second: Point3, receiver: Point3)

  /** A `coords` entry of `get_second_paths`: `[b_z, candidate[1][:2]]`. */
  datatype SecondCoords = SecondCoords(first: Point3, second: Point2)

  /** An accepted second-order chain: first reflection point b on a wall of height h, then the candidate. */
  datatype Chain = Chain(b: Point2, h: real, candidate: Candidate, rClosest: Point3)

  // ---------------------------------------------------------------------------
  // Candidate points (`get_candidate_point`)
  // ---------------------------------------------------------------------------

  /** The candidates `[wall[0], point + [h_dak], wall[1]]` of one wall's sample points. */
  function WallCandidates(w: Segment, points: seq<Point2>, h: real): seq<Candidate>
  {
    MapSeq(points, (p: Point2) => Candidate(w.p1, Lift(p, h), w.p2))
  }

  /** The candidates of a wall of a building with roof height h. */
  function CandidatesOfWall(h: real, dim: real, sqrt: real -> real): Segment -> seq<Candidate>
    requires IsSqrt(sqrt) && dim != 0.0
  {
    (w: Segment) => WallCandidates(w, Subdivision(dim, w, sqrt), h)
  }

  /** The candidates of the walls of one building, wall by wall. */
  function CandidatesOfWalls(ws: seq<Segment>, h: real, dim: real, sqrt: real -> real): seq<Candidate>
    requires IsSqrt(sqrt) && dim != 0.0
  {
    FlatMap(ws, CandidatesOfWall(h, dim, sqrt))
  }

  /** The candidates of one building. */
  function CandidatesOfBuilding(dim: real, sqrt: real -> real): Building -> seq<Candidate>
    requires IsSqrt(sqrt) && dim != 0.0
  {
    (b: Building) => CandidatesOfWalls(b.walls, b.hDak, dim, sqrt)
  }

  /** What `get_candidate_point(dim)` appends to `c_list`, building by building. */
  function CandidatesOf(bs: seq<Building>, dim: real, sqrt: real -> real): seq<Candidate>
    requires IsSqrt(sqrt) && dim != 0.0
  {
    FlatMap(bs, CandidatesOfBuilding(dim, sqrt))
  }

  /** c is a candidate of wall w of building b: it lies on w at the roof height of b. */
  ghost predicate CandidateOn(c: Candidate, b: Building)
  {
    Segment(c.wallStart, c.wallEnd) in b.walls &&
    OnSegment(Flat(c.point), Segment(c.wallStart, c.wallEnd)) &&
    c.point.z == b.hDak
  }

  /** Every candidate of one wall lies on that wall, at the roof height h. */
  lemma CandidatesOfWallOnWall(w: Segment, h: real, dim: real, sqrt: real -> real)
    requires IsSqrt(sqrt) && 0.0 < dim
    ensures forall c :: c in CandidatesOfWall(h, dim, sqrt)(w) ==>
      c.wallStart == w.p1 && c.wallEnd == w.p2 && OnSegment(Flat(c.point), w) && c.point.z == h
  {
    SubdivisionOnWall(dim, w, sqrt);
    var pts := Subdivision(dim, w, sqrt);
    forall c | c in CandidatesOfWall(h, dim, sqrt)(w)
      ensures c.wallStart == w.p1 && c.wallEnd == w.p2 && OnSegment(Flat(c.point), w) && c.point.z == h
    {
      var k :| 0 <= k < |pts| && WallCandidates(w, pts, h)[k] == c;
      assert OnSegment(pts[k], w);
    }
  }

  /** Every candidate of one building's walls lies on one of those walls, at its roof height. */
  lemma CandidatesOfWallsOnWalls(ws: seq<Segment>, h: real, dim: real, sqrt: real -> real)
    requires IsSqrt(sqrt) && 0.0 < dim
    ensures forall c :: c in CandidatesOfWalls(ws, h, dim, sqrt) ==> CandidateOn(c, Building(h, ws))
  {
    FlatMapMembers(ws, CandidatesOfWall(h, dim, sqrt));
    forall c | c in CandidatesOfWalls(ws, h, dim, sqrt)
      ensures CandidateOn(c, Building(h, ws))
    {
      var j :| 0 <= j < |ws| && c in CandidatesOfWall(h, dim, sqrt)(ws[j]);
      CandidatesOfWallOnWall(ws[j], h, dim, sqrt);
      assert Segment(c.wallStart, c.wallEnd) == ws[j];
    }
  }

  /**
   * For dim > 0 every candidate `get_candidate_point` produces lies on a wall
   * of some building, with that building's roof height as its z.
   */
  lemma CandidatesOnWalls(bs: seq<Building>, dim: real, sqrt: real -> real)
    requires IsSqrt(sqrt) && 0.0 < dim
    ensures forall c :: c in CandidatesOf(bs, dim, sqrt) ==> exists i :: 0 <= i < |bs| && CandidateOn(c, bs[i])
  {
    FlatMapMembers(bs, CandidatesOfBuilding(dim, sqrt));
    forall c | c in CandidatesOf(bs, dim, sqrt)
      ensures exists i :: 0 <= i < |bs| && CandidateOn(c, bs[i])
    {
      var i :| 0 <= i < |bs| && c in CandidatesOfBuilding(dim, sqrt)(bs[i]);
      CandidatesOfWallsOnWalls(bs[i].walls, bs[i].hDak, dim, sqrt);
      assert Building(bs[i].hDak, bs[i].walls) == bs[i];
    }
  }

  // ---------------------------------------------------------------------------
  // First-order paths (`get_first_paths`)
  // ---------------------------------------------------------------------------

  /**
   * The reflection point of one wall for source s and receiver r: both must lie
   * strictly on the positive side of the wall, and the point is where the ray
   * from the mirror image of s to r crosses the wall.
   */
  function ReflectAt(w: Segment, s: Point3, r: Point3, sqrt: real -> real): (q: Option<Point2>)
    requires IsSqrt(sqrt)
    ensures q.Some? ==> SideTest(w.p1, w.p2, Flat(r)) > 0.0 && SideTest(w.p1, w.p2, Flat(s)) > 0.0
    ensures q.Some? ==> OnSegment(q.value, w)
  {
    if SideTest(w.p1, w.p2, Flat(r)) > 0.0 && SideTest(w.p1, w.p2, Flat(s)) > 0.0 then
      SideTestNonZero(w.p1, w.p2, Flat(s));
      var sMirror := GetMirrorPoint(Flat(s), GetLineEquation(w.p1, w.p2, sqrt));
      LineIntersect(w, Segment(sMirror, Flat(r)))
    else
      None
  }

  /**
   * A reflection point exists only when s and r both lie strictly on the
   * positive side of the wall; it lies on the wall and on the ray from the
   * mirror image of s to r.
   */
  lemma ReflectAtSound(w: Segment, s: Point3, r: Point3, sqrt: real -> real)
    requires IsSqrt(sqrt)
    requires ReflectAt(w, s, r, sqrt).Some?
    ensures SideTest(w.p1, w.p2, Flat(r)) > 0.0 && SideTest(w.p1, w.p2, Flat(s)) > 0.0 && w.p1 != w.p2
    ensures OnSegment(ReflectAt(w, s, r, sqrt).value, w)
    ensures OnSegment(ReflectAt(w, s, r, sqrt).value, Segment(GetMirrorPoint(Flat(s), GetLineEquation(w.p1, w.p2, sqrt)), Flat(r)))
  {
    SideTestNonZero(w.p1, w.p2, Flat(s));
  }

  /**
   * The image-source principle: a reflection point is as far from s as from
   * the mirror image of s, so the path s -> q -> r is as long as the straight
   * line from the image to r.
   */
  lemma ReflectionEqualDistance(w: Segment, s: Point3, r: Point3, sqrt: real -> real)
    requires IsSqrt(sqrt)
    requires ReflectAt(w, s, r, sqrt).Some?
    ensures w.p1 != w.p2
    ensures Dist2(Flat(s), ReflectAt(w, s, r, sqrt).value) ==
            Dist2(GetMirrorPoint(Flat(s), GetLineEquation(w.p1, w.p2, sqrt)), ReflectAt(w, s, r, sqrt).value)
  {
    ReflectAtSound(w, s, r, sqrt);
    var q := ReflectAt(w, s, r, sqrt).value;
    var l := GetLineEquation(w.p1, w.p2, sqrt);
    OnSegmentOnLine(l, w, q);
    MirrorIsometry(Flat(s), q, l);
  }

  /**
   * Conversely, when s and r lie strictly on the positive side, a point of the
   * wall on the ray from the mirror image of s to r is the reflection found,
   * unless that ray runs parallel to the wall.
   */
  lemma ReflectAtComplete(w: Segment, s: Point3, r: Point3, sqrt: real -> real, q: Point2)
    requires IsSqrt(sqrt)
    requires SideTest(w.p1, w.p2, Flat(r)) > 0.0 && SideTest(w.p1, w.p2, Flat(s)) > 0.0
    requires w.p1 != w.p2
    requires Determinant(w, Segment(GetMirrorPoint(Flat(s), GetLineEquation(w.p1, w.p2, sqrt)), Flat(r))) != 0.0
    requires OnSegment(q, w)
    requires OnSegment(q, Segment(GetMirrorPoint(Flat(s), GetLineEquation(w.p1, w.p2, sqrt)), Flat(r)))
    ensures ReflectAt(w, s, r, sqrt) == Some(q)
  {
    LineIntersectComplete(w, Segment(GetMirrorPoint(Flat(s), GetLineEquation(w.p1, w.p2, sqrt)), Flat(r)), q);
  }

  /** The reflection point of a wall of a building with roof height h, lifted to h. */
  function FirstHitOf(h: real, s: Point3, r: Point3, sqrt: real -> real): Segment -> Option<Point3>
    requires IsSqrt(sqrt)
  {
    (w: Segment) =>
      match ReflectAt(w, s, r, sqrt)
      case Some(q) => Some(Lift(q, h))
      case None => None
  }

  /** The reflection points of one building's walls, each lifted to the roof height h. */
  function FirstHitsOfWalls(ws: seq<Segment>, h: real, s: Point3, r: Point3, sqrt: real -> real): seq<Point3>
    requires IsSqrt(sqrt)
  {
    FilterMap(ws, FirstHitOf(h, s, r, sqrt))
  }

  /** The reflection points of one building. */
  function FirstHitsOfBuilding(s: Point3, r: Point3, sqrt: real -> real): Building -> seq<Point3>
    requires IsSqrt(sqrt)
  {
    (b: Building) => FirstHitsOfWalls(b.walls, b.hDak, s, r, sqrt)
  }

  /**
   * The `coords` of `get_first_paths(s, r)`: every accepted reflection point,
   * building by building and wall by wall. Each carries `h_dak` as its z,
   * because `ref_z = ref; ref_z.append(h_dak)` changes the list already in
   * `coords`.
   */
  function FirstHits(bs: seq<Building>, s: Point3, r: Point3, sqrt: real -> real): seq<Point3>
    requires IsSqrt(sqrt)
  {
    FlatMap(bs, FirstHitsOfBuilding(s, r, sqrt))
  }

  /** The `heights` entry of a first-order reflection point: its roof height. */
  function HitHeight(p: Point3): real
  {
    p.z
  }

  /** The `p1_list` entry `[s, ref_z, r]` of a first-order reflection point. */
  function FirstPathOf(s: Point3, r: Point3): Point3 -> FirstPath
  {
    (p: Point3) => FirstPath(s, p, r)
  }

  /** The reflection points of one building are exactly those of its accepting walls. */
  lemma FirstHitsOfWallsMembers(ws: seq<Segment>, h: real, s: Point3, r: Point3, sqrt: real -> real)
    requires IsSqrt(sqrt)
    ensures forall p :: p in FirstHitsOfWalls(ws, h, s, r, sqrt) <==>
      p.z == h && exists j :: 0 <= j < |ws| && ReflectAt(ws[j], s, r, sqrt) == Some(Flat(p))
  {
    var f := FirstHitOf(h, s, r, sqrt);
    FilterMapMembers(ws, f);
    forall p
      ensures p in FirstHitsOfWalls(ws, h, s, r, sqrt) <==>
        p.z == h && exists j :: 0 <= j < |ws| && ReflectAt(ws[j], s, r, sqrt) == Some(Flat(p))
    {
      if p.z == h && exists j :: 0 <= j < |ws| && ReflectAt(ws[j], s, r, sqrt) == Some(Flat(p)) {
        var j :| 0 <= j < |ws| && ReflectAt(ws[j], s, r, sqrt) == Some(Flat(p));
        assert Lift(Flat(p), h) == p;
        assert f(ws[j]) == Some(p);
      }
      if p in FirstHitsOfWalls(ws, h, s, r, sqrt) {
        var j :| 0 <= j < |ws| && f(ws[j]) == Some(p);
        assert ReflectAt(ws[j], s, r, sqrt) == Some(Flat(p));
      }
    }
  }

  /**
   * `get_first_paths` finds exactly the points q, lifted to the roof height,
   * of walls for which both side tests are positive and the ray from the
   * mirrored source to the receiver crosses the wall at q.
   */
  lemma FirstHitsMembers(bs: seq<Building>, s: Point3, r: Point3, sqrt: real -> real)
    requires IsSqrt(sqrt)
    ensures forall p :: p in FirstHits(bs, s, r, sqrt) <==>
      exists i, j :: 0 <= i < |bs| && 0 <= j < |bs[i].walls| &&
        p.z == bs[i].hDak && ReflectAt(bs[i].walls[j], s, r, sqrt) == Some(Flat(p))
  {
    var f := FirstHitsOfBuilding(s, r, sqrt);
    FlatMapMembers(bs, f);
    forall i | 0 <= i < |bs| {
      FirstHitsOfWallsMembers(bs[i].walls, bs[i].hDak, s, r, sqrt);
    }
  }

  // ---------------------------------------------------------------------------
  // Second-order paths (`get_second_paths`)
  // ---------------------------------------------------------------------------

  /**
   * The chain s -> b -> candidate -> r through wall w (roof height h) and the
   * candidate's own wall, with every test of `get_second_paths` in order.
   */
  function ChainAt(c: Candidate, w: Segment, h: real, s: Point3, r: Point3, t: real, sqrt: real -> real): (ch: Option<Chain>)
    requires IsSqrt(sqrt)
    ensures ch.Some? ==> ch.value.h == h && ch.value.candidate == c && ch.value.rClosest.z == r.z
    ensures ch.Some? ==> SideTest(w.p1, w.p2, Flat(c.point)) > 0.0 && SideTest(w.p1, w.p2, Flat(s)) > 0.0
    ensures ch.Some? ==> OnSegment(ch.value.b, w)
    ensures ch.Some? ==> SideTest(c.wallStart, c.wallEnd, ch.value.b) > 0.0 && SideTest(c.wallStart, c.wallEnd, Flat(r)) > 0.0
  {
    if SideTest(w.p1, w.p2, Flat(c.point)) > 0.0 && SideTest(w.p1, w.p2, Flat(s)) > 0.0 then
      SideTestNonZero(w.p1, w.p2, Flat(s));
      var sMirror := GetMirrorPoint(Flat(s), GetLineEquation(w.p1, w.p2, sqrt));
      match LineIntersect(w, Segment(sMirror, Flat(c.point)))
      case None => None
      case Some(b) =>
        if SideTest(c.wallStart, c.wallEnd, b) > 0.0 && SideTest(c.wallStart, c.wallEnd, Flat(r)) > 0.0 then
          SideTestNonZero(c.wallStart, c.wallEnd, b);
          var bMirror := GetMirrorPoint(b, GetLineEquation(c.wallStart, c.wallEnd, sqrt));
          var dist := sqrt(Dist2(bMirror, Flat(c.point)));
          if dist > 0.1 then
            if Abs(SideTest(bMirror, Flat(c.point), Flat(r))) <= t then
              DistanceGuard(sqrt, bMirror, Flat(c.point));
              var rClosest := GetClosestPoint(Flat(r), GetLineEquation(bMirror, Flat(c.point), sqrt));
              Some(Chain(b, h, c, Lift(rClosest, r.z)))
            else
              None
          else
            None
        else
          None
    else
      None
  }

  /**
   * A chain is accepted only when every test of `get_second_paths` passes:
   * s and the candidate strictly on the positive side of the first wall, b on
   * that wall and on the ray from the mirrored source to the candidate, b and r
   * strictly on the positive side of the candidate's wall, the mirrored b more
   * than 0.1 from the candidate, and r within t of the line through them
   * (measured by the side test); the chain keeps the wall's height, the
   * candidate and the receiver's height.
   */
  lemma ChainAtSound(c: Candidate, w: Segment, h: real, s: Point3, r: Point3, t: real, sqrt: real -> real)
    requires IsSqrt(sqrt)
    requires ChainAt(c, w, h, s, r, t, sqrt).Some?
    ensures
      var ch := ChainAt(c, w, h, s, r, t, sqrt).value;
      ch.h == h && ch.candidate == c && ch.rClosest.z == r.z &&
      SideTest(w.p1, w.p2, Flat(c.point)) > 0.0 && SideTest(w.p1, w.p2, Flat(s)) > 0.0 && w.p1 != w.p2 &&
      OnSegment(ch.b, w) &&
      OnSegment(ch.b, Segment(GetMirrorPoint(Flat(s), GetLineEquation(w.p1, w.p2, sqrt)), Flat(c.point))) &&
      SideTest(c.wallStart, c.wallEnd, ch.b) > 0.0 && SideTest(c.wallStart, c.wallEnd, Flat(r)) > 0.0 &&
      c.wallStart != c.wallEnd &&
      0.01 < Dist2(GetMirrorPoint(ch.b, GetLineEquation(c.wallStart, c.wallEnd, sqrt)), Flat(c.point)) &&
      Abs(SideTest(GetMirrorPoint(ch.b, GetLineEquation(c.wallStart, c.wallEnd, sqrt)), Flat(c.point), Flat(r))) <= t
  {
    SideTestNonZero(w.p1, w.p2, Flat(s));
    var ch := ChainAt(c, w, h, s, r, t, sqrt).value;
    SideTestNonZero(c.wallStart, c.wallEnd, ch.b);
    var bMirror := GetMirrorPoint(ch.b, GetLineEquation(c.wallStart, c.wallEnd, sqrt));
    DistanceGuard(sqrt, bMirror, Flat(c.point));
  }

  /**
   * Conversely, a point b that lies on the wall and on the segment from the
   * mirrored source to the candidate, where the two are not parallel, and that
   * passes the later tests of `get_second_paths`, is the chain's b.
   */
  lemma ChainAtComplete(c: Candidate, w: Segment, h: real, s: Point3, r: Point3, t: real, sqrt: real -> real, b: Point2)
    requires IsSqrt(sqrt)
    requires SideTest(w.p1, w.p2, Flat(c.point)) > 0.0 && SideTest(w.p1, w.p2, Flat(s)) > 0.0
    requires w.p1 != w.p2
    requires Determinant(w, Segment(GetMirrorPoint(Flat(s), GetLineEquation(w.p1, w.p2, sqrt)), Flat(c.point))) != 0.0
    requires OnSegment(b, w)
    requires OnSegment(b, Segment(GetMirrorPoint(Flat(s), GetLineEquation(w.p1, w.p2, sqrt)), Flat(c.point)))
    requires SideTest(c.wallStart, c.wallEnd, b) > 0.0 && SideTest(c.wallStart, c.wallEnd, Flat(r)) > 0.0
    requires c.wallStart != c.wallEnd
    requires sqrt(Dist2(GetMirrorPoint(b, GetLineEquation(c.wallStart, c.wallEnd, sqrt)), Flat(c.point))) > 0.1
    requires Abs(SideTest(GetMirrorPoint(b, GetLineEquation(c.wallStart, c.wallEnd, sqrt)), Flat(c.point), Flat(r))) <= t
    ensures ChainAt(c, w, h, s, r, t, sqrt).Some? && ChainAt(c, w, h, s, r, t, sqrt).value.b == b
  {
    LineIntersectComplete(w, Segment(GetMirrorPoint(Flat(s), GetLineEquation(w.p1, w.p2, sqrt)), Flat(c.point)), b);
  }

  /**
   * The `dist > 0.1` test keeps the mirrored point away from the candidate,
   * so the line through them (`get_line_equation(b_mirror, candidate[1])`)
   * never divides by zero.
   */
  lemma DistanceGuard(sqrt: real -> real, p: Point2, q: Point2)
    requires IsSqrt(sqrt)
    requires sqrt(Dist2(p, q)) > 0.1
    ensures 0.01 < Dist2(p, q)
    ensures p != q
  {
    Dist2Zero(p, q);
    SqrtSpec(sqrt, Dist2(p, q));
    var d := sqrt(Dist2(p, q));
    assert d * d == Dist2(p, q);
    calc {
      0.01;
    == 0.1 * 0.1;
    < { SquareMonotonic(0.1, d); }
      d * d;
    }
  }

  /**
   * The receiver point of an accepted chain lies on the line from the mirrored
   * first reflection through the candidate, at the receiver's height.
   */
  lemma ChainReceiverOnLine(c: Candidate, w: Segment, h: real, s: Point3, r: Point3, t: real, sqrt: real -> real)
    requires IsSqrt(sqrt)
    requires ChainAt(c, w, h, s, r, t, sqrt).Some?
    ensures
      var ch := ChainAt(c, w, h, s, r, t, sqrt).value;
      var bMirror := GetMirrorPoint(ch.b, GetLineEquation(c.wallStart, c.wallEnd, sqrt));
      bMirror != Flat(c.point) &&
      SignedDistance(GetLineEquation(bMirror, Flat(c.point), sqrt), Flat(ch.rClosest)) == 0.0 &&
      Dist2(Flat(r), Flat(ch.rClosest)) <= Dist2(Flat(r), Flat(c.point))
  {
    ChainAtSound(c, w, h, s, r, t, sqrt);
    SideTestNonZero(w.p1, w.p2, Flat(s));
    var ch := ChainAt(c, w, h, s, r, t, sqrt).value;
    var bMirror := GetMirrorPoint(ch.b, GetLineEquation(c.wallStart, c.wallEnd, sqrt));
    Dist2Zero(bMirror, Flat(c.point));
    var l := GetLineEquation(bMirror, Flat(c.point), sqrt);
    assert Flat(ch.rClosest) == GetClosestPoint(Flat(r), l);
    ClosestIsNearest(Flat(r), Flat(c.point), l);
  }

  /** The `coords` entry of an accepted chain: `[b_z, candidate[1][:2]]`. */
  function ChainCoord(ch: Chain): SecondCoords
  {
    SecondCoords(Lift(ch.b, ch.h), Flat(ch.candidate.point))
  }

  /** The `heights` entry of an accepted chain: `[h_dak, candidate[1][2]]`. */
  function ChainHeight(ch: Chain): (real, real)
  {
    (ch.h, ch.candidate.point.z)
  }

  /** The `p2_list` entry of an accepted chain: `[s, b_z, candidate[1], r_closest]`. */
  function ChainPath(s: Point3): Chain -> SecondPath
  {
    (ch: Chain) => SecondPath(s, Lift(ch.b, ch.h), ch.candidate.point, ch.rClosest)
  }

  /** The chain through a wall of a building with roof height h, for candidate c. */
  function ChainOf(c: Candidate, h: real, s: Point3, r: Point3, t: real, sqrt: real -> real): Segment -> Option<Chain>
    requires IsSqrt(sqrt)
  {
    (w: Segment) => ChainAt(c, w, h, s, r, t, sqrt)
  }

  /** The chains through the walls of one building for candidate c. */
  function ChainsOfWalls(c: Candidate, ws: seq<Segment>, h: real, s: Point3, r: Point3, t: real, sqrt: real -> real): seq<Chain>
    requires IsSqrt(sqrt)
  {
    FilterMap(ws, ChainOf(c, h, s, r, t, sqrt))
  }

  /** The chains through the walls of one building. */
  function ChainsOfBuilding(c: Candidate, s: Point3, r: Point3, t: real, sqrt: real -> real): Building -> seq<Chain>
    requires IsSqrt(sqrt)
  {
    (b: Building) => ChainsOfWalls(c, b.walls, b.hDak, s, r, t, sqrt)
  }

  /** The chains of candidate c through every building's walls. */
  function ChainsOfBuildings(c: Candidate, bs: seq<Building>, s: Point3, r: Point3, t: real, sqrt: real -> real): seq<Chain>
    requires IsSqrt(sqrt)
  {
    FlatMap(bs, ChainsOfBuilding(c, s, r, t, sqrt))
  }

  /** The chains of one candidate. */
  function ChainsOfCandidate(bs: seq<Building>, s: Point3, r: Point3, t: real, sqrt: real -> real): Candidate -> seq<Chain>
    requires IsSqrt(sqrt)
  {
    (c: Candidate) => ChainsOfBuildings(c, bs, s, r, t, sqrt)
  }

  /** The chains `get_second_paths(s, r, t)` accepts, candidate by candidate. */
  function SecondChains(cs: seq<Candidate>, bs: seq<Building>, s: Point3, r: Point3, t: real, sqrt: real -> real): seq<Chain>
    requires IsSqrt(sqrt)
  {
    FlatMap(cs, ChainsOfCandidate(bs, s, r, t, sqrt))
  }

  /** The chains of one candidate are those some wall of some building accepts. */
  lemma ChainsOfBuildingsMembers(c: Candidate, bs: seq<Building>, s: Point3, r: Point3, t: real, sqrt: real -> real)
    requires IsSqrt(sqrt)
    ensures forall ch :: ch in ChainsOfBuildings(c, bs, s, r, t, sqrt) <==>
      exists i, j :: 0 <= i < |bs| && 0 <= j < |bs[i].walls| && ChainAt(c, bs[i].walls[j], bs[i].hDak, s, r, t, sqrt) == Some(ch)
  {
    FlatMapMembers(bs, ChainsOfBuilding(c, s, r, t, sqrt));
    forall i | 0 <= i < |bs| {
      FilterMapMembers(bs[i].walls, ChainOf(c, bs[i].hDak, s, r, t, sqrt));
    }
  }

  /**
   * `get_second_paths` accepts exactly the chains that `ChainAt` accepts for
   * some candidate and some wall of some building.
   */
  lemma SecondChainsMembers(cs: seq<Candidate>, bs: seq<Building>, s: Point3, r: Point3, t: real, sqrt: real -> real)
    requires IsSqrt(sqrt)
    ensures forall ch :: ch in SecondChains(cs, bs, s, r, t, sqrt) <==>
      exists k, i, j :: 0 <= k < |cs| && 0 <= i < |bs| && 0 <= j < |bs[i].walls| &&
        ChainAt(cs[k], bs[i].walls[j], bs[i].hDak, s, r, t, sqrt) == Some(ch)
  {
    FlatMapMembers(cs, ChainsOfCandidate(bs, s, r, t, sqrt));
    forall k | 0 <= k < |cs| {
      ChainsOfBuildingsMembers(cs[k], bs, s, r, t, sqrt);
    }
  }

  // ---------------------------------------------------------------------------
  // The class
  // ---------------------------------------------------------------------------

  /** `ReflectionPath` with the module-level lists it appends to as its fields. */
  class ReflectionPath {
    /** `f_dict`: the buildings, in dictionary order. */
    const footprints: seq<Building>
    /** `c_list`: candidate reflection points. */
    var cList: seq<Candidate>
    /** `p1_list`: accepted first-order paths. */
    var p1List: seq<FirstPath>
    /** `p2_list`: accepted second-order paths. */
    var p2List: seq<SecondPath>

    constructor (footprints: seq<Building>)
      ensures this.footprints == footprints
      ensures cList == [] && p1List == [] && p2List == []
    {
      this.footprints := footprints;
      cList := [];
      p1List := [];
      p2List := [];
    }

    /**
     * The body of the wall loop of `get_candidate_point`
     * (code/simpleReflection.py:156-168): one candidate per point of the wall.
     */
    method AddWallCandidates(wall: Segment, hDak: real, dim: real, sqrt: real -> real)
      requires IsSqrt(sqrt) && dim != 0.0
      modifies this`cList
      ensures cList == old(cList) + WallCandidates(wall, Subdivision(dim, wall, sqrt), hDak)
    {
      var refList := SplitLineseg2(dim, wall, sqrt);
      var pi := 0;
      while pi < |refList|
        invariant 0 <= pi <= |refList|
        invariant cList == old(cList) + WallCandidates(wall, refList[..pi], hDak)
      {
        var point := Lift(refList[pi], hDak);
        var candidate := Candidate(wall.p1, point, wall.p2);
        assert refList[..pi + 1][..pi] == refList[..pi];
        AppendAssoc(old(cList), WallCandidates(wall, refList[..pi], hDak), [candidate]);
        cList := cList + [candidate];
        pi := pi + 1;
      }
      assert refList[..pi] == refList;
    }

    /**
     * The wall loop of `get_candidate_point` for one building
     * (code/simpleReflection.py:154-168).
     */
    method AddBuildingCandidates(walls: seq<Segment>, hDak: real, dim: real, sqrt: real -> real)
      requires IsSqrt(sqrt) && dim != 0.0
      modifies this`cList
      ensures cList == old(cList) + CandidatesOfWalls(walls, hDak, dim, sqrt)
    {
      var wi := 0;
      while wi < |walls|
        invariant 0 <= wi <= |walls|
        invariant cList == old(cList) + CandidatesOfWalls(walls[..wi], hDak, dim, sqrt)
      {
        ghost var before := CandidatesOfWalls(walls[..wi], hDak, dim, sqrt);
        AddWallCandidates(walls[wi], hDak, dim, sqrt);
        FlatMapPrefix(walls, wi, CandidatesOfWall(hDak, dim, sqrt));
        AppendAssoc(old(cList), before, CandidatesOfWall(hDak, dim, sqrt)(walls[wi]));
        wi := wi + 1;
      }
      assert walls[..wi] == walls;
    }

    /**
     * `get_candidate_point(dim)` (code/simpleReflection.py:150-168): appends a
     * candidate for every point `split_lineseg2` places on every wall.
     */
    method GetCandidatePoint(dim: real, sqrt: real -> real)
      requires IsSqrt(sqrt) && dim != 0.0
      modifies this`cList
      ensures cList == old(cList) + CandidatesOf(footprints, dim, sqrt)
    {
      var bi := 0;
      while bi < |footprints|
        invariant 0 <= bi <= |footprints|
        invariant cList == old(cList) + CandidatesOf(footprints[..bi], dim, sqrt)
      {
        ghost var before := CandidatesOf(footprints[..bi], dim, sqrt);
        AddBuildingCandidates(footprints[bi].walls, footprints[bi].hDak, dim, sqrt);
        FlatMapPrefix(footprints, bi, CandidatesOfBuilding(dim, sqrt));
        AppendAssoc(old(cList), before, CandidatesOfBuilding(dim, sqrt)(footprints[bi]));
        bi := bi + 1;
      }
      assert footprints[..bi] == footprints;
    }

    /**
     * The wall loop of `get_first_paths` for one building
     * (code/simpleReflection.py:176-205): appends the building's reflection
     * points to `coords` and `heights`, and a `p1_list` entry for each.
     */
    method AddBuildingHits(walls: seq<Segment>, hDak: real, s: Point3, r: Point3, sqrt: real -> real,
                           coords0: seq<Point3>, heights0: seq<real>)
      returns (coords: seq<Point3>, heights: seq<real>)
      requires IsSqrt(sqrt)
      modifies this`p1List
      ensures coords == coords0 + FirstHitsOfWalls(walls, hDak, s, r, sqrt)
      ensures heights == heights0 + MapSeq(FirstHitsOfWalls(walls, hDak, s, r, sqrt), HitHeight)
      ensures p1List == old(p1List) + MapSeq(FirstHitsOfWalls(walls, hDak, s, r, sqrt), FirstPathOf(s, r))
    {
      coords, heights := coords0, heights0;
      ghost var hits: seq<Point3> := [];
      var wi := 0;
      while wi < |walls|
        invariant 0 <= wi <= |walls|
        invariant hits == FirstHitsOfWalls(walls[..wi], hDak, s, r, sqrt)
        invariant coords == coords0 + hits
        invariant heights == heights0 + MapSeq(hits, HitHeight)
        invariant p1List == old(p1List) + MapSeq(hits, FirstPathOf(s, r))
      {
        var wall := walls[wi];
        FilterMapPrefix(walls, wi, FirstHitOf(hDak, s, r, sqrt));
        var ref := ReflectAt(wall, s, r, sqrt);
        if ref.Some? {
          var refZ := Lift(ref.value, hDak);
          assert FirstHitOf(hDak, s, r, sqrt)(wall) == Some(refZ);
          MapSeqSnoc(hits, refZ, HitHeight);
          MapSeqSnoc(hits, refZ, FirstPathOf(s, r));
          assert HitHeight(refZ) == hDak;
          AppendAssoc(coords0, hits, [refZ]);
          AppendAssoc(heights0, MapSeq(hits, HitHeight), [hDak]);
          AppendAssoc(old(p1List), MapSeq(hits, FirstPathOf(s, r)), [FirstPath(s, refZ, r)]);
          coords := coords + [refZ];
          heights := heights + [hDak];
          p1List := p1List + [FirstPath(s, refZ, r)];
          hits := hits + [refZ];
        } else {
          assert FirstHitOf(hDak, s, r, sqrt)(wall) == None;
          assert hits + [] == hits;
        }
        wi := wi + 1;
      }
      assert walls[..wi] == walls;
    }

    /**
     * `get_first_paths(s, r)` (code/simpleReflection.py:170-205): returns the
     * reflection points with their heights and appends one `p1_list` entry
     * per point.
     */
    method GetFirstPaths(s: Point3, r: Point3, sqrt: real -> real) returns (coords: seq<Point3>, heights: seq<real>)
      requires IsSqrt(sqrt)
      modifies this`p1List
      ensures coords == FirstHits(footprints, s, r, sqrt)
      ensures heights == MapSeq(coords, HitHeight)
      ensures p1List == old(p1List) + MapSeq(coords, FirstPathOf(s, r))
    {
      coords := [];
      heights := [];
      var bi := 0;
      while bi < |footprints|
        invariant 0 <= bi <= |footprints|
        invariant coords == FirstHits(footprints[..bi], s, r, sqrt)
        invariant heights == MapSeq(coords, HitHeight)
        invariant p1List == old(p1List) + MapSeq(coords, FirstPathOf(s, r))
      {
        ghost var before := coords;
        ghost var added := FirstHitsOfWalls(footprints[bi].walls, footprints[bi].hDak, s, r, sqrt);
        coords, heights := AddBuildingHits(footprints[bi].walls, footprints[bi].hDak, s, r, sqrt, coords, heights);
        FlatMapPrefix(footprints, bi, FirstHitsOfBuilding(s, r, sqrt));
        MapSeqAppend(before, added, HitHeight);
        MapSeqAppend(before, added, FirstPathOf(s, r));
        AppendAssoc(old(p1List), MapSeq(before, FirstPathOf(s, r)), MapSeq(added, FirstPathOf(s, r)));
        bi := bi + 1;
      }
      assert footprints[..bi] == footprints;
    }

    /**
     * The wall loop of `get_second_paths` for one candidate and one building
     * (code/simpleReflection.py:215-255): appends the chains the building's
     * walls accept to `coords`, `heights` and `p2_list`.
     */
    method AddWallChains(candidate: Candidate, walls: seq<Segment>, hDak: real, s: Point3, r: Point3, t: real,
                         sqrt: real -> real, coords0: seq<SecondCoords>, heights0: seq<(real, real)>)
      returns (coords: seq<SecondCoords>, heights: seq<(real, real)>)
      requires IsSqrt(sqrt)
      modifies this`p2List
      ensures coords == coords0 + MapSeq(ChainsOfWalls(candidate, walls, hDak, s, r, t, sqrt), ChainCoord)
      ensures heights == heights0 + MapSeq(ChainsOfWalls(candidate, walls, hDak, s, r, t, sqrt), ChainHeight)
      ensures p2List == old(p2List) + MapSeq(ChainsOfWalls(candidate, walls, hDak, s, r, t, sqrt), ChainPath(s))
    {
      coords, heights := coords0, heights0;
      ghost var chains: seq<Chain> := [];
      var wi := 0;
      while wi < |walls|
        invariant 0 <= wi <= |walls|
        invariant chains == ChainsOfWalls(candidate, walls[..wi], hDak, s, r, t, sqrt)
        invariant coords == coords0 + MapSeq(chains, ChainCoord)
        invariant heights == heights0 + MapSeq(chains, ChainHeight)
        invariant p2List == old(p2List) + MapSeq(chains, ChainPath(s))
      {
        var wall := walls[wi];
        FilterMapPrefix(walls, wi, ChainOf(candidate, hDak, s, r, t, sqrt));
        var found := ChainAt(candidate, wall, hDak, s, r, t, sqrt);
        assert ChainOf(candidate, hDak, s, r, t, sqrt)(wall) == found;
        if found.Some? {
          var bZ := Lift(found.value.b, hDak);
          MapSeqSnoc(chains, found.value, ChainCoord);
          MapSeqSnoc(chains, found.value, ChainHeight);
          MapSeqSnoc(chains, found.value, ChainPath(s));
          AppendAssoc(coords0, MapSeq(chains, ChainCoord), [SecondCoords(bZ, Flat(candidate.point))]);
          AppendAssoc(heights0, MapSeq(chains, ChainHeight), [(hDak, candidate.point.z)]);
          AppendAssoc(old(p2List), MapSeq(chains, ChainPath(s)), [SecondPath(s, bZ, candidate.point, found.value.rClosest)]);
          coords := coords + [SecondCoords(bZ, Flat(candidate.point))];
          heights := heights + [(hDak, candidate.point.z)];
          p2List := p2List + [SecondPath(s, bZ, candidate.point, found.value.rClosest)];
          chains := chains + [found.value];
        } else {
          assert chains + [] == chains;
        }
        wi := wi + 1;
      }
      assert walls[..wi] == walls;
    }

    /**
     * `get_second_paths(s, r, t)` (code/simpleReflection.py:207-255): for
     * every candidate and every wall, appends the accepted chains to
     * `coords`, `heights` and `p2_list`.
     */
    method GetSecondPaths(s: Point3, r: Point3, t: real, sqrt: real -> real) returns (coords: seq<SecondCoords>, heights: seq<(real, real)>)
      requires IsSqrt(sqrt)
      modifies this`p2List
      ensures coords == MapSeq(SecondChains(cList, footprints, s, r, t, sqrt), ChainCoord)
      ensures heights == MapSeq(SecondChains(cList, footprints, s, r, t, sqrt), ChainHeight)
      ensures p2List == old(p2List) + MapSeq(SecondChains(cList, footprints, s, r, t, sqrt), ChainPath(s))
    {
      coords := [];
      heights := [];
      var ci := 0;
      while ci < |cList|
        invariant 0 <= ci <= |cList|
        invariant coords == MapSeq(SecondChains(cList[..ci], footprints, s, r, t, sqrt), ChainCoord)
        invariant heights == MapSeq(SecondChains(cList[..ci], footprints, s, r, t, sqrt), ChainHeight)
        invariant p2List == old(p2List) + MapSeq(SecondChains(cList[..ci], footprints, s, r, t, sqrt), ChainPath(s))
      {
        var candidate := cList[ci];
        ghost var beforeCandidate := SecondChains(cList[..ci], footprints, s, r, t, sqrt);
        var bi := 0;
        assert footprints[..0] == [];
        assert beforeCandidate + [] == beforeCandidate;
        while bi < |footprints|
          invariant 0 <= bi <= |footprints|
          invariant coords == MapSeq(beforeCandidate + ChainsOfBuildings(candidate, footprints[..bi], s, r, t, sqrt), ChainCoord)
          invariant heights == MapSeq(beforeCandidate + ChainsOfBuildings(candidate, footprints[..bi], s, r, t, sqrt), ChainHeight)
          invariant p2List == old(p2List) + MapSeq(beforeCandidate + ChainsOfBuildings(candidate, footprints[..bi], s, r, t, sqrt), ChainPath(s))
        {
          ghost var done := ChainsOfBuildings(candidate, footprints[..bi], s, r, t, sqrt);
          ghost var added := ChainsOfWalls(candidate, footprints[bi].walls, footprints[bi].hDak, s, r, t, sqrt);
          coords, heights := AddWallChains(candidate, footprints[bi].walls, footprints[bi].hDak, s, r, t, sqrt, coords, heights);
          FlatMapPrefix(footprints, bi, ChainsOfBuilding(candidate, s, r, t, sqrt));
          AppendAssoc(beforeCandidate, done, added);
          MapSeqAppend(beforeCandidate + done, added, ChainCoord);
          MapSeqAppend(beforeCandidate + done, added, ChainHeight);
          MapSeqAppend(beforeCandidate + done, added, ChainPath(s));
          AppendAssoc(old(p2List), MapSeq(beforeCandidate + done, ChainPath(s)), MapSeq(added, ChainPath(s)));
          bi := bi + 1;
        }
        assert footprints[..bi] == footprints;
        FlatMapPrefix(cList, ci, ChainsOfCandidate(footprints, s, r, t, sqrt));
        ci := ci + 1;
      }
      assert cList[..ci] == cList;
    }
  }

  // ---------------------------------------------------------------------------
  // Scenarios
  // ---------------------------------------------------------------------------

  /**
   * A source and a receiver on opposite sides of a wall give no first-order
   * reflection, whichever side counts as outside.
   */
  lemma OppositeSidesNoReflection(sqrt: real -> real)
    requires IsSqrt(sqrt)
    ensures FirstHits([Building(5.0, [Segment(Point2(0.0, 0.0), Point2(10.0, 0.0))])], Point3(5.0, 5.0, 2.0), Point3(5.0, -5.0, 1.0), sqrt) == []
  {
    var bs := [Building(5.0, [Segment(Point2(0.0, 0.0), Point2(10.0, 0.0))])];
    assert bs[..0] == [];
    var ws := bs[0].walls;
    assert ws[..0] == [];
    assert SideTest(Point2(0.0, 0.0), Point2(10.0, 0.0), Point2(5.0, -5.0)) == -50.0;
  }

  /** The wall from (0, 0) to (10, 0) has the unit-normal equation -y = 0. */
  lemma ExampleWallLine(sqrt: real -> real)
    requires IsSqrt(sqrt)
    ensures GetLineEquation(Point2(0.0, 0.0), Point2(10.0, 0.0), sqrt) == Line(0.0, -1.0, 0.0)
  {
    SqrtUnique(sqrt, 100.0, 10.0);
    assert 0.0 * 0.0 + (-10.0) * (-10.0) == 100.0;
  }

  /**
   * Source (2, 5) and receiver (8, 5) in front of the wall from (0, 0) to
   * (10, 0) reflect at (5, 0).
   */
  lemma ExampleReflection(sqrt: real -> real)
    requires IsSqrt(sqrt)
    ensures ReflectAt(Segment(Point2(0.0, 0.0), Point2(10.0, 0.0)), Point3(2.0, 5.0, 2.0), Point3(8.0, 5.0, 1.0), sqrt) == Some(Point2(5.0, 0.0))
  {
    var w := Segment(Point2(0.0, 0.0), Point2(10.0, 0.0));
    assert SideTest(w.p1, w.p2, Point2(8.0, 5.0)) == 50.0;
    assert SideTest(w.p1, w.p2, Point2(2.0, 5.0)) == 50.0;
    ExampleWallLine(sqrt);
    ExampleMirror();
    ExampleIntersection();
  }

  /** Mirroring (2, 5) across the line -y = 0 gives (2, -5). */
  lemma ExampleMirror()
    ensures GetMirrorPoint(Point2(2.0, 5.0), Line(0.0, -1.0, 0.0)) == Point2(2.0, -5.0)
  {
    assert SignedDistance(Line(0.0, -1.0, 0.0), Point2(2.0, 5.0)) == -5.0;
  }

  /** The ray from the mirrored source (2, -5) to (8, 5) crosses the wall at (5, 0). */
  lemma ExampleIntersection()
    ensures LineIntersect(Segment(Point2(0.0, 0.0), Point2(10.0, 0.0)), Segment(Point2(2.0, -5.0), Point2(8.0, 5.0))) == Some(Point2(5.0, 0.0))
  {
    var w := Segment(Point2(0.0, 0.0), Point2(10.0, 0.0));
    var ray := Segment(Point2(2.0, -5.0), Point2(8.0, 5.0));
    assert Determinant(w, ray) == 100.0;
    assert NumeratorA(w, ray) == 50.0;
    assert NumeratorB(w, ray) == 50.0;
  }

  /**
   * The same source and receiver in front of that wall of a 5 m building give
   * one reflection point, at (5, 0) and the roof height.
   */
  lemma SameSideReflection(sqrt: real -> real)
    requires IsSqrt(sqrt)
    ensures FirstHits([Building(5.0, [Segment(Point2(0.0, 0.0), Point2(10.0, 0.0))])], Point3(2.0, 5.0, 2.0), Point3(8.0, 5.0, 1.0), sqrt) == [Point3(5.0, 0.0, 5.0)]
  {
    var bs := [Building(5.0, [Segment(Point2(0.0, 0.0), Point2(10.0, 0.0))])];
    assert bs[..0] == [];
    var ws := bs[0].walls;
    assert ws[..0] == [];
    ExampleReflection(sqrt);
  }
}
