/**
 * Collision geometry of the game: the boundary segments of platforms, the
 * circle-versus-segment query and the capsule push-out query
 * (Collisions.hpp and Collisions.cpp).
 */
module Collisions {
  import opened Geometry
  import opened Wrappers

  // ---- value types (Collisions.hpp) ----

  datatype LineSegment = LineSegment(ep1: Vec2, ep2: Vec2, surfaceNormal: Vec2)

  /** A circle; its constructor asserts a non-zero radius, which the methods that receive one require. */
  datatype Circle = Circle(center: Vec2, radius: real)

  datatype Intersection = Intersection(point: Vec2, surfaceNormal: Vec2)

  /** What the line_segment constructor guarantees: distinct endpoints and a unit normal. */
  predicate ValidSegment(l: LineSegment) {
    l.ep1 != l.ep2 && SqLength(l.surfaceNormal) == 1.0
  }

  /** The line_segment constructor: stores the normalized normal; endpoints must differ. */
  function MakeSegment(ep1: Vec2, ep2: Vec2, normal: Vec2, sqrt: real -> real): (l: LineSegment)
    requires IsSqrt(sqrt)
    requires ep1 != ep2 && normal != Zero2
    ensures ValidSegment(l) && l.ep1 == ep1 && l.ep2 == ep2
    ensures l.surfaceNormal.Times(Length(normal, sqrt)) == normal
  {
    LineSegment(ep1, ep2, Normalize(normal, sqrt))
  }

  /** The intersection constructor: always normalizes the normal it is given. */
  function MakeIntersection(point: Vec2, normal: Vec2, sqrt: real -> real): (i: Intersection)
    requires IsSqrt(sqrt)
    requires normal != Zero2
    ensures i.point == point && SqLength(i.surfaceNormal) == 1.0
    ensures SqLength(normal) == 1.0 ==> i.surfaceNormal == normal
  {
    if SqLength(normal) == 1.0 then NormalizeUnit(normal, sqrt); Intersection(point, Normalize(normal, sqrt))
    else Intersection(point, Normalize(normal, sqrt))
  }

  // ---- points along a segment ----

  function Direction(l: LineSegment): Vec2 { l.ep2.Minus(l.ep1) }

  /** The point `start + u * (end - start)`. */
  function PointAt(l: LineSegment, u: real): Vec2 { l.ep1.Plus(Direction(l).Times(u)) }

  lemma PointAtEnds(l: LineSegment)
    ensures PointAt(l, 0.0) == l.ep1 && PointAt(l, 1.0) == l.ep2
  {
  }

  lemma DirectionNonZero(l: LineSegment)
    requires ValidSegment(l)
    ensures SqLength(Direction(l)) > 0.0
  {
    assert Direction(l) != Zero2;
    SqLengthSign(Direction(l));
  }

  /** The parameter of the foot of the perpendicular from `p` to the segment's line. */
  function ProjectionParam(l: LineSegment, p: Vec2): real
    requires ValidSegment(l)
  {
    DirectionNonZero(l);
    Dot(p.Minus(l.ep1), Direction(l)) / SqLength(Direction(l))
  }

  lemma SqDistanceSymmetric(a: Vec2, b: Vec2)
    ensures SqDistance(a, b) == SqDistance(b, a)
  {
  }

  // The coefficients of get_collisions' quadratic in the segment parameter.
  function CoefA(l: LineSegment): real { SqLength(Direction(l)) }
  function CoefB(l: LineSegment, c: Circle): real { 2.0 * Dot(l.ep1.Minus(c.center), Direction(l)) }
  function CoefC(l: LineSegment, c: Circle): real { SqLength(l.ep1.Minus(c.center)) - Sq(c.radius) }

  function SegmentDiscriminant(l: LineSegment, c: Circle): real {
    Discriminant(CoefA(l), CoefB(l, c), CoefC(l, c))
  }

  /** The quadratic solved by get_collisions is the squared distance to the center minus the squared radius. */
  lemma QuadraticIsDistance(l: LineSegment, c: Circle, u: real)
    ensures SqDistance(PointAt(l, u), c.center) - Sq(c.radius) == Quadratic(CoefA(l), CoefB(l, c), CoefC(l, c), u)
  {
  }

  /** The vertex of that quadratic is the foot of the perpendicular from the center. */
  lemma VertexIsProjection(l: LineSegment, c: Circle)
    requires ValidSegment(l)
    ensures CoefA(l) > 0.0 && -CoefB(l, c) / (2.0 * CoefA(l)) == ProjectionParam(l, c.center)
  {
    DirectionNonZero(l);
    assert Dot(l.ep1.Minus(c.center), Direction(l)) == -Dot(c.center.Minus(l.ep1), Direction(l));
  }

  // ---- get_lines ----

  /** A platform transform: position, a rotation in the plane and a scale. */
  datatype Platform = Platform(position: Vec2, rotation: Rotation, scale: Vec2)

  predicate ValidPlatform(p: Platform) {
    IsRotation(p.rotation) && p.scale.x != 0.0 && p.scale.y != 0.0
  }

  /** `rotation * (x, y) + position` */
  function Corner(p: Platform, x: real, y: real): Vec2 {
    Rotate(p.rotation, Vec2(x, y)).Plus(p.position)
  }

  lemma RotatedUnit(r: Rotation, v: Vec2)
    requires IsRotation(r) && SqLength(v) == 1.0
    ensures SqLength(Rotate(r, v)) == 1.0 && Rotate(r, v) != Zero2
  {
    RotateDot(r, v, v);
    SqLengthSign(v);
  }

  lemma CornersDiffer(p: Platform, x1: real, y1: real, x2: real, y2: real)
    requires IsRotation(p.rotation) && (x1 != x2 || y1 != y2)
    ensures Corner(p, x1, y1) != Corner(p, x2, y2)
  {
    RotateInjective(p.rotation, Vec2(x1, y1), Vec2(x2, y2));
  }

  /** The corners (x1, y1) and (x2, y2) of side k before the transform: left, right, top, bottom. */
  function SideCorners(p: Platform, k: int): (real, real, real, real) {
    var sx, sy := p.scale.x, p.scale.y;
    if k == 0 then (-sx, sy, -sx, -sy)
    else if k == 1 then (sx, sy, sx, -sy)
    else if k == 2 then (-sx, sy, sx, sy)
    else (-sx, -sy, sx, -sy)
  }

  /** The outward normal of side k before rotation. */
  function SideNormal(k: int): Vec2 {
    if k == 0 then Vec2(-1.0, 0.0)
    else if k == 1 then Vec2(1.0, 0.0)
    else if k == 2 then Vec2(0.0, 1.0)
    else Vec2(0.0, -1.0)
  }

  /**
   * Side k of a platform. The rotated axis normal is already of unit length,
   * so it is stored as is; SideIsConstructed shows that this is what the
   * normalizing line_segment constructor stores.
   */
  function Side(p: Platform, k: int): LineSegment {
    var c := SideCorners(p, k);
    LineSegment(Corner(p, c.0, c.1), Corner(p, c.2, c.3), Rotate(p.rotation, SideNormal(k)))
  }

  /** get_lines: the left, right, top and bottom sides of a platform, in that order. */
  function GetLines(p: Platform): (ls: seq<LineSegment>)
    ensures |ls| == 4 && forall k :: 0 <= k < 4 ==> ls[k] == Side(p, k)
  {
    [Side(p, 0), Side(p, 1), Side(p, 2), Side(p, 3)]
  }

  /** Each side has distinct endpoints and a unit normal. */
  lemma SideValid(p: Platform, k: int)
    requires ValidPlatform(p) && 0 <= k < 4
    ensures ValidSegment(Side(p, k))
  {
    var c := SideCorners(p, k);
    assert c.0 != c.2 || c.1 != c.3;
    assert SqLength(SideNormal(k)) == 1.0;
    CornersDiffer(p, c.0, c.1, c.2, c.3);
    RotatedUnit(p.rotation, SideNormal(k));
  }

  /** Building side k through the line_segment constructor gives the same segment. */
  lemma SideIsConstructed(p: Platform, k: int, sqrt: real -> real)
    requires IsSqrt(sqrt) && ValidPlatform(p) && 0 <= k < 4
    ensures var l := Side(p, k); l == MakeSegment(l.ep1, l.ep2, l.surfaceNormal, sqrt)
  {
    var l := Side(p, k);
    SideValid(p, k);
    SqLengthSign(l.surfaceNormal);
    NormalizeUnit(l.surfaceNormal, sqrt);
  }

  /** get_lines yields valid segments only. */
  lemma GetLinesValid(p: Platform)
    requires ValidPlatform(p)
    ensures forall k :: 0 <= k < 4 ==> ValidSegment(GetLines(p)[k])
  {
    forall k | 0 <= k < 4
      ensures ValidSegment(GetLines(p)[k])
    {
      SideValid(p, k);
    }
  }

  /** Each side's normal is its rotated axis direction (never translated or scaled) and is perpendicular to the side. */
  lemma SidePerpendicular(p: Platform, k: int)
    requires ValidPlatform(p) && 0 <= k < 4
    ensures Side(p, k).surfaceNormal == Rotate(p.rotation, SideNormal(k))
    ensures Dot(Side(p, k).surfaceNormal, Direction(Side(p, k))) == 0.0
  {
    var r, c, n := p.rotation, SideCorners(p, k), SideNormal(k);
    var e1, e2 := Vec2(c.0, c.1), Vec2(c.2, c.3);
    RotateMinus(r, e2, e1);
    assert Direction(Side(p, k)) == Rotate(r, e2.Minus(e1));
    RotateDot(r, n, e2.Minus(e1));
  }

  /** Each side lies at distance |scale| from the platform's center, measured along its normal. */
  lemma SideOffset(p: Platform, k: int)
    requires ValidPlatform(p) && 0 <= k < 4
    ensures Dot(Side(p, k).surfaceNormal, Side(p, k).ep1.Minus(p.position)) == (if k < 2 then p.scale.x else p.scale.y)
  {
    var r, c, n := p.rotation, SideCorners(p, k), SideNormal(k);
    var e1 := Vec2(c.0, c.1);
    assert Side(p, k).ep1.Minus(p.position) == Rotate(r, e1);
    RotateDot(r, n, e1);
  }

  /** Opposite sides have opposite normals. */
  lemma OppositeNormals(p: Platform)
    ensures GetLines(p)[1].surfaceNormal == Vec2(-GetLines(p)[0].surfaceNormal.x, -GetLines(p)[0].surfaceNormal.y)
    ensures GetLines(p)[3].surfaceNormal == Vec2(-GetLines(p)[2].surfaceNormal.x, -GetLines(p)[2].surfaceNormal.y)
  {
  }

  /** An unrotated platform's sides are its scaled axis-aligned edges, shifted by its position. */
  lemma UnrotatedSide(p: Platform, k: int)
    requires p.rotation == Rotation(1.0, 0.0)
    ensures var c := SideCorners(p, k);
      Side(p, k) == LineSegment(Vec2(c.0, c.1).Plus(p.position), Vec2(c.2, c.3).Plus(p.position), SideNormal(k))
  {
    var c := SideCorners(p, k);
    IdentityRotation(Vec2(c.0, c.1));
    IdentityRotation(Vec2(c.2, c.3));
    IdentityRotation(SideNormal(k));
  }

  lemma IdentityRotation(v: Vec2)
    ensures Rotate(Rotation(1.0, 0.0), v) == v
  {
  }

  /** The left side of the platform of scale (5, 1) at the origin, unrotated. */
  lemma GetLinesExampleLeft(p: Platform)
    requires p == Platform(Zero2, Rotation(1.0, 0.0), Vec2(5.0, 1.0))
    ensures GetLines(p)[0] == LineSegment(Vec2(-5.0, 1.0), Vec2(-5.0, -1.0), Vec2(-1.0, 0.0))
  {
    UnrotatedSide(p, 0);
  }

  /** The top side of the same platform. */
  lemma GetLinesExampleTop(p: Platform)
    requires p == Platform(Zero2, Rotation(1.0, 0.0), Vec2(5.0, 1.0))
    ensures GetLines(p)[2] == LineSegment(Vec2(-5.0, 1.0), Vec2(5.0, 1.0), Vec2(0.0, 1.0))
  {
    UnrotatedSide(p, 2);
  }

  // ---- the manager's segment list ----

  /** get_lines applied to each platform, concatenated in platform order. */
  function AllLines(ps: seq<Platform>): (ls: seq<LineSegment>)
    requires forall i :: 0 <= i < |ps| ==> ValidPlatform(ps[i])
    ensures forall k :: 0 <= k < |ls| ==> ValidSegment(ls[k])
  {
    if ps == [] then []
    else
      GetLinesValid(ps[|ps| - 1]);
      AllLines(ps[..|ps| - 1]) + GetLines(ps[|ps| - 1])
  }

  /** There are four segments per platform, and segment 4i+k is side k of platform i. */
  lemma {:induction false} AllLinesAt(ps: seq<Platform>, i: int, k: int)
    requires forall j :: 0 <= j < |ps| ==> ValidPlatform(ps[j])
    requires 0 <= i < |ps| && 0 <= k < 4
    ensures |AllLines(ps)| == 4 * |ps|
    ensures AllLines(ps)[4 * i + k] == GetLines(ps[i])[k]
  {
    var init := ps[..|ps| - 1];
    AllLinesLength(init);
    if i < |ps| - 1 {
      AllLinesAt(init, i, k);
    }
  }

  lemma {:induction false} AllLinesLength(ps: seq<Platform>)
    requires forall j :: 0 <= j < |ps| ==> ValidPlatform(ps[j])
    ensures |AllLines(ps)| == 4 * |ps|
  {
    if ps != [] {
      AllLinesLength(ps[..|ps| - 1]);
    }
  }

  // ---- get_collisions: circle against one segment ----

  /**
   * The per-segment body of get_collisions: solve for where the segment's line
   * meets the circle and report one point, or nothing.
   */
  function CircleSegmentHit(l: LineSegment, c: Circle, sqrt: real -> real): (r: Option<Intersection>)
    requires IsSqrt(sqrt) && ValidSegment(l)
    ensures r.Some? ==> r.value.surfaceNormal == l.surfaceNormal
  {
    var a, b, cc := CoefA(l), CoefB(l, c), CoefC(l, c);
    var disc := Discriminant(a, b, cc);
    if disc >= 0.0 then
      DirectionNonZero(l);
      var s := sqrt(disc);
      var t1 := (-b - s) / (2.0 * a);
      var t2 := (-b + s) / (2.0 * a);
      if t1 == t2 then
        Some(MakeIntersection(PointAt(l, t1), l.surfaceNormal, sqrt))
      else if 0.0 <= t1 <= 1.0 && 0.0 <= t2 <= 1.0 then
        Some(MakeIntersection(Midpoint(PointAt(l, t1), PointAt(l, t2)), l.surfaceNormal, sqrt))
      else if 0.0 <= t1 <= 1.0 then
        Some(MakeIntersection(PointAt(l, t1), l.surfaceNormal, sqrt))
      else if 0.0 <= t2 <= 1.0 then
        Some(MakeIntersection(PointAt(l, t2), l.surfaceNormal, sqrt))
      else
        None
    else
      None
  }

  function Midpoint(p: Vec2, q: Vec2): Vec2 { Vec2((p.x + q.x) / 2.0, (p.y + q.y) / 2.0) }

  predicate OnCircle(l: LineSegment, c: Circle, u: real) {
    SqDistance(PointAt(l, u), c.center) == Sq(c.radius)
  }

  /** The two roots of the discriminant formula are exactly the parameters where the line meets the circle. */
  lemma RootsOnCircle(l: LineSegment, c: Circle, sqrt: real -> real, u: real)
    requires IsSqrt(sqrt) && ValidSegment(l) && SegmentDiscriminant(l, c) >= 0.0
    ensures var a, b, s := CoefA(l), CoefB(l, c), sqrt(SegmentDiscriminant(l, c));
      a > 0.0 && (OnCircle(l, c, u) <==> u == (-b - s) / (2.0 * a) || u == (-b + s) / (2.0 * a))
  {
    DirectionNonZero(l);
    QuadraticIsDistance(l, c, u);
    QuadraticRoots(CoefA(l), CoefB(l, c), CoefC(l, c), sqrt(SegmentDiscriminant(l, c)), u);
  }

  /** With a negative discriminant no point of the line is on the circle. */
  lemma NegativeDiscriminantMisses(l: LineSegment, c: Circle, u: real)
    requires ValidSegment(l) && SegmentDiscriminant(l, c) < 0.0
    ensures !OnCircle(l, c, u)
  {
    DirectionNonZero(l);
    QuadraticIsDistance(l, c, u);
    QuadraticPositive(CoefA(l), CoefB(l, c), CoefC(l, c), u);
  }

  /**
   * Away from tangency, get_collisions reports a hit on a segment exactly
   * when some point of the segment (parameter in [0, 1]) lies on the circle.
   */
  lemma CircleSegmentHitExact(l: LineSegment, c: Circle, sqrt: real -> real)
    requires IsSqrt(sqrt) && ValidSegment(l)
    requires SegmentDiscriminant(l, c) != 0.0
    ensures CircleSegmentHit(l, c, sqrt).Some? <==> exists u :: 0.0 <= u <= 1.0 && OnCircle(l, c, u)
  {
    var disc := SegmentDiscriminant(l, c);
    if disc > 0.0 {
      DirectionNonZero(l);
      var a, b, s := CoefA(l), CoefB(l, c), sqrt(disc);
      var t1, t2 := (-b - s) / (2.0 * a), (-b + s) / (2.0 * a);
      RootsOnCircle(l, c, sqrt, t1);
      RootsOnCircle(l, c, sqrt, t2);
      if s == 0.0 {
        SquareSign(0.0);
        assert false;
      }
      assert t1 != t2;
      if exists u :: 0.0 <= u <= 1.0 && OnCircle(l, c, u) {
        var u :| 0.0 <= u <= 1.0 && OnCircle(l, c, u);
        RootsOnCircle(l, c, sqrt, u);
      }
    } else {
      forall u | 0.0 <= u <= 1.0
        ensures !OnCircle(l, c, u)
      {
        NegativeDiscriminantMisses(l, c, u);
      }
    }
  }

  /** Every hit reported by get_collisions carries the segment's own normal and lies on the segment's line within the circle. */
  lemma CircleSegmentHitShape(l: LineSegment, c: Circle, sqrt: real -> real)
    requires IsSqrt(sqrt) && ValidSegment(l)
    ensures var h := CircleSegmentHit(l, c, sqrt);
      h.Some? ==>
        && h.value.surfaceNormal == l.surfaceNormal
        && SqDistance(h.value.point, c.center) <= Sq(c.radius)
        && exists u :: h.value.point == PointAt(l, u)
  {
    var h := CircleSegmentHit(l, c, sqrt);
    var disc := SegmentDiscriminant(l, c);
    if h.Some? {
      DirectionNonZero(l);
      var a, b, s := CoefA(l), CoefB(l, c), sqrt(disc);
      var t1, t2 := (-b - s) / (2.0 * a), (-b + s) / (2.0 * a);
      RootsOnCircle(l, c, sqrt, t1);
      RootsOnCircle(l, c, sqrt, t2);
      if t1 != t2 && 0.0 <= t1 <= 1.0 && 0.0 <= t2 <= 1.0 {
        MidpointWithin(l, c, sqrt);
      }
    }
  }

  /** Between the two crossings the line runs inside the circle: their midpoint is within the radius. */
  lemma MidpointWithin(l: LineSegment, c: Circle, sqrt: real -> real)
    requires IsSqrt(sqrt) && ValidSegment(l) && SegmentDiscriminant(l, c) >= 0.0
    ensures var a, b, s := CoefA(l), CoefB(l, c), sqrt(SegmentDiscriminant(l, c));
      a > 0.0 &&
      var t1, t2 := (-b - s) / (2.0 * a), (-b + s) / (2.0 * a);
      && Midpoint(PointAt(l, t1), PointAt(l, t2)) == PointAt(l, -b / (2.0 * a))
      && SqDistance(Midpoint(PointAt(l, t1), PointAt(l, t2)), c.center) <= Sq(c.radius)
  {
    DirectionNonZero(l);
    var a, b, s := CoefA(l), CoefB(l, c), sqrt(SegmentDiscriminant(l, c));
    var t1, t2 := (-b - s) / (2.0 * a), (-b + s) / (2.0 * a);
    var m := -b / (2.0 * a);
    assert Midpoint(PointAt(l, t1), PointAt(l, t2)) == PointAt(l, m);
    QuadraticIsDistance(l, c, m);
    CompletedSquare(a, b, CoefC(l, c), m);
    assert Mul(2.0 * a, m) + b == 0.0;
    MulAtMost(Quadratic(a, b, CoefC(l, c), m), 0.0, 4.0 * a);
    if Quadratic(a, b, CoefC(l, c), m) > 0.0 {
      MulBelow(0.0, Quadratic(a, b, CoefC(l, c), m), 4.0 * a);
    }
  }

  /**
   * At tangency (zero discriminant) the hit is the foot of the perpendicular
   * from the center, whether or not it lies within the segment.
   */
  lemma TangentHit(l: LineSegment, c: Circle, sqrt: real -> real)
    requires IsSqrt(sqrt) && ValidSegment(l) && SegmentDiscriminant(l, c) == 0.0
    ensures CircleSegmentHit(l, c, sqrt) == Some(Intersection(PointAt(l, ProjectionParam(l, c.center)), l.surfaceNormal))
  {
    var s := sqrt(0.0);
    SquareSign(0.0);
    RootUnique(s, 0.0);
    VertexIsProjection(l, c);
  }

  /** get_collisions over a list of segments: the hits, in segment order, at most one per segment. */
  function CollectHits(ls: seq<LineSegment>, c: Circle, sqrt: real -> real): (hits: seq<Intersection>)
    requires IsSqrt(sqrt)
    requires forall k :: 0 <= k < |ls| ==> ValidSegment(ls[k])
    ensures |hits| <= |ls|
  {
    if ls == [] then []
    else
      var rest := CollectHits(ls[..|ls| - 1], c, sqrt);
      match CircleSegmentHit(ls[|ls| - 1], c, sqrt)
      case Some(i) => rest + [i]
      case None => rest
  }

  /** Every collected hit carries the normal of one of the segments and lies within the circle. */
  lemma {:induction false} CollectHitsNormals(ls: seq<LineSegment>, c: Circle, sqrt: real -> real)
    requires IsSqrt(sqrt)
    requires forall k :: 0 <= k < |ls| ==> ValidSegment(ls[k])
    ensures forall h :: h in CollectHits(ls, c, sqrt) ==>
      SqDistance(h.point, c.center) <= Sq(c.radius) && exists k :: 0 <= k < |ls| && h.surfaceNormal == ls[k].surfaceNormal
  {
    if ls != [] {
      var init := ls[..|ls| - 1];
      CollectHitsNormals(init, c, sqrt);
      CircleSegmentHitShape(ls[|ls| - 1], c, sqrt);
      forall h | h in CollectHits(ls, c, sqrt)
        ensures SqDistance(h.point, c.center) <= Sq(c.radius) && exists k :: 0 <= k < |ls| && h.surfaceNormal == ls[k].surfaceNormal
      {
        if h in CollectHits(init, c, sqrt) {
          var k :| 0 <= k < |init| && h.surfaceNormal == init[k].surfaceNormal;
          assert ls[k] == init[k];
        } else {
          assert h.surfaceNormal == ls[|ls| - 1].surfaceNormal;
        }
      }
    }
  }

  // ---- get_capsule_collision ----

  /**
   * When the perpendicular foot is not a hit, the center cannot be an endpoint
   * within reach: at an endpoint the foot is that endpoint itself.
   */
  lemma CapsuleEndpointDistinct(c: Circle, l: LineSegment, sqrt: real -> real)
    requires IsSqrt(sqrt) && ValidSegment(l)
    requires var t := ProjectionParam(l, c.center);
      !(0.0 <= t <= 1.0 && Distance(c.center, PointAt(l, t), sqrt) <= c.radius)
    ensures Distance(c.center, l.ep1, sqrt) <= c.radius ==> c.center.Minus(l.ep1) != Zero2
    ensures Distance(c.center, l.ep2, sqrt) <= c.radius ==> c.center.Minus(l.ep2) != Zero2
  {
    PointAtEnds(l);
    ProjectionAtEnds(l);
    assert c.center.Minus(l.ep1) == Zero2 ==> c.center == l.ep1;
    assert c.center.Minus(l.ep2) == Zero2 ==> c.center == l.ep2;
  }

  /** The foot of the perpendicular from an endpoint is that endpoint. */
  lemma ProjectionAtEnds(l: LineSegment)
    requires ValidSegment(l)
    ensures ProjectionParam(l, l.ep1) == 0.0 && ProjectionParam(l, l.ep2) == 1.0
  {
    DirectionNonZero(l);
    var d := Direction(l);
    assert l.ep1.Minus(l.ep1) == Zero2;
    assert Dot(l.ep2.Minus(l.ep1), d) == SqLength(d);
    DivideSelf(SqLength(d));
  }

  lemma DivideSelf(x: real)
    requires x != 0.0
    ensures x / x == 1.0
  {
  }

  /**
   * get_capsule_collision: push a circle out of the capsule around a segment.
   * Tests the perpendicular foot first, then the start point, then the end
   * point; `None` is the `is_hit == false` result.
   */
  function CapsuleCollision(c: Circle, l: LineSegment, sqrt: real -> real): (r: Option<Intersection>)
    requires IsSqrt(sqrt) && ValidSegment(l)
    ensures r.Some? ==> SqLength(r.value.surfaceNormal) == 1.0
  {
    var point, radius, start, end := c.center, c.radius, l.ep1, l.ep2;
    var t := ProjectionParam(l, point);
    var projection := PointAt(l, t);
    if 0.0 <= t <= 1.0 && Distance(point, projection, sqrt) <= radius then
      Some(MakeIntersection(projection.Plus(l.surfaceNormal.Times(radius)), l.surfaceNormal, sqrt))
    else if Distance(point, start, sqrt) <= radius then
      CapsuleEndpointDistinct(c, l, sqrt);
      var n := Normalize(point.Minus(start), sqrt);
      SqLengthSign(n);
      Some(MakeIntersection(start.Plus(n.Times(radius)), n, sqrt))
    else if Distance(point, end, sqrt) <= radius then
      CapsuleEndpointDistinct(c, l, sqrt);
      var n := Normalize(point.Minus(end), sqrt);
      SqLengthSign(n);
      Some(MakeIntersection(end.Plus(n.Times(radius)), n, sqrt))
    else
      None
  }

  /** The squared distance from `p` to a point of the line grows with the squared offset from the foot. */
  lemma DistanceAlongLine(l: LineSegment, p: Vec2, u: real)
    requires ValidSegment(l)
    ensures SqDistance(p, PointAt(l, u))
      == SqDistance(p, PointAt(l, ProjectionParam(l, p))) + Mul(CoefA(l), Sq(u - ProjectionParam(l, p)))
  {
    var c := Circle(p, 0.0);
    DirectionNonZero(l);
    var a, b, cc := CoefA(l), CoefB(l, c), CoefC(l, c);
    var t := ProjectionParam(l, p);
    VertexIsProjection(l, c);
    VertexForm(a, b, cc, u);
    QuadraticIsDistance(l, c, u);
    QuadraticIsDistance(l, c, t);
    SqDistanceSymmetric(p, PointAt(l, u));
    SqDistanceSymmetric(p, PointAt(l, t));
  }

  /** Among the points of the segment, the one nearest to `p` is the clamped foot of the perpendicular. */
  lemma NearestOnSegment(l: LineSegment, p: Vec2, u: real)
    requires ValidSegment(l) && 0.0 <= u <= 1.0
    ensures var t := ProjectionParam(l, p);
      && (0.0 <= t <= 1.0 ==> SqDistance(p, PointAt(l, t)) <= SqDistance(p, PointAt(l, u)))
      && (t < 0.0 ==> SqDistance(p, l.ep1) <= SqDistance(p, PointAt(l, u)))
      && (t > 1.0 ==> SqDistance(p, l.ep2) <= SqDistance(p, PointAt(l, u)))
  {
    var t := ProjectionParam(l, p);
    var a := CoefA(l);
    DirectionNonZero(l);
    DistanceAlongLine(l, p, u);
    SquareSign(u - t);
    MulAtMost(0.0, Sq(u - t), a);
    PointAtEnds(l);
    if t < 0.0 {
      DistanceAlongLine(l, p, 0.0);
      SquareAtMost(0.0 - t, u - t);
      MulAtMost(Sq(0.0 - t), Sq(u - t), a);
    } else if t > 1.0 {
      DistanceAlongLine(l, p, 1.0);
      SquareAtMost(t - 1.0, t - u);
      SquareOfNegation(1.0 - t);
      SquareOfNegation(u - t);
      assert Sq(1.0 - t) == Sq(t - 1.0) && Sq(u - t) == Sq(t - u);
      MulAtMost(Sq(1.0 - t), Sq(u - t), a);
    }
  }

  ghost predicate InCapsule(l: LineSegment, c: Circle) {
    c.radius >= 0.0 && exists u :: 0.0 <= u <= 1.0 && SqDistance(c.center, PointAt(l, u)) <= Sq(c.radius)
  }

  /** The capsule query hits exactly when the center lies within `radius` of some point of the segment. */
  lemma CapsuleHitIff(c: Circle, l: LineSegment, sqrt: real -> real)
    requires IsSqrt(sqrt) && ValidSegment(l)
    ensures CapsuleCollision(c, l, sqrt).Some? <==> InCapsule(l, c)
  {
    var p, r := c.center, c.radius;
    var t := ProjectionParam(l, p);
    PointAtEnds(l);
    var dProj, dStart, dEnd := Distance(p, PointAt(l, t), sqrt), Distance(p, l.ep1, sqrt), Distance(p, l.ep2, sqrt);
    RootAtMost(dProj, SqDistance(p, PointAt(l, t)), r);
    RootAtMost(dStart, SqDistance(p, l.ep1), r);
    RootAtMost(dEnd, SqDistance(p, l.ep2), r);
    if CapsuleCollision(c, l, sqrt).Some? {
      if 0.0 <= t <= 1.0 && dProj <= r {
        assert 0.0 <= t <= 1.0 && SqDistance(p, PointAt(l, t)) <= Sq(r);
      } else if dStart <= r {
        assert SqDistance(p, PointAt(l, 0.0)) <= Sq(r);
      } else {
        assert SqDistance(p, PointAt(l, 1.0)) <= Sq(r);
      }
    }
    if InCapsule(l, c) {
      var u :| 0.0 <= u <= 1.0 && SqDistance(p, PointAt(l, u)) <= Sq(r);
      NearestOnSegment(l, p, u);
    }
  }

  /**
   * A capsule hit pushes the center to exactly `radius` along a unit normal
   * from some point of the segment. Inside the slab the normal is the
   * segment's own, whichever side the center is on; otherwise the start is
   * tried before the end, and the normal points from that endpoint to the
   * center.
   */
  lemma CapsuleHitShape(c: Circle, l: LineSegment, sqrt: real -> real)
    requires IsSqrt(sqrt) && ValidSegment(l)
    ensures var h := CapsuleCollision(c, l, sqrt);
      h.Some? ==>
        && SqLength(h.value.surfaceNormal) == 1.0
        && exists u :: 0.0 <= u <= 1.0 && h.value.point == PointAt(l, u).Plus(h.value.surfaceNormal.Times(c.radius))
    ensures var h := CapsuleCollision(c, l, sqrt);
      var t := ProjectionParam(l, c.center);
      var interior := 0.0 <= t <= 1.0 && Distance(c.center, PointAt(l, t), sqrt) <= c.radius;
      var nearStart := Distance(c.center, l.ep1, sqrt) <= c.radius;
      var nearEnd := Distance(c.center, l.ep2, sqrt) <= c.radius;
      && (interior ==> h == Some(Intersection(PointAt(l, t).Plus(l.surfaceNormal.Times(c.radius)), l.surfaceNormal)))
      && (!interior && nearStart ==>
            c.center != l.ep1
            && h == Some(Intersection(l.ep1.Plus(Normalize(c.center.Minus(l.ep1), sqrt).Times(c.radius)),
                                      Normalize(c.center.Minus(l.ep1), sqrt))))
      && (!interior && !nearStart && nearEnd ==>
            c.center != l.ep2
            && h == Some(Intersection(l.ep2.Plus(Normalize(c.center.Minus(l.ep2), sqrt).Times(c.radius)),
                                      Normalize(c.center.Minus(l.ep2), sqrt))))
      && (!interior && !nearStart && !nearEnd ==> h == None)
  {
    var h := CapsuleCollision(c, l, sqrt);
    var p, r := c.center, c.radius;
    var t := ProjectionParam(l, p);
    PointAtEnds(l);
    if !(0.0 <= t <= 1.0 && Distance(p, PointAt(l, t), sqrt) <= r) {
      CapsuleEndpointDistinct(c, l, sqrt);
    }
    if h.Some? {
      if 0.0 <= t <= 1.0 && Distance(p, PointAt(l, t), sqrt) <= r {
        assert h.value.point == PointAt(l, t).Plus(h.value.surfaceNormal.Times(r));
      } else if Distance(p, l.ep1, sqrt) <= r {
        assert h.value.point == PointAt(l, 0.0).Plus(h.value.surfaceNormal.Times(r));
      } else {
        assert h.value.point == PointAt(l, 1.0).Plus(h.value.surfaceNormal.Times(r));
      }
    }
  }

  /** A negative radius never hits, even though the circle constructor admits it. */
  lemma NegativeRadiusMisses(c: Circle, l: LineSegment, sqrt: real -> real)
    requires IsSqrt(sqrt) && ValidSegment(l) && c.radius < 0.0
    ensures CapsuleCollision(c, l, sqrt) == None
  {
    CapsuleHitIff(c, l, sqrt);
  }

  // ---- the manager ----

  /** CollisionManager: the boundary segments of every platform of the level. */
  class CollisionManager {
    var lineSegments: seq<LineSegment>

    /** Every stored segment satisfies the line_segment constructor's assertions. */
    predicate Valid()
      reads this
    {
      forall k :: 0 <= k < |lineSegments| ==> ValidSegment(lineSegments[k])
    }

    /** Appends the four sides of each platform, platform by platform. */
    constructor (platforms: seq<Platform>)
      requires forall i :: 0 <= i < |platforms| ==> ValidPlatform(platforms[i])
      ensures lineSegments == AllLines(platforms) && Valid()
    {
      var segments := [];
      var i := 0;
      while i < |platforms|
        invariant 0 <= i <= |platforms|
        invariant segments == AllLines(platforms[..i])
      {
        var lines := GetLines(platforms[i]);
        segments := segments + [lines[0]];
        segments := segments + [lines[1]];
        segments := segments + [lines[2]];
        segments := segments + [lines[3]];
        assert lines == [lines[0], lines[1], lines[2], lines[3]];
        assert platforms[..i + 1][..i] == platforms[..i];
        i := i + 1;
      }
      assert platforms[..i] == platforms;
      lineSegments := segments;
    }

    /** get_collisions: runs the circle query against each segment in order and collects the hits. */
    method GetCollisions(c: Circle, sqrt: real -> real) returns (hits: seq<Intersection>)
      requires Valid() && IsSqrt(sqrt) && c.radius != 0.0
      ensures hits == CollectHits(lineSegments, c, sqrt)
    {
      hits := [];
      var i := 0;
      while i < |lineSegments|
        invariant 0 <= i <= |lineSegments|
        invariant hits == CollectHits(lineSegments[..i], c, sqrt)
      {
        assert lineSegments[..i + 1][..i] == lineSegments[..i];
        var h := CircleSegmentHit(lineSegments[i], c, sqrt);
        if h.Some? {
          hits := hits + [h.value];
        }
        i := i + 1;
      }
      assert lineSegments[..i] == lineSegments;
    }
  }
}
