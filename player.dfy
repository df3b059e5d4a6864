/**
 * The slinky cat (Player.cpp): a head and a tail, each a point mass, joined by
 * a spring. The Player object is a class whose methods update its fields in
 * place; every method is tied to a pure function of the state before the
 * call (a `PlayerState` value), and the lemmas about those functions carry
 * the promises of the source.
 */
module PlayerModel {
  import opened Geometry
  import opened Collisions
  import opened KeyPoint

  /** Everything a Player object holds, as one value. */
  datatype PlayerState = PlayerState(
    headPos: Vec2, tailPos: Vec2, headVel: Vec2, tailVel: Vec2,
    headGrounded: bool, tailGrounded: bool,
    headRespawnPos: Vec2, tailRespawnPos: Vec2,
    speed: real, jumpSpeed: real, grabRadius: real,
    grabbing: bool, fixedHead: bool, fixedTail: bool, stretched: bool,
    length: real, boundLength: real, maxLength: real, k: real)

  // ---- collide_segments ----

  /** One body (head or tail) while collide_segments walks the segments. */
  datatype BodyState = BodyState(pos: Vec2, vel: Vec2, grounded: bool)

  /** `if (d > 0) d = 0`: only an inward (negative) normal speed is removed. */
  function InwardPart(d: real): (r: real)
    ensures r <= 0.0 && r <= d && (r == 0.0 || r == d)
  {
    if d > 0.0 then 0.0 else d
  }

  /** The velocity after a contact with unit normal `n`: its component into the surface is dropped. */
  function Deflect(v: Vec2, n: Vec2): Vec2 {
    v.Minus(n.Times(InwardPart(Dot(n, v))))
  }

  /** The tangent direction of a surface with normal `n`. */
  function Perp(n: Vec2): Vec2 { Vec2(-n.y, n.x) }

  lemma DotMinusTimes(a: Vec2, v: Vec2, n: Vec2, d: real)
    ensures Dot(a, v.Minus(n.Times(d))) == Dot(a, v) - Mul(d, Dot(a, n))
  {
  }

  lemma SqLengthMinusTimes(v: Vec2, n: Vec2, d: real)
    ensures SqLength(v.Minus(n.Times(d))) == SqLength(v) - 2.0 * Mul(d, Dot(n, v)) + Mul(Sq(d), SqLength(n))
  {
  }

  /**
   * A contact leaves the velocity not pointing into the surface, keeps its
   * tangential component, and changes nothing when the body already moves away.
   */
  lemma DeflectOutward(v: Vec2, n: Vec2)
    requires SqLength(n) == 1.0
    ensures Dot(n, Deflect(v, n)) >= 0.0
    ensures Dot(Perp(n), Deflect(v, n)) == Dot(Perp(n), v)
    ensures Dot(n, v) >= 0.0 ==> Deflect(v, n) == v
  {
    var d := InwardPart(Dot(n, v));
    DotMinusTimes(n, v, n, d);
    DotMinusTimes(Perp(n), v, n, d);
    assert Dot(Perp(n), n) == 0.0;
    if Dot(n, v) >= 0.0 {
      assert n.Times(d) == Zero2;
    }
  }

  /** A contact never speeds the body up. */
  lemma DeflectSlows(v: Vec2, n: Vec2)
    requires SqLength(n) == 1.0
    ensures SqLength(Deflect(v, n)) <= SqLength(v)
  {
    var d := InwardPart(Dot(n, v));
    SqLengthMinusTimes(v, n, d);
    SquareSign(d);
  }

  /** One iteration of collide_segments' loop: a capsule test against one segment. */
  function CollideStep(l: LineSegment, b: BodyState, radius: real, sqrt: real -> real): (r: BodyState)
    requires IsSqrt(sqrt) && ValidSegment(l)
    ensures r.grounded <==> b.grounded || HitsFloor(l, b, radius, sqrt)
  {
    match CapsuleCollision(Circle(b.pos, radius), l, sqrt)
    case None => b
    case Some(hit) =>
      BodyState(hit.point, Deflect(b.vel, hit.surfaceNormal), b.grounded || hit.surfaceNormal.y > 0.5)
  }

  /** The segment hits the body and its contact normal points upward enough to stand on. */
  predicate HitsFloor(l: LineSegment, b: BodyState, radius: real, sqrt: real -> real)
    requires IsSqrt(sqrt) && ValidSegment(l)
  {
    var h := CapsuleCollision(Circle(b.pos, radius), l, sqrt);
    h.Some? && h.value.surfaceNormal.y > 0.5
  }

  /** What one step does: on a hit, move to the contact point and deflect; otherwise nothing. */
  lemma CollideStepEffect(l: LineSegment, b: BodyState, radius: real, sqrt: real -> real)
    requires IsSqrt(sqrt) && ValidSegment(l)
    ensures var h := CapsuleCollision(Circle(b.pos, radius), l, sqrt);
      var r := CollideStep(l, b, radius, sqrt);
      && (h.None? ==> r == b)
      && (h.Some? ==>
        && r.pos == h.value.point
        && Dot(h.value.surfaceNormal, r.vel) >= 0.0
        && Dot(Perp(h.value.surfaceNormal), r.vel) == Dot(Perp(h.value.surfaceNormal), b.vel)
        && SqLength(r.vel) <= SqLength(b.vel))
      && (r.grounded <==> b.grounded || HitsFloor(l, b, radius, sqrt))
  {
    var h := CapsuleCollision(Circle(b.pos, radius), l, sqrt);
    if h.Some? {
      CapsuleHitShape(Circle(b.pos, radius), l, sqrt);
      DeflectOutward(b.vel, h.value.surfaceNormal);
      DeflectSlows(b.vel, h.value.surfaceNormal);
    }
  }

  predicate AllValid(ls: seq<LineSegment>) {
    forall k :: 0 <= k < |ls| ==> ValidSegment(ls[k])
  }

  /** collide_segments' loop: the segments in manager order, each tested at the position the previous ones left. */
  function CollideAll(ls: seq<LineSegment>, b: BodyState, radius: real, sqrt: real -> real): (r: BodyState)
    requires IsSqrt(sqrt) && AllValid(ls)
    ensures b.grounded ==> r.grounded
    decreases |ls|
  {
    if ls == [] then b
    else CollideStep(ls[|ls| - 1], CollideAll(ls[..|ls| - 1], b, radius, sqrt), radius, sqrt)
  }

  /** Segment i hits the body from below when tested at the position the segments before it left. */
  predicate FloorHitAt(ls: seq<LineSegment>, b: BodyState, radius: real, sqrt: real -> real, i: int)
    requires IsSqrt(sqrt) && AllValid(ls)
  {
    0 <= i < |ls| && HitsFloor(ls[i], CollideAll(ls[..i], b, radius, sqrt), radius, sqrt)
  }

  lemma FloorHitAtPrefix(ls: seq<LineSegment>, b: BodyState, radius: real, sqrt: real -> real, i: int)
    requires IsSqrt(sqrt) && AllValid(ls) && ls != [] && 0 <= i < |ls| - 1
    ensures FloorHitAt(ls, b, radius, sqrt, i) <==> FloorHitAt(ls[..|ls| - 1], b, radius, sqrt, i)
  {
    var front := ls[..|ls| - 1];
    assert front[..i] == ls[..i] && front[i] == ls[i];
  }

  /** A segment hits from below somewhere in `ls` iff it does in all but the last, or in the last. */
  lemma FloorHitSplit(ls: seq<LineSegment>, front: seq<LineSegment>, b: BodyState, radius: real, sqrt: real -> real)
    requires IsSqrt(sqrt) && AllValid(ls) && ls != [] && front == ls[..|ls| - 1]
    ensures (exists i :: FloorHitAt(ls, b, radius, sqrt, i)) <==>
      (exists i :: FloorHitAt(front, b, radius, sqrt, i)) || FloorHitAt(ls, b, radius, sqrt, |ls| - 1)
  {
    var n := |ls| - 1;
    if exists i :: FloorHitAt(ls, b, radius, sqrt, i) {
      var i :| FloorHitAt(ls, b, radius, sqrt, i);
      if i < n {
        FloorHitAtPrefix(ls, b, radius, sqrt, i);
      }
    }
    if exists i :: FloorHitAt(ls[..n], b, radius, sqrt, i) {
      var i :| FloorHitAt(ls[..n], b, radius, sqrt, i);
      FloorHitAtPrefix(ls, b, radius, sqrt, i);
    }
  }

  /** The last segment grounds the body iff it hits from below where the earlier ones left it. */
  lemma CollideAllLast(ls: seq<LineSegment>, b: BodyState, radius: real, sqrt: real -> real)
    requires IsSqrt(sqrt) && AllValid(ls) && ls != []
    ensures CollideAll(ls, b, radius, sqrt).grounded <==>
      CollideAll(ls[..|ls| - 1], b, radius, sqrt).grounded || FloorHitAt(ls, b, radius, sqrt, |ls| - 1)
  {
    var n := |ls| - 1;
    assert ls[..n] == ls[..n];
  }

  /** The body ends grounded exactly when it started so or some segment, tested in turn, hit it from below. */
  lemma {:induction false} CollideAllGrounded(ls: seq<LineSegment>, b: BodyState, radius: real, sqrt: real -> real)
    requires IsSqrt(sqrt) && AllValid(ls)
    ensures CollideAll(ls, b, radius, sqrt).grounded <==>
      b.grounded || exists i :: FloorHitAt(ls, b, radius, sqrt, i)
    decreases |ls|
  {
    if ls != [] {
      CollideAllGrounded(ls[..|ls| - 1], b, radius, sqrt);
      CollideAllLast(ls, b, radius, sqrt);
      FloorHitSplit(ls, ls[..|ls| - 1], b, radius, sqrt);
    }
  }

  /** Walking all the segments never speeds the body up. */
  lemma {:induction false} CollideAllSlows(ls: seq<LineSegment>, b: BodyState, radius: real, sqrt: real -> real)
    requires IsSqrt(sqrt) && AllValid(ls)
    ensures SqLength(CollideAll(ls, b, radius, sqrt).vel) <= SqLength(b.vel)
    decreases |ls|
  {
    if ls != [] {
      var n := |ls| - 1;
      CollideAllSlows(ls[..n], b, radius, sqrt);
      CollideStepEffect(ls[n], CollideAll(ls[..n], b, radius, sqrt), radius, sqrt);
    }
  }

  /** With a negative radius no segment hits, so the walk leaves the body exactly as it was. */
  lemma {:induction false} CollideAllNegativeRadius(ls: seq<LineSegment>, b: BodyState, radius: real, sqrt: real -> real)
    requires IsSqrt(sqrt) && AllValid(ls) && radius < 0.0
    ensures CollideAll(ls, b, radius, sqrt) == b
    decreases |ls|
  {
    if ls != [] {
      var n := |ls| - 1;
      CollideAllNegativeRadius(ls[..n], b, radius, sqrt);
      NegativeRadiusMisses(Circle(b.pos, radius), ls[n], sqrt);
    }
  }

  /**
   * collide_segments on the whole state: only the selected body's position,
   * velocity and grounded flag are written, starting from `grounded = false`.
   */
  function CollideBody(s: PlayerState, ls: seq<LineSegment>, radius: real, isHead: bool, sqrt: real -> real): PlayerState
    requires IsSqrt(sqrt) && AllValid(ls)
  {
    if isHead then
      var b := CollideAll(ls, BodyState(s.headPos, s.headVel, false), radius, sqrt);
      s.(headPos := b.pos, headVel := b.vel, headGrounded := b.grounded)
    else
      var b := CollideAll(ls, BodyState(s.tailPos, s.tailVel, false), radius, sqrt);
      s.(tailPos := b.pos, tailVel := b.vel, tailGrounded := b.grounded)
  }

  /** The body that is not selected, and every other field, is untouched. */
  lemma CollideBodyFrame(s: PlayerState, ls: seq<LineSegment>, radius: real, isHead: bool, sqrt: real -> real)
    requires IsSqrt(sqrt) && AllValid(ls)
    ensures var r := CollideBody(s, ls, radius, isHead, sqrt);
      if isHead then r.(headPos := s.headPos, headVel := s.headVel, headGrounded := s.headGrounded) == s
      else r.(tailPos := s.tailPos, tailVel := s.tailVel, tailGrounded := s.tailGrounded) == s
  {
  }

  /** The loop of collide_segments: each segment tested in turn at the position the previous ones left. */
  method CollideLoop(segments: seq<LineSegment>, start: BodyState, radius: real, sqrt: real -> real)
    returns (b: BodyState)
    requires IsSqrt(sqrt) && AllValid(segments)
    ensures b == CollideAll(segments, start, radius, sqrt)
  {
    var pos, vel, grounded := start.pos, start.vel, start.grounded;
    var i := 0;
    while i < |segments|
      invariant 0 <= i <= |segments|
      invariant BodyState(pos, vel, grounded) == CollideAll(segments[..i], start, radius, sqrt)
    {
      assert segments[..i + 1][..i] == segments[..i];
      var after := CollideStep(segments[i], BodyState(pos, vel, grounded), radius, sqrt);
      pos, vel, grounded := after.pos, after.vel, after.grounded;
      i := i + 1;
    }
    assert segments[..i] == segments;
    b := BodyState(pos, vel, grounded);
  }

  /** Damping never speeds either body up. */
  lemma DampSlows(s: PlayerState, n: nat)
    ensures SqLength(Damp(s, n).headVel) <= SqLength(s.headVel)
    ensures SqLength(Damp(s, n).tailVel) <= SqLength(s.tailVel)
  {
    var c := Pow(0.995, n);
    PowUnit(0.995, n);
    SquareAtMost(c, 1.0);
    SqLengthTimes(s.headVel, c);
    SqLengthTimes(s.tailVel, c);
    SqLengthSign(s.headVel);
    SqLengthSign(s.tailVel);
    MulAtMost(Sq(c), 1.0, SqLength(s.headVel));
    MulAtMost(Sq(c), 1.0, SqLength(s.tailVel));
  }

  // ---- do_auto_grab ----

  /**
   * do_auto_grab's loop: every grab point remembers its current distance to the
   * head, and the result says whether some point was entered on this tick.
   */
  function GrabScan(gps: seq<GrabPoint>, head: Vec2, grabRadius: real, sqrt: real -> real): (r: (bool, seq<GrabPoint>))
    requires IsSqrt(sqrt)
    ensures |r.1| == |gps|
    ensures forall i :: 0 <= i < |gps| ==>
      r.1[i].position == gps[i].position && r.1[i].pastPlayerDist == Distance(gps[i].position, head, sqrt)
    ensures r.0 <==> exists i :: 0 <= i < |gps| && EntersGrab(Distance(gps[i].position, head, sqrt), gps[i].pastPlayerDist, grabRadius)
    decreases |gps|
  {
    if gps == [] then (false, [])
    else
      var n := |gps| - 1;
      var front := GrabScan(gps[..n], head, grabRadius, sqrt);
      var p := gps[n];
      var d := Distance(p.position, head, sqrt);
      (front.0 || EntersGrab(d, p.pastPlayerDist, grabRadius), front.1 + [p.(pastPlayerDist := d)])
  }

  /** A second scan from the same head position never grabs: every point now remembers being inside. */
  lemma GrabScanTwice(gps: seq<GrabPoint>, head: Vec2, grabRadius: real, sqrt: real -> real)
    requires IsSqrt(sqrt)
    ensures !GrabScan(GrabScan(gps, head, grabRadius, sqrt).1, head, grabRadius, sqrt).0
  {
    var once := GrabScan(gps, head, grabRadius, sqrt).1;
    forall i | 0 <= i < |once|
      ensures !EntersGrab(Distance(once[i].position, head, sqrt), once[i].pastPlayerDist, grabRadius)
    {
      assert once[i].position == gps[i].position;
    }
  }

  // ---- movement ----

  /** Stay still while grabbing or on the ground; hold the tail when grabbing with it grounded. */
  function Halt(s: PlayerState): (r: PlayerState)
    ensures (s.grabbing || s.headGrounded) ==> r.headVel == Zero2
    ensures (s.grabbing && s.tailGrounded) ==> r.tailVel == Zero2
    ensures r == s.(headVel := r.headVel, tailVel := r.tailVel)
  {
    var s1 := if s.grabbing || s.headGrounded then s.(headVel := Zero2) else s;
    if s1.grabbing && s1.tailGrounded then s1.(tailVel := Zero2) else s1
  }

  /** `left` wins over `right`; neither leaves the speed as it was. */
  function Steer(v: Vec2, speed: real, left: bool, right: bool): Vec2 {
    if left then v.(x := -speed) else if right then v.(x := speed) else v
  }

  /** The keys drive the head, or the tail while grabbing. */
  function Control(s: PlayerState, left: bool, right: bool, up: bool): (r: PlayerState)
    ensures r == s.(headVel := r.headVel, tailVel := r.tailVel)
  {
    if !s.grabbing then
      var hv := Steer(s.headVel, s.speed, left, right);
      if up && s.headGrounded then
        s.(headVel := hv.(y := s.jumpSpeed), tailVel := s.tailVel.(y := s.tailVel.y + s.jumpSpeed / 2.0))
      else s.(headVel := hv)
    else
      var tv := Steer(s.tailVel, s.speed, left, right);
      s.(tailVel := if up && s.tailGrounded then tv.(y := s.jumpSpeed) else tv)
  }

  function Max(a: real, b: real): real { if a >= b then a else b }

  /** The spring pulls the tail toward the head in proportion to the stretch beyond the rest length. */
  function Spring(s: PlayerState, elapsed: real, sqrt: real -> real): (r: PlayerState)
    requires IsSqrt(sqrt)
    ensures r == s.(tailVel := r.tailVel)
  {
    var disp := s.headPos.Minus(s.tailPos);
    var dist := Max(0.0, Distance(s.headPos, s.tailPos, sqrt) - s.length);
    if disp != Zero2 then
      var force := Normalize(disp, sqrt).Times(dist).Times(s.k);
      s.(tailVel := s.tailVel.Plus(force.Times(elapsed)))
    else s
  }

  /** Keep the tail within `boundLength` of the head by moving it along the head-to-tail ray. */
  function Clamp(s: PlayerState, sqrt: real -> real): (r: PlayerState)
    requires IsSqrt(sqrt) && s.boundLength >= 0.0
    ensures r == s.(tailPos := r.tailPos)
  {
    if Distance(s.headPos, s.tailPos, sqrt) > s.boundLength then
      var disp := s.tailPos.Minus(s.headPos);
      DistancePositive(s.headPos, s.tailPos, sqrt);
      assert disp == Zero2 ==> s.tailPos == s.headPos;
      s.(tailPos := s.headPos.Plus(Normalize(disp, sqrt).Times(s.boundLength)))
    else s
  }

  /** A positive distance separates two different points. */
  lemma DistancePositive(a: Vec2, b: Vec2, sqrt: real -> real)
    requires IsSqrt(sqrt)
    ensures Distance(a, b, sqrt) > 0.0 ==> a != b
  {
    var d := Distance(a, b, sqrt);
    assert a == b ==> SqDistance(a, b) == 0.0;
    assert Sq(d) == 0.0 ==> d == 0.0 by {
      if Sq(d) == 0.0 {
        MulZero(d, d);
      }
    }
  }

  /** Player::movement as a function of the state before it. */
  function Movement(s: PlayerState, elapsed: real, left: bool, right: bool, up: bool, sqrt: real -> real): PlayerState
    requires IsSqrt(sqrt) && s.boundLength >= 0.0
  {
    Clamp(Spring(Control(Halt(s), left, right, up), elapsed, sqrt), sqrt)
  }

  /** While grabbing, the head ends the call motionless and in place. */
  lemma MovementGrabbingHead(s: PlayerState, elapsed: real, left: bool, right: bool, up: bool, sqrt: real -> real)
    requires IsSqrt(sqrt) && s.boundLength >= 0.0 && s.grabbing
    ensures var r := Movement(s, elapsed, left, right, up, sqrt);
      r.headVel == Zero2 && r.headPos == s.headPos && r.grabbing
  {
  }

  /** Without a grab the keys set the head's speed: `left` first, then `right`; a jump needs the head on the ground. */
  lemma MovementHeadKeys(s: PlayerState, elapsed: real, left: bool, right: bool, up: bool, sqrt: real -> real)
    requires IsSqrt(sqrt) && s.boundLength >= 0.0 && !s.grabbing
    ensures var r := Movement(s, elapsed, left, right, up, sqrt);
      && (left ==> r.headVel.x == -s.speed)
      && (!left && right ==> r.headVel.x == s.speed)
      && (!left && !right ==> r.headVel.x == if s.headGrounded then 0.0 else s.headVel.x)
      && (up && s.headGrounded ==> r.headVel.y == s.jumpSpeed)
      && (!(up && s.headGrounded) ==> r.headVel.y == if s.headGrounded then 0.0 else s.headVel.y)
  {
  }

  /** A jump also throws the tail upward by half the jump speed, before the spring acts. */
  lemma JumpLiftsTail(s: PlayerState, left: bool, right: bool)
    requires !s.grabbing && s.headGrounded
    ensures Control(Halt(s), left, right, true).tailVel.y == Halt(s).tailVel.y + s.jumpSpeed / 2.0
  {
  }

  /** While grabbing, the keys drive the tail instead, and a jump needs the tail on the ground. */
  lemma ControlTailKeys(s: PlayerState, left: bool, right: bool, up: bool)
    requires s.grabbing
    ensures var r := Control(s, left, right, up);
      && r.headVel == s.headVel
      && (left ==> r.tailVel.x == -s.speed)
      && (!left && right ==> r.tailVel.x == s.speed)
      && (r.tailVel.y == if up && s.tailGrounded then s.jumpSpeed else s.tailVel.y)
  {
  }

  lemma DotTimesLeft(a: Vec2, b: Vec2, c: real)
    ensures Dot(a.Times(c), b) == Mul(c, Dot(a, b))
  {
  }

  lemma ProductNonNegative(a: real, b: real, c: real)
    requires 0.0 <= a && 0.0 <= b && 0.0 <= c
    ensures Mul(Mul(a, b), c) >= 0.0
  {
    MulAtMost(0.0, a, b);
    MulAtMost(0.0, Mul(a, b), c);
  }

  /**
   * The spring's kick on the tail points toward the head (for a non-negative
   * stiffness and step), and there is none when head and tail coincide.
   */
  lemma SpringPullsTail(s: PlayerState, elapsed: real, sqrt: real -> real)
    requires IsSqrt(sqrt) && s.k >= 0.0 && elapsed >= 0.0
    ensures var r := Spring(s, elapsed, sqrt);
      && r == s.(tailVel := r.tailVel)
      && Dot(r.tailVel.Minus(s.tailVel), s.headPos.Minus(s.tailPos)) >= 0.0
      && (s.headPos == s.tailPos ==> r == s)
  {
    var disp := s.headPos.Minus(s.tailPos);
    var r := Spring(s, elapsed, sqrt);
    if disp != Zero2 {
      var u := Normalize(disp, sqrt);
      var dist := Max(0.0, Distance(s.headPos, s.tailPos, sqrt) - s.length);
      var force := u.Times(dist).Times(s.k);
      var kick := force.Times(elapsed);
      assert r.tailVel.Minus(s.tailVel) == kick;
      var len := Length(disp, sqrt);
      assert Dot(u, disp) == len by {
        assert disp == u.Times(len);
        DotTimesLeft(u, u, len);
        MulCommutes(len, 1.0);
        assert Dot(u, u.Times(len)) == Mul(len, Dot(u, u)) by {
          assert Dot(u, u.Times(len)) == Dot(u.Times(len), u);
        }
      }
      DotTimesLeft(u, disp, dist);
      DotTimesLeft(u.Times(dist), disp, s.k);
      DotTimesLeft(force, disp, elapsed);
      ProductNonNegative(len, dist, s.k);
      MulAtMost(0.0, Mul(s.k, Mul(dist, len)), elapsed);
      MulCommutes(dist, len);
      MulCommutes(s.k, Mul(dist, len));
      MulCommutes(Mul(s.k, Mul(dist, len)), elapsed);
    } else {
      assert s.headPos == s.tailPos;
    }
    if s.headPos == s.tailPos {
      assert disp == Zero2;
    }
  }

  /**
   * After the clamp the tail is at most `boundLength` from the head; only the
   * tail's position may move, and when it does it lands at exactly
   * `boundLength` on the ray from the head through the old tail.
   */
  lemma ClampBound(s: PlayerState, sqrt: real -> real)
    requires IsSqrt(sqrt) && s.boundLength >= 0.0
    ensures var r := Clamp(s, sqrt);
      && r == s.(tailPos := r.tailPos)
      && Distance(r.headPos, r.tailPos, sqrt) <= s.boundLength
      && (r.tailPos != s.tailPos ==>
        Distance(s.headPos, r.tailPos, sqrt) == s.boundLength
        && r.tailPos.Minus(s.headPos) == Normalize(s.tailPos.Minus(s.headPos), sqrt).Times(s.boundLength))
  {
    var r := Clamp(s, sqrt);
    if Distance(s.headPos, s.tailPos, sqrt) > s.boundLength {
      var disp := s.tailPos.Minus(s.headPos);
      DistancePositive(s.headPos, s.tailPos, sqrt);
      assert disp == Zero2 ==> s.tailPos == s.headPos;
      var u := Normalize(disp, sqrt);
      assert r.tailPos == s.headPos.Plus(u.Times(s.boundLength));
      ReachAlong(s.headPos, u, s.boundLength, sqrt);
    }
  }

  /** A point `b` along a unit direction from `p` is at distance exactly `b` from it. */
  lemma ReachAlong(p: Vec2, u: Vec2, b: real, sqrt: real -> real)
    requires IsSqrt(sqrt) && SqLength(u) == 1.0 && b >= 0.0
    ensures Distance(p, p.Plus(u.Times(b)), sqrt) == b
    ensures p.Plus(u.Times(b)).Minus(p) == u.Times(b)
  {
    var w := u.Times(b);
    var q := p.Plus(w);
    assert p.Minus(q) == w.Times(-1.0);
    SqLengthTimes(w, -1.0);
    SqLengthTimes(u, b);
    var dd := Distance(p, q, sqrt);
    assert Sq(dd) == Sq(b);
    RootUnique(dd, b);
  }

  /** Movement never moves the head, and leaves the tail within reach. */
  lemma MovementKeepsHead(s: PlayerState, elapsed: real, left: bool, right: bool, up: bool, sqrt: real -> real)
    requires IsSqrt(sqrt) && s.boundLength >= 0.0
    ensures var r := Movement(s, elapsed, left, right, up, sqrt);
      r.headPos == s.headPos && Distance(r.headPos, r.tailPos, sqrt) <= s.boundLength
  {
    var c := Control(Halt(s), left, right, up);
    ClampBound(Spring(c, elapsed, sqrt), sqrt);
  }

  // ---- phys_update ----

  /** Gravity lowers both vertical speeds by the same amount and touches nothing else. */
  function Gravity(s: PlayerState, elapsed: real, gravity: real): (r: PlayerState)
    ensures r == s.(headVel := r.headVel, tailVel := r.tailVel)
    ensures r.headVel.x == s.headVel.x && r.tailVel.x == s.tailVel.x
    ensures s.headVel.y - r.headVel.y == s.tailVel.y - r.tailVel.y
  {
    s.(headVel := s.headVel.(y := s.headVel.y - Mul(elapsed, gravity)),
       tailVel := s.tailVel.(y := s.tailVel.y - Mul(elapsed, gravity)))
  }

  /** The release: half the tail's velocity goes to the head. */
  function Recompress(s: PlayerState): PlayerState {
    s.(headVel := s.headVel.Plus(s.tailVel.Times(0.5)), tailVel := s.tailVel.Times(0.5))
  }

  /** The release keeps the sum of the two velocities. */
  lemma RecompressConserves(s: PlayerState)
    ensures Recompress(s).headVel.Plus(Recompress(s).tailVel) == s.headVel.Plus(s.tailVel)
  {
  }

  /**
   * The stretch state machine of Player::phys_update: the rest length follows
   * `space`; holding it past distance 4 marks the cat stretched; letting go
   * while the head is fixed and the cat has come back within 4 releases it.
   */
  function StretchFixed(s: PlayerState, space: bool, sqrt: real -> real): PlayerState
    requires IsSqrt(sqrt)
  {
    var s1 := s.(length := if space then s.maxLength else 1.0);
    var dist := Distance(s.headPos, s.tailPos, sqrt);
    if space then
      if dist > 4.0 then s1.(stretched := true) else s1
    else if s1.fixedHead && s1.stretched && dist <= 4.0 then
      Recompress(s1.(stretched := false, fixedHead := false, headGrounded := false))
    else s1
  }

  /** Exactly when the release happens, and what it clears. */
  lemma StretchFixedRelease(s: PlayerState, space: bool, sqrt: real -> real)
    requires IsSqrt(sqrt)
    ensures var r := StretchFixed(s, space, sqrt);
      var released := !space && s.fixedHead && s.stretched && Distance(s.headPos, s.tailPos, sqrt) <= 4.0;
      && r.length == (if space then s.maxLength else 1.0)
      && (released ==> !r.fixedHead && !r.stretched && !r.headGrounded && r.headVel.Plus(r.tailVel) == s.headVel.Plus(s.tailVel))
      && (!released ==> r.fixedHead == s.fixedHead && r.headVel == s.headVel && r.tailVel == s.tailVel)
      && (r.stretched <==> (if space then s.stretched || Distance(s.headPos, s.tailPos, sqrt) > 4.0 else s.stretched && !released))
  {
    RecompressConserves(s.(length := if space then s.maxLength else 1.0, stretched := false, fixedHead := false, headGrounded := false));
  }

  /** Positions and velocities of both bodies: what the two unseen movement routines produce. */
  datatype Motion = Motion(headPos: Vec2, tailPos: Vec2, headVel: Vec2, tailVel: Vec2)

  function WithMotion(s: PlayerState, m: Motion): PlayerState {
    s.(headPos := m.headPos, tailPos := m.tailPos, headVel := m.headVel, tailVel := m.tailVel)
  }

  /** The movement dispatch on the grab flags; the two movement routines are given. */
  function Dispatch(s: PlayerState, freeMovement: PlayerState -> Motion, fixedHeadMovement: PlayerState -> Motion): (r: PlayerState)
    ensures r == s.(headPos := r.headPos, tailPos := r.tailPos, headVel := r.headVel, tailVel := r.tailVel)
    ensures !s.fixedHead && s.fixedTail ==> r == s
  {
    if !s.fixedHead && !s.fixedTail then WithMotion(s, freeMovement(s))
    else if s.fixedHead && s.fixedTail then s.(headVel := Zero2, tailVel := Zero2)
    else if s.fixedHead then WithMotion(s, fixedHeadMovement(s))
    else s
  }

  /** Explicit Euler integration: only the positions change, each by its velocity over the step. */
  function Integrate(s: PlayerState, elapsed: real): (r: PlayerState)
    ensures r == s.(headPos := r.headPos, tailPos := r.tailPos)
    ensures r.headPos.Minus(s.headPos) == s.headVel.Times(elapsed) && r.tailPos.Minus(s.tailPos) == s.tailVel.Times(elapsed)
  {
    s.(headPos := s.headPos.Plus(s.headVel.Times(elapsed)), tailPos := s.tailPos.Plus(s.tailVel.Times(elapsed)))
  }

  /** Stuck at both ends, the cat does not move during integration. */
  lemma BothFixedStill(s: PlayerState, elapsed: real, freeMovement: PlayerState -> Motion, fixedHeadMovement: PlayerState -> Motion)
    requires s.fixedHead && s.fixedTail
    ensures var r := Integrate(Dispatch(s, freeMovement, fixedHeadMovement), elapsed);
      r.headPos == s.headPos && r.tailPos == s.tailPos && r.headVel == Zero2 && r.tailVel == Zero2
  {
    assert Zero2.Times(elapsed) == Zero2;
  }

  // ---- fixed-step damping ----

  lemma ZeroFactor(a: real, f: real)
    requires a * f == 0.0 && f != 0.0
    ensures a == 0.0
  {
  }

  lemma DivideShift(t: real, f: real)
    requires f != 0.0
    ensures (t - f) / f == t / f - 1.0
  {
    var q, p := t / f, (t - f) / f;
    assert q * f == t;
    assert p * f == t - f;
    assert (p - q + 1.0) * f == 0.0;
    ZeroFactor(p - q + 1.0, f);
  }

  /** How many times `while (timer > fixed_time) timer -= fixed_time` runs. */
  function DampCount(t: real, f: real): nat
    requires f > 0.0
    decreases if t > f then (t / f).Floor else 0
  {
    if t > f then
      DivideShift(t, f);
      1 + DampCount(t - f, f)
    else 0
  }

  /** The timer that loop leaves behind: at most one step, and still positive if it was. */
  function DampRest(t: real, f: real): (r: real)
    requires f > 0.0
    ensures r <= f
    ensures t > 0.0 ==> r > 0.0
    decreases if t > f then (t / f).Floor else 0
  {
    if t > f then
      DivideShift(t, f);
      DampRest(t - f, f)
    else t
  }

  /** The loop takes off exactly as many steps as it counts. */
  lemma {:induction false} DampRestValue(t: real, f: real)
    requires f > 0.0
    ensures DampRest(t, f) == t - Mul(DampCount(t, f) as real, f)
    decreases if t > f then (t / f).Floor else 0
  {
    if t > f {
      DivideShift(t, f);
      DampRestValue(t - f, f);
      var c := DampCount(t - f, f) as real;
      assert DampCount(t, f) as real == c + 1.0;
      assert DampRest(t, f) == DampRest(t - f, f);
      assert Mul(c + 1.0, f) == Mul(c, f) + f;
    } else {
      assert DampCount(t, f) == 0 && DampRest(t, f) == t;
      assert Mul(0.0, f) == 0.0;
    }
  }

  function Pow(x: real, n: nat): real {
    if n == 0 then 1.0 else Mul(x, Pow(x, n - 1))
  }

  lemma {:induction false} PowUnit(x: real, n: nat)
    requires 0.0 <= x <= 1.0
    ensures 0.0 <= Pow(x, n) <= 1.0
  {
    if n > 0 {
      PowUnit(x, n - 1);
      MulAtMost(x, 1.0, Pow(x, n - 1));
      MulAtMost(0.0, x, Pow(x, n - 1));
    }
  }

  /** Air resistance: both velocities scaled by 0.995 once per whole fixed step. */
  function Damp(s: PlayerState, n: nat): (r: PlayerState)
    ensures r == s.(headVel := r.headVel, tailVel := r.tailVel)
    ensures n == 0 ==> r == s
  {
    s.(headVel := s.headVel.Times(Pow(0.995, n)), tailVel := s.tailVel.Times(Pow(0.995, n)))
  }

  lemma TimesTimes(v: Vec2, a: real, b: real)
    ensures v.Times(a).Times(b) == v.Times(Mul(b, a))
  {
  }

  // ---- respawn ----

  /** Player::respawn on the state: both bodies go to the head's respawn point, the tail shifted left by one. */
  function Respawned(s: PlayerState): (r: PlayerState)
    ensures r.headPos == s.headRespawnPos && r.headVel == Zero2 && r.tailVel == Zero2
    ensures r.(headPos := s.headPos, headVel := s.headVel, tailPos := s.tailPos, tailVel := s.tailVel) == s
  {
    s.(headPos := s.headRespawnPos, headVel := Zero2,
       tailPos := s.headRespawnPos.Minus(Vec2(1.0, 0.0)), tailVel := Zero2)
  }

  /** After a respawn the cat lies at rest with head and tail exactly one unit apart, whatever the tail's respawn point. */
  lemma RespawnSeparated(s: PlayerState, sqrt: real -> real)
    requires IsSqrt(sqrt)
    ensures var r := Respawned(s);
      && Distance(r.headPos, r.tailPos, sqrt) == 1.0
      && r.tailPos.y == r.headPos.y && r.tailPos.x < r.headPos.x
  {
    UnitLeft(s.headRespawnPos, sqrt);
  }

  lemma UnitLeft(h: Vec2, sqrt: real -> real)
    requires IsSqrt(sqrt)
    ensures Distance(h, h.Minus(Vec2(1.0, 0.0)), sqrt) == 1.0
  {
    var e := Vec2(1.0, 0.0);
    var d := Length(e, sqrt);
    assert d == 1.0 by {
      assert Sq(d) == 1.0 by { assert SqLength(e) == 1.0; }
      assert Sq(1.0) == 1.0;
      RootUnique(d, 1.0);
    }
    assert h.Minus(h.Minus(e)) == e;
  }

  // ---- the Player object ----

  class Player {
    var headPos: Vec2
    var tailPos: Vec2
    var headVel: Vec2
    var tailVel: Vec2
    var headGrounded: bool
    var tailGrounded: bool
    var headRespawnPos: Vec2
    var tailRespawnPos: Vec2
    var speed: real
    var jumpSpeed: real
    var grabRadius: real
    var grabbing: bool
    var fixedHead: bool
    var fixedTail: bool
    var stretched: bool
    var length: real
    var boundLength: real
    var maxLength: real
    var k: real

    function State(): PlayerState
      reads this
    {
      PlayerState(headPos, tailPos, headVel, tailVel, headGrounded, tailGrounded,
        headRespawnPos, tailRespawnPos, speed, jumpSpeed, grabRadius,
        grabbing, fixedHead, fixedTail, stretched, length, boundLength, maxLength, k)
    }

    /**
     * The constructor: positions and velocities as given, the respawn points
     * at the starting positions, the header's defaults for the tuning values.
     */
    constructor (headPos0: Vec2, tailPos0: Vec2, headVel0: Vec2, tailVel0: Vec2,
                 length0: real, boundLength0: real, maxLength0: real, k0: real)
      ensures State() == PlayerState(headPos0, tailPos0, headVel0, tailVel0, false, false,
        headPos0, tailPos0, 10.0, 10.0, 1.5, false, false, false, false,
        length0, boundLength0, maxLength0, k0)
    {
      headPos, tailPos, headVel, tailVel := headPos0, tailPos0, headVel0, tailVel0;
      headGrounded, tailGrounded := false, false;
      headRespawnPos, tailRespawnPos := headPos0, tailPos0;
      speed, jumpSpeed, grabRadius := 10.0, 10.0, 1.5;
      grabbing, fixedHead, fixedTail, stretched := false, false, false, false;
      length, boundLength, maxLength, k := length0, boundLength0, maxLength0, k0;
    }

    /** collide_segments: resolve one body against every segment of the manager, in order. */
    method CollideSegments(cm: CollisionManager, radius: real, isHead: bool, sqrt: real -> real)
      requires cm.Valid() && IsSqrt(sqrt) && radius != 0.0
      modifies this
      ensures State() == CollideBody(old(State()), cm.lineSegments, radius, isHead, sqrt)
    {
      if isHead {
        var b := CollideLoop(cm.lineSegments, BodyState(headPos, headVel, false), radius, sqrt);
        headPos, headVel, headGrounded := b.pos, b.vel, b.grounded;
        assert State() == old(State()).(headPos := b.pos, headVel := b.vel, headGrounded := b.grounded);
      } else {
        var b := CollideLoop(cm.lineSegments, BodyState(tailPos, tailVel, false), radius, sqrt);
        tailPos, tailVel, tailGrounded := b.pos, b.vel, b.grounded;
        assert State() == old(State()).(tailPos := b.pos, tailVel := b.vel, tailGrounded := b.grounded);
      }
    }

    /** Player::do_auto_grab: a grab on entry fixes the head; every point remembers its distance. */
    method DoAutoGrab(grabPoints: seq<GrabPoint>, sqrt: real -> real) returns (updated: seq<GrabPoint>)
      requires IsSqrt(sqrt)
      modifies this`fixedHead
      ensures var scan := GrabScan(grabPoints, old(headPos), old(grabRadius), sqrt);
        updated == scan.1 && State() == old(State()).(fixedHead := old(fixedHead) || scan.0)
    {
      updated := [];
      var i := 0;
      while i < |grabPoints|
        invariant 0 <= i <= |grabPoints|
        invariant updated == GrabScan(grabPoints[..i], headPos, grabRadius, sqrt).1
        invariant fixedHead == (old(fixedHead) || GrabScan(grabPoints[..i], headPos, grabRadius, sqrt).0)
      {
        assert grabPoints[..i + 1][..i] == grabPoints[..i];
        var p := grabPoints[i];
        var dist := Distance(p.position, headPos, sqrt);
        if dist <= grabRadius && p.pastPlayerDist > grabRadius {
          fixedHead := true;
        }
        updated := updated + [p.(pastPlayerDist := dist)];
        i := i + 1;
      }
      assert grabPoints[..i] == grabPoints;
    }

    /** The start of Player::movement: stop the bodies as the flags say. */
    method HaltStep()
      modifies this
      ensures State() == Halt(old(State()))
    {
      if grabbing || headGrounded {
        headVel := Zero2;
      }
      if grabbing && tailGrounded {
        tailVel := Zero2;
      }
    }

    /** The key handling of Player::movement: the head, or the tail while grabbing. */
    method ControlStep(left: bool, right: bool, up: bool)
      modifies this
      ensures State() == Control(old(State()), left, right, up)
    {
      if !grabbing {
        if left {
          headVel := headVel.(x := -speed);
        } else if right {
          headVel := headVel.(x := speed);
        }
        if up && headGrounded {
          headVel := headVel.(y := jumpSpeed);
          tailVel := tailVel.(y := tailVel.y + jumpSpeed / 2.0);
        }
      } else {
        if left {
          tailVel := tailVel.(x := -speed);
        } else if right {
          tailVel := tailVel.(x := speed);
        }
        if up && tailGrounded {
          tailVel := tailVel.(y := jumpSpeed);
        }
      }
    }

    /** The spring part of Player::movement. */
    method ApplySpring(elapsed: real, sqrt: real -> real)
      requires IsSqrt(sqrt)
      modifies this
      ensures State() == Spring(old(State()), elapsed, sqrt)
    {
      var disp := headPos.Minus(tailPos);
      var dist := Max(0.0, Distance(headPos, tailPos, sqrt) - length);
      if disp != Zero2 {
        var springForce := Normalize(disp, sqrt).Times(dist).Times(k);
        tailVel := tailVel.Plus(springForce.Times(elapsed));
      }
    }

    /** The distance limit at the end of Player::movement. */
    method ClampTail(sqrt: real -> real)
      requires IsSqrt(sqrt) && boundLength >= 0.0
      modifies this
      ensures State() == Clamp(old(State()), sqrt)
    {
      if Distance(headPos, tailPos, sqrt) > boundLength {
        var away := tailPos.Minus(headPos);
        DistancePositive(headPos, tailPos, sqrt);
        assert away == Zero2 ==> tailPos == headPos;
        tailPos := headPos.Plus(Normalize(away, sqrt).Times(boundLength));
      }
    }

    /** Player::movement: halt, keys, spring, then the distance clamp. */
    method Move(elapsed: real, left: bool, right: bool, up: bool, sqrt: real -> real)
      requires IsSqrt(sqrt) && boundLength >= 0.0
      modifies this
      ensures State() == Movement(old(State()), elapsed, left, right, up, sqrt)
    {
      HaltStep();
      ControlStep(left, right, up);
      ApplySpring(elapsed, sqrt);
      ClampTail(sqrt);
    }

    /** The fixed-step air resistance loop; returns what is left of the timer. */
    method DampLoop(timer: real, fixedTime: real) returns (rest: real)
      requires fixedTime > 0.0
      modifies this
      ensures rest == DampRest(timer, fixedTime)
      ensures State() == Damp(old(State()), DampCount(timer, fixedTime))
    {
      rest := timer;
      ghost var n := 0;
      while rest > fixedTime
        invariant n + DampCount(rest, fixedTime) == DampCount(timer, fixedTime)
        invariant DampRest(rest, fixedTime) == DampRest(timer, fixedTime)
        invariant State() == Damp(old(State()), n)
        decreases DampCount(rest, fixedTime)
      {
        TimesTimes(old(headVel), Pow(0.995, n), 0.995);
        TimesTimes(old(tailVel), Pow(0.995, n), 0.995);
        MulCommutes(0.995, Pow(0.995, n));
        headVel := headVel.Times(0.995);
        tailVel := tailVel.Times(0.995);
        rest := rest - fixedTime;
        n := n + 1;
      }
    }

    /** Player::respawn: back to the head's respawn point, at rest, tail one unit to the left. */
    method Respawn()
      modifies this
      ensures State() == Respawned(old(State()))
    {
      headPos := headRespawnPos;
      headVel := Zero2;
      tailPos := headRespawnPos;
      tailPos := tailPos.(x := tailPos.x - 1.0);
      tailVel := Zero2;
    }

    method ApplyGravity(elapsed: real, gravity: real)
      modifies this
      ensures State() == Gravity(old(State()), elapsed, gravity)
    {
      headVel := headVel.(y := headVel.y - Mul(elapsed, gravity));
      tailVel := tailVel.(y := tailVel.y - Mul(elapsed, gravity));
    }

    /** The stretch state machine of Player::phys_update, on `fixedHead`. */
    method StretchWithFixedHead(space: bool, sqrt: real -> real)
      requires IsSqrt(sqrt)
      modifies this
      ensures State() == StretchFixed(old(State()), space, sqrt)
    {
      length := if space then maxLength else 1.0;
      var headTailDist := Distance(headPos, tailPos, sqrt);
      if space {
        if headTailDist > 4.0 {
          stretched := true;
        }
      } else if fixedHead && stretched && headTailDist <= 4.0 {
        Release();
      }
    }

    /** Letting go of the stretch: the flags clear and the tail's speed is shared with the head. */
    method Release()
      modifies this
      ensures State() == Recompress(old(State()).(stretched := false, fixedHead := false, headGrounded := false))
    {
      stretched, fixedHead, headGrounded := false, false, false;
      headVel := headVel.Plus(tailVel.Times(0.5));
      tailVel := tailVel.Times(0.5);
    }

    /** The movement dispatch of Player::phys_update. */
    method DispatchMovement(freeMovement: PlayerState -> Motion, fixedHeadMovement: PlayerState -> Motion)
      modifies this
      ensures State() == Dispatch(old(State()), freeMovement, fixedHeadMovement)
    {
      if !fixedHead && !fixedTail {
        var m := freeMovement(State());
        headPos, tailPos, headVel, tailVel := m.headPos, m.tailPos, m.headVel, m.tailVel;
      } else if fixedHead && fixedTail {
        headVel := Zero2;
        tailVel := Zero2;
      } else if fixedHead {
        var m := fixedHeadMovement(State());
        headPos, tailPos, headVel, tailVel := m.headPos, m.tailPos, m.headVel, m.tailVel;
      }
    }

    /** `pos += vel * elapsed` for both bodies. */
    method IntegrateStep(elapsed: real)
      modifies this
      ensures State() == Integrate(old(State()), elapsed)
    {
      headPos := headPos.Plus(headVel.Times(elapsed));
      tailPos := tailPos.Plus(tailVel.Times(elapsed));
    }

    /**
     * Player::phys_update: gravity, the stretch state machine, auto-grab,
     * the movement dispatch, integration, collisions of head then tail with
     * radius 1, and damping.
     */
    method PhysUpdate(elapsed: real, cm: CollisionManager, left: bool, right: bool, up: bool, space: bool,
                      grabPoints: seq<GrabPoint>, timer: real, fixedTime: real, gravity: real,
                      freeMovement: PlayerState -> Motion, fixedHeadMovement: PlayerState -> Motion,
                      sqrt: real -> real)
      returns (updated: seq<GrabPoint>, newTimer: real)
      requires cm.Valid() && IsSqrt(sqrt) && fixedTime > 0.0
      modifies this
      ensures var s1 := StretchFixed(Gravity(old(State()), elapsed, gravity), space, sqrt);
        var scan := GrabScan(grabPoints, s1.headPos, s1.grabRadius, sqrt);
        var s2 := Dispatch(s1.(fixedHead := s1.fixedHead || scan.0), freeMovement, fixedHeadMovement);
        var s3 := Integrate(s2, elapsed);
        var s4 := CollideBody(CollideBody(s3, cm.lineSegments, 1.0, true, sqrt), cm.lineSegments, 1.0, false, sqrt);
        && updated == scan.1
        && newTimer == DampRest(timer + elapsed, fixedTime)
        && State() == Damp(s4, DampCount(timer + elapsed, fixedTime))
    {
      ApplyGravity(elapsed, gravity);
      StretchWithFixedHead(space, sqrt);
      updated := DoAutoGrab(grabPoints, sqrt);
      DispatchMovement(freeMovement, fixedHeadMovement);
      IntegrateStep(elapsed);
      CollideSegments(cm, 1.0, true, sqrt);
      CollideSegments(cm, 1.0, false, sqrt);
      newTimer := DampLoop(timer + elapsed, fixedTime);
    }
  }
}
