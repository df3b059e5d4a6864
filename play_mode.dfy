/**
 * The per-frame logic of the play mode: the win check and the fireworks that
 * follow it, the fall-to-death respawn, eating fish (each one makes the cat
 * longer), checkpoint progress, the cat's physics tick with its
 * stretch-and-release rule on the grab flag, and the camera.
 */
module PlayModeModel {
  import opened Geometry
  import opened Collisions
  import opened KeyPoint
  import opened PlayerModel
  import opened KeyPointUpdate
  import opened DynamicCameraModel

  /** Constants the game defines outside the shown code. */
  datatype Tuning = Tuning(
    deathBound: real, gravity: real, fixedTime: real,
    fireworksTimeBetween: real, maxFireworksNum: nat, maxFireworksAge: real,
    senseCooldown: real, sensingDist: real, eatCooldown: real, eatDist: real)

  /** A key: how often it went down this frame, and whether it is held. */
  datatype Button = Button(downs: nat, pressed: bool)

  /** A firework; only its age is read here, its own update is given. */
  datatype Firework = Firework(position: Vec2, speed: real, age: real)

  // ---- celebrate_update ----

  /** The countdown and the launch: a new firework only when the countdown ran out and there is room. */
  function Launch(fs: seq<Firework>, countdown: real, elapsed: real, t: Tuning, spawned: Firework): (seq<Firework>, real) {
    var c := countdown - elapsed;
    if c <= 0.0 && |fs| < t.maxFireworksNum then (fs + [spawned], t.fireworksTimeBetween) else (fs, c)
  }

  /** A launch happens exactly when the countdown runs out with room left; the cap is never exceeded. */
  lemma LaunchCapped(fs: seq<Firework>, countdown: real, elapsed: real, t: Tuning, spawned: Firework)
    ensures var r := Launch(fs, countdown, elapsed, t, spawned);
      var launched := countdown - elapsed <= 0.0 && |fs| < t.maxFireworksNum;
      && (launched ==> r.0 == fs + [spawned] && r.1 == t.fireworksTimeBetween)
      && (!launched ==> r.0 == fs && r.1 == countdown - elapsed)
      && (|fs| <= t.maxFireworksNum ==> |r.0| <= t.maxFireworksNum)
  {
  }

  /**
   * The update-and-erase loop: every firework is updated once, in order, and
   * the ones that have reached the maximum age are dropped.
   */
  function Survivors(fs: seq<Firework>, advance: (Firework, real) -> Firework, elapsed: real, maxAge: real): (r: seq<Firework>)
    ensures |r| <= |fs|
    ensures forall i :: 0 <= i < |r| ==> r[i].age < maxAge
    decreases |fs|
  {
    if fs == [] then []
    else
      var front := Survivors(fs[..|fs| - 1], advance, elapsed, maxAge);
      var f := advance(fs[|fs| - 1], elapsed);
      if f.age >= maxAge then front else front + [f]
  }

  /** Every updated firework that is still young survives, and nothing else does. */
  lemma {:induction false} SurvivorsExact(fs: seq<Firework>, advance: (Firework, real) -> Firework, elapsed: real, maxAge: real)
    ensures forall i :: 0 <= i < |fs| && advance(fs[i], elapsed).age < maxAge ==>
      advance(fs[i], elapsed) in Survivors(fs, advance, elapsed, maxAge)
    ensures forall f :: f in Survivors(fs, advance, elapsed, maxAge) ==>
      exists i :: 0 <= i < |fs| && f == advance(fs[i], elapsed)
    decreases |fs|
  {
    if fs != [] {
      var n := |fs| - 1;
      SurvivorsExact(fs[..n], advance, elapsed, maxAge);
      forall f | f in Survivors(fs, advance, elapsed, maxAge)
        ensures exists i :: 0 <= i < |fs| && f == advance(fs[i], elapsed)
      {
        if f in Survivors(fs[..n], advance, elapsed, maxAge) {
          var i :| 0 <= i < n && f == advance(fs[..n][i], elapsed);
          assert fs[..n][i] == fs[i];
        } else {
          assert f == advance(fs[n], elapsed);
        }
      }
      forall i | 0 <= i < |fs| && advance(fs[i], elapsed).age < maxAge
        ensures advance(fs[i], elapsed) in Survivors(fs, advance, elapsed, maxAge)
      {
        if i < n {
          assert fs[..n][i] == fs[i];
        }
      }
    }
  }

  // ---- interact_objects ----

  datatype Counters = Counters(sense: real, eat: real)

  function Abs(x: real): real { if x < 0.0 then -x else x }

  /** The fish is at about the given distance from the point (within 1). */
  predicate AtDistance(p: Vec3, fish: Vec3, dist: real, sqrt: real -> real)
    requires IsSqrt(sqrt)
  {
    Abs(Length3(Vec3(p.x - fish.x, p.y - fish.y, p.z - fish.z), sqrt) - dist) < 1.0
  }

  /** The sound cool-down for sensing a fish: count up while cooling down, reset on a fish at sensing distance. */
  function SenseStep(sense: real, fish: Vec3, head: Vec3, t: Tuning, elapsed: real, sqrt: real -> real): real
    requires IsSqrt(sqrt)
  {
    if sense < t.senseCooldown then sense + elapsed
    else if AtDistance(head, fish, t.sensingDist, sqrt) then 0.0
    else sense
  }

  /** One fish of the loop: whether it is eaten, and the counters after it. */
  function FishStep(c: Counters, fish: Vec3, head: Vec3, tail: Vec3, t: Tuning, elapsed: real, sqrt: real -> real): (r: (bool, Counters))
    requires IsSqrt(sqrt)
    ensures r.0 <==> c.eat >= t.eatCooldown && (AtDistance(head, fish, t.eatDist, sqrt) || AtDistance(tail, fish, t.eatDist, sqrt))
    ensures r.0 ==> r.1.eat == 0.0
    ensures c.eat < t.eatCooldown ==> r.1.eat == c.eat + elapsed
  {
    var sense := SenseStep(c.sense, fish, head, t, elapsed, sqrt);
    if c.eat < t.eatCooldown then (false, Counters(sense, c.eat + elapsed))
    else if AtDistance(head, fish, t.eatDist, sqrt) || AtDistance(tail, fish, t.eatDist, sqrt) then (true, Counters(sense, 0.0))
    else (false, Counters(sense, c.eat))
  }

  /** The result of the fish loop: the fish left, the counters, and how many were eaten. */
  datatype Interaction = Interaction(kept: seq<Vec3>, counters: Counters, eaten: nat)

  /** interact_objects' loop: each fish in turn, the eaten ones erased. */
  function Interact(fs: seq<Vec3>, c: Counters, head: Vec3, tail: Vec3, t: Tuning, elapsed: real, sqrt: real -> real): (r: Interaction)
    requires IsSqrt(sqrt)
    ensures |r.kept| + r.eaten == |fs|
    ensures forall x :: x in r.kept ==> x in fs
    decreases |fs|
  {
    if fs == [] then Interaction([], c, 0)
    else
      var n := |fs| - 1;
      var front := Interact(fs[..n], c, head, tail, t, elapsed, sqrt);
      var step := FishStep(front.counters, fs[n], head, tail, t, elapsed, sqrt);
      if step.0 then Interaction(front.kept, step.1, front.eaten + 1)
      else Interaction(front.kept + [fs[n]], step.1, front.eaten)
  }

  /** One more fish: the loop's result extends by that fish's step. */
  lemma InteractNext(fs: seq<Vec3>, k: nat, c: Counters, head: Vec3, tail: Vec3, t: Tuning, elapsed: real, sqrt: real -> real)
    requires IsSqrt(sqrt) && k < |fs|
    ensures var front := Interact(fs[..k], c, head, tail, t, elapsed, sqrt);
      var step := FishStep(front.counters, fs[k], head, tail, t, elapsed, sqrt);
      Interact(fs[..k + 1], c, head, tail, t, elapsed, sqrt) ==
        if step.0 then Interaction(front.kept, step.1, front.eaten + 1)
        else Interaction(front.kept + [fs[k]], step.1, front.eaten)
  {
    assert fs[..k + 1][..k] == fs[..k];
  }

  /**
   * One pass of interact_objects' loop body keeps the loop's account: the
   * vector is the fish kept so far followed by the ones not yet visited.
   */
  lemma InteractAdvance(fs: seq<Vec3>, k: nat, c: Counters, head: Vec3, tail: Vec3, t: Tuning, elapsed: real, sqrt: real -> real,
                        before: seq<Vec3>, ate: bool, after: seq<Vec3>, c1: Counters)
    requires IsSqrt(sqrt) && k < |fs|
    requires var front := Interact(fs[..k], c, head, tail, t, elapsed, sqrt);
      var step := FishStep(front.counters, fs[k], head, tail, t, elapsed, sqrt);
      && before == front.kept + fs[k..] && ate == step.0 && c1 == step.1
      && after == (if ate then before[..|front.kept|] + before[|front.kept| + 1..] else before)
    ensures var front := Interact(fs[..k], c, head, tail, t, elapsed, sqrt);
      var r := Interact(fs[..k + 1], c, head, tail, t, elapsed, sqrt);
      && after == r.kept + fs[k + 1..] && r.counters == c1
      && r.eaten == front.eaten + (if ate then 1 else 0)
      && |r.kept| == |front.kept| + (if ate then 0 else 1)
  {
    var front := Interact(fs[..k], c, head, tail, t, elapsed, sqrt);
    InteractNext(fs, k, c, head, tail, t, elapsed, sqrt);
    Splice(front.kept, fs, k);
  }

  /** The vector around the loop index, with the fish there erased or kept. */
  lemma Splice(kept: seq<Vec3>, fs: seq<Vec3>, k: nat)
    requires k < |fs|
    ensures var before := kept + fs[k..]; var i := |kept|;
      && before[..i] + before[i + 1..] == kept + fs[k + 1..]
      && before == (kept + [fs[k]]) + fs[k + 1..]
  {
    var before := kept + fs[k..];
    var i := |kept|;
    assert before[i + 1..] == fs[k + 1..];
    assert before[..i] == kept;
  }

  /**
   * While the eat counter is cooling down and will not get through the
   * cool-down in this frame, no fish is eaten and the counter advances by
   * `elapsed` per fish.
   */
  lemma {:induction false} NoEatingDuringCooldown(fs: seq<Vec3>, c: Counters, head: Vec3, tail: Vec3, t: Tuning, elapsed: real, sqrt: real -> real)
    requires IsSqrt(sqrt) && elapsed >= 0.0
    requires c.eat + Mul(|fs| as real, elapsed) < t.eatCooldown
    ensures var r := Interact(fs, c, head, tail, t, elapsed, sqrt);
      r.eaten == 0 && r.kept == fs && r.counters.eat == c.eat + Mul(|fs| as real, elapsed)
    decreases |fs|
  {
    if fs != [] {
      var n := |fs| - 1;
      assert Mul(|fs| as real, elapsed) == Mul(n as real, elapsed) + elapsed;
      NoEatingDuringCooldown(fs[..n], c, head, tail, t, elapsed, sqrt);
      assert fs[..n] + [fs[n]] == fs;
    }
  }

  // ---- player_phys_update's stretch rule ----

  /**
   * The stretch rule of player_phys_update, on the grab flag: stretching needs
   * `space` held while grabbing; the rest length and the bound follow; holding
   * past distance 4 marks the cat stretched; letting go after it has come back
   * within 4 releases the grab and shares the tail's velocity with the head.
   */
  function PlayStretch(s: PlayerState, stretched: bool, space: bool, sqrt: real -> real): (PlayerState, bool)
    requires IsSqrt(sqrt)
  {
    var pressed := space && s.grabbing;
    var s1 := s.(length := if pressed then s.maxLength else 1.0);
    var dist := Distance(s.headPos, s.tailPos, sqrt);
    var (s2, st) :=
      if pressed then (s1, if dist > 4.0 then true else stretched)
      else if s1.grabbing && stretched && dist <= 4.0 then
        (Recompress(s1.(grabbing := false, headGrounded := false)), false)
      else (s1, stretched);
    (s2.(boundLength := if st || pressed then s.maxLength else 1.0), st)
  }

  /** What the stretch rule does, case by case. */
  lemma PlayStretchFacts(s: PlayerState, stretched: bool, space: bool, sqrt: real -> real)
    requires IsSqrt(sqrt)
    ensures var (r, st) := PlayStretch(s, stretched, space, sqrt);
      var pressed := space && s.grabbing;
      var dist := Distance(s.headPos, s.tailPos, sqrt);
      var released := !pressed && s.grabbing && stretched && dist <= 4.0;
      && r.length == (if pressed then s.maxLength else 1.0)
      && (st <==> (if pressed then stretched || dist > 4.0 else stretched && !released))
      && r.boundLength == (if st || pressed then s.maxLength else 1.0)
      && (released ==> !r.grabbing && !r.headGrounded && r.headVel.Plus(r.tailVel) == s.headVel.Plus(s.tailVel))
      && (!released ==> r.grabbing == s.grabbing && r.headVel == s.headVel && r.tailVel == s.tailVel)
      && r.headPos == s.headPos && r.tailPos == s.tailPos
  {
    RecompressConserves(s.(length := 1.0, grabbing := false, headGrounded := false));
  }

  /** Rest length and bound are each 1 or the maximum length, which the rule leaves alone. */
  lemma PlayStretchBound(s: PlayerState, stretched: bool, space: bool, sqrt: real -> real)
    requires IsSqrt(sqrt) && s.maxLength >= 0.0
    ensures var (r, _) := PlayStretch(s, stretched, space, sqrt);
      && r.boundLength >= 0.0 && r.maxLength == s.maxLength
      && (r.length == 1.0 || r.length == s.maxLength)
  {
  }

  /**
   * The second half of player_phys_update on the player's state: movement,
   * integration, head then tail collisions with radius 1, and damping for
   * every whole fixed step in the accumulated time. It changes positions,
   * velocities and contact flags only.
   */
  function PhysTail(s: PlayerState, segments: seq<LineSegment>, elapsed: real, left: bool, right: bool, up: bool,
                    timer: real, fixedTime: real, sqrt: real -> real): PlayerState
    requires IsSqrt(sqrt) && AllValid(segments) && s.boundLength >= 0.0 && fixedTime > 0.0
  {
    CollideDamp(Integrate(Movement(s, elapsed, left, right, up, sqrt), elapsed), segments, elapsed, timer, fixedTime, sqrt)
  }

  /** Head then tail against the level with radius 1, then damping. */
  function CollideDamp(s: PlayerState, segments: seq<LineSegment>, elapsed: real, timer: real, fixedTime: real, sqrt: real -> real): PlayerState
    requires IsSqrt(sqrt) && AllValid(segments) && fixedTime > 0.0
  {
    Damp(CollideBody(CollideBody(s, segments, 1.0, true, sqrt), segments, 1.0, false, sqrt), DampCount(timer + elapsed, fixedTime))
  }

  /** That half changes positions, velocities and contact flags only: lengths and the grab flag stay. */
  lemma PhysTailFrame(s: PlayerState, segments: seq<LineSegment>, elapsed: real, left: bool, right: bool, up: bool,
                      timer: real, fixedTime: real, sqrt: real -> real)
    requires IsSqrt(sqrt) && AllValid(segments) && s.boundLength >= 0.0 && fixedTime > 0.0
    ensures var r := PhysTail(s, segments, elapsed, left, right, up, timer, fixedTime, sqrt);
      && r.length == s.length && r.boundLength == s.boundLength && r.maxLength == s.maxLength
      && r.grabbing == s.grabbing && r.stretched == s.stretched
  {
    var s3 := Integrate(Movement(s, elapsed, left, right, up, sqrt), elapsed);
    CollideBodyFrame(s3, segments, 1.0, true, sqrt);
    CollideBodyFrame(CollideBody(s3, segments, 1.0, true, sqrt), segments, 1.0, false, sqrt);
  }

  class PlayMode {
    const tuning: Tuning
    const player: Player
    const collisionManager: CollisionManager
    const checkpoints: array<CheckPoint>
    const dynamicCamera: DynamicCamera
    var currCheckpointId: int
    var grabPoints: seq<GrabPoint>
    var fishes: seq<Vec3>
    var fireworks: seq<Firework>
    var fireworksCountdown: real
    var senseCounter: real
    var eatCounter: real
    var stretched: bool
    var timer: real
    var gameOver: bool
    var left: Button
    var right: Button
    var up: Button
    var down: Button
    var space: Button

    /** What the scene loading establishes and every frame keeps. */
    predicate Valid()
      reads this, collisionManager, checkpoints, player, dynamicCamera
    {
      && collisionManager.Valid()
      && -1 <= currCheckpointId < checkpoints.Length
      && AllHaveSides(checkpoints[..])
      && ReachedUpTo(checkpoints[..], currCheckpointId)
      && player.maxLength > 0.0
      && tuning.fixedTime > 0.0
      && CameraValid(dynamicCamera.State())
      && |fishes| < 256
    }

    /**
     * The state the constructor leaves, given what it loads from the scene: the
     * checkpoints sorted by x with none reached yet, and the camera at the
     * origin with speed 9 and default height 50.
     */
    constructor (tuning0: Tuning, player0: Player, cm: CollisionManager, checkpoints0: array<CheckPoint>,
                 grabPoints0: seq<GrabPoint>, fishes0: seq<Vec3>)
      requires cm.Valid() && player0.maxLength > 0.0 && tuning0.fixedTime > 0.0 && |fishes0| < 256
      requires forall i :: 0 <= i < checkpoints0.Length ==> BoxHasSides(checkpoints0[i]) && !checkpoints0[i].reached
      modifies checkpoints0
      ensures Valid() && fresh(dynamicCamera)
      ensures tuning == tuning0 && player == player0 && collisionManager == cm && checkpoints == checkpoints0
      ensures currCheckpointId == -1 && grabPoints == grabPoints0 && fishes == fishes0
      ensures SortedByX(checkpoints[..]) && multiset(checkpoints[..]) == multiset(old(checkpoints0[..]))
      ensures dynamicCamera.State() == CameraState(Vec3(0.0, 0.0, 50.0), 9.0, 50.0, 1.0)
      ensures !gameOver && !stretched && fireworks == []
    {
      tuning := tuning0;
      player := player0;
      collisionManager := cm;
      checkpoints := checkpoints0;
      grabPoints := grabPoints0;
      fishes := fishes0;
      SortCheckpoints(checkpoints0);
      forall i | 0 <= i < checkpoints0.Length
        ensures BoxHasSides(checkpoints0[i])
      {
        assert checkpoints0[i] in multiset(old(checkpoints0[..]));
      }
      currCheckpointId := -1;
      dynamicCamera := new DynamicCamera(Vec3(0.0, 0.0, 0.0), 9.0, 50.0);
      gameOver, stretched := false, false;
      fireworks := [];
    }

    /** The E key: let go of whatever the cat holds. */
    method ReleaseGrab()
      modifies player
      ensures player.State() == old(player.State()).(grabbing := false)
    {
      player.grabbing := false;
    }

    /** celebrate_update: launch a firework when due and there is room, then age all and erase the old ones. */
    method CelebrateUpdate(elapsed: real, spawned: Firework, advance: (Firework, real) -> Firework)
      modifies this`fireworks, this`fireworksCountdown
      ensures var (launched, countdown) := Launch(old(fireworks), old(fireworksCountdown), elapsed, tuning, spawned);
        fireworks == Survivors(launched, advance, elapsed, tuning.maxFireworksAge) && fireworksCountdown == countdown
    {
      fireworksCountdown := fireworksCountdown - elapsed;
      if fireworksCountdown <= 0.0 && |fireworks| < tuning.maxFireworksNum {
        fireworksCountdown := tuning.fireworksTimeBetween;
        fireworks := fireworks + [spawned];
      }
      AgeFireworks(elapsed, advance);
    }

    /** The loop of celebrate_update: update each firework in place, erasing it and stepping back when it is too old. */
    method AgeFireworks(elapsed: real, advance: (Firework, real) -> Firework)
      modifies this`fireworks
      ensures fireworks == Survivors(old(fireworks), advance, elapsed, tuning.maxFireworksAge)
    {
      ghost var launched := fireworks;
      ghost var k := 0;
      var i := 0;
      while i < |fireworks|
        invariant 0 <= i <= |fireworks| && 0 <= k <= |launched|
        invariant fireworks[..i] == Survivors(launched[..k], advance, elapsed, tuning.maxFireworksAge)
        invariant fireworks[i..] == launched[k..]
        decreases |fireworks| - i
      {
        ghost var before := fireworks;
        assert launched[..k + 1][..k] == launched[..k];
        assert before[i] == launched[k];
        assert launched[k + 1..] == before[i + 1..];
        var f := advance(fireworks[i], elapsed);
        fireworks := fireworks[i := f];
        if f.age >= tuning.maxFireworksAge {
          fireworks := fireworks[..i] + fireworks[i + 1..];
          assert fireworks[..i] == before[..i];
          assert fireworks[i..] == before[i + 1..];
          i := i - 1;
        } else {
          assert fireworks[..i + 1] == before[..i] + [f];
          assert fireworks[i + 1..] == before[i + 1..];
        }
        i := i + 1;
        k := k + 1;
      }
      assert launched[..k] == launched;
      assert fireworks[..i] == fireworks;
    }

    /** interact_objects: each fish in turn; an eaten fish is erased and makes the cat 5 longer. */
    method InteractObjects(elapsed: real, catHead: Vec3, catTail: Vec3, sqrt: real -> real)
      requires IsSqrt(sqrt) && |fishes| < 256
      modifies this`fishes, this`senseCounter, this`eatCounter, player`maxLength
      ensures var r := Interact(old(fishes), Counters(old(senseCounter), old(eatCounter)), catHead, catTail, tuning, elapsed, sqrt);
        && fishes == r.kept && senseCounter == r.counters.sense && eatCounter == r.counters.eat
        && player.maxLength == old(player.maxLength) + 5.0 * (r.eaten as real)
    {
      ghost var orig := fishes;
      ghost var c0 := Counters(senseCounter, eatCounter);
      ghost var r := Interact([], c0, catHead, catTail, tuning, elapsed, sqrt);
      ghost var k := 0;
      // the loop index is an unsigned 8-bit counter: stepping back from 0 wraps to 255, and forward again to 0
      var i := 0;
      while i < |fishes|
        invariant 0 <= k <= |orig| && i == |r.kept| && |fishes| < 256
        invariant r == Interact(orig[..k], c0, catHead, catTail, tuning, elapsed, sqrt)
        invariant fishes == r.kept + orig[k..]
        invariant senseCounter == r.counters.sense && eatCounter == r.counters.eat
        invariant player.maxLength == old(player.maxLength) + 5.0 * (r.eaten as real)
        decreases |fishes| - i
      {
        var ate;
        ate, r := VisitFish(i, catHead, catTail, elapsed, sqrt, orig, k, c0);
        if ate {
          i := if i == 0 then 255 else i - 1;
        }
        i := if i == 255 then 0 else i + 1;
        k := k + 1;
      }
      assert orig[..k] == orig;
    }

    /**
     * The body of interact_objects' loop for the fish at index `i`: sense it,
     * then eat and erase it if it is in reach. Stated against the loop's
     * account: the vector is the fish kept so far followed by the ones not
     * yet visited, `orig[k..]`.
     */
    method VisitFish(i: nat, catHead: Vec3, catTail: Vec3, elapsed: real, sqrt: real -> real,
                     ghost orig: seq<Vec3>, ghost k: nat, ghost c0: Counters)
      returns (ate: bool, ghost r: Interaction)
      requires IsSqrt(sqrt) && k < |orig|
      requires var front := Interact(orig[..k], c0, catHead, catTail, tuning, elapsed, sqrt);
        && i == |front.kept| && fishes == front.kept + orig[k..]
        && senseCounter == front.counters.sense && eatCounter == front.counters.eat
      modifies this`fishes, this`senseCounter, this`eatCounter, player`maxLength
      ensures var front := Interact(orig[..k], c0, catHead, catTail, tuning, elapsed, sqrt);
        && r == Interact(orig[..k + 1], c0, catHead, catTail, tuning, elapsed, sqrt)
        && ate == FishStep(front.counters, orig[k], catHead, catTail, tuning, elapsed, sqrt).0
        && fishes == r.kept + orig[k + 1..] && |r.kept| == i + (if ate then 0 else 1)
        && senseCounter == r.counters.sense && eatCounter == r.counters.eat
        && r.eaten == front.eaten + (if ate then 1 else 0)
        && player.maxLength == old(player.maxLength) + (if ate then 5.0 else 0.0)
    {
      ghost var before := fishes;
      ghost var front := Interact(orig[..k], c0, catHead, catTail, tuning, elapsed, sqrt);
      assert before[i] == orig[k] && Counters(senseCounter, eatCounter) == front.counters;
      var fish := fishes[i];
      SenseFish(fish, catHead, elapsed, sqrt);
      ate := EatFish(fish, catHead, catTail, elapsed, sqrt);
      if ate {
        fishes := fishes[..i] + fishes[i + 1..];
      }
      InteractAdvance(orig, k, c0, catHead, catTail, tuning, elapsed, sqrt, before, ate, fishes, Counters(senseCounter, eatCounter));
      r := Interact(orig[..k + 1], c0, catHead, catTail, tuning, elapsed, sqrt);
    }

    /** The sensing part of interact_objects' loop body, for one fish. */
    method SenseFish(fish: Vec3, catHead: Vec3, elapsed: real, sqrt: real -> real)
      requires IsSqrt(sqrt)
      modifies this`senseCounter
      ensures senseCounter == SenseStep(old(senseCounter), fish, catHead, tuning, elapsed, sqrt)
    {
      if senseCounter < tuning.senseCooldown {
        senseCounter := senseCounter + elapsed;
      } else if Abs(Length3(Vec3(catHead.x - fish.x, catHead.y - fish.y, catHead.z - fish.z), sqrt) - tuning.sensingDist) < 1.0 {
        senseCounter := 0.0;
      }
    }

    /** The eating part of interact_objects' loop body, for one fish: on a bite the cat grows by 5 and the counter restarts. */
    method EatFish(fish: Vec3, catHead: Vec3, catTail: Vec3, elapsed: real, sqrt: real -> real) returns (ate: bool)
      requires IsSqrt(sqrt)
      modifies this`eatCounter, player`maxLength
      ensures var step := FishStep(Counters(senseCounter, old(eatCounter)), fish, catHead, catTail, tuning, elapsed, sqrt);
        && ate == step.0 && eatCounter == step.1.eat
        && player.maxLength == old(player.maxLength) + if ate then 5.0 else 0.0
    {
      ate := false;
      if eatCounter < tuning.eatCooldown {
        eatCounter := eatCounter + elapsed;
      } else if Abs(Length3(Vec3(catHead.x - fish.x, catHead.y - fish.y, catHead.z - fish.z), sqrt) - tuning.eatDist) < 1.0
             || Abs(Length3(Vec3(catTail.x - fish.x, catTail.y - fish.y, catTail.z - fish.z), sqrt) - tuning.eatDist) < 1.0 {
        ate := true;
        player.maxLength := player.maxLength + 5.0;
        eatCounter := 0.0;
      }
    }

    /** PlayMode::do_auto_grab: a grab point entered this frame makes the cat grab; every point remembers its distance. */
    method DoAutoGrab(sqrt: real -> real)
      requires IsSqrt(sqrt)
      modifies this`grabPoints, player`grabbing
      ensures var scan := GrabScan(old(grabPoints), old(player.headPos), old(player.grabRadius), sqrt);
        grabPoints == scan.1 && player.grabbing == (old(player.grabbing) || scan.0)
    {
      var gps, head, radius := grabPoints, player.headPos, player.grabRadius;
      var updated := [];
      var i := 0;
      while i < |gps|
        invariant 0 <= i <= |gps|
        invariant updated == GrabScan(gps[..i], head, radius, sqrt).1
        invariant player.grabbing == (old(player.grabbing) || GrabScan(gps[..i], head, radius, sqrt).0)
      {
        assert gps[..i + 1][..i] == gps[..i];
        var p := gps[i];
        var dist := Distance(p.position, head, sqrt);
        if EntersGrab(dist, p.pastPlayerDist, radius) {
          player.grabbing := true;
        }
        updated := updated + [p.(pastPlayerDist := dist)];
        i := i + 1;
      }
      assert gps[..i] == gps;
      grabPoints := updated;
    }

    /** The release of player_phys_update: the grab ends and half the tail's velocity goes to the head. */
    method LetGo()
      modifies player
      ensures player.State() == Recompress(old(player.State()).(grabbing := false, headGrounded := false))
    {
      player.grabbing := false;
      player.headGrounded := false;
      player.headVel := player.headVel.Plus(player.tailVel.Times(0.5));
      player.tailVel := player.tailVel.Times(0.5);
    }

    /** The stretch rule of player_phys_update. */
    method StretchWithGrab(sqrt: real -> real)
      requires IsSqrt(sqrt)
      modifies this`stretched, player
      ensures (player.State(), stretched) == PlayStretch(old(player.State()), old(stretched), space.pressed, sqrt)
    {
      var stretchPressed := false;
      if space.pressed {
        stretchPressed := player.grabbing;
      }
      player.length := if stretchPressed then player.maxLength else 1.0;
      var headTailDist := Distance(player.headPos, player.tailPos, sqrt);
      if stretchPressed {
        if headTailDist > 4.0 {
          stretched := true;
        }
      } else if player.grabbing && stretched && headTailDist <= 4.0 {
        stretched := false;
        LetGo();
      }
      player.boundLength := if stretched || stretchPressed then player.maxLength else 1.0;
    }

    /**
     * player_phys_update: gravity, the stretch rule, auto-grab, movement,
     * integration, collisions of head then tail with radius 1, and damping
     * at the fixed time step.
     */
    method PlayerPhysUpdate(elapsed: real, sqrt: real -> real)
      requires IsSqrt(sqrt) && collisionManager.Valid() && tuning.fixedTime > 0.0 && player.maxLength >= 0.0
      modifies this`stretched, this`grabPoints, this`timer, player
      ensures var (s1, st) := PlayStretch(Gravity(old(player.State()), elapsed, tuning.gravity), old(stretched), space.pressed, sqrt);
        var scan := GrabScan(old(grabPoints), s1.headPos, s1.grabRadius, sqrt);
        && stretched == st && grabPoints == scan.1
        && timer == DampRest(old(timer) + elapsed, tuning.fixedTime)
        && player.State() == PhysTail(s1.(grabbing := s1.grabbing || scan.0), collisionManager.lineSegments,
                                      elapsed, left.pressed, right.pressed, up.pressed, old(timer), tuning.fixedTime, sqrt)
      ensures player.maxLength == old(player.maxLength) && (player.length == 1.0 || player.length == player.maxLength)
    {
      PhysPrepare(elapsed, sqrt);
      ghost var s2 := player.State();
      PhysAdvance(elapsed, sqrt);
      PhysTailFrame(s2, collisionManager.lineSegments, elapsed, left.pressed, right.pressed, up.pressed, old(timer), tuning.fixedTime, sqrt);
    }

    /** The first half of player_phys_update: gravity, the stretch rule and auto-grab. */
    method PhysPrepare(elapsed: real, sqrt: real -> real)
      requires IsSqrt(sqrt) && player.maxLength >= 0.0
      modifies this`stretched, this`grabPoints, player
      ensures var (s1, st) := PlayStretch(Gravity(old(player.State()), elapsed, tuning.gravity), old(stretched), space.pressed, sqrt);
        var scan := GrabScan(old(grabPoints), s1.headPos, s1.grabRadius, sqrt);
        && stretched == st && grabPoints == scan.1
        && player.State() == s1.(grabbing := s1.grabbing || scan.0)
      ensures player.boundLength >= 0.0 && player.maxLength == old(player.maxLength)
      ensures player.length == 1.0 || player.length == player.maxLength
    {
      player.ApplyGravity(elapsed, tuning.gravity);
      StretchWithGrab(sqrt);
      PlayStretchBound(Gravity(old(player.State()), elapsed, tuning.gravity), old(stretched), space.pressed, sqrt);
      DoAutoGrab(sqrt);
    }

    /** The second half of player_phys_update: movement, integration, collisions and damping. */
    method PhysAdvance(elapsed: real, sqrt: real -> real)
      requires IsSqrt(sqrt) && collisionManager.Valid() && tuning.fixedTime > 0.0 && player.boundLength >= 0.0
      modifies this`timer, player
      ensures timer == DampRest(old(timer) + elapsed, tuning.fixedTime)
      ensures player.State() == PhysTail(old(player.State()), collisionManager.lineSegments,
                                         elapsed, left.pressed, right.pressed, up.pressed, old(timer), tuning.fixedTime, sqrt)
    {
      var goLeft, goRight, goUp := left.pressed, right.pressed, up.pressed;
      ghost var s0 := player.State();
      player.Move(elapsed, goLeft, goRight, goUp, sqrt);
      player.IntegrateStep(elapsed);
      assert player.State() == Integrate(Movement(s0, elapsed, goLeft, goRight, goUp, sqrt), elapsed);
      CollideAndDamp(elapsed, sqrt);
    }

    /** The end of player_phys_update: head then tail against the level with radius 1, then damping. */
    method CollideAndDamp(elapsed: real, sqrt: real -> real)
      requires IsSqrt(sqrt) && collisionManager.Valid() && tuning.fixedTime > 0.0
      modifies this`timer, player
      ensures timer == DampRest(old(timer) + elapsed, tuning.fixedTime)
      ensures player.State() == CollideDamp(old(player.State()), collisionManager.lineSegments, elapsed, old(timer), tuning.fixedTime, sqrt)
    {
      player.CollideSegments(collisionManager, 1.0, true, sqrt);
      player.CollideSegments(collisionManager, 1.0, false, sqrt);
      timer := player.DampLoop(timer + elapsed, tuning.fixedTime);
    }

    /** The fall check of update: respawn exactly when both ends are below the death bound. */
    method RespawnIfFallen()
      modifies player
      ensures var fell := old(player.headPos.y) < tuning.deathBound && old(player.tailPos.y) < tuning.deathBound;
        && (fell ==> player.State() == Respawned(old(player.State())))
        && (!fell ==> player.State() == old(player.State()))
    {
      if player.headPos.y < tuning.deathBound && player.tailPos.y < tuning.deathBound {
        player.Respawn();
      }
    }

    /**
     * PlayMode::update without drawing and sound: fireworks once won, the win
     * check against the doughnut, the fall check, fish, checkpoints, the
     * physics tick, the camera, and the key counters cleared.
     */
    method Update(elapsed: real, doughnut: Vec2, catHead: Vec3, catTail: Vec3,
                  spawned: Firework, advance: (Firework, real) -> Firework, sqrt: real -> real)
      requires IsSqrt(sqrt) && Valid()
      modifies this, player, checkpoints, dynamicCamera
      ensures Valid()
      ensures gameOver <==> old(gameOver) || Distance(old(player.headPos), doughnut, sqrt) < 5.0
      ensures currCheckpointId == old(currCheckpointId) || currCheckpointId == old(currCheckpointId) + 1
      ensures left.downs == 0 && right.downs == 0 && up.downs == 0 && down.downs == 0 && space.downs == 0
    {
      UpdateFront(elapsed, doughnut, catHead, catTail, spawned, advance, sqrt);
      UpdateFinish(elapsed, sqrt);
    }

    /** The first two stages of update: what the frame invariant and the last stage need from them. */
    method UpdateFront(elapsed: real, doughnut: Vec2, catHead: Vec3, catTail: Vec3,
                       spawned: Firework, advance: (Firework, real) -> Firework, sqrt: real -> real)
      requires IsSqrt(sqrt) && Valid()
      modifies this`fireworks, this`fireworksCountdown, this`gameOver, this`fishes, this`senseCounter, this`eatCounter
      modifies this`currCheckpointId, checkpoints, player
      ensures Valid()
      ensures gameOver <==> old(gameOver) || Distance(old(player.headPos), doughnut, sqrt) < 5.0
      ensures currCheckpointId == old(currCheckpointId) || currCheckpointId == old(currCheckpointId) + 1
    {
      UpdateStart(elapsed, doughnut, spawned, advance, sqrt);
      UpdateProgress(elapsed, catHead, catTail, sqrt);
    }

    /** The end of update: the physics tick, the camera, and the key counters cleared. */
    method UpdateFinish(elapsed: real, sqrt: real -> real)
      requires IsSqrt(sqrt) && collisionManager.Valid() && tuning.fixedTime > 0.0 && player.maxLength > 0.0
      requires CameraValid(dynamicCamera.State())
      modifies this`stretched, this`grabPoints, this`timer, this`left, this`right, this`up, this`down, this`space
      modifies player, dynamicCamera
      ensures player.maxLength == old(player.maxLength) && CameraValid(dynamicCamera.State())
      ensures left.downs == 0 && right.downs == 0 && up.downs == 0 && down.downs == 0 && space.downs == 0
    {
      PlayerPhysUpdate(elapsed, sqrt);
      AnimationUpdate(elapsed, sqrt);
      left := left.(downs := 0);
      right := right.(downs := 0);
      up := up.(downs := 0);
      down := down.(downs := 0);
      space := space.(downs := 0);
    }

    /** The start of update: fireworks once won, the win check against the doughnut, and the fall check. */
    method UpdateStart(elapsed: real, doughnut: Vec2, spawned: Firework, advance: (Firework, real) -> Firework, sqrt: real -> real)
      requires IsSqrt(sqrt)
      modifies this`fireworks, this`fireworksCountdown, this`gameOver, player
      ensures gameOver <==> old(gameOver) || Distance(old(player.headPos), doughnut, sqrt) < 5.0
      ensures !old(gameOver) ==> fireworks == old(fireworks) && fireworksCountdown == old(fireworksCountdown)
      ensures old(gameOver) ==>
        var (launched, countdown) := Launch(old(fireworks), old(fireworksCountdown), elapsed, tuning, spawned);
        fireworks == Survivors(launched, advance, elapsed, tuning.maxFireworksAge) && fireworksCountdown == countdown
      ensures var fell := old(player.headPos.y) < tuning.deathBound && old(player.tailPos.y) < tuning.deathBound;
        && (fell ==> player.State() == Respawned(old(player.State())))
        && (!fell ==> player.State() == old(player.State()))
      ensures player.maxLength == old(player.maxLength)
    {
      if gameOver {
        CelebrateUpdate(elapsed, spawned, advance);
      }
      if Distance(player.headPos, doughnut, sqrt) < 5.0 {
        gameOver := true;
      }
      RespawnIfFallen();
    }

    /** The middle of update: fish, then checkpoint progress; the loaded invariants survive both. */
    method UpdateProgress(elapsed: real, catHead: Vec3, catTail: Vec3, sqrt: real -> real)
      requires IsSqrt(sqrt) && -1 <= currCheckpointId < checkpoints.Length && |fishes| < 256 && player.maxLength > 0.0
      requires AllHaveSides(checkpoints[..]) && ReachedUpTo(checkpoints[..], currCheckpointId)
      modifies this`fishes, this`senseCounter, this`eatCounter, this`currCheckpointId, checkpoints, player
      ensures -1 <= currCheckpointId < checkpoints.Length && |fishes| < 256 && player.maxLength > 0.0
      ensures AllHaveSides(checkpoints[..]) && ReachedUpTo(checkpoints[..], currCheckpointId)
      ensures currCheckpointId == old(currCheckpointId) || currCheckpointId == old(currCheckpointId) + 1
      ensures var r := Interact(old(fishes), Counters(old(senseCounter), old(eatCounter)), catHead, catTail, tuning, elapsed, sqrt);
        fishes == r.kept && senseCounter == r.counters.sense && eatCounter == r.counters.eat
      ensures var st := Step(old(checkpoints[..]), old(currCheckpointId), old(player.headPos), old(player.tailPos), elapsed, sqrt);
        checkpoints[..] == st.0 && currCheckpointId == st.1
      ensures var r := Interact(old(fishes), Counters(old(senseCounter), old(eatCounter)), catHead, catTail, tuning, elapsed, sqrt);
        var fed := old(player.State()).(maxLength := old(player.maxLength) + 5.0 * (r.eaten as real));
        && (currCheckpointId == old(currCheckpointId) ==> player.State() == fed)
        && (0 <= currCheckpointId != old(currCheckpointId) ==>
              player.State() == RespawnAt(fed, checkpoints[currCheckpointId].position))
    {
      InteractObjects(elapsed, catHead, catTail, sqrt);
      ghost var cps := checkpoints[..];
      StepKeepsReached(cps, currCheckpointId, player.headPos, player.tailPos, elapsed, sqrt);
      StepKeepsSides(cps, currCheckpointId, player.headPos, player.tailPos, elapsed, sqrt);
      StepIndex(cps, currCheckpointId, player.headPos, player.tailPos, elapsed, sqrt);
      currCheckpointId := UpdateCheckpoints(checkpoints, currCheckpointId, player, elapsed, sqrt);
    }

    /** The camera call of animation_update: follow the cat's midpoint, zoom out while stretching on a grab. */
    method AnimationUpdate(elapsed: real, sqrt: real -> real)
      requires IsSqrt(sqrt) && player.length != 0.0
      modifies dynamicCamera
      ensures dynamicCamera.State() == CameraStep(old(dynamicCamera.State()), elapsed,
        player.headPos.Plus(player.tailPos).Times(0.5), space.pressed && player.grabbing,
        Distance(player.headPos, player.tailPos, sqrt) / player.length)
      ensures CameraValid(old(dynamicCamera.State())) ==> CameraValid(dynamicCamera.State())
    {
      dynamicCamera.Update(elapsed, player.headPos.Plus(player.tailPos).Times(0.5), space.pressed && player.grabbing,
        Distance(player.headPos, player.tailPos, sqrt) / player.length);
    }
  }
}
