/**
 * Grab points and checkpoints (KeyPoint.hpp and KeyPoint.cpp): the values
 * the level keeps for automatic grabbing and for respawning, the search for a
 * checkpoint's three box sides, the ordering of checkpoints and the opening
 * animation's timer.
 */
module KeyPoint {
  import opened Geometry
  import opened Wrappers

  // ---- Grab_Point ----

  datatype GrabPoint = GrabPoint(position: Vec2, pastPlayerDist: real)

  /** The Grab_Point constructor: the remembered distance starts at zero. */
  function NewGrabPoint(position: Vec2): (g: GrabPoint)
    ensures g.position == position && g.pastPlayerDist == 0.0
  {
    GrabPoint(position, 0.0)
  }

  /** A grab happens only on entry: now within the radius, and outside it one tick earlier. */
  predicate EntersGrab(dist: real, pastDist: real, grabRadius: real) {
    dist <= grabRadius && pastDist > grabRadius
  }

  /** A fresh grab point cannot trigger a grab on its first tick when the radius is non-negative. */
  lemma NewGrabPointNoEntry(position: Vec2, dist: real, grabRadius: real)
    requires grabRadius >= 0.0
    ensures !EntersGrab(dist, NewGrabPoint(position).pastPlayerDist, grabRadius)
  {
  }

  // ---- Check_Point ----

  /** A scene transform as the checkpoint sees it: its name and its position. */
  datatype Transform = Transform(name: string, position: Vec3)

  /**
   * A checkpoint; the three box sides are null pointers (`None`) until found.
   * `activating` and `time` drive the box-opening animation.
   */
  datatype CheckPoint = CheckPoint(
    name: string,
    reached: bool,
    position: Vec2,
    boxFront: Option<Transform>,
    boxLeft: Option<Transform>,
    boxRight: Option<Transform>,
    activating: bool,
    time: real)

  /** The Check_Point constructor: not reached, no box sides, no animation running. */
  function NewCheckPoint(name: string, position: Vec2): (c: CheckPoint)
    ensures c.name == name && c.position == position && !c.reached
    ensures c.boxFront == None && c.boxLeft == None && c.boxRight == None
    ensures !c.activating && c.time == 0.0
  {
    CheckPoint(name, false, position, None, None, None, false, 0.0)
  }

  /** box_has_sides: all three box pointers are set. */
  predicate BoxHasSides(c: CheckPoint) {
    c.boxLeft.Some? && c.boxRight.Some? && c.boxFront.Some?
  }

  /** The checkpoint ordering: by x coordinate only. */
  predicate Before(a: CheckPoint, b: CheckPoint) {
    a.position.x < b.position.x
  }

  /** Checkpoints with the same x are unordered either way, whatever else differs. */
  lemma BeforeIgnoresRest(a: CheckPoint, b: CheckPoint)
    requires a.position.x == b.position.x
    ensures !Before(a, b) && !Before(b, a)
  {
  }

  // ---- the name prefix ----

  predicate OccursAt(s: string, pat: string, j: int) {
    0 <= j && j + |pat| <= |s| && s[j..j + |pat|] == pat
  }

  /** std::string::find from position i: the first occurrence of `pat` at or after i. */
  function IndexFrom(s: string, pat: string, i: nat): (r: Option<nat>)
    requires i <= |s|
    ensures r.Some? ==> i <= r.value && OccursAt(s, pat, r.value)
    ensures r.Some? ==> forall j :: i <= j < r.value ==> !OccursAt(s, pat, j)
    ensures r.None? ==> forall j :: i <= j <= |s| ==> !OccursAt(s, pat, j)
    decreases |s| - i
  {
    if i + |pat| > |s| then None
    else if s[i..i + |pat|] == pat then Some(i)
    else IndexFrom(s, pat, i + 1)
  }

  /** std::string::find: the first occurrence of `pat` in `s`, or nothing (npos). */
  function IndexOf(s: string, pat: string): (r: Option<nat>)
    ensures r.Some? ==> OccursAt(s, pat, r.value) && forall j :: 0 <= j < r.value ==> !OccursAt(s, pat, j)
    ensures r.None? ==> forall j :: 0 <= j <= |s| ==> !OccursAt(s, pat, j)
  {
    IndexFrom(s, pat, 0)
  }

  const CheckpointSuffix := ".Checkpoint"

  /**
   * `name.substr(0, name.find(".Checkpoint"))`: the name up to the first
   * ".Checkpoint", or the whole name when there is none (npos).
   */
  function Prefix(name: string): (p: string)
    ensures p <= name
    ensures |p| < |name| ==> p + CheckpointSuffix <= name
    ensures forall j :: 0 <= j < |p| ==> !OccursAt(name, CheckpointSuffix, j)
  {
    match IndexOf(name, CheckpointSuffix)
    case None => name
    case Some(i) =>
      assert name[..i] + CheckpointSuffix == name[..i + |CheckpointSuffix|];
      name[..i]
  }

  // ---- find_sides ----

  /** One iteration of find_sides: a drawable whose name matches exactly fills one side. */
  function AssignSide(c: CheckPoint, prefix: string, t: Transform): CheckPoint {
    if t.name == prefix + ".Front" then c.(boxFront := Some(t))
    else if t.name == prefix + ".Left" then c.(boxLeft := Some(t))
    else if t.name == prefix + ".Right" then c.(boxRight := Some(t))
    else c
  }

  /**
   * The loop of find_sides as a function: scan the drawables in order, stop
   * with `true` as soon as all three sides are set, `false` when they run out.
   */
  function ScanSides(c: CheckPoint, prefix: string, ds: seq<Transform>): (bool, CheckPoint)
    decreases |ds|
  {
    if ds == [] then (false, c)
    else
      var c1 := AssignSide(c, prefix, ds[0]);
      if BoxHasSides(c1) then (true, c1) else ScanSides(c1, prefix, ds[1..])
  }

  /**
   * find_sides / box_find_sides: the checkpoint is updated in place and the
   * result says whether all three sides were found.
   */
  method FindSides(c: CheckPoint, drawables: seq<Transform>) returns (found: bool, r: CheckPoint)
    ensures (found, r) == ScanSides(c, Prefix(c.name), drawables)
  {
    var prefix := Prefix(c.name);
    r := c;
    var i := 0;
    while i < |drawables|
      invariant 0 <= i <= |drawables|
      invariant ScanSides(c, prefix, drawables) == ScanSides(r, prefix, drawables[i..])
      invariant !BoxHasSides(r) || i == 0
    {
      assert drawables[i..][1..] == drawables[i + 1..];
      var name := drawables[i].name;
      if name == prefix + ".Front" {
        r := r.(boxFront := Some(drawables[i]));
      } else if name == prefix + ".Left" {
        r := r.(boxLeft := Some(drawables[i]));
      } else if name == prefix + ".Right" {
        r := r.(boxRight := Some(drawables[i]));
      }
      if BoxHasSides(r) {
        found := true;
        return;
      }
      i := i + 1;
    }
    found := false;
    assert drawables[i..] == [];
  }

  /**
   * The scan reports success exactly when it ends with all three sides, except
   * that an empty drawable list reports failure and changes nothing even when
   * the sides were already set; and it only ever touches the three sides.
   */
  lemma {:induction false} ScanSidesResult(c: CheckPoint, prefix: string, ds: seq<Transform>)
    ensures var (found, r) := ScanSides(c, prefix, ds);
      && (ds == [] ==> !found && r == c)
      && (ds != [] ==> (found <==> BoxHasSides(r)))
      && r == c.(boxFront := r.boxFront, boxLeft := r.boxLeft, boxRight := r.boxRight)
    decreases |ds|
  {
    if ds != [] {
      var c1 := AssignSide(c, prefix, ds[0]);
      if !BoxHasSides(c1) {
        ScanSidesResult(c1, prefix, ds[1..]);
        if ds[1..] == [] {
          assert ScanSides(c1, prefix, ds[1..]) == (false, c1);
        }
      }
    }
  }

  /** A side that the scan changes is a drawable from the list whose name is exactly the prefixed side name. */
  lemma {:induction false} ScanSidesNames(c: CheckPoint, prefix: string, ds: seq<Transform>)
    ensures var r := ScanSides(c, prefix, ds).1;
      && (r.boxFront != c.boxFront ==> r.boxFront.Some? && r.boxFront.value in ds && r.boxFront.value.name == prefix + ".Front")
      && (r.boxLeft != c.boxLeft ==> r.boxLeft.Some? && r.boxLeft.value in ds && r.boxLeft.value.name == prefix + ".Left")
      && (r.boxRight != c.boxRight ==> r.boxRight.Some? && r.boxRight.value in ds && r.boxRight.value.name == prefix + ".Right")
    decreases |ds|
  {
    if ds != [] {
      var c1 := AssignSide(c, prefix, ds[0]);
      if !BoxHasSides(c1) {
        ScanSidesNames(c1, prefix, ds[1..]);
        var r := ScanSides(c1, prefix, ds[1..]).1;
        assert forall t :: t in ds[1..] ==> t in ds;
      }
    }
  }

  /** Whether some drawable carries the given exact name. */
  predicate Named(ds: seq<Transform>, name: string) {
    exists i :: 0 <= i < |ds| && ds[i].name == name
  }

  /** When all three prefixed side names occur among the drawables, the scan succeeds. */
  lemma {:induction false} ScanSidesComplete(c: CheckPoint, prefix: string, ds: seq<Transform>)
    requires c.boxFront.Some? || Named(ds, prefix + ".Front")
    requires c.boxLeft.Some? || Named(ds, prefix + ".Left")
    requires c.boxRight.Some? || Named(ds, prefix + ".Right")
    requires ds != []
    ensures ScanSides(c, prefix, ds).0
    decreases |ds|
  {
    var c1 := AssignSide(c, prefix, ds[0]);
    if !BoxHasSides(c1) {
      var rest := ds[1..];
      forall suffix | suffix in {".Front", ".Left", ".Right"} && Named(ds, prefix + suffix) && ds[0].name != prefix + suffix
        ensures Named(rest, prefix + suffix)
      {
        var i :| 0 <= i < |ds| && ds[i].name == prefix + suffix;
        assert rest[i - 1] == ds[i];
      }
      assert prefix + ".Front" != prefix + ".Left" by {
        assert (prefix + ".Front")[|prefix| + 1] != (prefix + ".Left")[|prefix| + 1];
      }
      assert prefix + ".Front" != prefix + ".Right" by {
        assert (prefix + ".Front")[|prefix| + 1] != (prefix + ".Right")[|prefix| + 1];
      }
      assert prefix + ".Left" != prefix + ".Right" by {
        assert (prefix + ".Left")[|prefix| + 1] != (prefix + ".Right")[|prefix| + 1];
      }
      if rest == [] {
        assert BoxHasSides(c1);
      } else {
        ScanSidesComplete(c1, prefix, rest);
      }
    }
  }

  // ---- sort_checkpoints ----

  predicate SortedByX(s: seq<CheckPoint>) {
    forall p, q :: 0 <= p < q < |s| ==> s[p].position.x <= s[q].position.x
  }

  /** Exchanges two checkpoints of the array. */
  method Swap(a: array<CheckPoint>, i: int, j: int)
    requires 0 <= i < a.Length && 0 <= j < a.Length
    modifies a
    ensures a[..] == old(a[..])[i := old(a[j])][j := old(a[i])]
    ensures multiset(a[..]) == multiset(old(a[..]))
  {
    a[i], a[j] := a[j], a[i];
  }

  /**
   * sort_checkpoints: std::sort with the x ordering, in place (a selection
   * sort here; std::sort's algorithm is unspecified, only its result matters).
   */
  method SortCheckpoints(a: array<CheckPoint>)
    modifies a
    ensures SortedByX(a[..])
    ensures multiset(a[..]) == multiset(old(a[..]))
  {
    var i := 0;
    while i < a.Length
      invariant 0 <= i <= a.Length
      invariant SortedByX(a[..i])
      invariant forall p, q :: 0 <= p < i <= q < a.Length ==> a[p].position.x <= a[q].position.x
      invariant multiset(a[..]) == multiset(old(a[..]))
    {
      var m := i;
      var j := i + 1;
      while j < a.Length
        invariant i <= m < a.Length && i < j <= a.Length
        invariant forall q :: i <= q < j ==> a[m].position.x <= a[q].position.x
      {
        if a[j].position.x < a[m].position.x {
          m := j;
        }
        j := j + 1;
      }
      Swap(a, i, m);
      i := i + 1;
    }
    assert a[..a.Length] == a[..];
  }

  // ---- activate ----

  /**
   * The timer and flag part of activate: the animation runs for one second of
   * accumulated time, then stops with the timer reset.
   */
  function ActivateTimer(c: CheckPoint, elapsed: real): (r: CheckPoint)
    requires c.activating && BoxHasSides(c)
    ensures r == c.(time := r.time, activating := r.activating)
    ensures r.activating <==> c.time + elapsed < 1.0
    ensures r.time == if r.activating then c.time + elapsed else 0.0
  {
    var t := c.time + elapsed;
    if t >= 1.0 then c.(time := 0.0, activating := false) else c.(time := t)
  }

  /** With a non-negative step the timer stays within [0, 1). */
  lemma ActivateTimerRange(c: CheckPoint, elapsed: real)
    requires c.activating && BoxHasSides(c) && 0.0 <= c.time < 1.0 && elapsed >= 0.0
    ensures 0.0 <= ActivateTimer(c, elapsed).time < 1.0
  {
  }

  /** Repeated calls of activate with the same step, stopping once the animation is over. */
  function ActivateTicks(c: CheckPoint, step: real, n: nat): (r: CheckPoint)
    requires BoxHasSides(c)
    ensures BoxHasSides(r)
    decreases n
  {
    if n == 0 || !c.activating then c else ActivateTicks(ActivateBoxes(c, step), step, n - 1)
  }

  /** With a positive step the animation is over after n calls once n steps add up to a second. */
  lemma {:induction false} ActivationEnds(c: CheckPoint, step: real, n: nat)
    requires BoxHasSides(c) && 0.0 <= c.time && step > 0.0
    requires c.activating ==> c.time < 1.0
    requires c.time + Mul(n as real, step) >= 1.0
    ensures !ActivateTicks(c, step, n).activating
    decreases n
  {
    if n > 0 && c.activating {
      var c1 := ActivateBoxes(c, step);
      if c1.activating {
        assert c1.time == c.time + step;
        assert Mul(n as real, step) == Mul((n - 1) as real, step) + step;
        ActivationEnds(c1, step, n - 1);
      }
    }
  }

  // ---- the box-opening animation ----

  /** How far each box side moves in one call of activate. */
  datatype BoxMotion = BoxMotion(front: Vec3, left: Vec3, right: Vec3)

  /**
   * The displacements as activate writes them: the "right side" block moves the
   * right box in x but the LEFT box in y (KeyPoint.cpp, line 48).
   */
  function BoxDropAsWritten(elapsed: real): (m: BoxMotion)
    ensures m.right.y == 0.0 && m.left.y == -2.0 * elapsed
  {
    BoxMotion(
      Vec3(0.0, -1.0 * elapsed, 1.0 * elapsed),
      Vec3(-1.0 * elapsed, -1.0 * elapsed - 1.0 * elapsed, 0.0),
      Vec3(1.0 * elapsed, 0.0, 0.0))
  }

  /** As written, the two side walls do not fall alike: the right one never drops. */
  lemma BoxDropAsWrittenAsymmetric()
    ensures BoxDropAsWritten(0.5).left.y == -1.0 && BoxDropAsWritten(0.5).right.y == 0.0
  {
  }

  /** The evidently intended displacements: each side falls by `elapsed` and moves outward. */
  function BoxDrop(elapsed: real): (m: BoxMotion)
    ensures m.left.y == m.right.y == m.front.y == -elapsed
    ensures m.left.x == -m.right.x && m.right.x == elapsed
  {
    BoxMotion(
      Vec3(0.0, -1.0 * elapsed, 1.0 * elapsed),
      Vec3(-1.0 * elapsed, -1.0 * elapsed, 0.0),
      Vec3(1.0 * elapsed, -1.0 * elapsed, 0.0))
  }

  function Shift(t: Transform, d: Vec3): Transform {
    t.(position := Vec3(t.position.x + d.x, t.position.y + d.y, t.position.z + d.z))
  }

  /**
   * activate as written: move the three box sides by `BoxDropAsWritten` and
   * advance the timer; only the box positions, the timer and the flag change.
   */
  function ActivateBoxes(c: CheckPoint, elapsed: real): (r: CheckPoint)
    requires c.activating && BoxHasSides(c)
    ensures BoxHasSides(r) && r.name == c.name && r.position == c.position && r.reached == c.reached
    ensures r.boxFront.value == Shift(c.boxFront.value, Vec3(0.0, -elapsed, elapsed))
    ensures r.boxLeft.value == Shift(c.boxLeft.value, Vec3(-elapsed, -2.0 * elapsed, 0.0))
    ensures r.boxRight.value == Shift(c.boxRight.value, Vec3(elapsed, 0.0, 0.0))
    ensures r.activating == ActivateTimer(c, elapsed).activating && r.time == ActivateTimer(c, elapsed).time
  {
    var m := BoxDropAsWritten(elapsed);
    var moved := c.(
      boxFront := Some(Shift(c.boxFront.value, m.front)),
      boxLeft := Some(Shift(c.boxLeft.value, m.left)),
      boxRight := Some(Shift(c.boxRight.value, m.right)));
    ActivateTimer(moved, elapsed)
  }

  /**
   * activate as evidently intended: the right wall falls like the left one.
   * Only the right wall's height differs from the code as written.
   */
  function ActivateBoxesIntended(c: CheckPoint, elapsed: real): (r: CheckPoint)
    requires c.activating && BoxHasSides(c)
    ensures BoxHasSides(r) && r.name == c.name && r.position == c.position && r.reached == c.reached
    ensures r.boxLeft.value.position.y == c.boxLeft.value.position.y - elapsed
    ensures r.boxRight.value.position.y == c.boxRight.value.position.y - elapsed
    ensures r.activating == ActivateTimer(c, elapsed).activating && r.time == ActivateTimer(c, elapsed).time
  {
    var m := BoxDrop(elapsed);
    var moved := c.(
      boxFront := Some(Shift(c.boxFront.value, m.front)),
      boxLeft := Some(Shift(c.boxLeft.value, m.left)),
      boxRight := Some(Shift(c.boxRight.value, m.right)));
    ActivateTimer(moved, elapsed)
  }

  /** The two versions agree on everything but the side walls' heights. */
  lemma ActivateIntendedDiffers(c: CheckPoint, elapsed: real)
    requires c.activating && BoxHasSides(c)
    ensures var w := ActivateBoxes(c, elapsed); var v := ActivateBoxesIntended(c, elapsed);
      && w.boxFront == v.boxFront && w.time == v.time && w.activating == v.activating
      && w.boxLeft.value.position.x == v.boxLeft.value.position.x
      && w.boxRight.value.position.x == v.boxRight.value.position.x
      && w.boxLeft.value.position.y == v.boxLeft.value.position.y - elapsed
      && w.boxRight.value.position.y == v.boxRight.value.position.y + elapsed
  {
  }
}
