/**
 * The camera that follows the cat: it eases its x and y toward a target
 * point each frame, zooms out (moves back in z) while the cat is being
 * stretched, and zooms back in over time afterwards. Its zoom ratio never
 * drops below 1 and its height is always the default height times that ratio.
 */
module DynamicCameraModel {
  import opened Geometry

  /** The camera's fields, as a value (the scene camera it drives is not modelled). */
  datatype CameraState = CameraState(pos: Vec3, speed: real, defaultZ: real, zoom: real)

  /** The invariant the constructor establishes and update keeps. */
  predicate CameraValid(c: CameraState) {
    c.zoom >= 1.0 && c.pos.z == Mul(c.defaultZ, c.zoom)
  }

  function Max(a: real, b: real): real { if a >= b then a else b }

  /** The easing step on x and y: move by the offset to the target times `elapsed * speed`. */
  function Ease(c: CameraState, elapsed: real, target: Vec2): (r: CameraState)
    ensures r == c.(pos := r.pos) && r.pos.z == c.pos.z
  {
    var dir := target.Minus(Vec2(c.pos.x, c.pos.y));
    c.(pos := Vec3(c.pos.x + Mul(Mul(dir.x, elapsed), c.speed), c.pos.y + Mul(Mul(dir.y, elapsed), c.speed), c.pos.z))
  }

  /** The zoom step: follow the stretch ratio while extending, otherwise relax toward 1 if zoomed out. */
  function Zoom(c: CameraState, elapsed: real, extending: bool, ratio: real): (r: CameraState)
    ensures r == c.(pos := r.pos, zoom := r.zoom) && r.pos.x == c.pos.x && r.pos.y == c.pos.y
  {
    if extending then
      var z := Max(1.0, ratio);
      c.(zoom := z, pos := c.pos.(z := Mul(c.defaultZ, z)))
    else if c.pos.z > c.defaultZ then
      var z := Max(1.0, c.zoom - Mul(elapsed, c.speed) / 5.0);
      c.(zoom := z, pos := c.pos.(z := Mul(c.defaultZ, z)))
    else c
  }

  /** DynamicCamera::update on the camera's fields. */
  function CameraStep(c: CameraState, elapsed: real, target: Vec2, extending: bool, ratio: real): CameraState {
    Zoom(Ease(c, elapsed, target), elapsed, extending, ratio)
  }

  /** The zoom ratio stays at least 1 and the height stays tied to it. */
  lemma CameraStepValid(c: CameraState, elapsed: real, target: Vec2, extending: bool, ratio: real)
    requires CameraValid(c)
    ensures CameraValid(CameraStep(c, elapsed, target, extending, ratio))
  {
  }

  /** The offset from the camera to the target shrinks by the factor `1 - elapsed * speed` on each axis. */
  lemma CameraStepEases(c: CameraState, elapsed: real, target: Vec2, extending: bool, ratio: real)
    ensures var r := CameraStep(c, elapsed, target, extending, ratio);
      target.Minus(Vec2(r.pos.x, r.pos.y)) == target.Minus(Vec2(c.pos.x, c.pos.y)).Times(1.0 - Mul(elapsed, c.speed))
  {
    var dir := target.Minus(Vec2(c.pos.x, c.pos.y));
    var f := Mul(elapsed, c.speed);
    assert Mul(Mul(dir.x, elapsed), c.speed) == Mul(f, dir.x);
    assert Mul(Mul(dir.y, elapsed), c.speed) == Mul(f, dir.y);
    assert Mul(1.0 - f, dir.x) == dir.x - Mul(f, dir.x);
    assert Mul(1.0 - f, dir.y) == dir.y - Mul(f, dir.y);
  }

  /** While extending the camera zooms exactly to the stretch ratio, or to 1 if the ratio is below 1. */
  lemma CameraStepExtending(c: CameraState, elapsed: real, target: Vec2, ratio: real)
    ensures var r := CameraStep(c, elapsed, target, true, ratio);
      && r.zoom >= 1.0 && r.zoom >= ratio && (r.zoom == 1.0 || r.zoom == ratio)
      && r.pos.z == Mul(c.defaultZ, r.zoom)
  {
  }

  /** Not extending and not zoomed out: the zoom and the height are left alone. */
  lemma CameraStepAtRest(c: CameraState, elapsed: real, target: Vec2, ratio: real)
    requires c.pos.z <= c.defaultZ
    ensures var r := CameraStep(c, elapsed, target, false, ratio);
      r.zoom == c.zoom && r.pos.z == c.pos.z
  {
  }

  /** Not extending: the zoom ratio never grows; when zoomed out it drops by `elapsed * speed / 5`, but not below 1. */
  lemma CameraStepRelaxes(c: CameraState, elapsed: real, target: Vec2, ratio: real)
    requires CameraValid(c) && elapsed >= 0.0 && c.speed >= 0.0
    ensures var r := CameraStep(c, elapsed, target, false, ratio);
      && r.zoom <= c.zoom
      && (c.pos.z > c.defaultZ ==> r.zoom == Max(1.0, c.zoom - Mul(elapsed, c.speed) / 5.0))
  {
    MulPositiveOrZero(elapsed, c.speed);
  }

  lemma MulPositiveOrZero(a: real, b: real)
    requires a >= 0.0 && b >= 0.0
    ensures Mul(a, b) >= 0.0
  {
    if a > 0.0 && b > 0.0 {
      MulPositive(a, b);
    }
  }

  /** Repeated non-extending frames with the same step. */
  function Relax(c: CameraState, elapsed: real, target: Vec2, n: nat): CameraState
    decreases n
  {
    if n == 0 then c else Relax(CameraStep(c, elapsed, target, false, 1.0), elapsed, target, n - 1)
  }

  /**
   * With a positive default height and a positive step, once `n` steps of
   * `elapsed * speed / 5` cover the excess zoom, the camera is back at ratio 1
   * and at its default height.
   */
  lemma {:induction false} RelaxSettles(c: CameraState, elapsed: real, target: Vec2, n: nat)
    requires CameraValid(c) && c.defaultZ > 0.0 && elapsed >= 0.0 && c.speed >= 0.0
    requires c.zoom - Mul(n as real, Mul(elapsed, c.speed) / 5.0) <= 1.0
    ensures var r := Relax(c, elapsed, target, n); r.zoom == 1.0 && r.pos.z == c.defaultZ
    decreases n
  {
    var step := Mul(elapsed, c.speed) / 5.0;
    MulPositiveOrZero(elapsed, c.speed);
    if c.zoom > 1.0 {
      MulBelow(1.0, c.zoom, c.defaultZ);
      assert c.pos.z > c.defaultZ;
    }
    if n == 0 {
      assert c.zoom == 1.0;
    } else {
      var c1 := CameraStep(c, elapsed, target, false, 1.0);
      CameraStepValid(c, elapsed, target, false, 1.0);
      if c.zoom > 1.0 {
        assert c1.zoom == Max(1.0, c.zoom - step);
      } else {
        assert c1.zoom == c.zoom;
      }
      assert Mul(n as real, step) == Mul((n - 1) as real, step) + step;
      RelaxSettles(c1, elapsed, target, n - 1);
    }
  }

  class DynamicCamera {
    var cameraPos: Vec3
    var cameraSpeed: real
    var defaultZ: real
    var zoomOutRatio: real

    function State(): CameraState
      reads this
    {
      CameraState(cameraPos, cameraSpeed, defaultZ, zoomOutRatio)
    }

    /** The constructor: x and y as given, z at the default height, no zoom. */
    constructor (cameraPos0: Vec3, cameraSpeed0: real, defaultZ0: real)
      ensures State() == CameraState(Vec3(cameraPos0.x, cameraPos0.y, defaultZ0), cameraSpeed0, defaultZ0, 1.0)
      ensures CameraValid(State())
    {
      cameraSpeed := cameraSpeed0;
      defaultZ := defaultZ0;
      cameraPos := Vec3(cameraPos0.x, cameraPos0.y, defaultZ0);
      zoomOutRatio := 1.0;
    }

    /** DynamicCamera::update. */
    method Update(elapsed: real, target: Vec2, extending: bool, ratio: real)
      modifies this
      ensures State() == CameraStep(old(State()), elapsed, target, extending, ratio)
      ensures CameraValid(old(State())) ==> CameraValid(State())
    {
      ghost var c := State();
      if CameraValid(c) {
        CameraStepValid(c, elapsed, target, extending, ratio);
      }
      var dir := target.Minus(Vec2(cameraPos.x, cameraPos.y));
      cameraPos := cameraPos.(x := cameraPos.x + Mul(Mul(dir.x, elapsed), cameraSpeed));
      cameraPos := cameraPos.(y := cameraPos.y + Mul(Mul(dir.y, elapsed), cameraSpeed));
      if extending {
        zoomOutRatio := Max(1.0, ratio);
        cameraPos := cameraPos.(z := Mul(defaultZ, zoomOutRatio));
      } else if cameraPos.z > defaultZ {
        zoomOutRatio := Max(1.0, zoomOutRatio - Mul(elapsed, cameraSpeed) / 5.0);
        cameraPos := cameraPos.(z := Mul(defaultZ, zoomOutRatio));
      }
    }
  }
}
