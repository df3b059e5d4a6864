/**
 * update_checkpoints: every frame, the checkpoints whose box is opening run
 * one step of their animation; then, unless the last checkpoint is already
 * the current one, coming within distance 3 of the next checkpoint (with
 * either end of the cat) makes it the current one, marks it reached, starts
 * its animation and moves the player's respawn points there.
 */
module KeyPointUpdate {
  import opened Geometry
  import opened KeyPoint
  import opened PlayerModel

  /** The source asserts, inside activate, that an opening checkpoint has its three box sides. */
  predicate ActivatingHaveSides(s: seq<CheckPoint>) {
    forall i :: 0 <= i < |s| ==> s[i].activating ==> BoxHasSides(s[i])
  }

  predicate AllHaveSides(s: seq<CheckPoint>) {
    forall i :: 0 <= i < |s| ==> BoxHasSides(s[i])
  }

  /** One checkpoint in the animation loop: activate it if its box is opening. */
  function AnimateOne(c: CheckPoint, elapsed: real): (r: CheckPoint)
    requires c.activating ==> BoxHasSides(c)
    ensures r.name == c.name && r.position == c.position && r.reached == c.reached
    ensures !c.activating ==> r == c
    ensures BoxHasSides(c) ==> BoxHasSides(r)
    ensures c.activating ==>
      && r.boxLeft.value.position.y == c.boxLeft.value.position.y - 2.0 * elapsed
      && r.boxRight.value.position.y == c.boxRight.value.position.y
  {
    if c.activating then ActivateBoxes(c, elapsed) else c
  }

  /** The animation loop over all checkpoints. */
  function Animate(s: seq<CheckPoint>, elapsed: real): (r: seq<CheckPoint>)
    requires ActivatingHaveSides(s)
    ensures |r| == |s|
    ensures forall i :: 0 <= i < |s| ==>
      r[i].name == s[i].name && r[i].position == s[i].position && r[i].reached == s[i].reached
    ensures AllHaveSides(s) ==> AllHaveSides(r)
    ensures forall i :: 0 <= i < |s| ==>
      (if s[i].activating then r[i] == ActivateBoxes(s[i], elapsed) else r[i] == s[i])
  {
    seq(|s|, i requires 0 <= i < |s| => AnimateOne(s[i], elapsed))
  }

  /** The cat is close enough to checkpoint `c` when either end is within distance 3 of it. */
  predicate Near(c: CheckPoint, head: Vec2, tail: Vec2, sqrt: real -> real)
    requires IsSqrt(sqrt)
  {
    Distance(head, c.position, sqrt) <= 3.0 || Distance(tail, c.position, sqrt) <= 3.0
  }

  /**
   * Whether this frame makes the next checkpoint current. The source compares
   * the signed index with `size() - 1` as unsigned numbers; for indices from
   * -1 up to the last one that is exactly `curr + 1 == |s|` (an empty list
   * with index -1 included).
   */
  predicate Advances(s: seq<CheckPoint>, curr: int, head: Vec2, tail: Vec2, sqrt: real -> real)
    requires IsSqrt(sqrt) && -1 <= curr < |s|
  {
    curr + 1 != |s| && Near(s[curr + 1], head, tail, sqrt)
  }

  /** update_checkpoints on the checkpoint list and the current index. */
  function Step(s: seq<CheckPoint>, curr: int, head: Vec2, tail: Vec2, elapsed: real, sqrt: real -> real)
    : (r: (seq<CheckPoint>, int))
    requires IsSqrt(sqrt) && -1 <= curr < |s| && ActivatingHaveSides(s)
  {
    var a := Animate(s, elapsed);
    if Advances(a, curr, head, tail, sqrt) then
      (a[curr + 1 := a[curr + 1].(reached := true, activating := true)], curr + 1)
    else (a, curr)
  }

  /** The index moves by at most one, stays in range, and moves exactly when the cat reaches the next checkpoint. */
  lemma StepIndex(s: seq<CheckPoint>, curr: int, head: Vec2, tail: Vec2, elapsed: real, sqrt: real -> real)
    requires IsSqrt(sqrt) && -1 <= curr < |s| && ActivatingHaveSides(s)
    ensures var r := Step(s, curr, head, tail, elapsed, sqrt);
      && |r.0| == |s|
      && -1 <= r.1 < |s|
      && (r.1 == curr + 1 <==> curr + 1 < |s| && Near(s[curr + 1], head, tail, sqrt))
      && (r.1 != curr + 1 ==> r.1 == curr)
  {
    var a := Animate(s, elapsed);
    if curr + 1 < |s| {
      assert a[curr + 1].position == s[curr + 1].position;
    }
  }

  /** Once the last checkpoint is current only the animations run. */
  lemma StepAtLast(s: seq<CheckPoint>, curr: int, head: Vec2, tail: Vec2, elapsed: real, sqrt: real -> real)
    requires IsSqrt(sqrt) && curr == |s| - 1 && ActivatingHaveSides(s)
    ensures Step(s, curr, head, tail, elapsed, sqrt) == (Animate(s, elapsed), curr)
  {
  }

  predicate ReachedUpTo(s: seq<CheckPoint>, curr: int) {
    forall i :: 0 <= i <= curr && i < |s| ==> s[i].reached
  }

  /** Every checkpoint up to the current one has been reached, and stays so. */
  lemma StepKeepsReached(s: seq<CheckPoint>, curr: int, head: Vec2, tail: Vec2, elapsed: real, sqrt: real -> real)
    requires IsSqrt(sqrt) && -1 <= curr < |s| && ActivatingHaveSides(s)
    requires ReachedUpTo(s, curr)
    ensures var r := Step(s, curr, head, tail, elapsed, sqrt); ReachedUpTo(r.0, r.1)
  {
    var a := Animate(s, elapsed);
    assert ReachedUpTo(a, curr);
  }

  /**
   * A newly reached checkpoint starts opening; the precondition of activate
   * holds on the next frame as long as every checkpoint has found its sides.
   */
  lemma StepKeepsSides(s: seq<CheckPoint>, curr: int, head: Vec2, tail: Vec2, elapsed: real, sqrt: real -> real)
    requires IsSqrt(sqrt) && -1 <= curr < |s| && ActivatingHaveSides(s)
    requires AllHaveSides(s)
    ensures var r := Step(s, curr, head, tail, elapsed, sqrt);
      && AllHaveSides(r.0) && ActivatingHaveSides(r.0)
      && (r.1 != curr ==> r.0[r.1].reached && r.0[r.1].activating)
  {
    var a := Animate(s, elapsed);
    assert AllHaveSides(a);
  }

  /** The animation loop of update_checkpoints, in place. */
  method AnimateAll(cps: array<CheckPoint>, elapsed: real)
    requires ActivatingHaveSides(cps[..])
    modifies cps
    ensures cps[..] == Animate(old(cps[..]), elapsed)
  {
    ghost var s := cps[..];
    ghost var a := Animate(s, elapsed);
    var i := 0;
    while i < cps.Length
      invariant 0 <= i <= cps.Length
      invariant cps[..i] == a[..i] && cps[i..] == s[i..]
    {
      assert cps[i] == s[i];
      if cps[i].activating {
        cps[i] := ActivateBoxes(cps[i], elapsed);
      }
      assert cps[i] == a[i];
      assert cps[..i + 1] == a[..i + 1];
      i := i + 1;
    }
    assert cps[..] == a;
  }

  /** The respawn points after reaching a checkpoint at `p`: the head on it, the tail one unit to its left. */
  function RespawnAt(s: PlayerState, p: Vec2): (r: PlayerState)
    ensures r.headRespawnPos == p && r.tailRespawnPos.y == p.y && r.tailRespawnPos.x == p.x - 1.0
    ensures r.(headRespawnPos := s.headRespawnPos, tailRespawnPos := s.tailRespawnPos) == s
  {
    s.(headRespawnPos := p, tailRespawnPos := p.Minus(Vec2(1.0, 0.0)))
  }

  /** The two writes to the player's respawn points in update_checkpoints. */
  method MoveRespawn(player: Player, p: Vec2)
    modifies player
    ensures player.State() == RespawnAt(old(player.State()), p)
  {
    player.headRespawnPos := p;
    player.tailRespawnPos := player.headRespawnPos.Minus(Vec2(1.0, 0.0));
  }

  /**
   * update_checkpoints in place: the vector of checkpoints is the array, the
   * current index comes back, and the player's respawn points are written
   * when a checkpoint is reached.
   */
  method UpdateCheckpoints(cps: array<CheckPoint>, curr: int, player: Player, elapsed: real, sqrt: real -> real)
    returns (newCurr: int)
    requires IsSqrt(sqrt) && -1 <= curr < cps.Length && ActivatingHaveSides(cps[..])
    modifies cps, player
    ensures var r := Step(old(cps[..]), curr, old(player.headPos), old(player.tailPos), elapsed, sqrt);
      cps[..] == r.0 && newCurr == r.1
    ensures newCurr == curr ==> player.State() == old(player.State())
    ensures newCurr != curr ==>
      0 <= newCurr < cps.Length && player.State() == RespawnAt(old(player.State()), cps[newCurr].position)
  {
    AnimateAll(cps, elapsed);
    newCurr := curr;
    if curr + 1 == cps.Length {
      return;
    }
    var next := cps[curr + 1];
    if Distance(player.headPos, next.position, sqrt) <= 3.0 || Distance(player.tailPos, next.position, sqrt) <= 3.0 {
      newCurr := curr + 1;
      cps[newCurr] := cps[newCurr].(reached := true);
      MoveRespawn(player, cps[newCurr].position);
      cps[newCurr] := cps[newCurr].(activating := true);
    }
  }
}
