# Slinky cat: collision, motion and progress logic

This project models the simulation core of a small 2D platformer. The player is a
"slinky cat": a head and a tail, each a point mass, joined by a spring that can be
stretched while the head holds on to a scratching post. The model covers:

- the collision geometry:
  - a platform becomes four boundary segments;
  - a closed-form circle-versus-segment query;
  - a capsule push-out query.
- the cat's per-tick motion:
  - gravity;
  - the stretch, grab and release rule;
  - automatic grabbing when the head enters a post's radius;
  - key control of the head, or of the tail while grabbing;
  - the spring force and the head-to-tail distance clamp;
  - integration and collision response;
  - fixed-step air resistance.
- the progress bookkeeping:
  - checkpoints sorted by x;
  - a current-checkpoint index that only moves forward;
  - respawn anchors;
  - the checkpoint box-opening timer;
  - grab points with a one-tick memory of their distance to the head.
- the per-frame play logic:
  - fireworks spawned under a cap and erased when old;
  - fish erased when eaten, each one growing the cat;
  - the fall-to-death respawn and the sticky game-over flag.
- the controls screen's highlight and click state machine, and its mouse mapping.
- the camera that follows the cat and zooms out while it stretches.

Arithmetic is over `real`. The square root is a parameter `sqrt` of every member
that measures a length, constrained by `IsSqrt(sqrt)` (non-negative, and its square
gives back the argument). A platform's rotation is a planar rotation `(c, s)` with
`c² + s² = 1`.

Each source file keeps its form in the model:

- Objects whose methods change fields in place are classes: `Player`,
  `CollisionManager`, `PlayMode`, `DynamicCamera` and `ControlMode`. Each of them has
  a `State()` value, and each method is proved against a pure function of the state
  before the call. The lemmas about those functions carry the properties.
- In-place vector updates are loops over `seq` fields with invariants, including the
  erase-and-step-back loops of the fireworks and the fish.
- The checkpoint vector is an `array`, sorted in place.

Modules follow the source files:

| module | file |
|---|---|
| `Geometry` | vectors, products, roots, rotations |
| `Collisions` | `Collisions.hpp`, `Collisions.cpp` |
| `KeyPoint` | `KeyPoint.hpp`, `KeyPoint.cpp` |
| `PlayerModel` | `Player.cpp` |
| `KeyPointUpdate` | `update_checkpoints` in `KeyPoint.cpp` |
| `DynamicCameraModel` | `DynamicCamera.cpp` |
| `ControlModeModel` | `ControlMode.cpp` |
| `PlayModeModel` | `PlayMode.cpp` |

The shown files come from different revisions, and each function is modelled as written:

- `Player::phys_update` (`PlayerModel.Player.PhysUpdate`) works on `fixed_head` and
  `fixed_tail`.
- `PlayMode::player_phys_update` (`PlayModeModel.PlayMode.PlayerPhysUpdate`) works on
  `grabbing`.
- `Player.hpp` lacks most of the fields `Player.cpp` uses.
- `KeyPoint.hpp` lacks the `activating` and `time` fields that `KeyPoint.cpp` uses.
- `Collisions.hpp` declares a const `get_collisions_all`, but `Collisions.cpp` defines
  a non-const `get_collisions`.

A respawn puts the head at `head_respawn_pos` and the tail one unit to the left of
it (`Player.cpp:210-216`). `tail_respawn_pos` is written when a checkpoint is
reached (`KeyPoint.cpp:82`) but never read (`PlayerModel.Respawned`,
`PlayerModel.RespawnSeparated`).

## Model

| member | source | states |
|---|---|---|
| Collisions.MakeSegment | Collisions.hpp:20-25 | The stored normal has unit length and, scaled by the given normal's length, gives the given normal back. The endpoints are kept. Equal endpoints and a zero normal are excluded, as the two asserts demand. |
| Collisions.MakeIntersection | Collisions.hpp:39-41 | The point is kept and the stored normal has unit length. A normal that already has unit length is stored unchanged. A zero normal is excluded. |
| Collisions.GetLines | Collisions.cpp:20-54 | `get_lines` yields exactly four segments: the sides left, right, top and bottom, in that order. What each side is is stated by `SideIsConstructed`, `SidePerpendicular`, `SideOffset` and `UnrotatedSide`. |
| Collisions.SideValid | Collisions.cpp:29-51 | On a platform with non-zero scale, each of the four sides has distinct endpoints and a unit normal, so the `line_segment` asserts hold. |
| Collisions.SideIsConstructed | Collisions.cpp:46-51 | Each side equals what the normalizing `line_segment` constructor builds from its two corners and its rotated normal. |
| Collisions.GetLinesValid | Collisions.cpp:20-54 | All four segments of `get_lines` are valid segments. |
| Collisions.SidePerpendicular | Collisions.cpp:29-44 | Each side's normal is the rotated axis normal (left, right, up or down). It is only rotated, never scaled or translated, and it is perpendicular to the side. |
| Collisions.SideOffset | Collisions.cpp:29-44 | Each side lies at offset `scale.x` (left and right) or `scale.y` (top and bottom) from the platform centre along its own normal. |
| Collisions.OppositeNormals | Collisions.cpp:32-44 | The left and right normals are opposite, and so are the top and bottom normals. |
| Collisions.UnrotatedSide | Collisions.cpp:29-44 | Without rotation, each side runs between the scaled corners listed in the source, shifted by the position, with the axis normal. |
| Collisions.GetLinesExampleLeft | Collisions.cpp:30-32 | Platform at the origin, scale (5, 1), no rotation: the left side is (-5, 1)→(-5, -1) with normal (-1, 0). |
| Collisions.GetLinesExampleTop | Collisions.cpp:38-40 | Same platform: the top side is (-5, 1)→(5, 1) with normal (0, 1). |
| Collisions.AllLines | Collisions.cpp:7-17 | Every segment collected from valid platforms is a valid segment. |
| Collisions.AllLinesAt | Collisions.cpp:7-17 | There are exactly `4·n` segments, and segment `4i+k` is side `k` (left, right, top, bottom) of platform `i`. |
| Collisions.AllLinesLength | Collisions.cpp:7-17 | The manager holds exactly four segments per platform. |
| Collisions.CollisionManager.constructor | Collisions.cpp:7-17 | The manager's segments are the platforms' sides, platform by platform in the order left, right, top, bottom, and all are valid. |
| Collisions.CircleSegmentHit | Collisions.cpp:60-100 | The per-segment body of `get_collisions`: every hit carries the segment's own normal. When it hits, and where, is stated by `CircleSegmentHitExact`, `TangentHit` and `CircleSegmentHitShape`. |
| Collisions.QuadraticIsDistance | Collisions.cpp:67-72 | The quadratic with the coefficients `a`, `b`, `c` of the source, at parameter `u`, is the squared distance from the centre to the line's point at `u`, minus the squared radius. |
| Collisions.VertexIsProjection | Collisions.cpp:67-72 | For a valid segment `a > 0`, and the quadratic's vertex `-b / 2a` is the projection parameter of the centre onto the line. |
| Collisions.RootsOnCircle | Collisions.cpp:67-80 | With a non-negative discriminant, `a > 0`. A point of the segment's line lies on the circle exactly when its parameter is `t1` or `t2`. |
| Collisions.NegativeDiscriminantMisses | Collisions.cpp:74-75 | With a negative discriminant, no point of the line lies on the circle. |
| Collisions.CircleSegmentHitExact | Collisions.cpp:74-99 | Away from tangency, a segment contributes a hit exactly when some point of the segment (parameter in [0, 1]) lies on the circle. |
| Collisions.CircleSegmentHitShape | Collisions.cpp:82-99 | Every reported hit carries the segment's own normal, lies on the segment's line, and lies within the circle. |
| Collisions.MidpointWithin | Collisions.cpp:86-90 | When both roots exist, the midpoint of the two root points is the line's point nearest the centre, and it lies within the circle. |
| Collisions.TangentHit | Collisions.cpp:82-85 | With a zero discriminant, the hit is the foot of the perpendicular from the centre, even when that foot lies outside the segment. |
| Collisions.CollectHits | Collisions.cpp:57-107 | `get_collisions` yields at most one hit per segment. |
| Collisions.CollectHitsNormals | Collisions.cpp:57-107 | Every collected hit lies within the circle and carries the normal of one of the segments. |
| Collisions.CollisionManager.GetCollisions | Collisions.cpp:57-107 | The loop collects the per-segment hits in segment order (`CollectHits`). The circle's radius is non-zero, as the circle constructor asserts (`Collisions.hpp:32`). |
| Collisions.CapsuleCollision | Collisions.cpp:110-146 | `get_capsule_collision`: a hit's normal has unit length. The branches are stated by `CapsuleHitShape`, and when it hits by `CapsuleHitIff`. |
| Collisions.ProjectionAtEnds | Collisions.cpp:119 | The projection parameter of the start point is 0, and that of the end point is 1. |
| Collisions.CapsuleEndpointDistinct | Collisions.cpp:131-142 | When the endpoint tests are reached and succeed, the centre differs from the endpoint, so `assert(point != start/end)` cannot fail. |
| Collisions.NearestOnSegment | Collisions.cpp:119-142 | The segment point nearest the centre is the foot of the perpendicular when `t` is in [0, 1]; otherwise it is the start (`t < 0`) or the end (`t > 1`). |
| Collisions.CapsuleHitIff | Collisions.cpp:110-146 | The capsule query reports a hit exactly when the radius is non-negative and the centre lies within the radius of some point of the segment. |
| Collisions.CapsuleHitShape | Collisions.cpp:119-145 | A hit's normal has unit length, and the hit point is the radius along that normal from some point of the segment. Branch by branch: inside the slab and within the radius, the hit is the projection pushed along the segment's own normal, and the normal is that normal. Otherwise, if the start is within the radius, the normal is the unit vector from the start to the centre. Otherwise, if the end is within the radius, the same holds for the end. Otherwise there is no hit. |
| Collisions.NegativeRadiusMisses | Collisions.cpp:110-146 | A negative radius, which the circle constructor admits, never produces a hit. |
| KeyPoint.NewGrabPoint | KeyPoint.hpp:14-16 | A new grab point keeps its position, and its remembered distance is 0. |
| KeyPoint.NewGrabPointNoEntry | KeyPoint.hpp:14-16 | With a non-negative grab radius, a new grab point cannot trigger a grab on its first tick. |
| KeyPoint.NewCheckPoint | KeyPoint.hpp:36-38 | A new checkpoint is not reached and has no box sides (all three null). It also has no animation running, an assumption of the model (see "## Left out"). |
| KeyPoint.BeforeIgnoresRest | KeyPoint.hpp:59-61 | The ordering reads `position.x` only: checkpoints with equal x are unordered both ways. |
| KeyPoint.IndexFrom | KeyPoint.hpp:45 | `find` from position i gives the first occurrence at or after i, or nothing when there is none. |
| KeyPoint.IndexOf | KeyPoint.hpp:45 | `std::string::find` gives the first occurrence of the pattern, or nothing (`npos`). |
| KeyPoint.Prefix | KeyPoint.cpp:13 | The prefix is a prefix of the name. When shorter than the name, it is followed by ".Checkpoint". No ".Checkpoint" starts inside it. |
| KeyPoint.FindSides | KeyPoint.cpp:12-25 | The loop with its early return computes the scan: each drawable in order, stopping once all three sides are set. |
| KeyPoint.ScanSidesResult | KeyPoint.cpp:15-24 | On a non-empty list, the scan reports success exactly when all three sides end up set. An empty list reports failure and changes nothing. Only the three side pointers change. |
| KeyPoint.ScanSidesNames | KeyPoint.cpp:18-20 | A side the scan changes holds a drawable of the list whose name is exactly the prefix plus ".Front", ".Left" or ".Right". |
| KeyPoint.ScanSidesComplete | KeyPoint.cpp:15-24 | When all three prefixed names occur among the drawables (or the side is already set), the scan succeeds. |
| KeyPoint.Swap | KeyPoint.cpp:58-60 | The exchange step of the in-place sort. It keeps the multiset of checkpoints. |
| KeyPoint.SortCheckpoints | KeyPoint.cpp:58-60 | The array ends sorted ascending by `position.x` and is a permutation of its input. |
| KeyPoint.ActivateTimer | KeyPoint.cpp:50-55 | The animation keeps running exactly while `time + elapsed < 1`. The timer becomes `time + elapsed`, or is reset to 0 when the animation stops. Nothing else changes. |
| KeyPoint.ActivateTimerRange | KeyPoint.cpp:50-55 | With a non-negative step, the timer stays in [0, 1). |
| KeyPoint.ActivateTicks | KeyPoint.cpp:27-56 | Repeated activation, as written, keeps all three box sides. |
| KeyPoint.ActivationEnds | KeyPoint.cpp:50-55 | With a positive step, the animation has stopped once `n` steps add up to a second. |
| KeyPoint.BoxDropAsWritten | KeyPoint.cpp:32-49 | As written, the left side drops by `2·elapsed` and the right side does not drop. |
| KeyPoint.BoxDropAsWrittenAsymmetric | KeyPoint.cpp:44-49 | For `elapsed = 0.5`, the left wall drops by 1 and the right wall by 0. |
| KeyPoint.BoxDrop | KeyPoint.cpp:32-49 | The intended motion: all three sides drop by `elapsed`, and the side walls move outward by the same amount. |
| KeyPoint.ActivateBoxes | KeyPoint.cpp:27-56 | `activate` as written keeps the sides, name, position and reached flag. The front moves by (0, -elapsed, elapsed). The left wall moves by (-elapsed, -2·elapsed, 0). The right wall moves by (elapsed, 0, 0). The flag and timer follow `ActivateTimer`. |
| KeyPoint.ActivateBoxesIntended | KeyPoint.cpp:32-49 | The evidently intended `activate`: both side walls drop by `elapsed`. It keeps the name, position, reached flag and sides, and the flag and timer follow `ActivateTimer`. |
| KeyPoint.ActivateIntendedDiffers | KeyPoint.cpp:44-49 | The two versions agree on the front, the timer, the flag and the walls' x. The as-written left wall ends `elapsed` lower and the right wall `elapsed` higher than intended. |
| KeyPointUpdate.AnimateOne | KeyPoint.cpp:65-67 | Only an opening checkpoint is activated. Name, position and reached flag are kept, and so are the box sides. An opening checkpoint's left wall drops by `2·elapsed` and its right wall keeps its height, as `activate` is written. |
| KeyPointUpdate.Animate | KeyPoint.cpp:64-68 | The animation loop keeps the length and each checkpoint's name, position and reached flag. Each opening checkpoint becomes `ActivateBoxes` of itself (the as-written `activate`), and every other checkpoint is unchanged. |
| KeyPointUpdate.AnimateAll | KeyPoint.cpp:64-68 | The in-place loop leaves the array equal to `Animate` of its old contents. |
| KeyPointUpdate.Step | KeyPoint.cpp:62-85 | `update_checkpoints` on the list and the index. It is stated by `StepIndex`, `StepAtLast`, `StepKeepsReached` and `StepKeepsSides`. |
| KeyPointUpdate.StepIndex | KeyPoint.cpp:70-76 | The index stays in range and grows by at most one. It grows exactly when `curr + 1` is a checkpoint that the head or the tail is within distance 3 of. |
| KeyPointUpdate.StepAtLast | KeyPoint.cpp:70-72 | When the last checkpoint is current, only the animations run. |
| KeyPointUpdate.StepKeepsReached | KeyPoint.cpp:74-79 | Every checkpoint up to the current one stays reached. |
| KeyPointUpdate.StepKeepsSides | KeyPoint.cpp:74-83 | A newly current checkpoint is reached and opening. The precondition of `activate` holds on the next frame. |
| KeyPointUpdate.RespawnAt | KeyPoint.cpp:81-82 | The head anchor is the checkpoint and the tail anchor is one unit to its left. Nothing else in the player changes. |
| KeyPointUpdate.MoveRespawn | KeyPoint.cpp:81-82 | The two writes to the player's anchors give `RespawnAt`. |
| KeyPointUpdate.UpdateCheckpoints | KeyPoint.cpp:62-85 | The array and the returned index are `Step` of the old ones. Without an advance, the player is unchanged. With one, the anchors move to the new current checkpoint. |
| PlayerModel.CollideStep | Player.cpp:28-45 | One pass of `collide_segments`' loop: the body ends grounded exactly when it was, or the segment hits it with normal y > 0.5. The rest is stated by `CollideStepEffect`. |
| PlayerModel.CollideAll | Player.cpp:27-47 | The whole loop: a grounded body stays grounded. The rest is stated by `CollideAllGrounded`, `CollideAllSlows` and `CollideAllNegativeRadius`. |
| PlayerModel.CollideBody | Player.cpp:14-58 | `collide_segments` on the player state. Its frame is stated by `CollideBodyFrame`, and the loop by `CollideLoop`. |
| PlayerModel.Movement | Player.cpp:75-119 | `movement` as halt, keys, spring, then clamp. It is stated by `MovementKeepsHead`, `MovementHeadKeys` and `MovementGrabbingHead`. |
| PlayerModel.Control | Player.cpp:88-103 | The key block changes only the two velocities. The key rules are stated by `MovementHeadKeys`, `JumpLiftsTail` and `ControlTailKeys`. |
| PlayerModel.Spring | Player.cpp:105-111 | The spring changes only the tail's velocity. Its direction is stated by `SpringPullsTail`. |
| PlayerModel.Clamp | Player.cpp:113-118 | The clamp changes only the tail's position. The bound is stated by `ClampBound`. |
| PlayerModel.Gravity | Player.cpp:151-153 | Only the velocities change. Horizontal parts are kept, and both vertical speeds drop by the same amount. |
| PlayerModel.StretchFixed | Player.cpp:158-177 | The stretch rule on `fixed_head`. It is stated by `StretchFixedRelease`. |
| PlayerModel.Dispatch | Player.cpp:181-191 | Only positions and velocities change. With only the tail fixed, nothing changes. Both fixed is stated by `BothFixedStill`. |
| PlayerModel.Integrate | Player.cpp:194-195 | Only the positions change, each by its velocity times `elapsed`. |
| PlayerModel.Damp | Player.cpp:202-207 | Only the velocities change, and zero steps change nothing. The slowdown is stated by `DampSlows`. |
| PlayerModel.InwardPart | Player.cpp:38-39 | The clamped normal speed is non-positive, at most the input, and either 0 or the input. |
| PlayerModel.DeflectOutward | Player.cpp:36-40 | After a contact, the velocity does not point into the surface and its tangential part is unchanged. A velocity already moving away is left alone. |
| PlayerModel.DeflectSlows | Player.cpp:36-40 | A contact never increases the speed. |
| PlayerModel.CollideStepEffect | Player.cpp:28-45 | On a miss, nothing changes. On a hit, the body moves to the contact point and the velocity is deflected: outward, tangent kept, no faster. The body is grounded exactly when it was, or when this contact's normal has y > 0.5. |
| PlayerModel.CollideAllGrounded | Player.cpp:17-47 | After the walk, the body is grounded exactly when it started so, or when some segment, tested where the earlier ones left it, hit with normal y > 0.5. |
| PlayerModel.CollideAllSlows | Player.cpp:27-47 | Walking all the segments never increases the speed. |
| PlayerModel.CollideAllNegativeRadius | Player.cpp:27-47 | With a negative radius, the walk leaves the body unchanged. |
| PlayerModel.CollideBodyFrame | Player.cpp:49-57 | `collide_segments` writes only the selected body's position, velocity and grounded flag. |
| PlayerModel.CollideLoop | Player.cpp:27-47 | The loop over the manager's segments computes `CollideAll`. |
| PlayerModel.GrabScan | Player.cpp:62-73 | Every grab point keeps its position and remembers its current distance to the head. The scan reports a grab exactly when some point is entered: now within the radius, and outside it before. |
| PlayerModel.GrabScanTwice | Player.cpp:66-71 | A second scan from the same head position never grabs. |
| PlayerModel.Halt | Player.cpp:76-86 | While grabbing or grounded, the head stops. While grabbing with the tail grounded, the tail stops. Only velocities change. |
| PlayerModel.MovementGrabbingHead | Player.cpp:77-80 | While grabbing, `movement` leaves the head motionless and in place. |
| PlayerModel.MovementHeadKeys | Player.cpp:77-97 | Without a grab, `left` sets the head speed to `-speed`, ahead of `right` (`+speed`). A jump needs `up` with the head grounded and sets `jump_speed`. Otherwise the halted values remain. |
| PlayerModel.JumpLiftsTail | Player.cpp:92-96 | A jump also adds `jump_speed / 2` to the tail's vertical speed. |
| PlayerModel.ControlTailKeys | Player.cpp:99-103 | While grabbing, the keys drive the tail, and a jump needs the tail grounded. The head's velocity is untouched. |
| PlayerModel.SpringPullsTail | Player.cpp:105-111 | The spring changes only the tail's velocity. Its kick points toward the head. Nothing happens when head and tail coincide. |
| PlayerModel.ClampBound | Player.cpp:113-118 | Afterwards, the tail is within `bound_length` of the head and only the tail may have moved. If it moved, it sits exactly `bound_length` out along the head→tail direction. |
| PlayerModel.MovementKeepsHead | Player.cpp:75-119 | `movement` never moves the head, and it leaves the tail within `bound_length`. |
| PlayerModel.RecompressConserves | Player.cpp:173-174 | The release keeps the sum of the two velocities. |
| PlayerModel.StretchFixedRelease | Player.cpp:158-177 | The rest length follows `space`. `stretched` is set when stretching past 4. The release happens exactly when `space` is off, the head is fixed, the cat is stretched and within 4. The release clears `fixed_head`, `stretched` and `head_grounded` and keeps the velocity sum. Otherwise both velocities and the flag stay. |
| PlayerModel.BothFixedStill | Player.cpp:183-195 | With head and tail both fixed, both velocities are zero and integration moves neither. |
| PlayerModel.DampRest | Player.cpp:202-207 | The damping loop leaves the timer at most one fixed step, and still positive if it was. |
| PlayerModel.DampRestValue | Player.cpp:202-207 | The leftover timer is the total minus exactly as many steps as the loop counts. |
| PlayerModel.DampSlows | Player.cpp:202-207 | Damping never increases either speed. |
| PlayerModel.Respawned | Player.cpp:210-216 | The head goes to the head anchor and both velocities become zero. Only positions and velocities change. |
| PlayerModel.RespawnSeparated | Player.cpp:210-216 | After a respawn, the tail lies exactly one unit to the left of the head, whatever the tail anchor. |
| PlayerModel.Player.constructor | Player.cpp:5-12 | Positions and velocities are as given and the respawn anchors are the starting positions. The tuning values are the header defaults: speed 10, jump speed 10, grab radius 1.5, and neither end grounded. `grabbing`, `fixed_head`, `fixed_tail` and `stretched` start false and the lengths and `k` are parameters, which is an assumption of the model (see "## Left out"). |
| PlayerModel.Player.CollideSegments | Player.cpp:14-58 | The new state is `CollideBody`: only the selected body is resolved against the segments, with grounded starting false. |
| PlayerModel.Player.DoAutoGrab | Player.cpp:62-73 | The points are updated as `GrabScan`. `fixed_head` is set on an entry and never cleared. Nothing else changes. |
| PlayerModel.Player.HaltStep | Player.cpp:76-86 | The new state is `Halt` of the old one. |
| PlayerModel.Player.ControlStep | Player.cpp:88-103 | The new state is `Control` of the old one. |
| PlayerModel.Player.ApplySpring | Player.cpp:105-111 | The new state is `Spring` of the old one. |
| PlayerModel.Player.ClampTail | Player.cpp:113-118 | The new state is `Clamp` of the old one. |
| PlayerModel.Player.Move | Player.cpp:75-119 | `movement` is halt, keys, spring, then clamp (`Movement`). |
| PlayerModel.Player.DampLoop | Player.cpp:201-207 | The loop returns `DampRest` and scales both velocities by 0.995 once per step counted by `DampCount`. |
| PlayerModel.Player.Respawn | Player.cpp:210-216 | The new state is `Respawned` of the old one. |
| PlayerModel.Player.ApplyGravity | Player.cpp:151-153 | Both vertical speeds drop by `elapsed · gravity`. |
| PlayerModel.Player.StretchWithFixedHead | Player.cpp:158-177 | The new state is the stretch state machine `StretchFixed`. |
| PlayerModel.Player.Release | Player.cpp:169-174 | The flags clear and half the tail's velocity moves to the head. |
| PlayerModel.Player.DispatchMovement | Player.cpp:181-191 | The given movement routine runs according to the fixed flags. Both fixed zeroes both velocities. Only a fixed tail does nothing. |
| PlayerModel.Player.IntegrateStep | Player.cpp:194-195 | `pos += vel · elapsed` for both bodies. |
| PlayerModel.Player.PhysUpdate | Player.cpp:150-208 | The state after the whole tick is the composition, in source order: gravity, stretch rule, auto-grab, dispatch, integration, head then tail collision with radius 1, damping. The grab points and the timer are returned. |
| DynamicCameraModel.Ease | DynamicCamera.cpp:15-19 | The easing changes only x and y. The rate is stated by `CameraStepEases`. |
| DynamicCameraModel.Zoom | DynamicCamera.cpp:21-28 | The zoom changes only the ratio and z. |
| DynamicCameraModel.CameraStep | DynamicCamera.cpp:14-29 | `update` on the camera's fields. It is stated by `CameraStepValid`, `CameraStepEases`, `CameraStepExtending`, `CameraStepAtRest` and `CameraStepRelaxes`. |
| DynamicCameraModel.CameraStepValid | DynamicCamera.cpp:14-29 | The zoom ratio stays at least 1, and z stays `default_z` times the ratio. |
| DynamicCameraModel.CameraStepEases | DynamicCamera.cpp:15-19 | The offset to the target shrinks by the factor `1 - elapsed·speed` on each axis. |
| DynamicCameraModel.CameraStepExtending | DynamicCamera.cpp:21-24 | While extending, the ratio becomes `max(1, ratio)` and z follows it. |
| DynamicCameraModel.CameraStepAtRest | DynamicCamera.cpp:25-28 | Not extending and not zoomed out: the ratio and z are unchanged. |
| DynamicCameraModel.CameraStepRelaxes | DynamicCamera.cpp:25-28 | Not extending, the ratio never grows. When zoomed out, it drops by `elapsed·speed/5`, but not below 1. |
| DynamicCameraModel.RelaxSettles | DynamicCamera.cpp:25-28 | With positive default height, once `n` steps cover the excess, `n` frames bring the camera back to ratio 1 at the default height. |
| DynamicCameraModel.DynamicCamera.constructor | DynamicCamera.cpp:3-12 | x and y are as given, z is `default_z`, and the ratio is 1. The camera invariant holds. |
| DynamicCameraModel.DynamicCamera.Update | DynamicCamera.cpp:14-29 | The new fields are `CameraStep` of the old ones, and the invariant is kept. |
| ControlModeModel.Highlight | ControlMode.cpp:206-234 | The highlight cascade. It is stated by `AboveBar`, `PageOneBar` and `PageTwoBar`. |
| ControlModeModel.Click | ControlMode.cpp:236-250 | A menu switch is requested exactly for selection 'm'. A selection other than 'n' or 'c' keeps the texture. |
| ControlModeModel.ControlStep | ControlMode.cpp:201-253 | The whole update. It is stated by `ControlStepClick` and `ControlStepConsistent`. |
| ControlModeModel.AboveBar | ControlMode.cpp:227-234 | With the mouse above the bar: the page-two highlight goes to page two with 'n', page two is unchanged, and anything else goes to page one with 'c'. |
| ControlModeModel.PageOneBar | ControlMode.cpp:206-225 | On page one in the bar: the left button gives 'm' and its highlight, the right button gives 'n' and its highlight, and elsewhere it is page one with 'c'. |
| ControlModeModel.PageTwoBar | ControlMode.cpp:215-225 | On page two in the bar: the right button gives 'c' and the back highlight. Elsewhere page two stays, or loses its highlight with 'n'. |
| ControlModeModel.ControlStepClick | ControlMode.cpp:236-250 | The click is consumed in every case. A menu switch is requested exactly on a click with 'm'. A click with 'n' shows page two, and one with 'c' shows page one. |
| ControlModeModel.ControlStepConsistent | ControlMode.cpp:201-253 | If the selection agrees with the texture on screen before a frame, it still agrees after it. |
| ControlModeModel.InitialConsistent | ControlMode.hpp:28-31 | The initial selection 'c' on page one agrees with the screen. |
| ControlModeModel.ToScreen | ControlMode.cpp:192-194 | Window coordinates inside the window map into [-1, 1] on both axes. |
| ControlModeModel.ToScreenInverse | ControlMode.cpp:192-194 | The mapping loses nothing: the inverse gives the window position back. |
| ControlModeModel.ToScreenCorners | ControlMode.cpp:192-194 | The top-left corner maps to (-1, 1) and the bottom-right corner to (1, -1): y points up. |
| ControlModeModel.ControlMode.constructor | ControlMode.hpp:28-31 | Not clicked, selection 'c', mouse far away, page one. |
| ControlModeModel.ControlMode.HandleEvent | ControlMode.cpp:183-199 | A button press arms the click. Motion stores the mapped position. Other events are not handled and change nothing. |
| ControlModeModel.ControlMode.Update | ControlMode.cpp:201-253 | The new state and the menu request are `ControlStep` of the old state. |
| PlayModeModel.Launch | PlayMode.cpp:430-436 | The countdown and the launch. It is stated by `LaunchCapped`. |
| PlayModeModel.SenseStep | PlayMode.cpp:590-604 | The sensing cool-down for one fish. It is used by `SenseFish` and `Interact`. |
| PlayModeModel.PlayStretch | PlayMode.cpp:659-683 | The stretch rule on `grabbing`. It is stated by `PlayStretchFacts` and `PlayStretchBound`. |
| PlayModeModel.PhysTail | PlayMode.cpp:687-703 | Movement, integration, collisions and damping, composed. Its frame is stated by `PhysTailFrame`. |
| PlayModeModel.CollideDamp | PlayMode.cpp:693-703 | Head then tail collision with radius 1, then damping. |
| PlayModeModel.LaunchCapped | PlayMode.cpp:430-436 | A firework is appended, and the countdown reset, exactly when the countdown has run out and there is room. The cap is never exceeded if it held before. |
| PlayModeModel.Survivors | PlayMode.cpp:439-447 | No firework that reached the maximum age remains, and the list never grows. |
| PlayModeModel.SurvivorsExact | PlayMode.cpp:439-447 | Every updated firework still under the age limit survives, and every survivor is an updated firework. |
| PlayModeModel.FishStep | PlayMode.cpp:607-628 | A fish is eaten exactly when the eat counter has cooled down and the head or the tail is at eating distance. Eating resets the counter. While cooling down, the counter grows by `elapsed`. |
| PlayModeModel.Interact | PlayMode.cpp:587-631 | The kept fish plus the eaten count make up the original number, and every kept fish was there before. |
| PlayModeModel.NoEatingDuringCooldown | PlayMode.cpp:607-610 | While the eat counter stays below the cool-down for the whole loop, nothing is eaten, every fish stays, and the counter grows by `elapsed` per fish. |
| PlayModeModel.PlayStretchFacts | PlayMode.cpp:659-683 | Stretching needs `space` while grabbing, and the rest length follows. `stretched` is set past 4. The release happens exactly when not stretching while grabbing, stretched and within 4; it clears the grab and `head_grounded` and keeps the velocity sum. `bound_length` is `max_length` iff stretched or stretching. Positions are unchanged. |
| PlayModeModel.PlayStretchBound | PlayMode.cpp:664-683 | The rest length and the bound are each 1 or `max_length`, and `max_length` itself is unchanged. |
| PlayModeModel.PhysTailFrame | PlayMode.cpp:687-703 | Movement, integration, collisions and damping leave the lengths, the grab flag and `stretched` unchanged. |
| PlayModeModel.PlayMode.constructor | PlayMode.cpp:133-144 | The checkpoints end sorted by x (a permutation of the loaded ones), and the index is -1. The camera starts at the origin with speed 9 and height 50. Not over, not stretched, no fireworks. The frame invariant holds. |
| PlayModeModel.PlayMode.ReleaseGrab | PlayMode.cpp:272-278 | The E key clears `grabbing` and nothing else. |
| PlayModeModel.PlayMode.CelebrateUpdate | PlayMode.cpp:429-448 | The fireworks become the survivors of the launched list, and the countdown is as `Launch` gives it. |
| PlayModeModel.PlayMode.AgeFireworks | PlayMode.cpp:439-447 | The in-place update-and-erase loop with its step back leaves exactly `Survivors`. |
| PlayModeModel.PlayMode.InteractObjects | PlayMode.cpp:585-632 | The fish vector and both counters become those of `Interact`. `max_length` grows by exactly 5 per eaten fish. |
| PlayModeModel.PlayMode.VisitFish | PlayMode.cpp:588-630 | One pass of the loop body: the fish at the index is sensed and, if eaten, erased. The loop's account advances by one fish, and `max_length` grows by 5 on a bite. |
| PlayModeModel.PlayMode.SenseFish | PlayMode.cpp:590-604 | The sense counter counts up while cooling down, and is reset on a fish at sensing distance. |
| PlayModeModel.PlayMode.EatFish | PlayMode.cpp:607-628 | The bite decision is `FishStep`. The eat counter follows, and `max_length` grows by 5 exactly on a bite. |
| PlayModeModel.PlayMode.DoAutoGrab | PlayMode.cpp:348-359 | The grab points become `GrabScan`. `grabbing` is set exactly on an entry and never cleared. |
| PlayModeModel.PlayMode.LetGo | PlayMode.cpp:674-681 | The grab and `head_grounded` clear, and half the tail's velocity moves to the head. |
| PlayModeModel.PlayMode.StretchWithGrab | PlayMode.cpp:658-683 | The player and `stretched` become `PlayStretch` of the old ones. |
| PlayModeModel.PlayMode.PlayerPhysUpdate | PlayMode.cpp:653-704 | The tick in source order: gravity, stretch rule, auto-grab, movement, integration, head then tail collision, damping. The timer is what the damping loop leaves. `max_length` is unchanged, and the rest length is 1 or `max_length`. |
| PlayModeModel.PlayMode.PhysPrepare | PlayMode.cpp:654-685 | Gravity, the stretch rule and auto-grab, composed; the bound is non-negative afterwards. |
| PlayModeModel.PlayMode.PhysAdvance | PlayMode.cpp:687-703 | Movement, integration, collisions and damping, composed (`PhysTail`). |
| PlayModeModel.PlayMode.CollideAndDamp | PlayMode.cpp:693-703 | Head then tail collision with radius 1, then the damping loop (`CollideDamp`). |
| PlayModeModel.PlayMode.RespawnIfFallen | PlayMode.cpp:321-327 | The player respawns exactly when both ends are below the death bound; otherwise it is unchanged. |
| PlayModeModel.PlayMode.UpdateFront | PlayMode.cpp:314-333 | The win check, the fall check, the fish and the checkpoints keep the frame invariant. `game_over` is sticky and is set within 5 of the doughnut, and the index grows by at most one. |
| PlayModeModel.PlayMode.UpdateStart | PlayMode.cpp:314-327 | `game_over` becomes set exactly when it was set or the head is within 5 of the doughnut, so it is never cleared. Until the game is over, the fireworks and their countdown are untouched. Once it is over, they become the survivors of `Launch`, with `Launch`'s countdown. The player respawns (`Respawned`) exactly when both ends were below the death bound, and is otherwise unchanged. |
| PlayModeModel.PlayMode.UpdateProgress | PlayMode.cpp:329-333 | Fish, then checkpoints. The fish and both counters are `Interact` of the old ones. The checkpoint array and index are `Step` of the old ones. The player is the old one with `max_length` grown by 5 per eaten fish and, on an advance, the anchors moved by `RespawnAt` to the new current checkpoint. The checkpoints keep their sides and stay reached up to the index, which grows by at most one. |
| PlayModeModel.PlayMode.UpdateFinish | PlayMode.cpp:335-343 | After the physics tick and the camera call, `max_length` is unchanged, the camera invariant holds and all five `downs` counters are 0. |
| PlayModeModel.PlayMode.Update | PlayMode.cpp:313-344 | The frame keeps the invariant. `game_over` is sticky and is set within distance 5 of the doughnut. The checkpoint index grows by at most one. All `downs` counters are 0. |
| PlayModeModel.PlayMode.AnimationUpdate | PlayMode.cpp:645-646 | The camera follows the midpoint of the cat and zooms to the stretch ratio while stretching on a grab. |

## Left out

- Drawing, textures, shaders, sound playback, `printf`, and the scene and asset loading are not modelled. The loaded platforms, checkpoints (already given their box sides), grab points and fish are inputs of `PlayModeModel.PlayMode.constructor`.
- `turn_cat`, `spin_fish`, `update_body`, `animate_feet` and the quaternion rotations of the checkpoint boxes in `activate` are not modelled: they are orientation-only code with no behavioural contract.
- `free_movement`, `fixed_head_movement`, the firework constructor and `firework::update` are not part of this model. They are function parameters (`freeMovement`, `fixedHeadMovement`, `spawned`, `advance`).
- PlayerModel.Dispatch: the two movement routines are typed `PlayerState -> Motion`, so the model assumes they write only the positions and velocities of the two bodies. In the source they could change any field of the player. No proved property outside `Dispatch` and `BothFixedStill` depends on this.
- Collisions.CircleSegmentHit and Collisions.CapsuleCollision: the pure queries take any radius. The circle constructor's `radius != 0` assert (`Collisions.hpp:32`) is a `requires` of the methods that receive or build a circle (`CollisionManager.GetCollisions`, `Player.CollideSegments`). Every caller in the source passes 1.0, and keeping the functions total lets `NegativeRadiusMisses` state the negative case.
- `Mode::set_current` is not part of this model. The switch to the menu is the `toMenu` result.
- The SDL key handling of `PlayMode::handle_event` is not modelled. Key state enters as `Button` fields, and only the E key's release is a method (`ReleaseGrab`).
- Floating point is not modelled. Arithmetic is over reals, so NaN and rounding are absent. `sqrt` and `normalize` are exact.
- The constants defined outside the shown files are fields of `Tuning`: the death bound, gravity, the fixed step, the firework and fish cool-downs and distances.
- The `body` loop in `Player::phys_update` updates copies and has no effect, so it is omitted.
- `interact_objects` reads the head and tail positions from the drawn transforms. They are the parameters `catHead` and `catTail`.
- The camera's field of view and scene-transform writes in the `DynamicCamera` constructor and in `draw` are not modelled.
- `find_sides` in `KeyPoint.hpp` and `box_find_sides` in `KeyPoint.cpp` have the same body. One model covers both (`KeyPoint.FindSides`).
- PlayerModel.Clamp: requires a non-negative `bound_length`. With a negative bound the source normalizes a zero vector when head and tail coincide.
- PlayModeModel.PlayMode.InteractObjects: requires fewer than 256 fish. The loop index is an 8-bit counter (`PlayMode.cpp:587`). With 256 or more fish it wraps from 255 to 0 before reaching the size, so fish are visited again. Each bite still erases one fish (`PlayMode.cpp:620-621`), and the loop ends only if bites bring the count below 256. These revisits are not modelled. The wrap of the index from 0 to 255 after an erase and its step back is modelled.
- PlayModeModel.PlayMode.constructor: requires fewer than 256 fish, a positive `max_length`, a positive fixed step, and loaded checkpoints that have their box sides and are not yet reached. These are the frame invariant that `Update` keeps. The box sides are the source's own assert after each checkpoint is loaded (`PlayMode.cpp:107`). Not-reached follows from the `Check_Point` constructor (`KeyPoint.hpp:36-38`, called at `PlayMode.cpp:105`). Only the fish bound, the positive `max_length` and the positive fixed step are assumed without a check on load.
- PlayModeModel.PlayMode.Update: states the frame invariant, `game_over`, the index step and the cleared counters, not the whole new state. The new state is stated stage by stage by `UpdateStart`, `UpdateProgress`, `PlayerPhysUpdate` and `AnimationUpdate`; `Update` passes on only what the frame invariant needs.
- PlayModeModel.PlayMode.UpdateFront: states the frame invariant, `game_over` and the index step, not the whole new state. It composes `UpdateStart` and `UpdateProgress`, whose contracts state the new fish, checkpoints, fireworks and player, and passes on only what `Update` needs.
- KeyPoint.NewCheckPoint: `KeyPoint.hpp` has no `activating` or `time` field, so its constructor (`KeyPoint.hpp:36-38`) sets neither. The model assumes a new checkpoint starts with `activating` false and `time` 0. In `KeyPoint.cpp`, `update_checkpoints` first sets `activating` when a checkpoint is reached.
- PlayerModel.Player.constructor: the source initialises only the positions, velocities and respawn anchors (`Player.cpp:5-12`) and the header gives the tuning values and both grounded flags their defaults (`Player.hpp:13-21`). Neither initialises `grabbing`, `fixed_head`, `fixed_tail`, `stretched`, `length`, `bound_length`, `max_length` or `k`. The model assumes the four flags start false and takes the other four values as parameters.
- PlayModeModel.PlayMode.UpdateFinish: states only the camera invariant, the unchanged `max_length` and the counters. The physics state is stated by `PlayerPhysUpdate`.
- PlayModeModel.PlayMode.DoAutoGrab: states the grab points and `grabbing`. That nothing else changes follows from its `modifies` clause, not from an `ensures`.
- PlayModeModel.PlayMode.InteractObjects: states the fish, the counters and `max_length`. The rest of the player is unchanged by its `modifies` clause.
- Collisions.CircleSegmentHitExact: excludes the tangent case. That case is stated separately by `Collisions.TangentHit`, because at tangency the source reports a hit even off the segment.

## Findings

| source | as written | input that shows it | evidently intended | confidence | as-written member | corrected member |
|---|---|---|---|---|---|---|
| KeyPoint.cpp:48 | The "right side" block of `activate` lowers `box_left`, so the left wall drops twice per call and the right wall never drops. | Any call with `elapsed = 0.5`: the left wall drops by 1 and the right wall by 0. | `box_right->position.y -= elapsed`: both walls drop alike. | not executed | KeyPoint.BoxDropAsWritten, KeyPoint.BoxDropAsWrittenAsymmetric, KeyPoint.ActivateBoxes | KeyPoint.BoxDrop, KeyPoint.ActivateBoxesIntended, KeyPoint.ActivateIntendedDiffers |
