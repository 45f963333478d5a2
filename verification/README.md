# Verification of the UAV agent's protocols and motion

A Dafny model of the parts of the UAV agent whose correctness finite tests cannot settle: how targets and vehicles
move, how asynchronous model requests are owned and closed, how a mission's plan version moves, and how results and
checkpoints survive crashes and byte limits. `dafny verify dfyconfig.toml` checks all of it.

Floating-point numbers are exact reals. The source's epsilons are parameters: the exact theorems take them as zero,
and where a positive epsilon changes the answer the project says exactly when. Collaborators outside a module (planners,
workers, detectors, renderers, the file system, clocks) appear as inputs that may take any value, including raising.

## What is proved

**Motion and geometry.** `Geometry` proves the slab test and the swept flight corridor against their geometric meaning.
`SweptPoint` proves the swept-point collision test. `WallReflection` is the closed form of motion between two walls, and
`MovingTargets` proves the event-driven integrator against it: without obstacles it is the triangle wave, with
obstacles it flies as a billiard and no point of the traced path is ever strictly inside one. `KinematicUav` proves when
a vehicle arrives, that it flies straight and then stands, and when its heading error is gone, over any cut of the time.

**Asynchronous coordinators.** `ReviewProtocol` (visual review), `ReviewCache` (its candidate cache), `PlanRevision`,
`ObstacleRevision` (one protocol, two coordinators) and `ProgramPatch` prove invariants over every run of their public
calls. `Publication` proves that the four writers of the plan version act as a compare-and-swap, under every
interleaving and with arbitrary operations inside a publication's final guard.

**Storage and selection.** `CheckpointSlots` proves crash safety with every file-system operation free to fail or die.
`CheckpointSelection` compares the incremental choice of the best checkpoint with the plotter's. `ResultStore` proves the
byte budget and the self-referential size in the summary. `Wilson` proves the score interval.

**Camera barrier.** `CameraBarrier` proves the all-or-nothing publication, and over any run of barriers the cadence and
the watchdog. The watchdog covers captures whose last published frames are more than the tolerance old; with a period of
more than two tolerances that is every due capture (`CameraBarrier.DueIsOverdueIff`).

## Where the code does not do what one would expect

Each of these is stated by the member named, with the condition under which the expected behaviour holds.

- `_first_aabb_hit` uses one tolerance as a time and as a length, and skips an axis slower than 1e-15 m/s. So an approach
  faster than 1 m/s on an axis can be lost and the target enters the obstacle, and so can one on a negligible component
  (at a heading of pi/2 the cosine is not exactly zero). At a horizontal velocity no entry is lost if and only if each
  axis is at rest, or faster than 1e-15 and no faster than 1 (`SweptPoint.NeverLostIff`; inputs in
  `SweptPoint.SourceSlackLoses`).
- Events within the tolerance of each other are merged at the first one found, walls first, even if the other is earlier.
  Flying at 1 m/s at a wall one second ahead with an obstacle face half a tolerance before it, the target flies on to the
  wall and starts its next leg inside the obstacle (`MovingTargets.MergedInputExists`,
  `MovingTargets.MergedEventEnters`). At axis speeds of at most 1 a leg from a free position goes at most the tolerance
  and the drift of negligible components deep (`MovingTargets.MovingTarget.OneEvent`).
- The slab test ignores displacement components at or below 1e-15: it is exact, the corridor never misses what the sphere
  touches, and the direction flown does not matter, each if and only if there is none (`Geometry.SlabTestIsExactIff`,
  `Geometry.NeverMissesIff`, `Geometry.ReversalKeepsHitsIff`).
- If removing the old checkpoint raises half-way at its top level in a living process, the partial tree has the newest
  modification time and a later crash recovers it. After any writes a crash with the slot empty recovers a whole tree if and only if
  the last commit's removal did not get stuck at the top level of the old tree
  (`CheckpointSlots.SlotDirectory.WritesThenCrash`; a concrete run is `CheckpointSlots.RecoveredWholeIff`).
- The plotter's ordering is documented as the checkpoint manager's own, but reads only the first of three mission-time
  keys and has infinity where the manager has 1e300; it also ranks rows the manager rejects. The kept row is the picked
  one on every list with such a row exactly as `CheckpointSelection.KeptIsPickedIff` says.
- A cached mismatch is not always the last word: an inconclusive review, an unaccepted match or a review of a candidate no
  longer alive breaks the streak and leaves the cache. Over any run of the cache all cached mismatches are last words
  throughout if and only if no such review comes while a mismatch of its candidate is cached (`ReviewCache.RunCalls`).
- A row refused with its CSV header counts as two drops (`ResultStore.BoundedResultStore.AppendCsv`).
- A camera batch within the tolerance but not at one exact time is published and then blocks every later capture
  (`CameraBarrier.NextCaptureRefusedIff`).
- An exception out of route evaluation or resubmission strands the obstacle round: it neither ends nor can be reset
  (`ObstacleRevision.StrandedForGood`).
- A proposal the critic accepts is recorded as accepted even when its publication then fails
  (`ObstacleRevision.ModelCoordinator.Tick`).
- A program patch that arrives after its deadline is still accepted, unless a tick past the deadline came up empty first
  (`ProgramPatch.ProgramPatchCoordinator.Tick`).

## Assumptions

- Renames are atomic, one process writes, and modification times grow with the order of staging.
- The norm and the square root are functions known by their squares; the bearing is any function; pi is any positive real.
- The revision validator increments the revision count by one and returns a plan with the step to resume.
- The statements that put together the record of a submitted review, after its transaction, are allowed to raise, although
  nothing they call is known to. This is a fault assumption: should they, the ticket would leak and the coordinator could
  never submit or be reset again (`ReviewProtocol.CommittedMeans`, `ReviewProtocol.LeakIsPermanent`); without it no run leaks (`ReviewProtocol.Run`).
- Event sinks, supervisors and loggers do not raise, except inside a route publication, where the source catches them.
- Only the coordinator pins the frame of its pending review, and only the store writes below the run directory.
- The run directory starts within its limit with the summary reserve free; `max_run_bytes` has at most 32768 digits.

## Model

| member | source | states |
|---|---|---|
| Geometry.Expanded | uav_agent/common/obstacle_types.py:119-126 | A point is in the grown box exactly when a body of that half-extent centred there overlaps the original box; a negative extent is refused. |
| Geometry.SegmentIntersectionFraction | uav_agent/common/obstacle_types.py:153-183 | The loop answers exactly when the segment, with its negligible components dropped, meets the closed box, and the answer is then the least such fraction in [0, 1]. |
| Geometry.SlabTestIsExactIff | uav_agent/common/obstacle_types.py:165-172 | The slab test is right for every box and every start if and only if no nonzero component of the displacement is at or below the tolerance. |
| Geometry.DroppedComponentIsMissed | uav_agent/common/obstacle_types.py:169-172 | For each dropped component there is a box the segment reaches and the test misses. |
| Geometry.HitWithinTolerance | uav_agent/common/obstacle_types.py:169-183 | The point the test reports is within the tolerance of the box on every axis. |
| Geometry.CorridorIntersects | uav_agent/common/obstacle_types.py:318-325 | True exactly when a cube of half-extent radius, carried along the segment, overlaps the obstacle. |
| Geometry.NeverMissesSphericalSweep | uav_agent/common/obstacle_types.py:295-325 | Any obstacle point within the radius of the flown segment makes the corridor test true, when no component is dropped. |
| Geometry.NeverMissesIff | uav_agent/common/obstacle_types.py:295-325 | For every corridor of a displacement and every obstacle the test catches what the swept sphere touches if and only if the displacement has no nonzero component at or below the tolerance. |
| Geometry.ReversalKeepsHits | uav_agent/common/obstacle_types.py:318-325 | The corridor test does not depend on the direction flown, when no component is dropped. |
| Geometry.ReversalKeepsHitsIff | uav_agent/common/obstacle_types.py:318-325 | For every corridor of a displacement the direction flown does not matter if and only if no component is dropped. |
| Geometry.HitsGrowWithRadiusAndBox | uav_agent/common/obstacle_types.py:318-325 | A larger radius or a larger obstacle never turns a hit into a miss. |
| SweptPoint.FirstAabbHit | uav_agent/env/moving_target.py:330-385 | Without slack: the first moment in [0, max] at which the point enters the box through a side face, with exactly the side axes entered then and no other entry, or none. With any slack, for every horizontal velocity: it answers exactly when the motion without its negligible components has a leading crossing that is in time, in the window and, if immediate, a touch from outside, with that time and exactly the faces crossed within the tolerance of it; and a reported hit is near the box on every axis and within the tolerance of a face ahead. |
| SweptPoint.ScanAxes | uav_agent/env/moving_target.py:338-362 | The axis loop computes exactly the time window inside the box and the axes of the latest entry; an empty window means no entry at all. |
| SweptPoint.ClearBeforeEntry | uav_agent/env/moving_target.py:364-385 | Until a sideways entry the moving point has not been strictly inside the box. |
| SweptPoint.ClearWithoutEntry | uav_agent/env/moving_target.py:364-385 | A point that starts outside and has no sideways entry up to h is never strictly inside up to h. |
| SweptPoint.EntryPenetrates | uav_agent/env/moving_target.py:373-384 | An entry that does not merely graze an edge leads strictly inside the box within any time after it, so a lost one is a penetration. |
| SweptPoint.SourceSlackLoses | uav_agent/env/moving_target.py:341-384 | With the tolerances in the code, entries are lost at 2 m/s, and at 0.5 m/s with half the still threshold on the other axis. |
| SweptPoint.NeverLostIff | uav_agent/env/moving_target.py:341-384 | With a positive tolerance, at a horizontal velocity no entry in [0, max] of any box from any start is lost if and only if each axis is at rest, or faster than the still threshold and no faster than 1. |
| SweptPoint.DropLaw | uav_agent/env/moving_target.py:341-384 | On an entry of the motion without its negligible components, the test reports exactly what is not dropped: a crossing within the tolerance in time with no registered face within it in space. |
| SweptPoint.DroppedIsLost | uav_agent/env/moving_target.py:341-384 | Without negligible components the lost entries are exactly the dropped ones. |
| SweptPoint.NegligibleEntryLost | uav_agent/env/moving_target.py:345-348 | An axis that is slower than the still threshold but not at rest reaches a face whose entry is lost. |
| SweptPoint.ReportIsNear | uav_agent/env/moving_target.py:359-385 | Whatever is reported is, on each axis, outside the slab by at most the tolerance or what is travelled within it, and within the tolerance of a registered face. |
| SweptPoint.HeadOnDroppedIff | uav_agent/env/moving_target.py:373-384 | A head-on entry is dropped exactly when its gap exceeds the tolerance but is covered within the tolerance in time. |
| SweptPoint.LeadDone | uav_agent/env/moving_target.py:364-384 | After the axis loop the report is decided at the one leading crossing. |
| WallReflection.TriangleFold | uav_agent/env/moving_target.py:193-239 | The unbounded coordinate folded between the walls always lies between them. |
| WallReflection.ClosedForm | uav_agent/env/moving_target.py:193-239 | A state reached by drifting and bouncing with no contact outstanding is the triangle-wave fold, with the sign of the contact parity and exactly the predicted number of contacts. |
| WallReflection.FoldedStateSettled | uav_agent/env/moving_target.py:193-239 | The closed form is itself a state the event loop can stop in: between the walls and not heading into the one it touches. |
| WallReflection.FoldComposes | uav_agent/env/moving_target.py:181-258 | Moving for a and then for b gives the position, velocity and contact count of moving for a + b. |
| MovingTargets.MovingTarget.constructor | uav_agent/env/moving_target.py:86-97 | A valid start inside the bounds and outside every grown obstacle establishes the invariant, with obstacles grown by the half-extent. |
| MovingTargets.MovingTarget.Reset | uav_agent/env/moving_target.py:105-152 | Accepted exactly when the position is in bounds and outside every obstacle; a refusal changes nothing. |
| MovingTargets.MovingTarget.NextEvent | uav_agent/env/moving_target.py:187-228 | The earliest wall or obstacle event within the remaining time: nothing is overrun or entered before it, and the axes to reflect are exactly those at a wall or entering an obstacle then. With any slack, the event found by merging the wall contacts and the swept-point reports, in the scan order, by the tolerance. |
| MovingTargets.MovingTarget.OneEvent | uav_agent/env/moving_target.py:186-239 | Flies to the next event and reflects there; with the positive slack too, a leg that starts outside every obstacle with axis speeds of at most 1 goes at most the tolerance, and the drift of negligible components, deep into any of them; a leg whose first event is merged with a wall ends at the wall. |
| MovingTargets.MergedEventEnters | uav_agent/env/moving_target.py:208-235 | When no crossing is more than the tolerance before the wall, the target flies on to the wall, and is inside an obstacle if the wall point is. |
| MovingTargets.MergedInputExists | uav_agent/env/moving_target.py:208-235 | Every flight along axis 0, at any speed, has such an input. |
| MovingTargets.GentleLegShallow | uav_agent/env/moving_target.py:213-235 | A leg that ends at most the tolerance after any entry is at most that deep. |
| MovingTargets.MovingTarget.Integrate | uav_agent/env/moving_target.py:186-249 | The event loop traces a gap-free path of the elapsed time, from the target's own position and velocity at its own speeds, whatever the slack; with none it never leaves the world, is never strictly inside an obstacle, and flies as a billiard: between legs exactly the axes with an event change direction. With slack every leg flies to the event found by merging the walls and the obstacles in the scan order, and hops follow exactly the events reached within the tolerance. It stops early exactly at the 257th event. |
| MovingTargets.MovingTarget.Advance | uav_agent/env/moving_target.py:181-258 | The traced path starts with the target's velocity and takes the whole time, to the tolerance, before the final clip. With no slack the clip is idle, the path is safe even when the budget error is raised, and without obstacles the result is the closed form, the budget error coming only after more than 256 wall contacts. With any slack the budget error comes exactly at the 257th event of the flight. |
| MovingTargets.MovingTarget.Step | uav_agent/env/moving_target.py:154-179 | LINEAR and RANDOM_WALK cover exactly dt on a safe path of billiard pieces: the first starts with the old velocity, each later one at the next multiple of the turn interval with the heading sampled for it, and the last ends with the new velocity. Before a turn and without obstacles the state is the closed form. With any slack the pieces are gap-free flights of the whole time, to the tolerance. Without obstacles the budget error never comes while the speed times the step (or the turn interval) is at most 127 room widths. A random walk with any slack turns exactly at the segments whose turn is due, and a failed step stops in a segment given up at its 257th event. |
| MovingTargets.FewContacts | uav_agent/env/moving_target.py:181-258 | Over such a time the walls are touched at most 256 times. |
| MovingTargets.MovingTarget.ScanWalls | uav_agent/env/moving_target.py:187-211 | The earliest wall contact within the remaining time and exactly the axes at a wall then. |
| MovingTargets.MovingTarget.Walk | uav_agent/env/moving_target.py:163-175 | The random walk covers exactly dt on a safe path of such pieces, one for each turn passed and one more, and keeps the turn clock. |
| MovingTargets.MovingTarget.WalkSegment | uav_agent/env/moving_target.py:165-175 | One segment is a flight from the old state with the old velocity, to the next turn or to the end of the time, and takes the turn exactly when it is due. A segment within the turn slack is not flown. |
| MovingTargets.MovingTarget.AdvanceWithin | uav_agent/env/moving_target.py:171-172 | The advance of a segment is a flight from the old position with the old velocity to the new ones, as a billiard when there is no slack. |
| MovingTargets.WalkFlown | uav_agent/env/moving_target.py:165-172 | A flight from where a walk has just turned goes on with the walk. |
| MovingTargets.WalkTurned | uav_agent/env/moving_target.py:173-175 | Turning at the next multiple of the interval goes on with the walk, with that turn's heading. |
| MovingTargets.WalkGoesOn | uav_agent/env/moving_target.py:165-175 | One segment, with its turn when one is due, goes on with the walk, with any slack. |
| MovingTargets.FlightGoesOn | uav_agent/env/moving_target.py:186-249 | One event, with any slack, goes on with the flight, and calls for a hop exactly when it is reached within the tolerance with time left. |
| MovingTargets.ClockAfter | uav_agent/env/moving_target.py:165-175 | The turn clock is on the next index exactly when the segment ran up to the turn. |
| MovingTargets.FlightExtended | uav_agent/env/moving_target.py:235-239 | One event keeps the flight in bounds, clear, safe, a billiard and, without obstacles, on the unfolded motion. |
| MovingTargets.LinearStepsCompose | uav_agent/env/moving_target.py:154-179 | step(a) then step(b) ends where step(a + b) ends, including zero steps and starts at a wall, and never leaves the bounds. |
| MovingTargets.FlightClosed | uav_agent/env/moving_target.py:181-258 | A finished flight is the closed form; a flight that ran out of budget had more than 256 contacts. |
| MovingTargets.ObstacleScanned | uav_agent/env/moving_target.py:213-228 | Scanning one more obstacle keeps the earliest event and its axes exact. |
| MovingTargets.EventStep | uav_agent/env/moving_target.py:235-239 | One wall-only iteration advances the unfolded motion of both axes and leaves neither heading into a wall. |
| MovingTargets.TracesJoined | uav_agent/env/moving_target.py:165-175 | Safe traces of consecutive segments join into a safe trace of the total time. |
| MovingTargets.SameSpeedsSameNorm | uav_agent/env/moving_target.py:237-239 | Reflections on any axes keep the speed. |
| MovingTargets.Clamped | uav_agent/env/moving_target.py:251-257 | The clip lands in bounds and moves nothing that is already there. |
| KinematicUav.WrapAngle | uav_agent/env/kinematic_uav.py:335-336 | The wrapped angle is in [-pi, pi). |
| KinematicUav.WrapCongruent | uav_agent/env/kinematic_uav.py:335-336 | Wrapping changes an angle by whole turns only. |
| KinematicUav.WrapUnique | uav_agent/env/kinematic_uav.py:335-336 | The wrapped angle is the only congruent one in [-pi, pi). |
| KinematicUav.ErrorAfterTurn | uav_agent/env/kinematic_uav.py:248-253 | Turning towards the target takes exactly the turn off the wrapped error, across the seam too. |
| KinematicUav.TurnTowards | uav_agent/env/kinematic_uav.py:248-253 | One step changes the error e to e - clip(e, -L*dt, L*dt) with abs(rate) <= L. |
| KinematicUav.FlownTowards | uav_agent/env/kinematic_uav.py:226-233 | Flying at the goal takes speed*dt off the distance and stays on the segment to the goal. |
| KinematicUav.LengthAsked | uav_agent/env/kinematic_uav.py:127-134 | delta / distance * speed has exactly the asked speed as its norm. |
| KinematicUav.RateApplied | uav_agent/env/kinematic_uav.py:248-251 | Clipping the rate and applying it for dt is clipping the turn. |
| KinematicUav.NoOvershoot | uav_agent/env/kinematic_uav.py:228-229 | The effective speed never carries the vehicle past the goal, and is the goal speed unless it would. |
| KinematicUav.Vehicle.constructor | uav_agent/env/kinematic_uav.py:25-48 | Establishes the invariant: speed and yaw rate within limits, active exactly while a kept goal is out of tolerance. |
| KinematicUav.Vehicle.SetPose | uav_agent/env/kinematic_uav.py:50-64 | Teleports, wraps the yaw and clears every command. |
| KinematicUav.Vehicle.Stop | uav_agent/env/kinematic_uav.py:205-213 | Stands still, keeps the pose and clears every command. |
| KinematicUav.Vehicle.SetVelocity | uav_agent/env/kinematic_uav.py:72-93 | The command is kept if within the limit, otherwise shortened to exactly the limit in the same direction; the yaw rate is clipped, and the goal and every yaw command are cleared. |
| KinematicUav.Vehicle.MoveToward | uav_agent/env/kinematic_uav.py:95-154 | Refused, with nothing changed, for a non-positive argument; otherwise the goal is taken and the velocity points at it at the capped speed exactly when it is out of tolerance. |
| KinematicUav.Vehicle.SetGoal | uav_agent/env/kinematic_uav.py:125-154 | The state of an accepted goal, preserving the invariant. |
| KinematicUav.Vehicle.FirstVelocity | uav_agent/env/kinematic_uav.py:127-134 | At rest within tolerance, otherwise towards the goal at exactly the speed. |
| KinematicUav.Vehicle.RotateYaw | uav_agent/env/kinematic_uav.py:156-177 | Queues the wrapped target without changing the yaw. |
| KinematicUav.Vehicle.FacePoint | uav_agent/env/kinematic_uav.py:179-203 | Queues the bearing of the point, or the current yaw straight above or below it. |
| KinematicUav.Vehicle.Translate | uav_agent/env/kinematic_uav.py:221-237 | A navigating step maps (distance, active) by the pursuit law along the straight line; an idle vehicle with a goal does not move. |
| KinematicUav.Vehicle.Turn | uav_agent/env/kinematic_uav.py:239-256 | The heading error follows the bounded-rate law towards the target in force. |
| KinematicUav.Vehicle.Step | uav_agent/env/kinematic_uav.py:215-260 | Both laws at once, with the speed <= max_speed kept: the velocity is the one flown, and the yaw target is the bearing of the face point from the new position, or of the goal from the old one, where it is to be faced. |
| KinematicUav.Vehicle.Fly | uav_agent/env/kinematic_uav.py:215-237 | Over any cut of the time the vehicle is under way exactly until T = (d0 - tolerance) / s, at distance d0 - s*T and on the straight line to its goal; from then on it stands still within the tolerance. |
| KinematicUav.Vehicle.TurnToTarget | uav_agent/env/kinematic_uav.py:239-256 | Over any cut of the time the heading error is max(0, abs(e0) - L*T) with its sign kept, is gone exactly from T = abs(e0) / L on, and the vehicle has then stopped turning. |
| CheckpointSlots.SlotDirectory.ReplaceDirectory | uav_agent/experiments/checkpoint_manager.py:762-782 | Each outcome is that of its operations: Done commits the staged tree, a raise leaves the content as it was, a death leaves the old tree or the whole new one. |
| CheckpointSlots.ReplacedSound | uav_agent/experiments/checkpoint_manager.py:762-782 | Wherever a replacement stops, a living process is left with the old content or the staged tree, and a dead one with a recoverable directory. |
| CheckpointSlots.SlotDirectory.WriteSlot | uav_agent/experiments/checkpoint_manager.py:646-683 | The same for the whole write, whatever each file-system operation does, provided the removal of the old tree finishes or dies with the process. |
| CheckpointSlots.WrittenSound | uav_agent/experiments/checkpoint_manager.py:646-683 | Wherever a write stops, the content is the old tree or the whole new one, and only a death leaves it open which. |
| CheckpointSlots.WrittenOver | uav_agent/experiments/checkpoint_manager.py:646-683 | What a write over an occupied slot leaves, for each way its operations can go, a stuck removal included. |
| CheckpointSlots.SlotDirectory.Recover | uav_agent/experiments/checkpoint_manager.py:722-739 | Never changes the content, wherever it stops; when it finishes the content is in the slot and nothing else is left. |
| CheckpointSlots.RecoveredSound | uav_agent/experiments/checkpoint_manager.py:722-739 | Whatever fails, recovery keeps the content and the directory recoverable, and finishes if nothing fails. |
| CheckpointSlots.SlotDirectory.CrashAndRecover | uav_agent/experiments/checkpoint_manager.py:646-782 | After a write that dies anywhere and any number of recoveries that fail, a finished recovery leaves exactly the old tree or the whole new one, and an empty slot only if it was empty. |
| CheckpointSlots.SlotDirectory.RecoverTwice | uav_agent/experiments/checkpoint_manager.py:722-739 | Recovering a recovered directory succeeds and changes nothing. |
| CheckpointSlots.SlotDirectory.DropBackups | uav_agent/experiments/checkpoint_manager.py:734-736 | Removing stale backups, even half-way, leaves the content alone. |
| CheckpointSlots.SlotDirectory.WritesThenCrash | uav_agent/experiments/checkpoint_manager.py:646-782 | From any living directory with a slot: after any writes that leave a tree in it and one that empties it, a finished recovery finds a whole tree if and only if the last commit did not get stuck removing the top level of its predecessor, and then it is the tree last committed; a removal stuck in a subdirectory does no harm. |
| CheckpointSlots.NewestMovedAway | uav_agent/experiments/checkpoint_manager.py:727-733 | The tree moved away is the newest backup unless a partial tree is newer. |
| CheckpointSlots.SoundStops | uav_agent/experiments/checkpoint_manager.py:762-782 | Wherever a replacement stops, the directory is recoverable and the old tree is its content until the new one is. |
| CheckpointSlots.RecoveredWholeIff | uav_agent/experiments/checkpoint_manager.py:728-733 | A concrete run of three writes in which a stuck removal makes a later crash recover a partial tree. |
| CheckpointSlots.NewestAppended | uav_agent/experiments/checkpoint_manager.py:727-733 | A slot moved away is the newest backup. |
| CheckpointSelection.CanonicalOnce | uav_agent/experiments/checkpoint_manager.py:566-613 | Canonicalising the stored metrics gives them back. |
| CheckpointSelection.LexOrder | uav_agent/experiments/checkpoint_manager.py:616-623 | The key order is transitive, irreflexive and total. |
| CheckpointSelection.SelectionOrder | uav_agent/experiments/checkpoint_manager.py:616-623 | The manager prefers the higher success rate, then the lower false-lock, collision and abort rates in that order, then the shorter time. |
| CheckpointSelection.PlotOrder | uav_agent/experiments/plotter.py:51-60 | The plotter orders in the same way, reading a missing rate as one and a missing time as longer than any. |
| CheckpointSelection.BestCheckpoint.MaybeSaveBest | uav_agent/experiments/checkpoint_manager.py:352-383 | Saves exactly when the metrics are valid and strictly better than those stored; anything else leaves the slot alone. |
| CheckpointSelection.BestEvalIndex | uav_agent/experiments/plotter.py:40-65 | The earliest row among those with the least key. |
| CheckpointSelection.SaveAlong | uav_agent/experiments/checkpoint_manager.py:352-383 | After every evaluation has been offered, the slot holds the row of the incremental rule. |
| CheckpointSelection.KeptIsPicked | uav_agent/experiments/checkpoint_manager.py:352-383 | The row kept along the way is the earliest minimum the plotter picks, for rows both sides read alike or both skip. |
| CheckpointSelection.KeptIsPickedIff | uav_agent/experiments/plotter.py:40-65 | For every row: on all lists of this row and rows both sides read alike the kept row is the picked one, if and only if this row is read alike too (its time under the first key and below 1e300, or standing for a missing one) or has no numeric success rate; rows the manager rejects and the plotter ranks are covered. |
| CheckpointSelection.TwoRows | uav_agent/experiments/plotter.py:51-65 | On two valid rows the choices agree if and only if the two orders do. |
| CheckpointSelection.PlainRowsOrderedAlike | uav_agent/experiments/plotter.py:51-60 | Two rows read alike are ordered alike. |
| CheckpointSelection.DisagreementsExist | uav_agent/experiments/checkpoint_manager.py:577-593 | Two lists on which the two choices differ: a time of 2e300, and a time under an older key. |
| CheckpointSelection.NewMinimum | uav_agent/experiments/plotter.py:65 | A row below the minimum so far is the minimum so far. |
| CheckpointSelection.MinimumUnique | uav_agent/experiments/plotter.py:65 | There is only one earliest minimum. |
| Wilson.Brackets | uav_agent/experiments/evaluator.py:172-185 | The endpoints satisfy 0 <= low <= k/n <= high <= 1 before clamping, so the clamp is idle. |
| Wilson.Roots | uav_agent/experiments/evaluator.py:172-184 | x is an endpoint if and only if (k/n - x)^2 = z^2 * x * (1 - x) / n. |
| Wilson.Mirror | uav_agent/experiments/evaluator.py:172-185 | Exchanging k and n - k mirrors the interval about 1/2. |
| Wilson.IntervalAtNinetyFive | uav_agent/experiments/evaluator.py:160-185 | Counts out of range are refused, no trials give no interval, and otherwise the clamped interval brackets k/n. |
| Wilson.FormulaSpread | uav_agent/experiments/evaluator.py:177-184 | The half width computed by the formula is the spread of the score equation. |
| ReviewProtocol.ReviewScheduler.Schedule | uav_agent/runtime/review_scheduler.py:254-356 | A reservation gets a fresh id, only when none is in flight, triggered and past the cooldown; a clock going backwards reserves nothing. |
| ReviewProtocol.ReviewScheduler.Finish | uav_agent/runtime/review_scheduler.py:407-433 | Releases exactly the matching reservation, once, or changes nothing. |
| ReviewProtocol.ReviewScheduler.Reset | uav_agent/runtime/review_scheduler.py:395-405 | Refused exactly while a review is in flight. |
| ReviewProtocol.FrameStore.Pin | uav_agent/runtime/frame_store.py:563-573 | Counts one claim on a frame that is present; an absent one is refused. |
| ReviewProtocol.FrameStore.Unpin | uav_agent/runtime/frame_store.py:575-591 | Releases one claim; an unpinned frame is refused. |
| ReviewProtocol.VisualReviewCoordinator.constructor | uav_agent/agents/visual_review_coordinator.py:475-484 | No review pending, no ticket outstanding, nothing pinned. |
| ReviewProtocol.VisualReviewCoordinator.FinishWithError | uav_agent/agents/visual_review_coordinator.py:1576-1627 | Releases ticket and pin, clears the pending review and leaves one record. |
| ReviewProtocol.VisualReviewCoordinator.AbortPending | uav_agent/agents/visual_review_coordinator.py:957-985 | Closes the pending review as aborted, at any time stamp; without one nothing changes. |
| ReviewProtocol.VisualReviewCoordinator.PollResult | uav_agent/agents/visual_review_coordinator.py:1228-1382 | A result closes the review exactly when it carries its ids and no stale mark; any other is logged as an orphan and unpins nothing; it is accepted only if mission, version, step and target of the caller's context, age and frame all still hold. |
| ReviewProtocol.SomeReasonIff | uav_agent/agents/visual_review_coordinator.py:2111-2150 | Some staleness reason applies exactly when mission, version, step, target, age, frame, ids and the worker's mark are not all as they should be. |
| ReviewProtocol.AnswerAccepts | uav_agent/agents/visual_review_coordinator.py:779-785 | Answering accepts nothing but the review that was pending, and only if it is still valid under the tick's own context and time. |
| ReviewProtocol.VisualReviewCoordinator.HandleTimeout | uav_agent/agents/visual_review_coordinator.py:1564-1574 | Closes the review exactly when its age has reached the timeout. |
| ReviewProtocol.VisualReviewCoordinator.SubmitReserved | uav_agent/agents/visual_review_coordinator.py:852-948 | The reservation transaction, told how each of its calls goes. |
| ReviewProtocol.CommittedMeans | uav_agent/agents/visual_review_coordinator.py:852-948 | A failure in the transaction releases ticket and pin; a success pins the frame once; a ticket leaks if and only if putting together the pending record is assumed to raise. |
| ReviewProtocol.VisualReviewCoordinator.Tick | uav_agent/agents/visual_review_coordinator.py:701-955 | Keeps the invariant; no review outlives its timeout or a safety stop past a tick; what is recorded and closed is exactly what the poll calls for, judged by the tick's own context and time, and a new review is submitted exactly when one is wanted and may be reserved. |
| ReviewProtocol.TickedRecords | uav_agent/agents/visual_review_coordinator.py:701-955 | The records and closures of a tick: the answer to the pending review under this tick's context, an abort, or a drained late result. |
| ReviewProtocol.AnsweredMeans | uav_agent/agents/visual_review_coordinator.py:779-790 | A pending review is closed exactly when its poll fails, brings its own result, or it has timed out, with the record that goes with the cause. |
| ReviewProtocol.VisualReviewCoordinator.ReviewFrame | uav_agent/agents/visual_review_coordinator.py:779-850 | A failed poll or a timeout ends the tick; otherwise a new review is considered in the same tick. |
| ReviewProtocol.FrameReviewedMeans | uav_agent/agents/visual_review_coordinator.py:779-850 | Whatever its answer, a tick that goes on keeps the books and submits a review exactly when one is wanted and none is pending. |
| ReviewProtocol.VisualReviewCoordinator.ReserveAndSubmit | uav_agent/agents/visual_review_coordinator.py:836-914 | At most one reservation, with the ticket of this tick's mission and version, and otherwise a drained late result. |
| ReviewProtocol.BookedMeans | uav_agent/agents/visual_review_coordinator.py:836-914 | A review is pending afterwards exactly when it was triggered, past the cooldown, its frame is stored and every step of submitting it succeeds. |
| ReviewProtocol.VisualReviewCoordinator.Reset | uav_agent/agents/visual_review_coordinator.py:1008-1042 | Closes the pending review and empties the store; raises exactly when a ticket has leaked. |
| ReviewProtocol.Run | uav_agent/agents/visual_review_coordinator.py:701-1042 | Over any run: every reservation was released exactly once, in order, except the outstanding one; that one belongs to the pending review, unless putting together a pending record has raised; the pending frame survives every eviction; and every accepted review on record was answered at a tick of the run whose context still had its mission, version, step and target, within its age limit. |
| ReviewProtocol.LeakIsPermanent | uav_agent/agents/visual_review_coordinator.py:915-1042 | Should a ticket leak, no run of ticks, aborts, resets and clears reserves again, and every reset in it is refused. |
| ReviewCache.RunCalls | uav_agent/agents/visual_review_coordinator.py:1485-1556 | Over any run of reviews, queries and route changes of the cache, from a state in which every cached mismatch is its candidate's last word: all of them are so after every call if and only if no review comes that is inconclusive, an unaccepted match or of a candidate no longer alive while a mismatch of its candidate is cached in that epoch. |
| ReviewCache.StandingThroughoutIff | uav_agent/agents/visual_review_coordinator.py:1485-1556 | The same for any sequence of states that the calls lead through. |
| ReviewCache.StandingAfterCall | uav_agent/agents/visual_review_coordinator.py:1485-1556 | One call keeps every cached mismatch the last word exactly when it is not such a review. |
| ReviewCache.StandingReviewIff | uav_agent/agents/visual_review_coordinator.py:1516-1542 | For one candidate, from a standing mismatch or none, a review keeps it so exactly when it does not break the streak of a cached mismatch. |
| ReviewCache.StaleMismatchExists | uav_agent/agents/visual_review_coordinator.py:1536-1542 | A run after which the cached mismatch is not the last word. |
| ReviewCache.EarnedMismatchMeans | uav_agent/agents/visual_review_coordinator.py:1516-1531 | A cached mismatch ends a run of at least the threshold of consecutive mismatches, all in the candidate's current epoch. |
| ReviewCache.TrailingMeans | uav_agent/agents/visual_review_coordinator.py:1516-1529 | A streak of k says each of the last k reviews is a mismatch of the epoch. |
| ReviewCache.ReviewedFine | uav_agent/agents/visual_review_coordinator.py:1506-1550 | Whatever review comes next, everything kept about its candidate stays justified by the history, and handles exist only for accepted matches. |
| ReviewCache.OrderedReinserted | uav_agent/agents/visual_review_coordinator.py:1546-1550 | Taking an entry out and putting it back keeps the least-recently-updated order. |
| ReviewCache.OrderedMeans | uav_agent/agents/visual_review_coordinator.py:1544-1556 | The insertion order is the order of last updates. |
| ReviewCache.AfterSteps | uav_agent/agents/visual_review_coordinator.py:1485-1556 | One review moves its candidate by the per-candidate law and can only shrink what is kept about others. |
| ReviewCache.PrunedLive | uav_agent/agents/visual_review_coordinator.py:1519-1527 | No streak of a candidate that is gone survives a mismatch. |
| ReviewCache.CandidateReviews.CacheTerminalReview | uav_agent/agents/visual_review_coordinator.py:1485-1556 | Keeps both dictionaries within their bound, in order and justified, despite evictions and epoch changes. |
| ReviewCache.CandidateReviews.Update | uav_agent/agents/visual_review_coordinator.py:1485-1556 | The dictionary work of one review. |
| ReviewCache.CandidateReviews.EvictOldest | uav_agent/agents/visual_review_coordinator.py:1551-1556 | Only the least recently updated entry goes, with everything kept about its candidate. |
| ReviewCache.CandidateReviews.Latest | uav_agent/agents/visual_review_coordinator.py:507-536 | A review is handed out only to the living candidate of the epoch that earned it; otherwise all is dropped. |
| ReviewCache.CandidateReviews.ChangeRoute | uav_agent/agents/visual_review_coordinator.py:735-743 | A route change forgets streaks and keeps the cache justified. |
| ReviewCache.CandidateReviews.Discard | uav_agent/agents/visual_review_coordinator.py:1558-1562 | Drops everything kept about one candidate. |
| PlanRevision.PlanRevisionCoordinator.SubmitEvent | uav_agent/agents/plan_revision_coordinator.py:421-618 | A request goes in flight exactly when every check, the hover and the worker allow it; one already in flight is never superseded; any refusal is one record naming the fallback applied, and leaves the plan alone; the manager is left as that fallback says, and no hover is left behind unreported where one is due. |
| PlanRevision.PlanRevisionCoordinator.Tick | uav_agent/agents/plan_revision_coordinator.py:620-807 | The revision is installed if and only if route, step and hover are as submitted before and after validation and both clock readings are inside the deadline; the request stays in flight if and only if it is in time, current and unanswered, and times out if and only if the deadline overtakes it before the poll or a validated answer; every end is one record with the fallback applied, the manager is left as that fallback says, and under CANCEL_AND_LAND a running task is landed or the failure recorded. |
| PlanRevision.EndingMeans | uav_agent/agents/plan_revision_coordinator.py:620-807 | The three conditions above, as if-and-only-ifs over every state and surroundings. |
| PlanRevision.TimedOutIsReleased | uav_agent/agents/plan_revision_coordinator.py:657-716 | A request that times out never leaves a hover without an owner, whichever of the two deadline checks ends it. |
| PlanRevision.AfterValid | uav_agent/agents/plan_revision_coordinator.py:421-880 | Every step keeps the numbering of requests, the budget and the cooldown. |
| PlanRevision.PlanRevisionCoordinator.Conclude | uav_agent/agents/plan_revision_coordinator.py:676-807 | The same for an answer that has arrived in time. |
| PlanRevision.PlanRevisionCoordinator.FinishRejected | uav_agent/agents/plan_revision_coordinator.py:1086-1125 | The one terminal record of a request that is not accepted, naming the fallback whose effect the manager shows. |
| PlanRevision.PlanRevisionCoordinator.RejectSubmission | uav_agent/agents/plan_revision_coordinator.py:1048-1084 | A refused submission is recorded under an id of its own, with its fallback. |
| PlanRevision.PlanRevisionCoordinator.ApplyFallback | uav_agent/agents/plan_revision_coordinator.py:1127-1149 | Cancelled means the task is landing, resumed means the hover is over, and anything else that the manager is untouched; under CANCEL_AND_LAND a running task is cancelled unless the cancel raises. |
| PlanRevision.ReleaseMeans | uav_agent/agents/plan_revision_coordinator.py:1127-1149 | Under either policy no hover is left without an owner: it ended, the task is landing or not running, or the failure is recorded. |
| PlanRevision.PlanRevisionCoordinator.Reset | uav_agent/agents/plan_revision_coordinator.py:866-880 | Forgets the request and the budget, after the fallback for a hover it owned. |
| PlanRevision.RunMission | uav_agent/agents/plan_revision_coordinator.py:421-880 | Over any run, since the last reset: at most the budgeted acceptances, at least the cooldown apart, each before its deadline, and exactly one record for every request made that is not in flight, none for the one in flight. |
| PlanRevision.SpacedMeans | uav_agent/agents/plan_revision_coordinator.py:513-523 | Any two acceptances are at least the cooldown apart. |
| PlanRevision.OneRecordEach | uav_agent/agents/plan_revision_coordinator.py:1048-1125 | In a history numbered from the first request on, each request has exactly one record. |
| Common.LatestAppended | uav_agent/agents/plan_revision_coordinator.py:352 | A bounded record list is always the tail of the full history. |
| Publication.MissionAgent.Prepare | uav_agent/agents/mission_agent.py:486-567 | Succeeds exactly on the agent's current version and a live manager binding, and changes nothing but the list of prepared suffixes. |
| Publication.MissionAgent.ApplyPrepared | uav_agent/agents/mission_agent.py:582-613 | Whatever the final guard does in between, including publishing another suffix: a suffix is applied if and only if the agent and the manager admit it both before the guard and on the state the guard leaves, and the guard does not raise; otherwise only the guard has acted. |
| Publication.PublishedDirectly | uav_agent/agents/mission_agent.py:582-613 | With nothing in the guard, a suffix is applied exactly when the mission runs, is not shutting down, is on the version it was prepared against, and the manager's binding holds. |
| Publication.PublishedOnce | uav_agent/agents/mission_agent.py:582-613 | Publishing a suffix that has been applied changes nothing. |
| Publication.NestedPublicationRefused | uav_agent/agents/mission_agent.py:598-607 | A guard that publishes the same suffix first leaves nothing for the outer publication. |
| Publication.MissionAgent.CompleteVisualRevision | uav_agent/agents/mission_agent.py:1244-1329 | Moves the version by one, exactly when the plan is the running mission's and one version ahead of the manager's, or changes nothing. |
| Publication.MissionAgent.AdoptRuntimePlan | uav_agent/agents/mission_agent.py:1331-1394 | Adopts exactly a plan the manager has installed, one version on. |
| Publication.MissionAgent.AdoptRevision | uav_agent/agents/mission_agent.py:1577-1597 | Adopts exactly an accepted revision one version on. |
| Publication.MissionAgent.MoveTo | uav_agent/agents/mission_agent.py:606-607 | Plan and version move together, by one. |
| Publication.MissionAgent.Begin | uav_agent/agents/mission_agent.py:679-864 | Exactly from idle and with a plan, a mission starts with its own id, version and compiled plan, in a new manager epoch. |
| Publication.EveryInterleaving | uav_agent/agents/mission_agent.py:486-613 | Over every interleaving and nesting: the plan in force carries the agent's mission, vehicle and version, versions climb by one, and no two applied suffixes were prepared against the same version of the same task. |
| Publication.AppliedAppended | uav_agent/agents/mission_agent.py:604-607 | Applying on the version reached uses it up. |
| Publication.ClimbsMeans | uav_agent/agents/mission_agent.py:606-607 | The k-th version after another is k more. |
| ResultStore.BoundedResultStore.AppendJsonl | uav_agent/experiments/fleet_result_recorder.py:324-346 | Adds exactly the bytes, within the three limits, or counts one drop and writes nothing; the summary reserve stays free. |
| ResultStore.BoundedResultStore.EnsureCsv | uav_agent/experiments/fleet_result_recorder.py:279-298 | A missing header is appended if it fits; an existing one must match. |
| ResultStore.BoundedResultStore.AppendCsv | uav_agent/experiments/fleet_result_recorder.py:300-322 | A row is appended exactly when its header is there or fits and the row then fits; a row refused together with its header is counted as two drops, one refused by itself as one. |
| ResultStore.BoundedResultStore.WriteJson | uav_agent/experiments/fleet_result_recorder.py:348-382 | Replaces the file or counts a drop; a summary of at most the reserve is never refused. |
| ResultStore.BoundedResultStore.CanWrite | uav_agent/experiments/fleet_result_recorder.py:252-277 | Accepted exactly within the record limit, the stream limit and the run limit, less the reserve for anything but the summary; a refusal is one drop. |
| ResultStore.EveryRunCanBeSummarised | uav_agent/experiments/fleet_result_recorder.py:207-382 | After any sequence of writes, each as the limits decide, a summary of at most the reserve is stored and the run is within its limit. |
| ResultStore.FixpointReached | uav_agent/experiments/fleet_result_recorder.py:836-838 | From any directory size of at most 32768 digits, n -> K + digits(n) is at its fixpoint after four steps, whatever K. |
| ResultStore.OnePassFallsShort | uav_agent/experiments/fleet_result_recorder.py:836-838 | A single pass can embed a size one byte short. |
| ResultStore.DigitsBelow | uav_agent/experiments/fleet_result_recorder.py:836-838 | At most k digits means below ten to the k. |
| ResultStore.BoundedResultStore.SummaryPass | uav_agent/experiments/fleet_result_recorder.py:839-855 | One pass embeds the next iterate and makes the one after that the directory size. |
| ResultStore.BoundedResultStore.WriteFull | uav_agent/experiments/fleet_result_recorder.py:838-855 | If all three passes write, which they do when the summary fits the reserve, the embedded size is the true directory size; no other file changes. |
| ResultStore.BoundedResultStore.WriteCompact | uav_agent/experiments/fleet_result_recorder.py:863-887 | If the compact summary is written last, its embedded size is the true one; if it fits the reserve it is written. |
| ResultStore.BoundedResultStore.Finalize | uav_agent/experiments/fleet_result_recorder.py:836-890 | Whenever the last summary is written, the size it embeds is the size of the directory it is in; it is the full one if that fits the reserve. |
| ResultStore.WithSize | uav_agent/experiments/fleet_result_recorder.py:97-106 | Setting one file's size changes the total by the difference. |
| ResultStore.OnlyMeans | uav_agent/experiments/fleet_result_recorder.py:97-106 | If at most one file has changed, every other keeps its size. |
| ResultStore.OnlySized | uav_agent/experiments/fleet_result_recorder.py:97-106 | Setting one file's size changes no other file. |
| CameraBarrier.FleetCameras.PrepareAssignments | uav_agent/env/fleet_uav_search_env.py:185-205 | Accepts exactly maps from known vehicles to known targets, injective under the exclusive policy. |
| CameraBarrier.FleetCameras.CommitAssignments | uav_agent/env/fleet_uav_search_env.py:207-210 | The new map leaves no evaluator frame of the old one. |
| CameraBarrier.FleetCameras.CheckCadence | uav_agent/env/fleet_uav_search_env.py:633-650 | Due exactly from one period after the last publication, less the tolerance; an unequal history is always refused. |
| CameraBarrier.FleetCameras.Withhold | uav_agent/env/fleet_uav_search_env.py:809-823 | The first withheld capture starts the watchdog; one at or past the timeout raises. |
| CameraBarrier.FleetCameras.Drain | uav_agent/env/fleet_uav_search_env.py:662-746 | The bounded drain: what the renderer yields, or what the watchdog makes of a batch withheld. |
| CameraBarrier.DrainSound | uav_agent/env/fleet_uav_search_env.py:662-746 | A drained batch is one reading of every vehicle's sensor, all within the tolerance of the frozen simulation time. |
| CameraBarrier.DrainCatches | uav_agent/env/fleet_uav_search_env.py:662-746 | If no clock misbehaves and the renderer catches up within twelve extra renders, the batch is found. |
| CameraBarrier.FleetCameras.CaptureBatch | uav_agent/env/fleet_uav_search_env.py:611-807 | A captured batch is what the sensors reported for every vehicle, is one render, entirely new and at least a period less two tolerances after the last; a withheld capture that is overdue starts the watchdog or carries it on, and is inside its timeout; a due batch that every sensor delivers is captured. |
| CameraBarrier.CapturedSound | uav_agent/env/fleet_uav_search_env.py:611-807 | What is captured is each sensor's own sample, one new render in cadence. |
| CameraBarrier.CapturedWhenDelivered | uav_agent/env/fleet_uav_search_env.py:611-807 | A due batch that every sensor delivers is captured. |
| CameraBarrier.CapturedInTime | uav_agent/env/fleet_uav_search_env.py:645-823 | A capture withheld while the watchdog runs or a batch is overdue is inside the timeout. |
| CameraBarrier.FleetCameras.CopySamples | uav_agent/env/fleet_uav_search_env.py:750-790 | The samples are delivered exactly when they are one render and still equal the accepted metadata. |
| CameraBarrier.FleetCameras.KeepIfNew | uav_agent/env/fleet_uav_search_env.py:792-807 | Delivered exactly when every frame is new; an entirely old batch stops the watchdog, a partly new one runs it. |
| CameraBarrier.FleetCameras.Publish | uav_agent/env/fleet_uav_search_env.py:873-938 | All caches change for every vehicle, or none does. |
| CameraBarrier.FleetCameras.AdvanceBarrier | uav_agent/env/fleet_uav_search_env.py:555-598 | The pose barrier appears only together with the outcome of its whole camera batch, never after an error; what is published is what the sensors reported, and a batch that can be delivered is published; while a batch is overdue the barrier appears only inside the watchdog timeout of the first such barrier. |
| CameraBarrier.PublishedMeans | uav_agent/env/fleet_uav_search_env.py:555-598 | Every published frame has the time its sensor reported, at the pose and tick of the barrier, and keeps the cadence. |
| CameraBarrier.PublishedWhenDelivered | uav_agent/env/fleet_uav_search_env.py:555-598 | A due batch that every sensor delivers is published unless projection raises. |
| CameraBarrier.NotPublishedMeans | uav_agent/env/fleet_uav_search_env.py:555-598 | Otherwise every cache is as it was, and the watchdog is minded. |
| CameraBarrier.RunBarriers | uav_agent/env/fleet_uav_search_env.py:555-823 | Over any barriers in clock order, whatever the renderer does: what is published is what the sensors reported, every batch that can be delivered is published, every publication is at least a period less two tolerances after the one before on every vehicle, and barriers that pass while a batch is overdue span less than the watchdog timeout. |
| CameraBarrier.CadenceOverRun | uav_agent/env/fleet_uav_search_env.py:645-650 | Over such a run each vehicle's frames are that gap apart for every publication in between. |
| CameraBarrier.WatchdogStep | uav_agent/env/fleet_uav_search_env.py:809-823 | One more barrier keeps every stall inside the timeout. |
| CameraBarrier.MindedMeans | uav_agent/env/fleet_uav_search_env.py:809-823 | If every stall is short as long as it lasts, any stretch of overdue barriers in the run is. |
| CameraBarrier.DueIsOverdueIff | uav_agent/env/fleet_uav_search_env.py:645-650 | Every due capture is overdue, so under the watchdog, if and only if the period exceeds two tolerances. |
| CameraBarrier.FleetCameras.InvalidateCaches | uav_agent/env/fleet_uav_search_env.py:986-995 | Empties the camera and evaluator caches and restarts warm-up. |
| CameraBarrier.NextCaptureRefusedIff | uav_agent/env/fleet_uav_search_env.py:633-638 | After a publication the next capture is refused for its history if and only if the published times were not all equal, and then every later one is. |
| CameraBarrier.UnequalBatchAccepted | uav_agent/env/fleet_uav_search_env.py:838-842 | A batch with unequal times passes both acceptance checks. |
| CameraBarrier.DueBatchSpaced | uav_agent/env/fleet_uav_search_env.py:645-650 | Successive batches are at least one period less two tolerances apart. |
| ObstacleRevision.RunLawful | uav_agent/agents/obstacle_revision_coordinator.py:178-328 | Every run of the protocol stays within budget and ends with one installation and no cancel or exactly one cancel. |
| ObstacleRevision.ModelCoordinator.Begin | uav_agent/agents/obstacle_revision_coordinator.py:178-212 | Starts a round exactly from idle, paused and with the submission accepted. |
| ObstacleRevision.ModelCoordinator.Tick | uav_agent/agents/obstacle_revision_coordinator.py:214-328 | An answer is one protocol step with one record of its own kind; accepted, exhausted and failed exactly in their cases, an answer that cannot be repaired failing with one cancel; an exception escapes exactly from evaluation or a resubmission within budget. |
| ObstacleRevision.ModelCoordinator.Publish | uav_agent/agents/obstacle_revision_coordinator.py:430-482 | However far the publication gets, it ends the round by one lawful protocol step: one installation without a cancel, or exactly one cancel; accepted exactly when it completed. |
| ObstacleRevision.ModelCoordinator.TryAgain | uav_agent/agents/obstacle_revision_coordinator.py:251-328 | A proposal to revise is one protocol step: the next request, or the end of the budget with one cancel. |
| ObstacleRevision.ModelCoordinator.Reset | uav_agent/agents/obstacle_revision_coordinator.py:339-375 | Refused while a request is active; preserved records keep their indices and the count runs on. |
| ObstacleRevision.PlayRound | uav_agent/agents/obstacle_revision_coordinator.py:178-328 | Any round played from idle refines the protocol with a budget of max_proposals, one record per proposal, in the state its ticks lead to. |
| ObstacleRevision.PlayRounds | uav_agent/agents/obstacle_revision_coordinator.py:178-375 | Over any rounds joined by preserving resets: no record is lost, indices run on without a gap, and two records share a round index if and only if they were made in the same round. |
| ObstacleRevision.PlayClassicalRounds | uav_agent/agents/classical_obstacle_revision_coordinator.py:125-238 | One record per round begun, of that round's outcome, each in a later round. |
| ObstacleRevision.StrandedForGood | uav_agent/agents/obstacle_revision_coordinator.py:218-223 | After an escaped exception no tick ends the round and it cannot be reset. |
| ObstacleRevision.ClassicalCoordinator.Begin | uav_agent/agents/classical_obstacle_revision_coordinator.py:125-205 | The whole classical round refines the protocol with a budget of one. |
| ObstacleRevision.ClassicalCoordinator.Reset | uav_agent/agents/classical_obstacle_revision_coordinator.py:223-238 | Preserved records keep contiguous indices and a recorded round advances the round index. |
| ObstacleRevision.ReplacementSteps | uav_agent/agents/classical_obstacle_revision_coordinator.py:468-503 | Succeeds exactly when the remaining steps are reusable, end in their only LAND and number at most fifteen; the detour route comes first. |
| ObstacleRevision.ContiguousAppended | uav_agent/agents/obstacle_revision_coordinator.py:397-414 | Appending keeps record indices contiguous and rounds in order. |
| ProgramPatch.ProgramPatchCoordinator.Begin | uav_agent/agents/program_patch_coordinator.py:194-268 | Refused with nothing changed, in flight, or failed with one cancel attempt. |
| ProgramPatch.ProgramPatchCoordinator.Tick | uav_agent/agents/program_patch_coordinator.py:270-312 | Accepted, failed and timed out exactly in their cases; the deadline counts from the submission and only while nothing has arrived; a tick that decides nothing changes nothing. |
| ProgramPatch.ProgramPatchCoordinator.FailClosed | uav_agent/agents/program_patch_coordinator.py:344-368 | From an undecided request it restores the whole invariant: failed or timed out with exactly one cancel attempt, no installation, and the one record the request is owed. |
| ProgramPatch.ProgramPatchCoordinator.Append | uav_agent/agents/program_patch_coordinator.py:370-401 | Pays the request its one record and keeps the list the bounded tail of the history. |
| ProgramPatch.ProgramPatchCoordinator.Reset | uav_agent/agents/program_patch_coordinator.py:331-342 | Refused exactly while a request is in flight and the task runs; records stay. |
| ProgramPatch.EveryRun | uav_agent/agents/program_patch_coordinator.py:194-368 | Over any run no end but ACCEPTED is without a cancel attempt, ACCEPTED is one installation without one, and every request ever made has exactly one record unless it is still awaited or was reset while awaited. |

## Left out

- MovingTargets.MovingTarget.Advance: with a positive slack a whole step is a gap-free flight at the target's own speeds, clipped to the world, but clear of obstacles only event by event, because clearance then fails: lost entries and merged events lead into obstacles. What a single event keeps is in `SweptPoint.FirstAabbHit` and `MovingTargets.MovingTarget.OneEvent`.
- MovingTargets.MovingTarget.Step: the yaw kept beside the velocity and the pose writer are not modelled; headings are given velocity vectors, with no trigonometry.
- KinematicUav.Vehicle.Step: the published pose and the queries derived from it are not modelled.
- CheckpointSlots.SlotDirectory.WriteSlot: one slot; the content of the files, the checks on staged files and the calls to fsync are not modelled.
- CheckpointSelection.BestCheckpoint.MaybeSaveBest: a write that fails after the decision is the subject of `CheckpointSlots` and not repeated.
- Wilson.Brackets: over exact reals; rounding of the endpoints is not modelled.
- ReviewProtocol.VisualReviewCoordinator.Tick: the consensus gate, candidate association, revision events and hover commands of an accepted review are not modelled; acceptance is an input to the staleness rules.
- ReviewProtocol.VisualReviewCoordinator.FinishWithError: the record list is the full history; its bound as a deque is not modelled.
- ReviewProtocol.ReviewScheduler.Schedule: which events trigger a review, and the periodic intervals, are an input.
- PlanRevision.PlanRevisionCoordinator.SubmitEvent: candidate provenance checks and the request's content are inputs.
- Publication.MissionAgent.Execute: safety decisions, observations and transition logging of a tick are not modelled; shutdown is one operation.
- ResultStore.BoundedResultStore.Finalize: JSON and CSV rendering are reduced to encoded sizes, the base size of a summary staying the same from pass to pass.
- CameraBarrier.FleetCameras.CaptureBatch: images, depth and projection are not modelled; the exact-equality check is on times only.
- ObstacleRevision.ModelCoordinator.Tick: prompts, parse-repair feedback and critiques are inputs.
- Planners, critics, the skill manager beyond the bindings above, detectors, rendering and simulation: foreign or large components that appear only through what these protocols see of them.
- Configuration loading, report and figure generation, logging, locks and threads: one-branch checks or input and output.
