# Monte Carlo pi: a Dafny model of the hit bookkeeping

The program drops small spherical droplets over two sensor volumes, a thin disk and
a thin square, and estimates pi as the ratio of the hits the two sensors have
counted. The physics engine (Rapier, inside the Bevy engine) does the falling and
the intersection tests. The program itself only does bookkeeping, in four
systems that run each frame:

- `spawn_droplets` adds five droplets at random horizontal positions, 15 units up,
  each with a 20-second one-shot timer;
- `check_collisions` asks the physics engine whether each droplet intersects the
  disk sensor and whether it intersects the square sensor. Each positive answer
  adds one to that sensor's counter, gives the droplet the collision filter `0b0010`
  and replaces its timer with a 3-second one-shot timer. The estimate is then
  recomputed as `circle / square` if the square has ever been hit;
- `despawn_droplets` ticks every droplet's timer and removes a droplet whose timer
  has just finished or that has fallen below height -1;
- `check_load_assets` moves the application from `Loading` to `InGame` once the
  meshes have loaded.

The model has three modules:

- `BevyTimer` (`timer.dfy`) models the engine's one-shot timer, with times in
  nanoseconds.
- `RapierGroups` (`collision_groups.dfy`) models Rapier's 32-bit collision groups
  and its two-way interaction test.
- `MonteCarloPi` (`monte_carlo_pi.dfy`) holds the droplets and the systems. The
  `World` class holds the `Data` resource (`circle`, `square`, `pi`), the
  application state and the live droplets. Its four methods are the four systems.
  Each method runs its loop in a state-free pass method (`SpawnPass`,
  `CollisionPass`, `DespawnPass`) and then stores the result in the fields.
  `World.Valid()` is the object invariant that every method keeps:
  - every live droplet's timer is still running;
  - a droplet has either its spawn groups and its 20-second timer, or the counted
    groups and a 3-second timer;
  - no two droplets share an entity;
  - `pi` is 0 until the square has been hit, and `circle / square` afterwards.

External inputs:

- The physics engine's `intersection_pair` is a caller-supplied function `Oracle`
  from entity to `Option<bool>`.
- The random draws are the `rolls` parameter, limited to the ranges `gen_range`
  guarantees (`-7.5..=7.5` for x and `-5.0..=5.0` for z, both inclusive).
- The frame time is the `delta` parameter.
- The physics engine's integration of the droplets' positions is
  `World.PhysicsStep`, which may overwrite translations and nothing else.

Three behaviours of the code are worth stating:

- There is no guard against a droplet being counted by both sensors in the same
  pass. Both counters grow (`DoubleHitCountsTwice`).
- A counted droplet is not removed at once. It stays until its new 3-second timer
  runs out, and it drops out of the sensors' view through its collision filter.
- While the square count is 0 the estimate is not a sentinel value. It keeps its
  previous value, which is 0 from `Data::default()`.

## Model

| member | source | states |
|---|---|---|
| `BevyTimer.Tick` | src/main.rs:310-311 | A tick reports `justFinished` exactly when the timer was not finished and this tick's delta reaches the duration. Once finished, a timer stays finished. While it has not finished, elapsed grows by exactly delta. Elapsed never exceeds the duration. |
| `BevyTimer.TickAll` | src/main.rs:309-311 | Starting from a valid timer, a run of ticks gives a valid timer. |
| `BevyTimer.TickAllFinishes` | src/main.rs:309-311 | After a run of ticks, the timer is finished exactly when it already was, or when the run is non-empty and the ticks add up to what was left of the duration. Until then, elapsed is the start value plus the sum of the ticks. |
| `BevyTimer.FinishReportedOnce` | src/main.rs:311 | A one-shot timer reports `justFinished` on one tick only. No later tick, of any length, reports it again. |
| `MonteCarloPi.GroupTable` | src/main.rs:133-176 | Under the two-way mask test, a droplet with groups (`0b0001`, `0b0110`) interacts with the sensors (`0b0100`, `0b0101`) and the containers (`0b0010`, `0b0011`). With the counted filter `0b0010` it no longer interacts with the sensors but still rests on the containers. Sensors and containers ignore each other, and droplets pass through each other. The ground plane has no collider, so a droplet that misses the containers falls through it and is removed below -1. |
| `MonteCarloPi.Batch` | src/main.rs:240-270 | A spawn adds one droplet per roll, on consecutive fresh entities. Each droplet is at (x, 15, z) from its roll, has the spawn collision groups, and has an unstarted 20-second one-shot timer. |
| `MonteCarloPi.SpawnPass` | src/main.rs:240-271 | The spawn loop builds exactly `Batch(first, rolls)`. |
| `MonteCarloPi.BatchInLaunchArea` | src/main.rs:248-252 | If the rolls stay in the `gen_range` ranges, every spawned droplet starts with x in [-7.5, 7.5], y = 15 and z in [-5, 5]. |
| `MonteCarloPi.BatchKeepsWellFormed` | src/main.rs:240-270 | Appending a batch keeps the droplet invariant and keeps entities distinct. |
| `MonteCarloPi.CollidedAll` | src/main.rs:284-296 | After one pass, a droplet reported by either sensor has filter `0b0010` and a fresh 3-second one-shot timer. A droplet reported by neither is unchanged. No droplet changes its entity, its translation or its memberships, and the number of droplets stays the same. |
| `MonteCarloPi.HitCount` | src/main.rs:284-296 | The number of droplets an oracle reports is at most the number of droplets. |
| `MonteCarloPi.HitCountIsCardinality` | src/main.rs:285-295 | A sensor's increment is the number of positions whose droplet that sensor's oracle reports as `Some(true)`. It depends on that oracle alone. |
| `MonteCarloPi.DoubleHitCountsTwice` | src/main.rs:285-295 | In any pass, a droplet that both sensors report is in the hit set of each counter, so it adds one to each, and it is marked once. There is no mutual exclusion. |
| `MonteCarloPi.HitCountAtMostVisible` | src/main.rs:173-176 | For an oracle that follows the mask test, one pass counts at most the droplets the sensors can still see. |
| `MonteCarloPi.CountedNeverRecounted` | src/main.rs:287-294 | On the next pass over the droplets as the counting pass left them, no oracle that follows the mask test reports a droplet that was counted. That pass counts at most the droplets still visible. |
| `MonteCarloPi.CountedStaysInvisible` | src/main.rs:287-311 | A counted droplet keeps the counted groups under a timer tick, a physics step and another collision pass. So while it lives, no oracle that follows the mask test reports it again. |
| `MonteCarloPi.CollidedAllKeepsWellFormed` | src/main.rs:284-296 | A collision pass keeps every droplet live and keeps entities distinct. |
| `MonteCarloPi.CollisionPass` | src/main.rs:284-296 | The loop returns, per sensor, exactly the number of droplets that sensor reports, together with the droplets as `CollidedAll` gives them. |
| `MonteCarloPi.RetiredWhenTimeSpent` | src/main.rs:311 | A live droplet above the floor is removed exactly on the tick that spends the rest of its timer. |
| `MonteCarloPi.Survivors` | src/main.rs:309-314 | Every survivor is a droplet that was not retired, with its timer ticked by delta. Every droplet that was not retired survives in that form. A droplet is retired when its timer just finished or its height is below -1. |
| `MonteCarloPi.RetiredAreGone` | src/main.rs:311-312 | A droplet's entity is gone after despawning if and only if the droplet was retired. |
| `MonteCarloPi.SurvivorsKeepWellFormed` | src/main.rs:309-314 | Despawning keeps the invariant: the timer of every surviving droplet is still running, and entities stay distinct. |
| `MonteCarloPi.DespawnPass` | src/main.rs:309-314 | The despawn loop keeps exactly `Survivors(ds, delta)`. |
| `MonteCarloPi.World.constructor` | src/main.rs:16-21 | The world starts in `Loading` with `circle = square = 0`, `pi = 0` and no droplets. |
| `MonteCarloPi.World.CheckLoadAssets` | src/main.rs:64-78 | From `Loading`, the state becomes `InGame` if and only if the load state is `Loaded`. On `Failed` or any other load state it stays in `Loading`. Nothing else changes. |
| `MonteCarloPi.World.SpawnDroplets` | src/main.rs:234-272 | The droplets become the old droplets followed by `Batch` of the next five entities. Existing droplets are untouched, and the invariant is kept. |
| `MonteCarloPi.World.CheckCollisions` | src/main.rs:274-302 | Each counter grows by exactly the number of droplets its sensor reports, so neither counter ever decreases. The droplets become `CollidedAll` of the old ones. `pi` becomes `circle / square` when `square > 0` and otherwise keeps its previous value. |
| `MonteCarloPi.World.DespawnDroplets` | src/main.rs:304-315 | The droplets become exactly `Survivors(old droplets, delta)`, and the invariant is kept. |
| `MonteCarloPi.World.PhysicsStep` | src/main.rs:260-267 | The physics engine's step changes only droplet translations. Timers, groups, entities, counters and the invariant are untouched. |

## Left out

- `setup_level` (src/main.rs:80-232): lights, camera, meshes, materials, the
  container and sensor colliders and the text. Only the collision-group constants
  of those colliders are modelled.
- `load_assets` (src/main.rs:56-62) is asset I/O through the engine. The group
  load state it leads to is the `load` parameter of `World.CheckLoadAssets`.
- `update_ui` (src/main.rs:317-322) is presentation only: it formats the counters
  and `{:.4}` of the estimate.
- Rapier physics: gravity, continuous collision detection, restitution, collider
  geometry and the work the narrow phase does. Intersection answers and positions
  are inputs (`Oracle`, `World.PhysicsStep`). The model does not tie the oracle to
  the geometry. `RespectsGroups` states only the mask test.
- Random number generation: the rolls are parameters limited to the `gen_range`
  ranges, and no distribution is modelled.
- `World.CheckCollisions`: `pi` is exact rational division on `real`. The `f64`
  rounding of the source is not modelled.
- `World.CheckCollisions`: the counters are unbounded `nat`. `usize` overflow of
  `data.circle += 1` is not modelled.
- Positions are exact `real`s, not `f32`. NaN comparisons are not modelled.
- `BevyTimer.Tick` models only the one-shot, unpaused timer the program uses.
  Repeating and paused timers are left out.
- Scheduling: the order of the four `InGame` systems within a frame is up to the
  engine (src/main.rs:46-52). Each system is a separate method and no order
  between them is assumed. `commands.despawn` and `commands.spawn`
  (src/main.rs:241, 312) are deferred to the end of the stage. In the model their
  effect is applied when `DespawnDroplets` or `SpawnDroplets` returns, which
  matches what the other systems see in the next stage. Because removal is
  deferred, check_collisions can still count a droplet later in the same stage,
  after despawn_droplets has queued its removal. The model removes the droplet at
  once and cannot produce that interleaving.
- `check_collisions` panics at `get_single().unwrap()` (src/main.rs:281-282)
  unless there is exactly one disk sensor and one square sensor. `setup_level`
  spawns exactly one of each, so the model takes one oracle per sensor and does
  not model the panic.
- The run criteria of the system sets (src/main.rs:43-52) appear as the methods'
  `requires state == ...`. The panic of `app_state.set(..).unwrap()` can happen
  only when the state is already `InGame`, and that system does not run then, so
  it is not modelled.
- The engine's entity allocator is the `nextEntity` counter. Generational entity
  ids are not modelled beyond the fact that they are never reused.
