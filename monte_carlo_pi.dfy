/** The hit bookkeeping of a Monte Carlo estimate of pi: droplets are dropped over
    two sensors, a disk and a square, and the ratio of the hits each sensor counts
    is the estimate.  The physics engine's intersection test, its integration of
    the droplets' positions and the random number generator are inputs. */
module MonteCarloPi {
  import opened BevyTimer
  import opened RapierGroups

  datatype Option<T> = None | Some(value: T)

  /** The two states of the application. */
  datatype AppState = Loading | InGame

  /** The engine's load state of a group of assets. */
  datatype LoadState = NotLoaded | Loading | Loaded | Failed | Unloaded

  /** An entity identifier; the engine never hands out the same one twice. */
  type Entity = nat

  datatype Vec3 = Vec3(x: real, y: real, z: real)

  /** A droplet entity: its `Droplet` component (the timer), its collision groups
      and its translation. */
  datatype Droplet = Droplet(entity: Entity, timer: Timer, groups: CollisionGroups, translation: Vec3)

  /** The physics engine's `intersection_pair` between a droplet entity and one
      sensor: `None` when the pair is unknown, else whether they intersect. */
  type Oracle = Entity -> Option<bool>

  /** The two random draws that place one new droplet. */
  datatype Roll = Roll(x: real, z: real)

  // Nanoseconds per second.
  const Second: nat := 1_000_000_000
  /** A fresh droplet's one-shot timer. */
  const DropletLifetime: nat := 20 * Second
  /** The one-shot timer a droplet gets when a sensor counts it. */
  const HitGrace: nat := 3 * Second
  /** Droplets added per frame. */
  const BatchSize: nat := 5
  const SpawnHeight: real := 15.0
  /** A droplet below this height is removed. */
  const FloorHeight: real := -1.0

  const DropletGroups: CollisionGroups := CollisionGroups(0x1, 0x6)
  /** Both sensors, the disk and the square, carry these groups. */
  const SensorGroups: CollisionGroups := CollisionGroups(0x4, 0x5)
  /** Both container meshes carry these groups. */
  const ContainerGroups: CollisionGroups := CollisionGroups(0x2, 0x3)
  /** The filter a droplet gets once it has been counted. */
  const HitFilter: Group := 0x2
  const CountedGroups: CollisionGroups := CollisionGroups(0x1, HitFilter)

  /** Under Rapier's two-way test a droplet interacts with the sensors and the
      containers until it is counted; afterwards it still rests on the containers
      but no sensor sees it.  The sensors and the containers ignore each other,
      and droplets pass through each other. */
  lemma GroupTable()
    ensures Interacts(DropletGroups, SensorGroups)
    ensures Interacts(DropletGroups, ContainerGroups)
    ensures !Interacts(CountedGroups, SensorGroups)
    ensures Interacts(CountedGroups, ContainerGroups)
    ensures !Interacts(SensorGroups, ContainerGroups)
    ensures !Interacts(DropletGroups, DropletGroups) && !Interacts(DropletGroups, CountedGroups)
    ensures !Interacts(CountedGroups, CountedGroups)
  {
  }

  // ---------------------------------------------------------------------------
  // Droplet invariants

  /** What holds of every live droplet: its timer is still running; it either has
      not been counted (spawn groups, 20-second timer) or has been counted (hit
      filter, 3-second timer). */
  predicate LiveDroplet(d: Droplet) {
    && Running(d.timer)
    && (|| (d.groups == DropletGroups && d.timer.duration == DropletLifetime)
        || (d.groups == CountedGroups && d.timer.duration == HitGrace))
  }

  /** Every live droplet is well formed, entities are pairwise distinct and all of
      them were handed out before `next`. */
  predicate WellFormed(ds: seq<Droplet>, next: Entity) {
    && (forall d :: d in ds ==> LiveDroplet(d) && d.entity < next)
    && (forall i, j :: 0 <= i < j < |ds| ==> ds[i].entity != ds[j].entity)
  }

  // ---------------------------------------------------------------------------
  // spawn_droplets

  predicate InLaunchArea(roll: Roll) {
    -7.5 <= roll.x <= 7.5 && -5.0 <= roll.z <= 5.0
  }

  function NewDroplet(e: Entity, roll: Roll): Droplet {
    Droplet(e, Once(DropletLifetime), DropletGroups, Vec3(roll.x, SpawnHeight, roll.z))
  }

  /** The droplets one spawn adds, one per roll, with consecutive new entities
      starting at `first`. */
  function Batch(first: Entity, rolls: seq<Roll>): (r: seq<Droplet>)
    ensures |r| == |rolls|
    ensures forall k :: 0 <= k < |r| ==>
      && r[k].entity == first + k
      && r[k].translation == Vec3(rolls[k].x, SpawnHeight, rolls[k].z)
      && r[k].groups == DropletGroups
      && Running(r[k].timer) && r[k].timer.elapsed == 0
      && r[k].timer.duration == DropletLifetime
    decreases |rolls|
  {
    if rolls == [] then []
    else Batch(first, rolls[..|rolls| - 1]) + [NewDroplet(first + |rolls| - 1, rolls[|rolls| - 1])]
  }

  /** Extending the rolls by one appends one new droplet. */
  lemma BatchExtend(first: Entity, rolls: seq<Roll>, k: nat)
    requires k < |rolls|
    ensures Batch(first, rolls[..k + 1]) == Batch(first, rolls[..k]) + [NewDroplet(first + k, rolls[k])]
  {
    assert rolls[..k + 1][..k] == rolls[..k];
  }

  /** The loop of `spawn_droplets`: one new droplet per roll, each on the next
      entity the allocator hands out. */
  method SpawnPass(first: Entity, rolls: seq<Roll>) returns (spawned: seq<Droplet>)
    ensures spawned == Batch(first, rolls)
  {
    spawned := [];
    var next := first;
    for k := 0 to |rolls|
      invariant spawned == Batch(first, rolls[..k])
      invariant next == first + k
    {
      BatchExtend(first, rolls, k);
      spawned := spawned + [NewDroplet(next, rolls[k])];
      next := next + 1;
    }
    assert rolls[..|rolls|] == rolls;
  }

  /** Every spawned droplet starts inside the launch rectangle at the drop height. */
  lemma BatchInLaunchArea(first: Entity, rolls: seq<Roll>)
    requires forall roll :: roll in rolls ==> InLaunchArea(roll)
    ensures forall d :: d in Batch(first, rolls) ==>
      -7.5 <= d.translation.x <= 7.5 && d.translation.y == 15.0 && -5.0 <= d.translation.z <= 5.0
  {
    var r := Batch(first, rolls);
    forall d | d in r
      ensures -7.5 <= d.translation.x <= 7.5 && d.translation.y == 15.0 && -5.0 <= d.translation.z <= 5.0
    {
      var k :| 0 <= k < |r| && r[k] == d;
      assert rolls[k] in rolls;
    }
  }

  /** Appending a batch of fresh entities keeps the droplets well formed. */
  lemma BatchKeepsWellFormed(ds: seq<Droplet>, next: Entity, rolls: seq<Roll>)
    requires WellFormed(ds, next)
    ensures WellFormed(ds + Batch(next, rolls), next + |rolls|)
  {
    var b := Batch(next, rolls);
    var all := ds + b;
    forall d | d in all
      ensures LiveDroplet(d) && d.entity < next + |rolls|
    {
      if d !in ds {
        var k :| 0 <= k < |b| && b[k] == d;
      }
    }
    forall i, j | 0 <= i < j < |all|
      ensures all[i].entity != all[j].entity
    {
      if j >= |ds| {
        if i < |ds| {
          assert all[i] in ds;
        } else {
          assert all[i] == b[i - |ds|] && all[j] == b[j - |ds|];
        }
      }
    }
  }

  // ---------------------------------------------------------------------------
  // check_collisions

  /** The oracle reports an intersection. */
  predicate Hit(o: Oracle, d: Droplet) {
    o(d.entity) == Some(true)
  }

  /** What a positive test does to a droplet: hit filter, fresh 3-second timer. */
  function MarkCounted(d: Droplet): Droplet {
    d.(groups := d.groups.(filters := HitFilter), timer := Once(HitGrace))
  }

  /** One droplet after the disk test and then, independently, the square test. */
  function Collided(d: Droplet, inCircle: Oracle, inSquare: Oracle): Droplet {
    var afterCircle := if Hit(inCircle, d) then MarkCounted(d) else d;
    if Hit(inSquare, d) then MarkCounted(afterCircle) else afterCircle
  }

  /** The droplets after one pass of both tests: a droplet either test reports
      ends with the hit filter and a fresh 3-second timer; any other droplet is
      left as it was; nothing else about a droplet changes. */
  function CollidedAll(ds: seq<Droplet>, inCircle: Oracle, inSquare: Oracle): (r: seq<Droplet>)
    ensures |r| == |ds|
    ensures forall i :: 0 <= i < |ds| ==>
      && r[i].entity == ds[i].entity
      && r[i].translation == ds[i].translation
      && r[i].groups.memberships == ds[i].groups.memberships
    ensures forall i :: 0 <= i < |ds| && (Hit(inCircle, ds[i]) || Hit(inSquare, ds[i])) ==>
      && r[i].groups.filters == HitFilter
      && r[i].timer == Once(HitGrace)
    ensures forall i :: 0 <= i < |ds| && !Hit(inCircle, ds[i]) && !Hit(inSquare, ds[i]) ==>
      r[i] == ds[i]
  {
    seq(|ds|, i requires 0 <= i < |ds| => Collided(ds[i], inCircle, inSquare))
  }

  /** How many droplets the oracle reports. */
  function HitCount(ds: seq<Droplet>, o: Oracle): (n: nat)
    ensures n <= |ds|
    decreases |ds|
  {
    if ds == [] then 0
    else HitCount(ds[..|ds| - 1], o) + (if Hit(o, ds[|ds| - 1]) then 1 else 0)
  }

  /** Extending a prefix by one droplet adds one exactly when that droplet is hit. */
  lemma HitCountExtend(ds: seq<Droplet>, i: nat, o: Oracle)
    requires i < |ds|
    ensures HitCount(ds[..i + 1], o) == HitCount(ds[..i], o) + (if Hit(o, ds[i]) then 1 else 0)
  {
    assert ds[..i + 1][..i] == ds[..i];
  }

  /** The count is the number of positions whose droplet the oracle reports; it
      depends on that oracle alone, so a droplet both oracles report is counted
      by both counters. */
  lemma {:induction false} HitCountIsCardinality(ds: seq<Droplet>, o: Oracle)
    ensures HitCount(ds, o) == |set k | 0 <= k < |ds| && Hit(o, ds[k])|
  {
    if ds != [] {
      var n := |ds| - 1;
      var front := ds[..n];
      HitCountIsCardinality(front, o);
      var before := set k | 0 <= k < n && Hit(o, front[k]);
      var all := set k | 0 <= k < |ds| && Hit(o, ds[k]);
      assert before == set k | 0 <= k < n && Hit(o, ds[k]);
      if Hit(o, ds[n]) {
        assert all == before + {n};
      } else {
        assert all == before;
      }
    }
  }

  /** No exclusion between the two tests: a droplet reported by both sensors is in
      the hit set of each counter and is marked once. */
  lemma DoubleHitCountsTwice(ds: seq<Droplet>, i: nat, inCircle: Oracle, inSquare: Oracle)
    requires i < |ds| && Hit(inCircle, ds[i]) && Hit(inSquare, ds[i])
    ensures i in set k | 0 <= k < |ds| && Hit(inCircle, ds[k])
    ensures i in set k | 0 <= k < |ds| && Hit(inSquare, ds[k])
    ensures CollidedAll(ds, inCircle, inSquare)[i] == MarkCounted(ds[i])
  {
  }

  /** An oracle that follows Rapier's group test: it reports only droplets whose
      groups interact with the sensors'. */
  predicate RespectsGroups(ds: seq<Droplet>, o: Oracle) {
    forall d :: d in ds && Hit(o, d) ==> Interacts(d.groups, SensorGroups)
  }

  /** How many droplets the sensors can still see. */
  function VisibleCount(ds: seq<Droplet>): (n: nat)
    decreases |ds|
  {
    if ds == [] then 0
    else VisibleCount(ds[..|ds| - 1]) + (if Interacts(ds[|ds| - 1].groups, SensorGroups) then 1 else 0)
  }

  /** Under such an oracle one pass counts at most the droplets still visible. */
  lemma {:induction false} HitCountAtMostVisible(ds: seq<Droplet>, o: Oracle)
    requires RespectsGroups(ds, o)
    ensures HitCount(ds, o) <= VisibleCount(ds)
  {
    if ds != [] {
      var front := ds[..|ds| - 1];
      assert forall d :: d in front ==> d in ds;
      HitCountAtMostVisible(front, o);
    }
  }

  /** A counted droplet is invisible to the sensors, so no oracle that follows the
      group test reports it on a later pass, and a later pass counts at most the
      droplets that neither sensor reported before. */
  lemma CountedNeverRecounted(ds: seq<Droplet>, inCircle: Oracle, inSquare: Oracle, later: Oracle)
    requires RespectsGroups(CollidedAll(ds, inCircle, inSquare), later)
    ensures forall i :: 0 <= i < |ds| && (Hit(inCircle, ds[i]) || Hit(inSquare, ds[i])) ==>
      !Hit(later, CollidedAll(ds, inCircle, inSquare)[i])
    ensures HitCount(CollidedAll(ds, inCircle, inSquare), later) <= VisibleCount(CollidedAll(ds, inCircle, inSquare))
  {
    var r := CollidedAll(ds, inCircle, inSquare);
    forall i | 0 <= i < |ds| && (Hit(inCircle, ds[i]) || Hit(inSquare, ds[i]))
      ensures !Hit(later, r[i])
    {
      assert r[i] in r;
      assert !Interacts(r[i].groups, SensorGroups);
    }
    HitCountAtMostVisible(r, later);
  }

  /** Once counted, a droplet keeps the counted groups through every later system
      that touches it: a timer tick, a physics step that moves it and another
      collision pass.  So while it lives no oracle that follows the group test
      reports it again. */
  lemma CountedStaysInvisible(d: Droplet, delta: nat, p: Vec3, inCircle: Oracle, inSquare: Oracle, later: Oracle)
    requires d.groups == CountedGroups && Valid(d.timer)
    ensures Advance(d, delta).groups == CountedGroups
    ensures d.(translation := p).groups == CountedGroups
    ensures Collided(d, inCircle, inSquare).groups == CountedGroups
    ensures (Hit(later, d) ==> Interacts(d.groups, SensorGroups)) ==> !Hit(later, d)
  {
  }

  /** A collision pass keeps the droplets well formed. */
  lemma CollidedAllKeepsWellFormed(ds: seq<Droplet>, next: Entity, inCircle: Oracle, inSquare: Oracle)
    requires WellFormed(ds, next)
    ensures WellFormed(CollidedAll(ds, inCircle, inSquare), next)
  {
    var r := CollidedAll(ds, inCircle, inSquare);
    forall d | d in r
      ensures LiveDroplet(d) && d.entity < next
    {
      var i :| 0 <= i < |r| && r[i] == d;
      assert ds[i] in ds;
    }
  }

  /** The loop of `check_collisions`: each droplet meets the disk test and then,
      independently, the square test; each positive test counts one hit for that
      sensor and marks the droplet. */
  method CollisionPass(ds: seq<Droplet>, inCircle: Oracle, inSquare: Oracle)
    returns (circleHits: nat, squareHits: nat, updated: seq<Droplet>)
    ensures circleHits == HitCount(ds, inCircle) && squareHits == HitCount(ds, inSquare)
    ensures updated == CollidedAll(ds, inCircle, inSquare)
  {
    circleHits, squareHits, updated := 0, 0, ds;
    var i := 0;
    while i < |updated|
      invariant 0 <= i <= |updated| == |ds|
      invariant forall k :: 0 <= k < i ==> updated[k] == Collided(ds[k], inCircle, inSquare)
      invariant forall k :: i <= k < |ds| ==> updated[k] == ds[k]
      invariant circleHits == HitCount(ds[..i], inCircle)
      invariant squareHits == HitCount(ds[..i], inSquare)
    {
      HitCountExtend(ds, i, inCircle);
      HitCountExtend(ds, i, inSquare);
      var d := updated[i];
      if inCircle(d.entity) == Some(true) {
        circleHits := circleHits + 1;
        d := d.(groups := d.groups.(filters := HitFilter));
        d := d.(timer := Once(HitGrace));
      }
      if inSquare(d.entity) == Some(true) {
        squareHits := squareHits + 1;
        d := d.(groups := d.groups.(filters := HitFilter));
        d := d.(timer := Once(HitGrace));
      }
      updated := updated[i := d];
      i := i + 1;
    }
    assert ds[..i] == ds;
  }

  // ---------------------------------------------------------------------------
  // despawn_droplets

  /** A droplet is removed when its ticked timer has just finished or it has
      fallen below the floor. */
  predicate Retired(d: Droplet, delta: nat)
    requires Valid(d.timer)
  {
    Tick(d.timer, delta).justFinished || d.translation.y < FloorHeight
  }

  function Advance(d: Droplet, delta: nat): Droplet
    requires Valid(d.timer)
  {
    d.(timer := Tick(d.timer, delta))
  }

  /** A live droplet above the floor is removed exactly on the tick that spends
      what is left of its timer. */
  lemma RetiredWhenTimeSpent(d: Droplet, delta: nat)
    requires LiveDroplet(d) && d.translation.y >= FloorHeight
    ensures Retired(d, delta) <==> d.timer.duration <= d.timer.elapsed + delta
  {
  }

  /** The droplets left after one tick of `delta`: exactly the ones not retired,
      in their order, each with its timer advanced. */
  function Survivors(ds: seq<Droplet>, delta: nat): (r: seq<Droplet>)
    requires forall d :: d in ds ==> Valid(d.timer)
    ensures |r| <= |ds|
    ensures forall d :: d in r ==>
      exists i :: 0 <= i < |ds| && !Retired(ds[i], delta) && d == Advance(ds[i], delta)
    ensures forall i :: 0 <= i < |ds| && !Retired(ds[i], delta) ==> Advance(ds[i], delta) in r
    decreases |ds|
  {
    if ds == [] then []
    else
      var n := |ds| - 1;
      assert forall d :: d in ds[..n] ==> d in ds;
      var rest := Survivors(ds[..n], delta);
      if Retired(ds[n], delta) then rest else rest + [Advance(ds[n], delta)]
  }

  /** A retired droplet's entity is gone and every other droplet's entity is
      still there. */
  lemma RetiredAreGone(ds: seq<Droplet>, next: Entity, delta: nat)
    requires WellFormed(ds, next)
    ensures forall i :: 0 <= i < |ds| ==>
      (Retired(ds[i], delta) <==> forall d :: d in Survivors(ds, delta) ==> d.entity != ds[i].entity)
  {
    var r := Survivors(ds, delta);
    forall i | 0 <= i < |ds|
      ensures Retired(ds[i], delta) <==> forall d :: d in r ==> d.entity != ds[i].entity
    {
      if Retired(ds[i], delta) {
        forall d | d in r
          ensures d.entity != ds[i].entity
        {
          var j :| 0 <= j < |ds| && !Retired(ds[j], delta) && d == Advance(ds[j], delta);
          assert i != j;
        }
      } else {
        assert Advance(ds[i], delta) in r;
      }
    }
  }

  /** A despawn pass keeps the droplets well formed: a surviving timer that has not
      just finished is still running. */
  lemma {:induction false} SurvivorsKeepWellFormed(ds: seq<Droplet>, next: Entity, delta: nat)
    requires WellFormed(ds, next)
    ensures WellFormed(Survivors(ds, delta), next)
    decreases |ds|
  {
    if ds != [] {
      var n := |ds| - 1;
      var front := ds[..n];
      assert forall d :: d in front ==> d in ds;
      assert WellFormed(front, next);
      SurvivorsKeepWellFormed(front, next, delta);
      var rest := Survivors(front, delta);
      if !Retired(ds[n], delta) {
        var r := rest + [Advance(ds[n], delta)];
        forall i, j | 0 <= i < j < |r|
          ensures r[i].entity != r[j].entity
        {
          if j == |rest| {
            assert rest[i] in rest;
            var k :| 0 <= k < n && rest[i] == Advance(front[k], delta);
          }
        }
      }
    }
  }

  /** The loop of `despawn_droplets`: ticks each droplet's timer and keeps the
      droplets that are not retired. */
  method DespawnPass(ds: seq<Droplet>, delta: nat) returns (kept: seq<Droplet>)
    requires forall d :: d in ds ==> Valid(d.timer)
    ensures kept == Survivors(ds, delta)
  {
    kept := [];
    var i := 0;
    while i < |ds|
      invariant 0 <= i <= |ds|
      invariant forall d :: d in ds[..i] ==> Valid(d.timer)
      invariant kept == Survivors(ds[..i], delta)
    {
      assert ds[..i + 1][..i] == ds[..i];
      assert ds[i] in ds;
      var d := ds[i].(timer := Tick(ds[i].timer, delta));
      if !(d.timer.justFinished || d.translation.y < FloorHeight) {
        kept := kept + [d];
      }
      i := i + 1;
    }
    assert ds[..i] == ds;
  }

  // ---------------------------------------------------------------------------
  // The simulation state

  /** The `Data` resource (the two counters and the estimate), the application
      state and the live droplet entities.  `nextEntity` stands for the engine's
      entity allocator. */
  class World {
    var state: AppState
    var circle: nat
    var square: nat
    var pi: real
    var droplets: seq<Droplet>
    var nextEntity: Entity

    /** Droplets are well formed and the estimate is the hit ratio once the square
        has been hit, zero before. */
    ghost predicate Valid()
      reads this
    {
      && WellFormed(droplets, nextEntity)
      && (square == 0 ==> pi == 0.0)
      && (square > 0 ==> pi == circle as real / square as real)
    }

    /** Start-up: `Loading`, `Data::default()` and no droplets. */
    constructor ()
      ensures Valid()
      ensures state == AppState.Loading
      ensures circle == 0 && square == 0 && pi == 0.0
      ensures droplets == []
    {
      state := AppState.Loading;
      circle, square, pi := 0, 0, 0.0;
      droplets := [];
      nextEntity := 0;
    }

    /** Runs while `Loading`: enter `InGame` once the assets have loaded, stay
        otherwise (including after a failure). */
    method CheckLoadAssets(load: LoadState)
      requires Valid() && state == AppState.Loading
      modifies this`state
      ensures Valid()
      ensures state == (if load == LoadState.Loaded then AppState.InGame else AppState.Loading)
    {
      match load
      case Failed =>
      case Loaded =>
        state := AppState.InGame;
      case _ =>
    }

    /** `spawn_droplets`: adds `BatchSize` new droplets, one per pair of random
        draws; the droplets already there are untouched. */
    method SpawnDroplets(rolls: seq<Roll>)
      requires Valid() && state == AppState.InGame
      requires |rolls| == BatchSize && forall roll :: roll in rolls ==> InLaunchArea(roll)
      modifies this`droplets, this`nextEntity
      ensures Valid()
      ensures droplets == old(droplets) + Batch(old(nextEntity), rolls)
      ensures nextEntity == old(nextEntity) + BatchSize
    {
      BatchKeepsWellFormed(droplets, nextEntity, rolls);
      var spawned := SpawnPass(nextEntity, rolls);
      droplets, nextEntity := droplets + spawned, nextEntity + BatchSize;
    }

    /** `check_collisions`: one pass of both sensor tests over the droplets,
        then the estimate is recomputed when the square has been hit at least
        once and otherwise keeps its previous value. */
    method CheckCollisions(inCircle: Oracle, inSquare: Oracle)
      requires Valid() && state == AppState.InGame
      modifies this`circle, this`square, this`pi, this`droplets
      ensures Valid()
      ensures droplets == CollidedAll(old(droplets), inCircle, inSquare)
      ensures circle == old(circle) + HitCount(old(droplets), inCircle)
      ensures square == old(square) + HitCount(old(droplets), inSquare)
      ensures pi == if square > 0 then circle as real / square as real else old(pi)
    {
      CollidedAllKeepsWellFormed(droplets, nextEntity, inCircle, inSquare);
      var circleHits, squareHits, updated := CollisionPass(droplets, inCircle, inSquare);
      circle, square, droplets := circle + circleHits, square + squareHits, updated;
      if square > 0 {
        pi := circle as real / square as real;
      }
    }

    /** `despawn_droplets`: every droplet's timer ticks by `delta`; the droplets
        whose timer just finished or that have fallen below the floor are
        removed. */
    method DespawnDroplets(delta: nat)
      requires Valid() && state == AppState.InGame
      modifies this`droplets
      ensures Valid()
      ensures droplets == Survivors(old(droplets), delta)
    {
      SurvivorsKeepWellFormed(droplets, nextEntity, delta);
      droplets := DespawnPass(droplets, delta);
    }

    /** The physics engine's step, which moves the dynamic droplet bodies: only
        translations change. */
    method PhysicsStep(moved: Entity -> Vec3)
      requires Valid()
      modifies this`droplets
      ensures Valid()
      ensures |droplets| == |old(droplets)|
      ensures forall i :: 0 <= i < |droplets| ==>
        droplets[i] == old(droplets)[i].(translation := moved(old(droplets)[i].entity))
    {
      var ds := droplets;
      droplets := seq(|ds|, i requires 0 <= i < |ds| => ds[i].(translation := moved(ds[i].entity)));
      forall d | d in droplets
        ensures LiveDroplet(d) && d.entity < nextEntity
      {
        var i :| 0 <= i < |droplets| && droplets[i] == d;
        assert ds[i] in ds;
      }
    }
  }
}
