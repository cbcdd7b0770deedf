/** A model of the one-shot (`TimerMode::Once`) timer of the Bevy engine, as the
    droplets of the simulation use it.  Times are whole nanoseconds, the resolution
    of the `Duration` values the engine passes around. */
module BevyTimer {

  /** `elapsed` never exceeds `duration`; `finished` is sticky once reached and
      `justFinished` says that the latest tick is the one that reached it. */
  datatype Timer = Timer(duration: nat, elapsed: nat, finished: bool, justFinished: bool)

  /** What the engine's timer keeps true of every timer it hands out. */
  predicate Valid(t: Timer) {
    && t.elapsed <= t.duration
    && (t.finished ==> t.elapsed == t.duration)
    && (t.justFinished ==> t.finished)
  }

  /** A timer still counting down. */
  predicate Running(t: Timer) {
    Valid(t) && !t.finished
  }

  /** `Timer::from_seconds(duration, TimerMode::Once)`: nothing elapsed yet. */
  function Once(duration: nat): Timer {
    Timer(duration, 0, false, false)
  }

  /** `Timer::tick(delta)` for a one-shot timer that is not paused: a finished timer
      stays put and reports no new finish; otherwise the elapsed time grows by
      `delta` and is clamped to the duration once the duration is reached. */
  function Tick(t: Timer, delta: nat): (r: Timer)
    requires Valid(t)
    ensures Valid(r) && r.duration == t.duration
    ensures r.justFinished <==> !t.finished && t.duration <= t.elapsed + delta
    ensures r.finished <==> t.finished || t.duration <= t.elapsed + delta
    ensures !r.finished ==> r.elapsed == t.elapsed + delta
  {
    if t.finished then
      t.(justFinished := false)
    else if t.elapsed + delta >= t.duration then
      Timer(t.duration, t.duration, true, true)
    else
      Timer(t.duration, t.elapsed + delta, false, false)
  }

  /** Sum of a sequence of tick lengths. */
  function Total(deltas: seq<nat>): nat {
    if deltas == [] then 0 else deltas[0] + Total(deltas[1..])
  }

  /** The timer after one tick per element of `deltas`, in order. */
  function TickAll(t: Timer, deltas: seq<nat>): (r: Timer)
    requires Valid(t)
    ensures Valid(r)
    decreases |deltas|
  {
    if deltas == [] then t else TickAll(Tick(t, deltas[0]), deltas[1..])
  }

  /** A run of ticks finishes the timer exactly when their total reaches what was
      left of the duration; until then the elapsed time is the plain sum. */
  lemma {:induction false} TickAllFinishes(t: Timer, deltas: seq<nat>)
    requires Valid(t)
    ensures TickAll(t, deltas).finished <==>
      t.finished || (deltas != [] && t.duration <= t.elapsed + Total(deltas))
    ensures !TickAll(t, deltas).finished ==> TickAll(t, deltas).elapsed == t.elapsed + Total(deltas)
    decreases |deltas|
  {
    if deltas != [] {
      TickAllFinishes(Tick(t, deltas[0]), deltas[1..]);
    }
  }

  /** A one-shot timer reports `justFinished` on one tick only: a tick after the
      finishing one reports no finish, whatever its length. */
  lemma {:induction false} FinishReportedOnce(t: Timer, deltas: seq<nat>, delta: nat)
    requires Valid(t) && t.justFinished
    ensures !Tick(TickAll(t, deltas), delta).justFinished
  {
    TickAllFinishes(t, deltas);
  }
}
