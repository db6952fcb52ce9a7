/**
 * Polled timers and particles. `update` walks `timers`, firing each one
 * whose end time has passed and splicing it out, then walks `particles`,
 * splicing out the expired ones; the rocket's flight arms the respawn timer.
 */
module Timers {
  import opened JsArray
  import opened Viewport
  import opened Fades
  import opened Rocketry
  import Menu
  import Sweep

  /** What a timer runs: `advanceSlide`, the slide-showing closure, or the rocket respawn closure. */
  datatype Action = AdvanceSlide | ShowSlide | RespawnRocket

  /** `new Timer(duration, action)`, created at `startTime`. */
  datatype Timer = Timer(startTime: int, endTime: real, action: Action)

  function NewTimer(now: int, duration: real, action: Action): Timer {
    Timer(now, now as real + duration, action)
  }

  /** `Timer.update` runs the action exactly when the clock is strictly past `endTime`. */
  predicate Due(t: Timer, now: int) {
    now as real > t.endTime
  }

  /** A particle; only its end time matters to the game state. */
  datatype Particle = Particle(endTime: int)

  const ParticleLifespan: int := 500

  function NewParticle(now: int): Particle {
    Particle(now + ParticleLifespan)
  }

  /** `Particle.update` deactivates a particle once the clock reaches `endTime`. */
  predicate Expired(p: Particle, now: int) {
    now >= p.endTime
  }

  /** The expiry test at time `now`. */
  function ExpiredAt(now: int): Particle -> bool {
    p => Expired(p, now)
  }

  /** The particle loop of `update`. */
  function ParticleSweep(particles: seq<Particle>, now: int): seq<Particle> {
    Sweep.SweepFrom(particles, 0, ExpiredAt(now))
  }

  /** A particle is never expired when it is made, and live particles survive a sweep. */
  lemma ParticleSweepKeepsLive(particles: seq<Particle>, now: int, later: int)
    requires now <= later < now + ParticleLifespan
    ensures !Expired(NewParticle(now), later)
    ensures forall p :: !Expired(p, later) ==> multiset(ParticleSweep(particles, later))[p] == multiset(particles)[p]
    ensures multiset(ParticleSweep(particles, later)) <= multiset(particles)
  {
    Sweep.SweepIsSurvivors(particles, ExpiredAt(later));
    Sweep.SurvivorsShrink(particles, ExpiredAt(later));
    forall p | !Expired(p, later)
      ensures multiset(ParticleSweep(particles, later))[p] == multiset(particles)[p]
    {
      Sweep.SurvivorsKeep(particles, ExpiredAt(later), p);
    }
  }

  // The state the timer actions touch.

  /** `timers`, `currentSlide`, the fade queues, `rocketQueued` and the rocket. */
  datatype TimerWorld = TimerWorld(timers: seq<Timer>, slide: nat, fadeOut: seq<Element>, fadeIn: seq<Element>,
                                   rocketQueued: bool, rocket: Rocket)

  /** The clock, the view for the rocket's culling test, and where a respawn would place the rocket. */
  datatype TimerEnv = TimerEnv(now: int, cam: Camera, scr: Screen, placement: Placement)

  /** The two timers `advanceSlide` schedules. */
  function SlideTimers(now: int): seq<Timer> {
    [NewTimer(now, 250.0, ShowSlide), NewTimer(now, 5000.0, AdvanceSlide)]
  }

  /** Running a timer's action. */
  function Fire(w: TimerWorld, a: Action, env: TimerEnv): TimerWorld {
    match a
    case AdvanceSlide =>
      w.(slide := Menu.NextSlide(w.slide), fadeOut := w.fadeOut + [SlideArea], timers := w.timers + SlideTimers(env.now))
    case ShowSlide =>
      w.(fadeIn := w.fadeIn + [SlideArea])
    case RespawnRocket =>
      w.(rocketQueued := false,
         rocket := if !RocketInView(env.cam, env.scr, w.rocket) then Reset(w.rocket, env.placement) else w.rocket)
  }

  function DueCount(s: seq<Timer>, now: int): nat {
    CountWhere(s, t => Due(t, now))
  }

  /** The due timers at or after position `i`. */
  function DueFrom(s: seq<Timer>, i: nat, now: int): nat {
    if i < |s| then DueCount(s[i..], now) else 0
  }

  /** The actions only schedule timers that are not yet due. */
  lemma FireAppendsNotDue(w: TimerWorld, a: Action, env: TimerEnv)
    ensures |Fire(w, a, env).timers| >= |w.timers| && Fire(w, a, env).timers[..|w.timers|] == w.timers
    ensures DueCount(Fire(w, a, env).timers[|w.timers|..], env.now) == 0
  {
    var t := Fire(w, a, env).timers;
    var pushed := t[|w.timers|..];
    if a == AdvanceSlide {
      assert pushed == SlideTimers(env.now);
      assert !Due(pushed[0], env.now) && !Due(pushed[1], env.now);
      assert pushed[1..][1..] == [];
      assert CountWhere(pushed[1..], t => Due(t, env.now)) == 0;
    } else {
      assert pushed == [];
    }
  }

  lemma DueFromStep(s: seq<Timer>, i: nat, now: int)
    requires i < |s|
    ensures DueFrom(s, i, now) == (if Due(s[i], now) then 1 else 0) + DueFrom(s, i + 1, now)
  {
    assert s[i..][0] == s[i];
    assert s[i..][1..] == s[i + 1..];
    var due := t => Due(t, now);
    assert DueCount(s[i..], now) == CountWhere(s[i..], due);
    assert CountWhere(s[i..], due) == (if due(s[i]) then 1 else 0) + CountWhere(s[i + 1..], due);
    if i + 1 == |s| {
      assert s[i + 1..] == [];
    }
  }

  /** Firing the timer at `i` and splicing it out leaves fewer due timers ahead. */
  lemma FiredLeavesFewerDue(w: TimerWorld, i: nat, env: TimerEnv)
    requires i < |w.timers| && Due(w.timers[i], env.now)
    ensures var t := Fire(w, w.timers[i].action, env).timers;
      i < |t| && DueFrom(Splice(t, i), i + 1, env.now) < DueFrom(w.timers, i, env.now)
  {
    var now := env.now;
    var s := w.timers;
    FireAppendsNotDue(w, s[i].action, env);
    var t := Fire(w, s[i].action, env).timers;
    var pushed := t[|s|..];
    assert t == s + pushed;
    DueFromStep(s, i, now);
    var r := Splice(t, i);
    if i + 1 < |r| {
      if i + 2 <= |s| {
        assert r[i + 1..] == s[i + 2..] + pushed;
        CountAppend(s[i + 2..], pushed, t => Due(t, now));
        DueFromStep(s, i + 1, now);
      } else {
        assert r[i + 1..] == pushed[1..];
        assert pushed == [pushed[0]] + pushed[1..];
        CountAppend([pushed[0]], pushed[1..], t => Due(t, now));
      }
    }
  }

  /** The rest of the timer loop from position `i`; scheduled timers are visited too, but are never due. */
  function SweepFrom(w: TimerWorld, i: nat, env: TimerEnv): TimerWorld
    decreases DueFrom(w.timers, i, env.now), |w.timers| - i
  {
    if i >= |w.timers| then w
    else if Due(w.timers[i], env.now) then
      FiredLeavesFewerDue(w, i, env);
      var w' := Fire(w, w.timers[i].action, env);
      SweepFrom(w'.(timers := Splice(w'.timers, i)), i + 1, env)
    else
      DueFromStep(w.timers, i, env.now);
      SweepFrom(w, i + 1, env)
  }

  predicate IsRespawn(t: Timer) {
    t.action == RespawnRocket
  }

  function RespawnCount(s: seq<Timer>): nat {
    CountWhere(s, IsRespawn)
  }

  /** `rocketQueued` says exactly whether a respawn timer is pending, and at most one is. */
  predicate RespawnArmed(rocketQueued: bool, timers: seq<Timer>) {
    RespawnCount(timers) <= 1 && (rocketQueued <==> RespawnCount(timers) == 1)
  }

  predicate WorldArmed(w: TimerWorld) {
    RespawnArmed(w.rocketQueued, w.timers)
  }

  /** Firing a timer and splicing it out keeps the respawn flag in step with the pending respawn timer. */
  lemma FireKeepsArmed(w: TimerWorld, i: nat, env: TimerEnv)
    requires i < |w.timers| && WorldArmed(w)
    ensures var w' := Fire(w, w.timers[i].action, env);
      i < |w'.timers| && WorldArmed(w'.(timers := Splice(w'.timers, i)))
  {
    var a := w.timers[i].action;
    var isRespawn := IsRespawn;
    var w' := Fire(w, a, env);
    FireAppendsNotDue(w, a, env);
    assert w'.timers[i] == w.timers[i];
    CountSplice(w'.timers, i, isRespawn);
    if a == AdvanceSlide {
      CountAppend(w.timers, SlideTimers(env.now), isRespawn);
      var st := SlideTimers(env.now);
      assert st[1..][1..] == [];
      assert CountWhere(st[1..], isRespawn) == 0;
      assert CountWhere(st, isRespawn) == 0;
    } else if a == RespawnRocket {
      assert w'.timers == w.timers;
      CountSplice(w.timers, i, isRespawn);
      assert RespawnCount(w.timers) == 1;
    }
  }

  /** The timer loop keeps at most one respawn timer pending, with `rocketQueued` telling whether one is. */
  lemma {:induction false} SweepKeepsArmed(w: TimerWorld, i: nat, env: TimerEnv)
    requires WorldArmed(w)
    ensures WorldArmed(SweepFrom(w, i, env))
    decreases DueFrom(w.timers, i, env.now), |w.timers| - i
  {
    if i < |w.timers| {
      if Due(w.timers[i], env.now) {
        FiredLeavesFewerDue(w, i, env);
        FireKeepsArmed(w, i, env);
        var w' := Fire(w, w.timers[i].action, env);
        SweepKeepsArmed(w'.(timers := Splice(w'.timers, i)), i + 1, env);
      } else {
        DueFromStep(w.timers, i, env.now);
        SweepKeepsArmed(w, i + 1, env);
      }
    }
  }

  /** The slide counter stays a valid slide number. */
  lemma {:induction false} SweepKeepsSlide(w: TimerWorld, i: nat, env: TimerEnv)
    requires w.slide < Menu.SlideCount
    ensures SweepFrom(w, i, env).slide < Menu.SlideCount
    decreases DueFrom(w.timers, i, env.now), |w.timers| - i
  {
    if i < |w.timers| {
      if Due(w.timers[i], env.now) {
        FiredLeavesFewerDue(w, i, env);
        var w' := Fire(w, w.timers[i].action, env);
        Menu.NextSlideCycles(w.slide);
        SweepKeepsSlide(w'.(timers := Splice(w'.timers, i)), i + 1, env);
      } else {
        DueFromStep(w.timers, i, env.now);
        SweepKeepsSlide(w, i + 1, env);
      }
    }
  }

  /** A timer that is not yet due is never lost by the loop. */
  lemma {:induction false} SweepKeepsPending(w: TimerWorld, i: nat, env: TimerEnv, t: Timer)
    requires !Due(t, env.now)
    ensures multiset(SweepFrom(w, i, env).timers)[t] >= multiset(w.timers)[t]
    decreases DueFrom(w.timers, i, env.now), |w.timers| - i
  {
    if i < |w.timers| {
      if Due(w.timers[i], env.now) {
        FiredLeavesFewerDue(w, i, env);
        FireAppendsNotDue(w, w.timers[i].action, env);
        var w' := Fire(w, w.timers[i].action, env);
        var s := w'.timers;
        assert s == w.timers + s[|w.timers|..];
        SpliceMembers(s, i);
        assert s[i] != t;
        SweepKeepsPending(w'.(timers := Splice(s, i)), i + 1, env, t);
      } else {
        DueFromStep(w.timers, i, env.now);
        SweepKeepsPending(w, i + 1, env, t);
      }
    }
  }

  /**
   * When the respawn timer fires it clears `rocketQueued`, and it resets the
   * rocket only if the rocket is still out of view.
   */
  lemma RespawnFiring(w: TimerWorld, env: TimerEnv)
    ensures !Fire(w, RespawnRocket, env).rocketQueued
    ensures RocketInView(env.cam, env.scr, w.rocket) ==> Fire(w, RespawnRocket, env).rocket == w.rocket
    ensures !RocketInView(env.cam, env.scr, w.rocket) ==> Fire(w, RespawnRocket, env).rocket == Reset(w.rocket, env.placement)
    ensures Fire(w, RespawnRocket, env).timers == w.timers
  {
  }

  // The rocket's flight, after the timers and particles have been updated.

  /** The state the flight step touches. */
  datatype Flight = Flight(rocket: Rocket, rocketQueued: bool, timers: seq<Timer>, particles: seq<Particle>)

  /** The respawn delay `Math.random() * 10000 + 5000` for the draw `u`. */
  function RespawnDelay(u: real): real {
    u * 10000.0 + 5000.0
  }

  /**
   * An active rocket leaves a particle, moves by its velocity, and is shown
   * while in view; out of view, it arms a respawn timer unless one is armed.
   */
  function Fly(f: Flight, now: int, cam: Camera, scr: Screen, u: real): Flight {
    if !f.rocket.active then f
    else
      var r := f.rocket.(x := f.rocket.x + f.rocket.vx, y := f.rocket.y + f.rocket.vy);
      var ps := f.particles + [NewParticle(now)];
      if RocketInView(cam, scr, r) then Flight(r.(visible := true), f.rocketQueued, f.timers, ps)
      else if !f.rocketQueued then Flight(r, true, f.timers + [NewTimer(now, RespawnDelay(u), RespawnRocket)], ps)
      else Flight(r, true, f.timers, ps)
  }

  /**
   * The flight step arms a respawn timer only when none is pending, so the
   * flag and the pending timer stay in step; an armed timer waits at least 5 seconds.
   */
  lemma FlyKeepsArmed(f: Flight, now: int, cam: Camera, scr: Screen, u: real)
    requires RespawnArmed(f.rocketQueued, f.timers) && 0.0 <= u
    ensures var g := Fly(f, now, cam, scr, u); RespawnArmed(g.rocketQueued, g.timers)
    ensures var g := Fly(f, now, cam, scr, u);
      |g.timers| > |f.timers| ==> !f.rocketQueued && g.timers[|f.timers|].endTime >= now as real + 5000.0
  {
    var g := Fly(f, now, cam, scr, u);
    if |g.timers| > |f.timers| {
      assert g.timers == f.timers + [NewTimer(now, RespawnDelay(u), RespawnRocket)];
      CountAppend(f.timers, [NewTimer(now, RespawnDelay(u), RespawnRocket)], IsRespawn);
    }
  }
}
