/**
 * The game's global state and the operations that update it in place:
 * `readKey`, `generateLevel`, `createCircle`, `shoot`, `changePane`,
 * `togglePause`, `selectLevel`, `advanceSlide`, and the frame loops of
 * `update`. Each operation of the script is specified by the pure
 * definitions of the other modules: its method leaves the state those
 * definitions give, and keeps the parts of `Valid` it needs.
 */
module GameState {
  import opened JsMath
  import opened JsArray
  import Keys
  import opened Puzzle
  import opened Viewport
  import opened Fades
  import Menu
  import opened Rocketry
  import opened Timers
  import Pool
  import Shooting
  import Sweep

  /**
   * The looks at load: `hud`, `pauseGraphic` and `levelPane` hidden, the
   * end pane hidden at alpha 0, the menu box shown at alpha 1, and every
   * other element at the display-object default of alpha 1, shown.
   */
  const LoadLooks: map<Element, Look> := map[
    MenuBox := Look(1.0, true), PlayGraphic := Look(1.0, true), PauseGraphic := Look(1.0, false),
    Hud := Look(1.0, false), SlideArea := Look(1.0, true), LevelPane := Look(1.0, false),
    DirectionsPane := Look(1.0, true), EndPane := Look(0.0, false)]

  /** The pool before `generateLevel` first runs: no bubbles. */
  const EmptyPool: Pool.PoolState := Pool.PoolState(map[], [], [], [], 0, 0)

  class Game {
    /** The crosshair `radius`, computed once at load. */
    const crosshair: real
    var keysDown: seq<int>
    var current: real
    var target: real
    var level: nat
    /** `index`, `pause` and `menuBox.active`. */
    var index: nat
    var pause: bool
    var menuActive: bool
    var fadeOut: seq<Element>
    var fadeIn: seq<Element>
    /** The alpha and visibility of every element that is ever faded. */
    var looks: map<Element, Look>
    var currentSlide: nat
    var endText: string
    var timers: seq<Timer>
    var particles: seq<Particle>
    var rocket: Rocket
    var rocketQueued: bool
    /** Every bubble ever made, by identity; `circles`, `simpleCircles` and `collidingCircles` hold identities. */
    var bubbles: map<nat, Pool.Bubble>
    var circles: seq<nat>
    var simpleCircles: seq<nat>
    var colliding: seq<nat>
    var nextId: nat
    /** How many `createCircle` draws have been used. */
    var spawned: nat

    function ScreensOf(): Menu.Screens
      reads this`index, this`pause, this`menuActive, this`fadeOut, this`fadeIn
    {
      Menu.Screens(index, pause, menuActive, fadeOut, fadeIn)
    }

    function PoolOf(): Pool.PoolState
      reads this`bubbles, this`circles, this`simpleCircles, this`colliding, this`nextId, this`spawned
    {
      Pool.PoolState(bubbles, circles, simpleCircles, colliding, nextId, spawned)
    }

    function TimerWorldOf(): TimerWorld
      reads this`timers, this`currentSlide, this`fadeOut, this`fadeIn, this`rocketQueued, this`rocket
    {
      TimerWorld(timers, currentSlide, fadeOut, fadeIn, rocketQueued, rocket)
    }

    function FlightOf(): Flight
      reads this`rocket, this`rocketQueued, this`timers, this`particles
    {
      Flight(rocket, rocketQueued, timers, particles)
    }

    function TableOf(): Shooting.Table
      reads this`bubbles, this`current, this`index, this`pause, this`menuActive, this`fadeOut, this`fadeIn
      reads this`looks, this`endText, this`particles
    {
      Shooting.Table(bubbles, current, ScreensOf(), looks, endText, particles)
    }

    /** What `shoot` reads and leaves alone, at time `now`. */
    function AimOf(now: int, cam: Camera, scr: Screen): Shooting.Aim
      reads this`colliding, this`circles, this`level, this`target, this`rocket
      requires LevelValid()
    {
      Shooting.Aim(colliding, circles, Config(), target, now, cam, scr, rocket)
    }

    /** The level being played. */
    function Config(): LevelConfig
      reads this`level
      requires 1 <= level <= |Levels|
    {
      Levels[level - 1]
    }

    /**
     * The invariants: a pane index and slide within range, a well-formed
     * `keysDown`, a valid bubble pool, a look for every element, a level the
     * configuration has, and the respawn flag in step with the pending
     * respawn timer. Each part reads only its own fields, so a method that
     * leaves those fields alone keeps that part.
     */
    ghost predicate Valid()
      reads this
    {
      ScreensValid() && SlideValid() && KeysValid() && PoolValid() && LooksValid() && LevelValid() && Armed()
    }

    ghost predicate ScreensValid()
      reads this`index
    {
      index < |Menu.Panes|
    }

    ghost predicate SlideValid()
      reads this`currentSlide
    {
      currentSlide < Menu.SlideCount
    }

    ghost predicate KeysValid()
      reads this`keysDown
    {
      Keys.WellFormed(keysDown)
    }

    ghost predicate PoolValid()
      reads this`bubbles, this`circles, this`simpleCircles, this`colliding, this`nextId, this`spawned
    {
      Pool.Valid(PoolOf())
    }

    ghost predicate LooksValid()
      reads this`looks
    {
      Total(looks)
    }

    ghost predicate LevelValid()
      reads this`level
    {
      1 <= level <= |Levels|
    }

    ghost predicate Armed()
      reads this`rocketQueued, this`timers
    {
      RespawnArmed(rocketQueued, timers)
    }

    /**
     * The globals as the script sets them up around its first
     * `generateLevel()`, on a `width` by `height` screen: no keys held,
     * level 1, the directions pane in the open menu, the load-time looks and
     * end text, the rocket reset and the first `advanceSlide` timer set. The
     * round itself is still the declared one: `current` and `target` at 0 and
     * no bubbles. `Load` runs the `generateLevel()` call.
     */
    constructor (width: real, height: real, texWidth: real, texHeight: real, start: Placement, now: int)
      ensures Valid()
      ensures crosshair == CrosshairRadius(width, height)
      ensures keysDown == [] && level == 1 && current == 0.0 && target == 0.0 && PoolOf() == EmptyPool
      ensures index == Menu.DirectionsIndex && !pause && menuActive && fadeOut == [] && fadeIn == []
      ensures currentSlide == 0 && !rocketQueued
      ensures looks == LoadLooks && endText == Shooting.WonText
      ensures rocket == Reset(Rocket(0.0, 0.0, 0.0, 0.0, 1.0, true, false, texWidth, texHeight), start)
      ensures timers == [NewTimer(now, 1000.0, Timers.AdvanceSlide)] && particles == []
    {
      crosshair := CrosshairRadius(width, height);
      keysDown := [];
      current := 0.0;
      target := 0.0;
      level := 1;
      index := Menu.DirectionsIndex;
      pause := false;
      menuActive := true;
      fadeOut := [];
      fadeIn := [];
      looks := LoadLooks;
      currentSlide := 0;
      endText := Shooting.WonText;
      timers := [NewTimer(now, 1000.0, Timers.AdvanceSlide)];
      particles := [];
      rocket := Reset(Rocket(0.0, 0.0, 0.0, 0.0, 1.0, true, false, texWidth, texHeight), start);
      rocketQueued := false;
      bubbles := map[];
      circles := [];
      simpleCircles := [];
      colliding := [];
      nextId := 0;
      spawned := 0;
      FirstTimerArmed(now);
      LoadLooksTotal();
      new;
    }

    /** `generateLevel()`, spelled out with the fields it leaves alone. */
    method FirstLevel(u: real, targetDraws: seq<real>, spawns: nat -> Pool.SpawnDraws)
      requires PoolValid() && LevelValid()
      requires IsDraw(u) && |targetDraws| > 0 && forall n: nat :: Pool.ValidDraws(spawns(n))
      modifies this`current, this`target, this`bubbles, this`circles, this`simpleCircles, this`nextId, this`spawned
      ensures PoolValid()
      ensures unchanged(this`keysDown, this`level, this`index, this`pause, this`menuActive, this`fadeOut, this`fadeIn)
      ensures unchanged(this`looks, this`currentSlide, this`endText, this`timers, this`particles, this`rocket)
      ensures unchanged(this`rocketQueued)
      ensures var r := NewRound(Config(), old(current), u, targetDraws); current == r.current && target == r.target
      ensures PoolOf() == Pool.Regenerate(old(PoolOf()), Config(), current, spawns)
    {
      var settled, used := GenerateLevel(u, targetDraws, spawns);
    }

    /** `readKey(e, state)` for the key code `key`; `down` is `state`. */
    method ReadKey(key: int, down: bool)
      requires KeysValid()
      modifies this`keysDown
      ensures KeysValid()
      ensures keysDown == Keys.ReadKey(old(keysDown), key, down)
    {
      Keys.ReadKeyKeepsWellFormed(keysDown, key, down);
      if key in Keys.KeysTracked {
        if key in keysDown {
          if !down {
            keysDown := Splice(keysDown, IndexOf(keysDown, key));
          }
        } else {
          keysDown := keysDown + [key];
        }
      }
    }

    method ChangePane(newIndex: nat)
      requires ScreensValid() && newIndex < |Menu.Panes|
      modifies this`index, this`fadeOut, this`fadeIn
      ensures ScreensValid()
      ensures ScreensOf() == Menu.ChangePane(old(ScreensOf()), newIndex)
    {
      if Menu.ChangePaneGuard(ScreensOf(), newIndex) {
        fadeOut := fadeOut + [Menu.Panes[index]];
        index := newIndex;
        fadeIn := fadeIn + [Menu.Panes[index]];
      }
    }

    method TogglePause()
      requires ScreensValid()
      modifies this`index, this`pause, this`menuActive, this`fadeOut, this`fadeIn
      ensures ScreensValid()
      ensures ScreensOf() == Menu.TogglePause(old(ScreensOf()))
    {
      ghost var s := ScreensOf();
      if index == Menu.DirectionsIndex {
        ChangePane(Menu.LevelIndex);
      } else if menuActive && PauseGraphic !in fadeIn && PauseGraphic !in fadeOut {
        pause := false;
        menuActive := false;
        fadeOut := fadeOut + [MenuBox];
        fadeOut := fadeOut + [PlayGraphic];
        fadeIn := fadeIn + [PauseGraphic];
        fadeIn := fadeIn + [Hud];
        assert fadeOut == s.fadeOut + [MenuBox, PlayGraphic] && fadeIn == s.fadeIn + [PauseGraphic, Hud];
      } else if PlayGraphic !in fadeIn && PlayGraphic !in fadeOut {
        pause := true;
        menuActive := true;
        fadeIn := fadeIn + [MenuBox];
        fadeOut := fadeOut + [PauseGraphic];
        fadeIn := fadeIn + [PlayGraphic];
        fadeOut := fadeOut + [Hud];
        assert fadeOut == s.fadeOut + [PauseGraphic, Hud] && fadeIn == s.fadeIn + [MenuBox, PlayGraphic];
      }
    }

    /** `advanceSlide`, at time `now`. */
    method AdvanceSlide(now: int)
      requires SlideValid() && Armed()
      modifies this`currentSlide, this`fadeOut, this`timers
      ensures SlideValid() && Armed()
      ensures currentSlide == Menu.NextSlide(old(currentSlide)) && currentSlide == (old(currentSlide) + 1) % Menu.SlideCount
      ensures fadeOut == old(fadeOut) + [SlideArea] && timers == old(timers) + SlideTimers(now)
    {
      Menu.NextSlideCycles(currentSlide);
      currentSlide := currentSlide + 1;
      if currentSlide > Menu.SlideCount - 1 {
        currentSlide := 0;
      }
      fadeOut := fadeOut + [SlideArea];
      ghost var before := timers;
      timers := timers + [NewTimer(now, 250.0, ShowSlide)];
      timers := timers + [NewTimer(now, 5000.0, Timers.AdvanceSlide)];
      assert timers == before + SlideTimers(now);
      SlideTimersKeepArmed(rocketQueued, before, now);
    }

    /** The `fadeOut` loop of `update`. */
    method FadeOutPass()
      requires LooksValid()
      modifies this`fadeOut, this`looks
      ensures LooksValid()
      ensures Pass(fadeOut, looks) == Fades.FadeOutPass(old(fadeOut), fadeIn, old(looks))
    {
      var i := 0;
      while i < |fadeOut|
        invariant Total(looks)
        invariant PassFrom(Out(fadeIn), fadeOut, looks, i) == Fades.FadeOutPass(old(fadeOut), fadeIn, old(looks))
        decreases |fadeOut| - i
      {
        var e := fadeOut[i];
        ghost var d := Out(fadeIn);
        ghost var q, l := fadeOut, looks;
        assert PassFrom(d, q, l, i) == if Stays(d, e, l[e]) then PassFrom(d, q, l[e := Nudged(d, l[e])], i + 1)
                                       else PassFrom(d, Splice(q, i), l[e := Settled(d)], i + 1);
        if looks[e].alpha > 0.0 && IndexOf(fadeIn, e) < 0 {
          looks := looks[e := looks[e].(alpha := looks[e].alpha - 0.1)];
          assert looks == l[e := Nudged(d, l[e])];
        } else {
          looks := looks[e := looks[e].(visible := false)];
          looks := looks[e := looks[e].(alpha := 0.0)];
          fadeOut := Splice(fadeOut, i);
          assert looks == l[e := Settled(d)];
        }
        i := i + 1;
      }
    }

    /** The `fadeIn` loop of `update`. */
    method FadeInPass()
      requires LooksValid()
      modifies this`fadeIn, this`looks
      ensures LooksValid()
      ensures Pass(fadeIn, looks) == Fades.FadeInPass(old(fadeIn), fadeOut, old(looks))
    {
      var i := 0;
      while i < |fadeIn|
        invariant Total(looks)
        invariant PassFrom(In(fadeOut), fadeIn, looks, i) == Fades.FadeInPass(old(fadeIn), fadeOut, old(looks))
        decreases |fadeIn| - i
      {
        var e := fadeIn[i];
        ghost var d := In(fadeOut);
        ghost var q, l := fadeIn, looks;
        assert PassFrom(d, q, l, i) == if Stays(d, e, l[e]) then PassFrom(d, q, l[e := Nudged(d, l[e])], i + 1)
                                       else PassFrom(d, Splice(q, i), l[e := Settled(d)], i + 1);
        looks := looks[e := looks[e].(visible := true)];
        if looks[e].alpha <= 1.0 && IndexOf(fadeOut, e) < 0 {
          looks := looks[e := looks[e].(alpha := looks[e].alpha + 0.1)];
          assert looks == l[e := Nudged(d, l[e])];
        } else {
          looks := looks[e := looks[e].(alpha := 1.0)];
          fadeIn := Splice(fadeIn, i);
          assert looks == l[e := Settled(d)];
        }
        i := i + 1;
      }
    }

    /** A timer's action: `advanceSlide`, the slide's fade-in, or the rocket respawn check. */
    method RunAction(action: Action, env: TimerEnv)
      requires SlideValid() && Armed()
      modifies this`timers, this`currentSlide, this`fadeOut, this`fadeIn, this`rocketQueued, this`rocket
      ensures TimerWorldOf() == Fire(old(TimerWorldOf()), action, env)
      ensures currentSlide < Menu.SlideCount
    {
      if action == Timers.AdvanceSlide {
        AdvanceSlide(env.now);
      } else if action == ShowSlide {
        fadeIn := fadeIn + [SlideArea];
      } else {
        rocketQueued := false;
        if !RocketInView(env.cam, env.scr, rocket) {
          rocket := Reset(rocket, env.placement);
        }
      }
    }

    /**
     * The timer loop of `update`: `Timer.update` runs the action of each
     * timer past its end time, and the spent timer is spliced out.
     */
    method TimerSweep(env: TimerEnv)
      requires SlideValid() && Armed()
      modifies this`timers, this`currentSlide, this`fadeOut, this`fadeIn, this`rocketQueued, this`rocket
      ensures SlideValid() && Armed()
      ensures TimerWorldOf() == SweepFrom(old(TimerWorldOf()), 0, env)
    {
      var i := 0;
      while i < |timers|
        invariant SlideValid() && Armed()
        invariant SweepFrom(TimerWorldOf(), i, env) == SweepFrom(old(TimerWorldOf()), 0, env)
        decreases DueFrom(timers, i, env.now), |timers| - i
      {
        if env.now as real > timers[i].endTime {
          ghost var w := TimerWorldOf();
          FiredLeavesFewerDue(w, i, env);
          FireKeepsArmed(w, i, env);
          RunAction(timers[i].action, env);
          timers := Splice(timers, i);
        } else {
          DueFromStep(timers, i, env.now);
        }
        i := i + 1;
      }
    }

    /** The particle loop of `update`: `Particle.update` retires a particle once `now` reaches its end time. */
    method ParticleSweep(now: int)
      modifies this`particles
      ensures particles == Timers.ParticleSweep(old(particles), now)
    {
      var i := 0;
      while i < |particles|
        invariant Sweep.SweepFrom(particles, i, ExpiredAt(now)) == Timers.ParticleSweep(old(particles), now)
        decreases |particles| - i
      {
        if now >= particles[i].endTime {
          particles := Splice(particles, i);
        }
        i := i + 1;
      }
    }

    /** The rocket step of `update`, with `u` the draw for the respawn delay. */
    method Fly(now: int, cam: Camera, scr: Screen, u: real)
      requires Armed() && 0.0 <= u
      modifies this`rocket, this`rocketQueued, this`timers, this`particles
      ensures Armed()
      ensures FlightOf() == Timers.Fly(old(FlightOf()), now, cam, scr, u)
    {
      FlyKeepsArmed(FlightOf(), now, cam, scr, u);
      if rocket.active {
        particles := particles + [NewParticle(now)];
        rocket := rocket.(x := rocket.x + rocket.vx);
        rocket := rocket.(y := rocket.y + rocket.vy);
        if RocketInView(cam, scr, rocket) {
          rocket := rocket.(visible := true);
        } else if !rocketQueued {
          rocketQueued := true;
          timers := timers + [NewTimer(now, RespawnDelay(u), RespawnRocket)];
        }
      }
    }

    /** `createCircle`, with `d` the draws it makes. */
    method CreateCircle(d: Pool.SpawnDraws)
      requires LevelValid() && Pool.ValidDraws(d)
      modifies this`bubbles, this`circles, this`simpleCircles, this`nextId, this`spawned
      ensures PoolOf() == Pool.Spawn(old(PoolOf()), Pool.NewBubble(Config(), current, d))
    {
      ghost var p := PoolOf();
      var operators := Config().operators;
      var op := operators[PickIndex(d.opDraw, |operators|)];
      var radius := RandomRadius(op, Config(), current, d.radiusDraw);
      var circle := Pool.Bubble(op, radius, d.xDraw * FieldSize, d.yDraw * FieldSize,
                                (d.vxDraw - 0.5) * 5.0, (d.vyDraw - 0.5) * 5.0, 0.0, d.size, 1.0, true, true);
      bubbles := bubbles[nextId := circle];
      circles := circles + [nextId];
      simpleCircles := simpleCircles + [nextId];
      nextId := nextId + 1;
      spawned := spawned + 1;
      assert circle == Pool.NewBubble(Config(), current, d);
      assert PoolOf() == Pool.Spawn(p, circle);
    }

    /** The first loop of `generateLevel`: every bubble in `circles` is deactivated. */
    method DeactivateCircles()
      requires PoolValid()
      modifies this`bubbles
      ensures PoolValid()
      ensures PoolOf() == Pool.Deactivated(old(PoolOf()))
    {
      var i := 0;
      while i < |circles|
        invariant i <= |circles|
        invariant bubbles.Keys == old(bubbles).Keys
        invariant forall x :: x in old(bubbles) ==>
          bubbles[x] == if x in circles[..i] then old(bubbles)[x].(active := false) else old(bubbles)[x]
      {
        var id := circles[i];
        assert circles[..i + 1] == circles[..i] + [id];
        bubbles := bubbles[id := bubbles[id].(active := false)];
        i := i + 1;
      }
      assert circles[..i] == circles;
      assert bubbles == Pool.Deactivated(old(PoolOf())).bubbles;
      Pool.DeactivationKeepsValid(old(PoolOf()), bubbles);
    }

    /** The second loop of `generateLevel`: `count` calls of `createCircle`. */
    method Populate(count: nat, spawns: nat -> Pool.SpawnDraws)
      requires PoolValid() && LevelValid() && forall n: nat :: Pool.ValidDraws(spawns(n))
      modifies this`bubbles, this`circles, this`simpleCircles, this`nextId, this`spawned
      ensures PoolValid()
      ensures PoolOf() == Pool.Populated(old(PoolOf()), Config(), current, spawns, count)
    {
      ghost var w0 := PoolOf();
      Pool.PopulatedNext(w0, Config(), current, spawns, 0);
      var j := 0;
      while j < count
        invariant j <= count
        invariant PoolOf() == Pool.Populated(w0, Config(), current, spawns, j)
      {
        Pool.PopulatedNext(w0, Config(), current, spawns, j);
        CreateCircle(spawns(spawned));
        j := j + 1;
      }
      Pool.PopulatedValid(w0, Config(), current, spawns, count);
    }

    /** The first lines of `generateLevel`: a new `current` from the draw `u`, then the target loop. */
    method NewNumbers(u: real, targetDraws: seq<real>) returns (settled: bool, used: nat)
      requires LevelValid() && IsDraw(u) && |targetDraws| > 0
      modifies this`current, this`target
      ensures Roll(current, target, settled, used) == NewRound(Config(), old(current), u, targetDraws)
    {
      var r := RandomRadius(Mul, Config(), current, u);
      RadiusOfSpec(Mul, Config(), current, u);
      current := r.value;
      target, settled, used := DrawTarget(Config(), current, targetDraws);
    }

    /** The two loops of `generateLevel`: the listed bubbles are deactivated and `population` new ones made. */
    method Repopulate(spawns: nat -> Pool.SpawnDraws)
      requires PoolValid() && LevelValid() && forall n: nat :: Pool.ValidDraws(spawns(n))
      modifies this`bubbles, this`circles, this`simpleCircles, this`nextId, this`spawned
      ensures PoolValid()
      ensures PoolOf() == Pool.Regenerate(old(PoolOf()), Config(), current, spawns)
    {
      ghost var w0 := PoolOf();
      DeactivateCircles();
      ghost var p := PoolOf();
      assert p == Pool.Deactivated(w0);
      // `level` is a level of the configuration, so the range check passes and the clamp is never taken.
      Populate(Config().population, spawns);
      assert PoolOf() == Pool.Populated(p, Config(), current, spawns, Config().population);
    }

    /**
     * `generateLevel`: `u` is the draw for the new `current`, `targetDraws`
     * the draws the resampling loop may consume, and `spawns(n)` the draws of
     * the `n`th `createCircle`. A level with no `+` and `current == 0` never
     * leaves the loop; then every draw is used and `settled` is false.
     */
    method GenerateLevel(u: real, targetDraws: seq<real>, spawns: nat -> Pool.SpawnDraws) returns (settled: bool, used: nat)
      requires PoolValid() && LevelValid() && IsDraw(u) && |targetDraws| > 0
      requires forall n: nat :: Pool.ValidDraws(spawns(n))
      modifies this`current, this`target, this`bubbles, this`circles, this`simpleCircles, this`nextId, this`spawned
      ensures PoolValid()
      ensures Roll(current, target, settled, used) == NewRound(Config(), old(current), u, targetDraws)
      ensures PoolOf() == Pool.Regenerate(old(PoolOf()), Config(), current, spawns)
    {
      settled, used := NewNumbers(u, targetDraws);
      Repopulate(spawns);
    }

    /** `selectLevel` for the button of level `n`, with the draws `generateLevel` uses. */
    method SelectLevel(n: nat, u: real, targetDraws: seq<real>, spawns: nat -> Pool.SpawnDraws)
      returns (settled: bool, used: nat)
      requires ScreensValid() && PoolValid() && 1 <= n <= |Levels| && IsDraw(u) && |targetDraws| > 0
      requires forall k: nat :: Pool.ValidDraws(spawns(k))
      modifies this`index, this`pause, this`menuActive, this`fadeOut, this`fadeIn, this`level
      modifies this`current, this`target, this`bubbles, this`circles, this`simpleCircles, this`nextId, this`spawned
      ensures ScreensValid() && PoolValid() && LevelValid()
      ensures ScreensOf() == Menu.SelectLevel(old(ScreensOf())) && level == n
      ensures Roll(current, target, settled, used) == NewRound(Levels[n - 1], old(current), u, targetDraws)
      ensures PoolOf() == Pool.Regenerate(old(PoolOf()), Levels[n - 1], current, spawns)
    {
      ghost var s0, w0 := ScreensOf(), PoolOf();
      ChooseLevel(n);
      ghost var s1 := ScreensOf();
      assert PoolOf() == w0;
      settled, used := GenerateLevel(u, targetDraws, spawns);
      ghost var w1 := PoolOf();
      CloseMenu();
      assert PoolOf() == w1;
      assert ScreensOf() == s1.(menuActive := false, fadeOut := s1.fadeOut + [MenuBox]);
      assert s1 == Menu.TogglePause(s0);
    }

    /** The first lines of `selectLevel`: the menu is toggled and level `n` chosen. */
    method ChooseLevel(n: nat)
      requires ScreensValid() && 1 <= n <= |Levels|
      modifies this`index, this`pause, this`menuActive, this`fadeOut, this`fadeIn, this`level
      ensures ScreensValid() && LevelValid()
      ensures ScreensOf() == Menu.TogglePause(old(ScreensOf())) && level == n
    {
      TogglePause();
      level := n;
    }

    /** The last lines of `selectLevel`: the menu box is marked inactive and queued to fade out. */
    method CloseMenu()
      modifies this`menuActive, this`fadeOut
      ensures !menuActive && fadeOut == old(fadeOut) + [MenuBox]
    {
      menuActive := false;
      fadeOut := fadeOut + [MenuBox];
    }
    /**
     * `shoot`: unpaused, every active colliding bubble is applied and
     * deactivated with a burst of particles, the round is won, lost or goes
     * on, and a hit on the rocket deactivates every bubble.
     */
    method Shoot(now: int, cam: Camera, scr: Screen)
      requires ScreensValid() && LooksValid() && LevelValid() && PoolValid() && scr.radius == crosshair
      modifies this`bubbles, this`current, this`particles, this`index, this`pause, this`menuActive
      modifies this`fadeOut, this`fadeIn, this`looks, this`endText
      ensures ScreensValid() && LooksValid() && PoolValid()
      ensures TableOf() == Shooting.Shoot(old(TableOf()), old(AimOf(now, cam, scr)))
    {
      if !pause {
        ghost var t, aim := TableOf(), AimOf(now, cam, scr);
        Shooting.VolleyKeepsValid(PoolOf(), current);
        ghost var t1 := Shooting.Volleyed(t, aim.colliding, aim.now);
        ghost var t2 := Shooting.Conclude(t1, aim.cfg, aim.target);
        Shooting.ShootSteps(t, aim, t2);
        Strike(now, t1, t2);
        if RocketHit(cam, scr, rocket) {
          GroundAll();
        }
      }
    }

    /** A hit on the rocket: every bubble in `circles` is deactivated. */
    method GroundAll()
      requires PoolValid()
      modifies this`bubbles
      ensures PoolValid()
      ensures TableOf() == old(TableOf()).(bubbles := Pool.Grounded(old(bubbles), circles))
    {
      DeactivateCircles();
    }

    /**
     * The volley of `shoot` and its win and loss checks. The ghost
     * `volleyed` and `after` are the states the pure definitions give after
     * each stage; they have no counterpart in the script and only spare the
     * verifier from recomputing them.
     */
    method Strike(now: int, ghost volleyed: Shooting.Table, ghost after: Shooting.Table)
      requires ScreensValid() && LooksValid() && LevelValid() && PoolValid() && Shooting.Loaded(colliding, bubbles)
      requires volleyed == Shooting.Volleyed(TableOf(), colliding, now)
      requires after == Shooting.Conclude(volleyed, Config(), target)
      modifies this`bubbles, this`current, this`particles, this`index, this`pause, this`menuActive
      modifies this`fadeOut, this`fadeIn, this`looks, this`endText
      ensures ScreensValid() && LooksValid() && PoolValid()
      ensures TableOf() == after
    {
      ApplyColliding(now, volleyed);
      ghost var w1 := PoolOf();
      Settle(after);
      assert PoolOf() == w1;
    }

    /** The loop of `shoot` over `collidingCircles`; the ghost `after` is the state it must reach. */
    method ApplyColliding(now: int, ghost after: Shooting.Table)
      requires PoolValid() && Shooting.Loaded(colliding, bubbles)
      requires after == Shooting.Volleyed(TableOf(), colliding, now)
      modifies this`bubbles, this`current, this`particles
      ensures PoolValid()
      ensures TableOf() == after
    {
      ghost var w := PoolOf();
      Shooting.VolleyKeepsValid(w, current);
      Volley(now);
      assert PoolOf() == w.(bubbles := bubbles);
    }

    /** The loop itself. */
    method Volley(now: int)
      requires Shooting.Loaded(colliding, bubbles)
      modifies this`bubbles, this`current, this`particles
      ensures var v := Shooting.VolleyFrom(colliding, 0, Shooting.Volley(old(bubbles), old(current), 0));
        bubbles == v.bubbles && current == v.current && particles == old(particles) + Shooting.Sparks(now, v.hits)
    {
      var i, hits := 0, 0;
      while i < |colliding|
        invariant i <= |colliding| && Shooting.Loaded(colliding, bubbles)
        invariant Shooting.VolleyFrom(colliding, i, Shooting.Volley(bubbles, current, hits)) ==
                  Shooting.VolleyFrom(colliding, 0, Shooting.Volley(old(bubbles), old(current), 0))
        invariant particles == old(particles) + Shooting.Sparks(now, hits)
      {
        var id := colliding[i];
        var b := bubbles[id];
        if b.active {
          current := PerformOperation(b.op, current, b.radius.value);
          Shooting.DeactivateKeepsLoaded(colliding, bubbles, id);
          bubbles := bubbles[id := b.(active := false)];
          Burst(now);
          Shooting.SparksMore(now, hits);
          hits := hits + 1;
        }
        i := i + 1;
      }
    }

    /** The inner loop of `shoot`: ten particles for one applied bubble. */
    method Burst(now: int)
      modifies this`particles
      ensures particles == old(particles) + Shooting.Sparks(now, 1)
    {
      var j := 0;
      while j < 10
        invariant j <= 10 && |particles| == |old(particles)| + j
        invariant particles[..|old(particles)|] == old(particles)
        invariant forall k :: |old(particles)| <= k < |particles| ==> particles[k] == NewParticle(now)
      {
        particles := particles + [NewParticle(now)];
        j := j + 1;
      }
    }

    /** The win and loss checks of `shoot`; the ghost `after` is the state they must reach. */
    method Settle(ghost after: Shooting.Table)
      requires ScreensValid() && LooksValid() && LevelValid()
      requires after == Shooting.Conclude(TableOf(), Config(), target)
      modifies this`index, this`pause, this`menuActive, this`fadeOut, this`fadeIn, this`looks, this`endText
      ensures ScreensValid() && LooksValid()
      ensures TableOf() == after
    {
      if current == target {
        EndRound();
      } else if Lost(Config(), current) {
        endText := Shooting.LostText;
        EndRound();
      }
    }

    /** The end of a round in `shoot`: `changePane(2)`, the level and directions panes hidden, `togglePause()`. */
    method EndRound()
      requires ScreensValid() && LooksValid()
      modifies this`index, this`pause, this`menuActive, this`fadeOut, this`fadeIn, this`looks
      ensures ScreensValid() && LooksValid()
      ensures TableOf() == Shooting.EndRound(old(TableOf()))
    {
      ghost var t := TableOf();
      ChangePane(Menu.EndIndex);
      looks := looks[LevelPane := looks[LevelPane].(visible := false)];
      looks := looks[DirectionsPane := looks[DirectionsPane].(visible := false)];
      ghost var s := ScreensOf();
      TogglePause();
      assert ScreensOf() == Menu.TogglePause(s);
    }
    /**
     * One call of `update`, in its order: the fade-out and fade-in passes,
     * the rocket's scale step, `shoot` while the space bar is held, the
     * timers, the particles, the rocket's flight, then the bubble loop.
     * `width` and `height` are the screen size after any `resize`, and the
     * crosshair keeps its load-time radius. `cam` is the camera before
     * `Camera.update` and `moved` the camera after it; `u` is the draw for a
     * respawn delay, `placement` where a respawn puts the rocket and
     * `spawns` the draws of the `createCircle` calls. One clock reading,
     * `now`, serves the whole frame.
     */
    method Frame(now: int, cam: Camera, moved: Camera, width: real, height: real, u: real, placement: Placement,
                 spawns: nat -> Pool.SpawnDraws)
      requires Valid() && 0.0 <= u && forall n: nat :: Pool.ValidDraws(spawns(n))
      modifies this`current, this`index, this`pause, this`menuActive, this`fadeOut, this`fadeIn, this`looks
      modifies this`currentSlide, this`endText, this`timers, this`particles, this`rocket, this`rocketQueued
      modifies this`bubbles, this`circles, this`simpleCircles, this`colliding, this`nextId, this`spawned
      ensures Valid()
    {
      var scr := Screen(width, height, crosshair);
      Restyle();
      if Keys.SpaceKey in keysDown {
        HoldFire(now, cam, scr);
      }
      RunClock(now, cam, scr, placement);
      Launch(now, cam, scr, u);
      Drift(moved, scr, spawns);
    }

    /*
     * `Restyle`, `HoldFire`, `RunClock`, `Launch` and `Drift` are not
     * functions of the script: they cut `update` into stretches that each
     * keep `Valid`, so that `Frame` reasons about five calls rather than
     * every field its steps touch. The steps they call carry the contracts.
     */

    /** The fade passes and the rocket's scale step at the head of `update`. */
    method Restyle()
      requires Valid()
      modifies this`fadeOut, this`fadeIn, this`looks, this`rocket
      ensures Valid()
    {
      FadeOutPass();
      FadeInPass();
      rocket := ScaleStep(rocket);
    }

    /** `shoot`, as `update` runs it while the space bar is down. */
    method HoldFire(now: int, cam: Camera, scr: Screen)
      requires Valid() && scr.radius == crosshair
      modifies this`bubbles, this`current, this`particles, this`index, this`pause, this`menuActive,
        this`fadeOut, this`fadeIn, this`looks, this`endText
      ensures Valid()
    {
      Shoot(now, cam, scr);
    }

    /** The timer and particle loops of `update`. */
    method RunClock(now: int, cam: Camera, scr: Screen, placement: Placement)
      requires Valid()
      modifies this`timers, this`currentSlide, this`fadeOut, this`fadeIn, this`rocketQueued, this`rocket,
        this`particles
      ensures Valid()
    {
      TimerSweep(TimerEnv(now, cam, scr, placement));
      ParticleSweep(now);
    }

    /** The rocket step of `update`. */
    method Launch(now: int, cam: Camera, scr: Screen, u: real)
      requires Valid() && 0.0 <= u
      modifies this`rocket, this`rocketQueued, this`timers, this`particles
      ensures Valid()
    {
      Fly(now, cam, scr, u);
    }

    /** The bubble loop closing `update`, seen through the camera `Camera.update` left. */
    method Drift(cam: Camera, scr: Screen, spawns: nat -> Pool.SpawnDraws)
      requires Valid() && scr.radius == crosshair && forall n: nat :: Pool.ValidDraws(spawns(n))
      modifies this`bubbles, this`circles, this`simpleCircles, this`colliding, this`nextId, this`spawned
      ensures Valid()
    {
      PoolTick(cam, scr, spawns);
    }

    /** What the bubble loop of `update` reads and leaves alone. */
    function EnvOf(cam: Camera, scr: Screen, spawns: nat -> Pool.SpawnDraws): Pool.PoolEnv
      reads this`current, this`looks, this`level
      requires LooksValid() && LevelValid()
    {
      Pool.PoolEnv(cam, scr, current, looks[Hud].visible, Config(), spawns)
    }

    /**
     * The bubble loop of `update`: every position of `circles` is visited in
     * turn, a removal shifting the next bubble into the position just visited.
     */
    method PoolTick(cam: Camera, scr: Screen, spawns: nat -> Pool.SpawnDraws)
      requires PoolValid() && LevelValid() && LooksValid() && forall n: nat :: Pool.ValidDraws(spawns(n))
      requires scr.radius == crosshair
      modifies this`bubbles, this`circles, this`simpleCircles, this`colliding, this`nextId, this`spawned
      ensures PoolValid()
      ensures PoolOf() == Pool.Tick(old(PoolOf()), EnvOf(cam, scr, spawns))
    {
      ghost var env, w0 := EnvOf(cam, scr, spawns), PoolOf();
      var i := 0;
      while i < |circles|
        invariant PoolValid() && EnvOf(cam, scr, spawns) == env
        invariant Pool.TickFrom(PoolOf(), i, env) == Pool.Tick(w0, env)
        decreases |circles| - i
      {
        ghost var w := PoolOf();
        Pool.VisitKeepsValid(w, i, env);
        VisitCircle(i, cam, scr, spawns);
        i := i + 1;
      }
    }

    /** One pass of the bubble loop, at position `i`. */
    method VisitCircle(i: nat, cam: Camera, scr: Screen, spawns: nat -> Pool.SpawnDraws)
      requires PoolValid() && LevelValid() && LooksValid() && forall n: nat :: Pool.ValidDraws(spawns(n))
      requires i < |circles|
      modifies this`bubbles, this`circles, this`simpleCircles, this`colliding, this`nextId, this`spawned
      ensures PoolOf() == Pool.Visit(old(PoolOf()), i, EnvOf(cam, scr, spawns))
    {
      ghost var w, env := PoolOf(), EnvOf(cam, scr, spawns);
      Pool.ExaminedKeepsValid(w, i, env);
      Examine(i, cam, scr, spawns);
      Retire(i, spawns, env);
    }

    /** The checks of position `i`: growth, movement, bounce, culling, collision and the `/` test. */
    method Examine(i: nat, cam: Camera, scr: Screen, spawns: nat -> Pool.SpawnDraws)
      requires PoolValid() && LevelValid() && LooksValid() && i < |circles|
      modifies this`bubbles, this`colliding
      ensures PoolOf() == Pool.Examined(old(PoolOf()), i, EnvOf(cam, scr, spawns))
    {
      ghost var env := EnvOf(cam, scr, spawns);
      var id := circles[i];
      ghost var b0 := bubbles[id];
      var b := Move(bubbles[id]);
      b := Cull(id, b, cam, scr, spawns);
      assert b == Pool.Culled(b0, env);
      if b.op == Div && !Pool.Divides(current, b.radius) {
        b := b.(active := false);
      }
      bubbles := bubbles[id := b];
    }

    /** Culling and the collision test of the bubble `id`, already moved to `b`. */
    method Cull(id: nat, b: Pool.Bubble, cam: Camera, scr: Screen, spawns: nat -> Pool.SpawnDraws) returns (v: Pool.Bubble)
      requires LevelValid() && LooksValid()
      modifies this`colliding
      ensures v == b.(visible := Pool.Seen(b, EnvOf(cam, scr, spawns)))
      ensures colliding == if v.visible then Pool.Collide(old(colliding), id, Pool.Touching(v, EnvOf(cam, scr, spawns)))
                           else old(colliding)
    {
      if InView(cam, scr, b.x, b.y, Pool.Width(b), Pool.Width(b)) {
        v := b.(visible := true);
        if CloserThan(scr.width / 2.0, scr.height / 2.0, v.x + cam.x, v.y + cam.y,
                      scr.radius + Pool.Width(v) / 2.0) && looks[Hud].visible {
          if id !in colliding {
            colliding := colliding + [id];
          }
        } else if id in colliding {
          colliding := Splice(colliding, IndexOf(colliding, id));
        }
      } else {
        v := b.(visible := false);
      }
    }

    /**
     * The removal test of position `i`: a spent bubble leaves both arrays and
     * is replaced while `circles` is below the level's population; another
     * inactive bubble fades.
     */
    method Retire(i: nat, spawns: nat -> Pool.SpawnDraws, ghost env: Pool.PoolEnv)
      requires LevelValid() && PoolValid() && Pool.ValidEnv(env) && i < |circles|
      requires env.cfg == Config() && env.current == current && env.spawns == spawns
      modifies this`bubbles, this`circles, this`simpleCircles, this`nextId, this`spawned
      ensures PoolOf() == Pool.Retired(old(PoolOf()), i, env)
    {
      var id := circles[i];
      var b := bubbles[id];
      if !b.active {
        if b.alpha < 0.01 {
          circles := Splice(circles, i);
          simpleCircles := Splice(simpleCircles, i);
          if |circles| < Config().population {
            CreateCircle(spawns(spawned));
          }
        } else {
          bubbles := bubbles[id := b.(alpha := b.alpha * 0.9, scale := 1.01 * b.scale)];
        }
      }
    }
  }

  /** The growth, movement and bounce steps of the bubble loop. */
  method Move(b: Pool.Bubble) returns (m: Pool.Bubble)
    ensures m == Pool.Bounced(Pool.Moved(b))
  {
    m := b;
    if m.scale < 1.0 {
      m := m.(scale := m.scale + 0.01);
    }
    m := m.(x := m.x + m.vx);
    m := m.(y := m.y + m.vy);
    if m.x < 0.0 {
      m := m.(vx := Abs(m.vx));
    } else if m.x > FieldSize {
      m := m.(vx := -Abs(m.vx));
    }
    if m.y < 0.0 {
      m := m.(vy := Abs(m.vy));
    } else if m.y > FieldSize {
      m := m.(vy := -Abs(m.vy));
    }
  }

  /** The first `advanceSlide` timer is not a respawn timer. */
  lemma FirstTimerArmed(now: int)
    ensures RespawnArmed(false, [NewTimer(now, 1000.0, Timers.AdvanceSlide)])
  {
    var t := [NewTimer(now, 1000.0, Timers.AdvanceSlide)];
    assert !IsRespawn(t[0]) && t[1..] == [];
    assert CountWhere(t[1..], IsRespawn) == 0;
  }

  /**
   * The game once the script has loaded: the globals of the constructor,
   * then the first `generateLevel()` of level 1 from `current == 0` and no
   * bubbles, with the draws `u`, `targetDraws` and `spawns`. Level 1 has
   * `+`, so once any draw gives a target other than `current`, the round
   * does not start already won.
   */
  method Load(width: real, height: real, texWidth: real, texHeight: real, start: Placement, now: int,
              u: real, targetDraws: seq<real>, spawns: nat -> Pool.SpawnDraws) returns (g: Game)
    requires IsDraw(u) && |targetDraws| > 0 && forall n: nat :: Pool.ValidDraws(spawns(n))
    ensures fresh(g) && g.Valid()
    ensures g.crosshair == CrosshairRadius(width, height)
    ensures g.keysDown == [] && g.level == 1
    ensures var r := NewRound(Levels[0], 0.0, u, targetDraws); g.current == r.current && g.target == r.target
    ensures (exists j :: 0 <= j < |targetDraws| && RandomTarget(Levels[0], g.current, targetDraws[j]) != g.current) ==>
              g.target != g.current
    ensures g.PoolOf() == Pool.Regenerate(EmptyPool, Levels[0], g.current, spawns)
    ensures g.index == Menu.DirectionsIndex && !g.pause && g.menuActive && g.fadeOut == [] && g.fadeIn == []
    ensures g.currentSlide == 0 && !g.rocketQueued
    ensures g.looks == LoadLooks && g.endText == Shooting.WonText
    ensures g.rocket == Reset(Rocket(0.0, 0.0, 0.0, 0.0, 1.0, true, false, texWidth, texHeight), start)
    ensures g.timers == [NewTimer(now, 1000.0, Timers.AdvanceSlide)] && g.particles == []
  {
    g := new Game(width, height, texWidth, texHeight, start, now);
    g.FirstLevel(u, targetDraws, spawns);
    NewRoundRules(Levels[0], 0.0, u, targetDraws);
  }

  /** Every element has a look at load. */
  lemma LoadLooksTotal()
    ensures Total(LoadLooks)
  {
    forall e: Element
      ensures e in LoadLooks
    {
      match e
      case MenuBox =>
      case PlayGraphic =>
      case PauseGraphic =>
      case Hud =>
      case SlideArea =>
      case LevelPane =>
      case DirectionsPane =>
      case EndPane =>
    }
  }

  /** The slide timers are not respawn timers. */
  lemma SlideTimersKeepArmed(rocketQueued: bool, timers: seq<Timer>, now: int)
    requires RespawnArmed(rocketQueued, timers)
    ensures RespawnArmed(rocketQueued, timers + SlideTimers(now))
  {
    var st := SlideTimers(now);
    CountAppend(timers, st, IsRespawn);
    assert st[1..][1..] == [];
    assert CountWhere(st[1..], IsRespawn) == 0;
  }
}
