/**
 * `shoot`: every active bubble in `collidingCircles` is applied to `current`
 * in list order and deactivated, ten particles burst from each, the round is
 * then won, lost or goes on, and a hit on the rocket deactivates every bubble.
 */
module Shooting {
  import opened JsArray
  import opened Puzzle
  import opened Pool
  import opened Fades
  import opened Menu
  import opened Timers
  import opened Rocketry

  /** An applied bubble: its operator and operand. */
  datatype Shot = Shot(op: Operator, operand: real)

  /** A `/` shot never divides by zero. */
  predicate Sound(shot: Shot) {
    shot.op == Div ==> shot.operand != 0.0
  }

  /** Every entry of `ids` is a known bubble, and the active ones can be shot. */
  predicate Loaded(ids: seq<nat>, bubbles: map<nat, Bubble>) {
    forall k :: 0 <= k < |ids| ==> ids[k] in bubbles && (bubbles[ids[k]].active ==> Operable(bubbles[ids[k]]))
  }

  /** The reference reading of the loop: the active entries of `ids`, in order, as shots. */
  function ActiveShots(ids: seq<nat>, bubbles: map<nat, Bubble>): (shots: seq<Shot>)
    requires Loaded(ids, bubbles)
    ensures |shots| <= |ids|
    ensures forall k :: 0 <= k < |shots| ==> Sound(shots[k])
  {
    if |ids| == 0 then []
    else
      var b := bubbles[ids[0]];
      LoadedSuffix(ids, bubbles, 1);
      (if b.active then [Shot(b.op, b.radius.value)] else []) + ActiveShots(ids[1..], bubbles)
  }

  /** `current` after the shots, first to last. */
  function ApplyShots(shots: seq<Shot>, current: real): real
    requires forall k :: 0 <= k < |shots| ==> Sound(shots[k])
  {
    if |shots| == 0 then current
    else
      assert Sound(shots[0]);
      ApplyShots(shots[1..], PerformOperation(shots[0].op, current, shots[0].operand))
  }

  /** The bubbles, `current`, and how many bubbles have been applied. */
  datatype Volley = Volley(bubbles: map<nat, Bubble>, current: real, hits: nat)

  lemma LoadedSuffix(ids: seq<nat>, bubbles: map<nat, Bubble>, i: nat)
    requires Loaded(ids, bubbles) && i <= |ids|
    ensures Loaded(ids[i..], bubbles)
  {
    forall x | x in ids[i..]
      ensures x in ids
    {
    }
  }

  /** Deactivating a bubble keeps every list loaded. */
  lemma DeactivateKeepsLoaded(ids: seq<nat>, bubbles: map<nat, Bubble>, id: nat)
    requires Loaded(ids, bubbles) && id in bubbles
    ensures Loaded(ids, bubbles[id := bubbles[id].(active := false)])
  {
  }

  /** The loop of `shoot` over `collidingCircles`, from position `i`. */
  function VolleyFrom(ids: seq<nat>, i: nat, v: Volley): (r: Volley)
    requires Loaded(ids, v.bubbles)
    ensures r.bubbles.Keys == v.bubbles.Keys && Loaded(ids, r.bubbles)
    decreases |ids| - i
  {
    if i >= |ids| then v
    else
      var b := v.bubbles[ids[i]];
      if b.active then
        DeactivateKeepsLoaded(ids, v.bubbles, ids[i]);
        VolleyFrom(ids, i + 1, Volley(v.bubbles[ids[i] := b.(active := false)],
                                      PerformOperation(b.op, v.current, b.radius.value), v.hits + 1))
      else VolleyFrom(ids, i + 1, v)
  }

  /** Two maps that agree on `ids` give the same shots. */
  lemma {:induction false} ActiveShotsFrame(ids: seq<nat>, b1: map<nat, Bubble>, b2: map<nat, Bubble>)
    requires Loaded(ids, b1) && Loaded(ids, b2)
    requires forall x :: x in ids ==> x in b1 && x in b2 && b1[x] == b2[x]
    ensures ActiveShots(ids, b1) == ActiveShots(ids, b2)
  {
    if |ids| > 0 {
      LoadedSuffix(ids, b1, 1);
      LoadedSuffix(ids, b2, 1);
      ActiveShotsFrame(ids[1..], b1, b2);
    }
  }

  /**
   * On a list without duplicates the loop applies exactly the active
   * entries, in list order: inactive entries leave `current` alone, and the
   * hit count is the number of active entries.
   */
  lemma {:induction false} VolleyIsApply(ids: seq<nat>, i: nat, v: Volley)
    requires Loaded(ids, v.bubbles) && NoDuplicates(ids) && i <= |ids|
    ensures Loaded(ids[i..], v.bubbles)
    ensures VolleyFrom(ids, i, v).current == ApplyShots(ActiveShots(ids[i..], v.bubbles), v.current)
    ensures VolleyFrom(ids, i, v).hits == v.hits + |ActiveShots(ids[i..], v.bubbles)|
    decreases |ids| - i
  {
    LoadedSuffix(ids, v.bubbles, i);
    if i < |ids| {
      var id := ids[i];
      var b := v.bubbles[id];
      var s := ids[i..];
      assert s[0] == id && s[1..] == ids[i + 1..];
      LoadedSuffix(ids, v.bubbles, i + 1);
      if b.active {
        var v' := Volley(v.bubbles[id := b.(active := false)], PerformOperation(b.op, v.current, b.radius.value), v.hits + 1);
        DeactivateKeepsLoaded(ids, v.bubbles, id);
        VolleyIsApply(ids, i + 1, v');
        assert id !in ids[i + 1..] by {
          forall k | i + 1 <= k < |ids|
            ensures ids[k] != id
          {
          }
        }
        ActiveShotsFrame(ids[i + 1..], v'.bubbles, v.bubbles);
        var shots := ActiveShots(ids[i + 1..], v.bubbles);
        assert ActiveShots(s, v.bubbles) == [Shot(b.op, b.radius.value)] + shots;
        assert ([Shot(b.op, b.radius.value)] + shots)[1..] == shots;
      } else {
        VolleyIsApply(ids, i + 1, v);
        assert ActiveShots(s, v.bubbles) == ActiveShots(ids[i + 1..], v.bubbles);
      }
    }
  }

  /**
   * The loop deactivates every entry from position `i` on and leaves every
   * other bubble as it was; this holds even with repeated entries.
   */
  lemma {:induction false} VolleyDeactivates(ids: seq<nat>, i: nat, v: Volley)
    requires Loaded(ids, v.bubbles) && i <= |ids|
    ensures forall x :: x in v.bubbles ==>
      VolleyFrom(ids, i, v).bubbles[x] == if x in ids[i..] then v.bubbles[x].(active := false) else v.bubbles[x]
    decreases |ids| - i
  {
    if i < |ids| {
      var id := ids[i];
      var b := v.bubbles[id];
      assert ids[i..] == [id] + ids[i + 1..];
      if b.active {
        DeactivateKeepsLoaded(ids, v.bubbles, id);
        VolleyDeactivates(ids, i + 1, Volley(v.bubbles[id := b.(active := false)],
                                            PerformOperation(b.op, v.current, b.radius.value), v.hits + 1));
      } else {
        assert b.(active := false) == b;
        VolleyDeactivates(ids, i + 1, v);
      }
    }
  }

  /** The loop of `shoot` keeps the bubble pool valid: it only deactivates bubbles. */
  lemma VolleyKeepsValid(w: PoolState, current: real)
    requires Valid(w)
    ensures Loaded(w.colliding, w.bubbles)
    ensures Valid(w.(bubbles := VolleyFrom(w.colliding, 0, Volley(w.bubbles, current, 0)).bubbles))
  {
    VolleyDeactivates(w.colliding, 0, Volley(w.bubbles, current, 0));
    DeactivationKeepsValid(w, VolleyFrom(w.colliding, 0, Volley(w.bubbles, current, 0)).bubbles);
  }

  /** The ten particles each applied bubble bursts into, for `hits` bubbles. */
  function Sparks(now: int, hits: nat): (ps: seq<Particle>)
    ensures |ps| == 10 * hits
    ensures forall k :: 0 <= k < |ps| ==> ps[k] == NewParticle(now)
  {
    seq(10 * hits, _ => NewParticle(now))
  }

  /** One more applied bubble bursts ten more particles. */
  lemma SparksMore(now: int, hits: nat)
    ensures Sparks(now, hits) + Sparks(now, 1) == Sparks(now, hits + 1)
  {
    var a, b, c := Sparks(now, hits), Sparks(now, 1), Sparks(now, hits + 1);
    assert forall k :: 0 <= k < |c| ==> (a + b)[k] == c[k];
  }

  /** The text `endText` starts with. */
  const WonText: string := "You won!"

  /** The text `endText` is set to on a loss. */
  const LostText: string := "You lost!"

  /** The state `shoot` changes. */
  datatype Table = Table(bubbles: map<nat, Bubble>, current: real, screens: Screens,
                         looks: map<Element, Look>, endText: string, particles: seq<Particle>)

  /** What `shoot` only reads. */
  datatype Aim = Aim(colliding: seq<nat>, circles: seq<nat>, cfg: LevelConfig, target: real,
                     now: int, cam: Viewport.Camera, scr: Viewport.Screen, rocket: Rocket)

  predicate Ready(t: Table, aim: Aim) {
    Loaded(aim.colliding, t.bubbles) && (forall k :: 0 <= k < |aim.circles| ==> aim.circles[k] in t.bubbles) &&
    t.screens.index < |Panes| && LevelPane in t.looks && DirectionsPane in t.looks
  }

  /** The end of a round: the end pane, the level and directions panes hidden, then `togglePause`. */
  function EndRound(t: Table): Table
    requires t.screens.index < |Panes| && LevelPane in t.looks && DirectionsPane in t.looks
  {
    var looks := t.looks[LevelPane := t.looks[LevelPane].(visible := false)];
    t.(screens := TogglePause(ChangePane(t.screens, EndIndex)),
       looks := looks[DirectionsPane := looks[DirectionsPane].(visible := false)])
  }

  /** The win and loss checks once `current` is settled. */
  function Conclude(t: Table, cfg: LevelConfig, target: real): Table
    requires t.screens.index < |Panes| && LevelPane in t.looks && DirectionsPane in t.looks
  {
    match Resolve(cfg, t.current, target)
    case Won => EndRound(t)
    case Lose => EndRound(t.(endText := LostText))
    case Playing => t
  }

  /** The win and loss checks touch neither the bubbles, `current` nor the particles. */
  lemma ConcludeKeeps(t: Table, cfg: LevelConfig, target: real)
    requires t.screens.index < |Panes| && LevelPane in t.looks && DirectionsPane in t.looks
    ensures var r := Conclude(t, cfg, target);
      r.bubbles == t.bubbles && r.current == t.current && r.particles == t.particles
  {
  }

  /** The state after the loop over `collidingCircles`, with ten particles per applied bubble. */
  function Volleyed(t: Table, colliding: seq<nat>, now: int): Table
    requires Loaded(colliding, t.bubbles)
  {
    var v := VolleyFrom(colliding, 0, Volley(t.bubbles, t.current, 0));
    t.(bubbles := v.bubbles, current := v.current, particles := t.particles + Sparks(now, v.hits))
  }

  /** `shoot`: nothing while paused; otherwise the volley, the win and loss checks, then the rocket test. */
  function Shoot(t: Table, aim: Aim): Table
    requires Ready(t, aim)
  {
    if t.screens.pause then t
    else
      var t2 := Conclude(Volleyed(t, aim.colliding, aim.now), aim.cfg, aim.target);
      if RocketHit(aim.cam, aim.scr, aim.rocket) then t2.(bubbles := Grounded(t2.bubbles, aim.circles)) else t2
  }

  /** Unpaused, `shoot` is the volley, then the win and loss checks, then the rocket test. */
  lemma ShootSteps(t: Table, aim: Aim, t2: Table)
    requires Ready(t, aim) && !t.screens.pause
    requires t2 == Conclude(Volleyed(t, aim.colliding, aim.now), aim.cfg, aim.target)
    ensures Shoot(t, aim) == if RocketHit(aim.cam, aim.scr, aim.rocket) then t2.(bubbles := Grounded(t2.bubbles, aim.circles)) else t2
  {
  }

  /** `shoot` while paused changes nothing. */
  lemma ShootWhilePaused(t: Table, aim: Aim)
    requires Ready(t, aim) && t.screens.pause
    ensures Shoot(t, aim) == t
  {
  }

  /** Unpaused, `shoot` takes its bubbles, `current` and particles from the volley alone. */
  lemma ShootPieces(t: Table, aim: Aim)
    requires Ready(t, aim) && !t.screens.pause
    ensures var v := VolleyFrom(aim.colliding, 0, Volley(t.bubbles, t.current, 0));
      && Shoot(t, aim).current == v.current
      && Shoot(t, aim).particles == t.particles + Sparks(aim.now, v.hits)
      && Shoot(t, aim).bubbles == if RocketHit(aim.cam, aim.scr, aim.rocket) then Grounded(v.bubbles, aim.circles) else v.bubbles
  {
    ConcludeKeeps(Volleyed(t, aim.colliding, aim.now), aim.cfg, aim.target);
  }

  /**
   * Unpaused, `shoot` applies the active colliding bubbles in list order and
   * bursts ten particles per applied bubble.
   */
  lemma ShootApplies(t: Table, aim: Aim)
    requires Ready(t, aim) && !t.screens.pause && NoDuplicates(aim.colliding)
    ensures Shoot(t, aim).current == ApplyShots(ActiveShots(aim.colliding, t.bubbles), t.current)
    ensures Shoot(t, aim).particles == t.particles + Sparks(aim.now, |ActiveShots(aim.colliding, t.bubbles)|)
  {
    ShootPieces(t, aim);
    VolleyIsApply(aim.colliding, 0, Volley(t.bubbles, t.current, 0));
    assert aim.colliding[0..] == aim.colliding;
  }

  /** The bubbles after the volley and the rocket check, as `ShootPieces` gives them. */
  function Struck(t: Table, aim: Aim): map<nat, Bubble>
    requires Ready(t, aim)
  {
    var v := VolleyFrom(aim.colliding, 0, Volley(t.bubbles, t.current, 0));
    if RocketHit(aim.cam, aim.scr, aim.rocket) then Grounded(v.bubbles, aim.circles) else v.bubbles
  }

  lemma StruckRules(t: Table, aim: Aim)
    requires Ready(t, aim)
    ensures Struck(t, aim).Keys == t.bubbles.Keys
    ensures forall x :: x in aim.colliding ==> !Struck(t, aim)[x].active
    ensures !RocketHit(aim.cam, aim.scr, aim.rocket) ==>
      forall x :: x in t.bubbles && x !in aim.colliding ==> Struck(t, aim)[x] == t.bubbles[x]
    ensures RocketHit(aim.cam, aim.scr, aim.rocket) ==> forall x :: x in aim.circles ==> !Struck(t, aim)[x].active
  {
    VolleyDeactivates(aim.colliding, 0, Volley(t.bubbles, t.current, 0));
    assert aim.colliding[0..] == aim.colliding;
    forall x | x in aim.colliding
      ensures x in t.bubbles
    {
      var k :| 0 <= k < |aim.colliding| && aim.colliding[k] == x;
    }
  }

  /**
   * Unpaused, `shoot` deactivates every colliding bubble and leaves the
   * others alone unless the rocket was hit, which deactivates them all.
   */
  lemma ShootDeactivates(t: Table, aim: Aim)
    requires Ready(t, aim) && !t.screens.pause
    ensures Shoot(t, aim).bubbles.Keys == t.bubbles.Keys
    ensures forall x :: x in aim.colliding ==> !Shoot(t, aim).bubbles[x].active
    ensures !RocketHit(aim.cam, aim.scr, aim.rocket) ==>
      forall x :: x in t.bubbles && x !in aim.colliding ==> Shoot(t, aim).bubbles[x] == t.bubbles[x]
    ensures RocketHit(aim.cam, aim.scr, aim.rocket) ==> forall x :: x in aim.circles ==> !Shoot(t, aim).bubbles[x].active
  {
    ShootPieces(t, aim);
    StruckRules(t, aim);
    assert Shoot(t, aim).bubbles == Struck(t, aim);
  }

  /** Ending a round shows the end pane and hides the level and directions panes. */
  lemma EndRoundRules(t: Table)
    requires t.screens.index < |Panes| && LevelPane in t.looks && DirectionsPane in t.looks
    ensures EndRound(t).screens.index == EndIndex && EndPane in EndRound(t).screens.fadeIn
    ensures !EndRound(t).looks[LevelPane].visible && !EndRound(t).looks[DirectionsPane].visible
    ensures EndRound(t).endText == t.endText
  {
    var s := ChangePane(t.screens, EndIndex);
    ChangePaneAlwaysSwitches(t.screens, EndIndex);
    assert multiset(s.fadeIn)[EndPane] > 0;
    assert EndPane in s.fadeIn;
  }

  /**
   * The resolution of `shoot`: a win (`current == target`) and a loss
   * (`|current| > 500`, or `current == 0` in a level without `+`) both go to
   * the end pane with the level and directions panes hidden, "You lost!" is
   * set exactly on a loss, and a round that goes on keeps the menu, the
   * looks and the text as they were.
   */
  lemma ShootResolves(t: Table, aim: Aim)
    requires Ready(t, aim) && !t.screens.pause
    ensures var r := Shoot(t, aim);
            var outcome := Resolve(aim.cfg, r.current, aim.target);
            && (outcome != Playing ==> r.screens.index == EndIndex && EndPane in r.screens.fadeIn &&
                                       !r.looks[LevelPane].visible && !r.looks[DirectionsPane].visible)
            && r.endText == (if outcome == Lose then LostText else t.endText)
            && (outcome == Playing ==> r.screens == t.screens && r.looks == t.looks)
  {
    var v := VolleyFrom(aim.colliding, 0, Volley(t.bubbles, t.current, 0));
    var t1 := t.(bubbles := v.bubbles, current := v.current, particles := t.particles + Sparks(aim.now, v.hits));
    var outcome := Resolve(aim.cfg, v.current, aim.target);
    if outcome == Won {
      EndRoundRules(t1);
    } else if outcome == Lose {
      EndRoundRules(t1.(endText := LostText));
    }
  }
}
