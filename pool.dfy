/**
 * The bubble pool: `circles` with its twin `simpleCircles` (the minimap
 * sprites), `collidingCircles`, `createCircle`, and the per-frame walk over
 * `circles` in `update`.
 *
 * Bubbles are JavaScript objects that several arrays share, so they are
 * kept in a map from an identity to the bubble, and the arrays hold
 * identities. A bubble spliced out of `circles` stays in the map, because
 * `collidingCircles` may still refer to it.
 */
module Pool {
  import opened JsMath
  import opened JsArray
  import opened Puzzle
  import opened Viewport

  /** A bubble: operator, operand (`None` is `undefined`), position, velocity, scale, texture size, alpha and flags. */
  datatype Bubble = Bubble(op: Operator, radius: Option<real>, x: real, y: real, vx: real, vy: real,
                           scale: real, size: real, alpha: real, active: bool, visible: bool)

  /**
   * The draws `createCircle` uses for the operator, the operand, the position
   * and the velocity, and the texture size the drawing of the bubble yields.
   */
  datatype SpawnDraws = SpawnDraws(opDraw: real, radiusDraw: real, xDraw: real, yDraw: real,
                                   vxDraw: real, vyDraw: real, size: real)

  predicate ValidDraws(d: SpawnDraws) {
    IsDraw(d.opDraw) && IsDraw(d.radiusDraw) && IsDraw(d.xDraw) && IsDraw(d.yDraw) &&
    IsDraw(d.vxDraw) && IsDraw(d.vyDraw) && d.size >= 0.0
  }

  /** The bubble `createCircle` makes: active, shown, at scale 0 and full alpha, somewhere on the field. */
  function NewBubble(cfg: LevelConfig, current: real, d: SpawnDraws): (b: Bubble)
    requires ValidDraws(d) && |cfg.operators| > 0
    ensures b.active && b.scale == 0.0 && b.alpha == 1.0 && b.op in cfg.operators
  {
    var op := cfg.operators[PickIndex(d.opDraw, |cfg.operators|)];
    Bubble(op, RadiusOf(op, cfg, current, d.radiusDraw), d.xDraw * FieldSize, d.yDraw * FieldSize,
           (d.vxDraw - 0.5) * 5.0, (d.vyDraw - 0.5) * 5.0, 0.0, d.size, 1.0, true, true)
  }

  /** A bubble can be shot: it has an operand, and a `/` operand is not zero. */
  predicate Operable(b: Bubble) {
    b.radius.Some? && (b.op == Div ==> b.radius.value != 0.0)
  }

  /** Only a `/` bubble can lack an operand, and a `/` operand is never zero. */
  predicate WellMade(b: Bubble) {
    (b.radius.None? ==> b.op == Div) && (b.op == Div && b.radius.Some? ==> b.radius.value != 0.0)
  }

  lemma NewBubbleWellMade(cfg: LevelConfig, current: real, d: SpawnDraws)
    requires ValidDraws(d) && |cfg.operators| > 0
    ensures WellMade(NewBubble(cfg, current, d))
    ensures NewBubble(cfg, current, d).op == Div ==>
      (NewBubble(cfg, current, d).radius.Some? <==> current > 0.0)
  {
    var op := cfg.operators[PickIndex(d.opDraw, |cfg.operators|)];
    RadiusOfSpec(op, cfg, current, d.radiusDraw);
  }

  /** `current % radius == 0` for a bubble's operand; `undefined` gives NaN, which is not 0. */
  predicate Divides(current: real, radius: Option<real>) {
    radius.Some? && RemainderIsZero(current, radius.value)
  }

  // One visit of the walk over `circles`.

  /** Grow towards full scale, then move by the velocity. */
  function Moved(b: Bubble): Bubble {
    var scale := if b.scale < 1.0 then b.scale + 0.01 else b.scale;
    b.(scale := scale, x := b.x + b.vx, y := b.y + b.vy)
  }

  /** Bounce off the field's walls: past an edge, the velocity is turned back inwards. */
  function Bounced(b: Bubble): Bubble {
    var vx := if b.x < 0.0 then Abs(b.vx) else if b.x > FieldSize then -Abs(b.vx) else b.vx;
    var vy := if b.y < 0.0 then Abs(b.vy) else if b.y > FieldSize then -Abs(b.vy) else b.vy;
    b.(vx := vx, vy := vy)
  }

  /** `circles[i].width`: the texture size times the scale. */
  function Width(b: Bubble): real {
    b.scale * b.size
  }

  /** The world, screen and everything else a visit reads but does not change. */
  datatype PoolEnv = PoolEnv(cam: Camera, scr: Screen, current: real, hudVisible: bool, cfg: LevelConfig,
                             spawns: nat -> SpawnDraws)

  ghost predicate ValidEnv(env: PoolEnv) {
    |env.cfg.operators| > 0 && forall n: nat :: ValidDraws(env.spawns(n))
  }

  predicate Seen(b: Bubble, env: PoolEnv) {
    InView(env.cam, env.scr, b.x, b.y, Width(b), Width(b))
  }

  /** Within `radius + width / 2` of the screen centre while the HUD is visible. */
  predicate Touching(b: Bubble, env: PoolEnv) {
    CloserThan(env.scr.width / 2.0, env.scr.height / 2.0, b.x + env.cam.x, b.y + env.cam.y,
               env.scr.radius + Width(b) / 2.0) && env.hudVisible
  }

  /** `collidingCircles` after the collision test of a bubble in view. */
  function Collide(colliding: seq<nat>, id: nat, touching: bool): seq<nat> {
    if touching then (if id in colliding then colliding else colliding + [id])
    else if id in colliding then Splice(colliding, IndexOf(colliding, id))
    else colliding
  }

  /** A bubble grown, moved, bounced, then shown or hidden: the state the collision test sees. */
  function Culled(b: Bubble, env: PoolEnv): Bubble {
    var m := Bounced(Moved(b));
    m.(visible := Seen(m, env))
  }

  /**
   * The state of a visit up to the removal test: culled, then deactivated if
   * it is a `/` bubble whose operand does not divide `current`.
   */
  function Checked(b: Bubble, env: PoolEnv): Bubble {
    var v := Culled(b, env);
    if v.op == Div && !Divides(env.current, v.radius) then v.(active := false) else v
  }

  /** An inactive bubble that is still visible fades and swells. */
  function Decayed(b: Bubble): Bubble {
    b.(alpha := b.alpha * 0.9, scale := 1.01 * b.scale)
  }

  /** An inactive bubble is removed once it has faded below alpha 0.01. */
  predicate Spent(b: Bubble) {
    !b.active && b.alpha < 0.01
  }

  /**
   * The pool: the bubbles by identity, the identities in `circles`,
   * `simpleCircles` and `collidingCircles`, the next fresh identity, and how
   * many spawn draws have been used.
   */
  datatype PoolState = PoolState(bubbles: map<nat, Bubble>, circles: seq<nat>, simple: seq<nat>,
                                 colliding: seq<nat>, nextId: nat, spawned: nat)

  predicate Valid(w: PoolState) {
    w.simple == w.circles &&
    NoDuplicates(w.circles) && NoDuplicates(w.colliding) &&
    (forall k :: 0 <= k < |w.circles| ==> w.circles[k] in w.bubbles) &&
    (forall k :: 0 <= k < |w.colliding| ==> w.colliding[k] in w.bubbles) &&
    (forall id :: id in w.bubbles ==> id < w.nextId && WellMade(w.bubbles[id])) &&
    (forall k :: 0 <= k < |w.colliding| && w.bubbles[w.colliding[k]].active ==> Operable(w.bubbles[w.colliding[k]]))
  }

  /** `createCircle`: a fresh bubble pushed onto `circles`, its twin onto `simpleCircles`. */
  function Spawn(w: PoolState, b: Bubble): PoolState {
    w.(bubbles := w.bubbles[w.nextId := b], circles := w.circles + [w.nextId], simple := w.simple + [w.nextId],
       nextId := w.nextId + 1, spawned := w.spawned + 1)
  }

  /** After the bounce step a bubble past a wall heads back in, at the same speed. */
  lemma BounceTurnsInward(b: Bubble)
    ensures Bounced(b).x < 0.0 ==> Bounced(b).vx >= 0.0
    ensures Bounced(b).x > FieldSize ==> Bounced(b).vx <= 0.0
    ensures Bounced(b).y < 0.0 ==> Bounced(b).vy >= 0.0
    ensures Bounced(b).y > FieldSize ==> Bounced(b).vy <= 0.0
    ensures Abs(Bounced(b).vx) == Abs(b.vx) && Abs(Bounced(b).vy) == Abs(b.vy)
    ensures 0.0 <= b.x <= FieldSize && 0.0 <= b.y <= FieldSize ==> Bounced(b) == b
  {
  }

  /**
   * The checks of a visit keep the operand, never reactivate a bubble, and
   * leave a `/` bubble active only if its operand divides `current`; so an
   * active checked bubble can be shot.
   */
  lemma CheckedRules(b: Bubble, env: PoolEnv)
    requires WellMade(b)
    ensures Checked(b, env).op == b.op && Checked(b, env).radius == b.radius
    ensures Checked(b, env).active ==> b.active
    ensures b.op == Div && !Divides(env.current, b.radius) ==> !Checked(b, env).active
    ensures b.active && (b.op != Div || Divides(env.current, b.radius)) ==> Checked(b, env).active
    ensures Checked(b, env).visible == Seen(Checked(b, env), env)
    ensures WellMade(Checked(b, env)) && (Checked(b, env).active ==> Operable(Checked(b, env)))
  {
  }

  /** The identities a pool uses are below `nextId`. */
  lemma FreshIdUnused(w: PoolState)
    requires Valid(w)
    ensures w.nextId !in w.circles && w.nextId !in w.colliding && w.nextId !in w.bubbles
  {
    forall k | 0 <= k < |w.circles|
      ensures w.circles[k] != w.nextId
    {
      assert w.circles[k] in w.bubbles;
    }
    forall k | 0 <= k < |w.colliding|
      ensures w.colliding[k] != w.nextId
    {
      assert w.colliding[k] in w.bubbles;
    }
  }

  lemma CollideKeepsNoDuplicates(colliding: seq<nat>, id: nat, touching: bool)
    requires NoDuplicates(colliding)
    ensures NoDuplicates(Collide(colliding, id, touching))
    ensures forall x :: x in Collide(colliding, id, touching) <==> if x == id then touching else x in colliding
  {
    if !touching && id in colliding {
      SpliceOfIndexOf(colliding, id);
    }
  }

  /** `createCircle` appends one fresh, active bubble to both arrays and keeps the pool valid. */
  lemma SpawnKeepsValid(w: PoolState, b: Bubble)
    requires Valid(w) && WellMade(b)
    ensures Valid(Spawn(w, b))
    ensures Spawn(w, b).circles == w.circles + [w.nextId]
    ensures Spawn(w, b).colliding == w.colliding
    ensures Spawn(w, b).bubbles[w.nextId] == b && w.nextId !in w.bubbles
    ensures forall id :: id in w.bubbles ==> id in Spawn(w, b).bubbles && Spawn(w, b).bubbles[id] == w.bubbles[id]
  {
    FreshIdUnused(w);
    PushFresh(w.circles, w.nextId);
    var w' := Spawn(w, b);
    forall k | 0 <= k < |w'.colliding| && w'.bubbles[w'.colliding[k]].active
      ensures Operable(w'.bubbles[w'.colliding[k]])
    {
      assert w'.colliding[k] == w.colliding[k] != w.nextId;
    }
  }

  /** The identities `start`, `start + 1`, ..., `start + count - 1`. */
  function Run(start: nat, count: nat): (r: seq<nat>)
    ensures |r| == count && forall k :: 0 <= k < count ==> r[k] == start + k
  {
    seq(count, k => start + k)
  }

  /** The bubbles the `createCircle` calls make: the `k`th one from the draws `spawns(k)`. */
  function Made(cfg: LevelConfig, current: real, spawns: nat -> SpawnDraws): nat -> Bubble
    requires |cfg.operators| > 0 && forall k: nat :: ValidDraws(spawns(k))
  {
    (k: nat) => NewBubble(cfg, current, spawns(k))
  }

  /** Every bubble `make` gives is a new, well-made, active one. */
  ghost predicate Fresh(make: nat -> Bubble) {
    forall k: nat :: make(k).active && WellMade(make(k))
  }

  lemma MadeFresh(cfg: LevelConfig, current: real, spawns: nat -> SpawnDraws)
    requires |cfg.operators| > 0 && forall k: nat :: ValidDraws(spawns(k))
    ensures Fresh(Made(cfg, current, spawns))
  {
    forall k: nat
      ensures Made(cfg, current, spawns)(k).active && WellMade(Made(cfg, current, spawns)(k))
    {
      NewBubbleWellMade(cfg, current, spawns(k));
    }
  }

  /** `n` calls of `createCircle`, the one made when `spawned == k` being `make(k)`. */
  function SpawnMany(w: PoolState, make: nat -> Bubble, n: nat): PoolState {
    if n == 0 then w
    else
      var v := SpawnMany(w, make, n - 1);
      Spawn(v, make(v.spawned))
  }

  /** The second loop of `generateLevel`: `n` calls of `createCircle` on the draws `spawns`. */
  function Populated(w: PoolState, cfg: LevelConfig, current: real, spawns: nat -> SpawnDraws, n: nat): PoolState
    requires |cfg.operators| > 0 && forall k: nat :: ValidDraws(spawns(k))
  {
    SpawnMany(w, Made(cfg, current, spawns), n)
  }

  /** One more call of `createCircle` spawns the bubble made from the next draws. */
  lemma PopulatedNext(w: PoolState, cfg: LevelConfig, current: real, spawns: nat -> SpawnDraws, n: nat)
    requires |cfg.operators| > 0 && forall k: nat :: ValidDraws(spawns(k))
    ensures Populated(w, cfg, current, spawns, 0) == w
    ensures var v := Populated(w, cfg, current, spawns, n);
      Populated(w, cfg, current, spawns, n + 1) == Spawn(v, NewBubble(cfg, current, spawns(v.spawned)))
  {
  }

  /** The second loop of `generateLevel` keeps the pool valid. */
  lemma PopulatedValid(w: PoolState, cfg: LevelConfig, current: real, spawns: nat -> SpawnDraws, n: nat)
    requires Valid(w) && |cfg.operators| > 0 && forall k: nat :: ValidDraws(spawns(k))
    ensures Valid(Populated(w, cfg, current, spawns, n))
  {
    MadeFresh(cfg, current, spawns);
    SpawnManyShape(w, Made(cfg, current, spawns), n);
  }

  /** No bubble has an identity at or above `nextId`. */
  lemma FreshIdAbove(w: PoolState, id: nat)
    requires Valid(w) && id >= w.nextId
    ensures id !in w.bubbles
  {
  }

  /** `n` calls of `createCircle` keep the pool valid and append `n` fresh identities to `circles`. */
  lemma {:induction false} SpawnManyShape(w: PoolState, make: nat -> Bubble, n: nat)
    requires Valid(w) && Fresh(make)
    ensures var v := SpawnMany(w, make, n);
      && Valid(v)
      && v.circles == w.circles + Run(w.nextId, n) && v.colliding == w.colliding
      && v.nextId == w.nextId + n && v.spawned == w.spawned + n
  {
    if n > 0 {
      var u := SpawnMany(w, make, n - 1);
      SpawnManyShape(w, make, n - 1);
      SpawnKeepsValid(u, make(u.spawned));
      assert Run(w.nextId, n) == Run(w.nextId, n - 1) + [u.nextId];
    }
  }

  /** `n` calls of `createCircle` use up `n` identities and `n` spawn draws. */
  lemma {:induction false} SpawnManyCounts(w: PoolState, make: nat -> Bubble, n: nat)
    ensures SpawnMany(w, make, n).nextId == w.nextId + n
    ensures SpawnMany(w, make, n).spawned == w.spawned + n
  {
    if n > 0 {
      SpawnManyCounts(w, make, n - 1);
    }
  }

  /** `n` calls of `createCircle` leave the bubbles that were there alone. */
  lemma {:induction false} SpawnManyKeeps(w: PoolState, make: nat -> Bubble, n: nat, x: nat)
    requires x < w.nextId && x in w.bubbles
    ensures x in SpawnMany(w, make, n).bubbles && SpawnMany(w, make, n).bubbles[x] == w.bubbles[x]
  {
    if n > 0 {
      SpawnManyCounts(w, make, n - 1);
      SpawnManyKeeps(w, make, n - 1, x);
    }
  }

  /** The bubbles `n` calls of `createCircle` make have fresh identities and are active. */
  lemma {:induction false} SpawnManyFresh(w: PoolState, make: nat -> Bubble, n: nat)
    requires Valid(w) && Fresh(make)
    ensures var v := SpawnMany(w, make, n);
      forall id :: w.nextId <= id < w.nextId + n ==> id in v.bubbles && v.bubbles[id].active && id !in w.bubbles
  {
    if n > 0 {
      var u := SpawnMany(w, make, n - 1);
      SpawnManyShape(w, make, n - 1);
      SpawnManyFresh(w, make, n - 1);
      assert make(u.spawned).active;
      forall id | w.nextId <= id < w.nextId + n
        ensures id !in w.bubbles
      {
        FreshIdAbove(w, id);
      }
    }
  }

  /** The pool right after the checks of position `i`, before any removal. */
  function Examined(w: PoolState, i: nat, env: PoolEnv): PoolState
    requires Valid(w) && i < |w.circles|
  {
    var id := w.circles[i];
    var c := Culled(w.bubbles[id], env);
    var colliding := if c.visible then Collide(w.colliding, id, Touching(c, env)) else w.colliding;
    w.(bubbles := w.bubbles[id := Checked(w.bubbles[id], env)], colliding := colliding)
  }

  lemma ExaminedKeepsValid(w: PoolState, i: nat, env: PoolEnv)
    requires Valid(w) && i < |w.circles|
    ensures Valid(Examined(w, i, env))
    ensures Examined(w, i, env).circles == w.circles && Examined(w, i, env).nextId == w.nextId
  {
    var id := w.circles[i];
    var b := Checked(w.bubbles[id], env);
    CheckedRules(w.bubbles[id], env);
    CollideKeepsNoDuplicates(w.colliding, id, Touching(b, env));
    var e := Examined(w, i, env);
    forall k | 0 <= k < |e.colliding|
      ensures e.colliding[k] in e.bubbles
      ensures e.bubbles[e.colliding[k]].active ==> Operable(e.bubbles[e.colliding[k]])
    {
      var x := e.colliding[k];
      assert x in e.colliding;
      if x != id {
        assert x in w.colliding;
        var j :| 0 <= j < |w.colliding| && w.colliding[j] == x;
      }
    }
  }

  /**
   * The visit of position `i`: the checks, then either the removal of a
   * spent bubble (with a replacement while `circles` is below the level's
   * population) or, for an inactive bubble, one step of fading.
   */
  function Visit(w: PoolState, i: nat, env: PoolEnv): PoolState
    requires Valid(w) && ValidEnv(env) && i < |w.circles|
  {
    ExaminedKeepsValid(w, i, env);
    Retired(Examined(w, i, env), i, env)
  }

  /** The removal test of position `i`, on the pool the checks left. */
  function Retired(e: PoolState, i: nat, env: PoolEnv): PoolState
    requires Valid(e) && ValidEnv(env) && i < |e.circles|
  {
    var id := e.circles[i];
    var b := e.bubbles[id];
    if Spent(b) then
      var r := e.(circles := Splice(e.circles, i), simple := Splice(e.simple, i));
      if |r.circles| < env.cfg.population then Spawn(r, NewBubble(env.cfg, env.current, env.spawns(r.spawned))) else r
    else if !b.active then e.(bubbles := e.bubbles[id := Decayed(b)])
    else e
  }

  /** Removing a position from both arrays keeps the pool valid. */
  lemma RemovalKeepsValid(w: PoolState, i: nat)
    requires Valid(w) && i < |w.circles|
    ensures Valid(w.(circles := Splice(w.circles, i), simple := Splice(w.simple, i)))
  {
    SpliceKeepsNoDuplicates(w.circles, i);
    SpliceMembers(w.circles, i);
  }

  lemma VisitKeepsValid(w: PoolState, i: nat, env: PoolEnv)
    requires Valid(w) && ValidEnv(env) && i < |w.circles|
    ensures Valid(Visit(w, i, env))
    ensures |Visit(w, i, env).circles| <= |w.circles|
    ensures Visit(w, i, env).nextId >= w.nextId
    ensures forall id :: id in w.bubbles ==> id in Visit(w, i, env).bubbles
  {
    ExaminedKeepsValid(w, i, env);
    var e := Examined(w, i, env);
    var id := w.circles[i];
    var b := e.bubbles[id];
    if Spent(b) {
      var r := e.(circles := Splice(e.circles, i), simple := Splice(e.simple, i));
      RemovalKeepsValid(e, i);
      if |r.circles| < env.cfg.population {
        NewBubbleWellMade(env.cfg, env.current, env.spawns(r.spawned));
        SpawnKeepsValid(r, NewBubble(env.cfg, env.current, env.spawns(r.spawned)));
      }
    } else if !b.active {
      var d := e.(bubbles := e.bubbles[id := Decayed(b)]);
      forall k | 0 <= k < |d.colliding| && d.bubbles[d.colliding[k]].active
        ensures Operable(d.bubbles[d.colliding[k]])
      {
        assert d.colliding[k] != id;
        assert e.bubbles[e.colliding[k]].active;
      }
    }
  }

  /**
   * What one visit does to the visited bubble: it is removed exactly when
   * the checks leave it inactive with alpha below 0.01; then at most one
   * replacement is appended, and only if `circles` has fallen below the
   * population; otherwise `circles` is unchanged. A `/` bubble whose operand
   * does not divide `current` ends inactive, and no bubble is reactivated.
   */
  lemma VisitRemoval(w: PoolState, i: nat, env: PoolEnv)
    requires Valid(w) && ValidEnv(env) && i < |w.circles|
    ensures var id := w.circles[i];
            var b := Checked(w.bubbles[id], env);
            var v := Visit(w, i, env);
            && (id !in v.circles <==> Spent(b))
            && (Spent(b) && |w.circles| - 1 < env.cfg.population ==> v.circles == Splice(w.circles, i) + [w.nextId])
            && (Spent(b) && |w.circles| - 1 >= env.cfg.population ==> v.circles == Splice(w.circles, i))
            && (!Spent(b) ==> v.circles == w.circles)
            && id in v.bubbles && v.bubbles[id].active == b.active
            && (w.bubbles[id].op == Div && !Divides(env.current, w.bubbles[id].radius) ==> !v.bubbles[id].active)
            && (v.bubbles[id].active ==> w.bubbles[id].active)
  {
    var id := w.circles[i];
    CheckedRules(w.bubbles[id], env);
    FreshIdUnused(w);
    SpliceMembers(w.circles, i);
    if Spent(Checked(w.bubbles[id], env)) {
      assert id !in Splice(w.circles, i) by {
        forall k | 0 <= k < |Splice(w.circles, i)|
          ensures Splice(w.circles, i)[k] != id
        {
          if k < i {
            assert Splice(w.circles, i)[k] == w.circles[k];
          } else {
            assert Splice(w.circles, i)[k] == w.circles[k + 1];
          }
        }
      }
    }
  }

  /**
   * The collision rule of one visit: a bubble in view is in
   * `collidingCircles` afterwards exactly when it touches the crosshair; a
   * bubble out of view leaves the list as it was. No other entry changes
   * membership.
   */
  lemma VisitColliding(w: PoolState, i: nat, env: PoolEnv)
    requires Valid(w) && ValidEnv(env) && i < |w.circles|
    ensures var id := w.circles[i];
            var c := Culled(w.bubbles[id], env);
            var v := Visit(w, i, env);
            && (c.visible ==> (id in v.colliding <==> Touching(c, env)))
            && (!c.visible ==> v.colliding == w.colliding)
            && (forall x :: x != id ==> (x in v.colliding <==> x in w.colliding))
  {
    var id := w.circles[i];
    var c := Culled(w.bubbles[id], env);
    CollideKeepsNoDuplicates(w.colliding, id, Touching(c, env));
    assert Visit(w, i, env).colliding == Examined(w, i, env).colliding;
  }

  /**
   * The walk over `circles` from position `i`: every position is visited
   * once and `i` advances even after a splice, so the bubble that slides
   * into a removed bubble's place is passed over this frame.
   */
  function TickFrom(w: PoolState, i: nat, env: PoolEnv): (v: PoolState)
    requires Valid(w) && ValidEnv(env)
    ensures Valid(v)
    decreases |w.circles| - i
  {
    if i >= |w.circles| then w
    else
      VisitKeepsValid(w, i, env);
      TickFrom(Visit(w, i, env), i + 1, env)
  }

  function Tick(w: PoolState, env: PoolEnv): (v: PoolState)
    requires Valid(w) && ValidEnv(env)
    ensures Valid(v)
  {
    TickFrom(w, 0, env)
  }

  /**
   * The walk never grows `circles` past the larger of its old length and
   * the level's population: each replacement follows a removal and needs
   * room below the population.
   */
  lemma {:induction false} TickPopulationBound(w: PoolState, i: nat, env: PoolEnv)
    requires Valid(w) && ValidEnv(env)
    ensures |TickFrom(w, i, env).circles| <= if |w.circles| < env.cfg.population then env.cfg.population else |w.circles|
    decreases |w.circles| - i
  {
    if i < |w.circles| {
      VisitKeepsValid(w, i, env);
      VisitRemoval(w, i, env);
      SpliceMembers(w.circles, i);
      TickPopulationBound(Visit(w, i, env), i + 1, env);
    }
  }

  /** Of the bubbles the walk starts with, none is reactivated. */
  lemma {:induction false} TickNeverReactivates(w: PoolState, i: nat, env: PoolEnv)
    requires Valid(w) && ValidEnv(env)
    ensures forall id :: id in w.bubbles ==>
      id in TickFrom(w, i, env).bubbles && (TickFrom(w, i, env).bubbles[id].active ==> w.bubbles[id].active)
    decreases |w.circles| - i
  {
    if i < |w.circles| {
      var v := Visit(w, i, env);
      VisitKeepsValid(w, i, env);
      VisitRemoval(w, i, env);
      TickNeverReactivates(v, i + 1, env);
      forall id | id in w.bubbles
        ensures v.bubbles[id].active ==> w.bubbles[id].active
      {
        if id != w.circles[i] {
          VisitTouchesOne(w, i, env, id);
        }
      }
    }
  }

  /** A visit changes only the visited bubble and adds at most a fresh one. */
  lemma VisitTouchesOne(w: PoolState, i: nat, env: PoolEnv, x: nat)
    requires Valid(w) && ValidEnv(env) && i < |w.circles| && x in w.bubbles && x != w.circles[i]
    ensures x in Visit(w, i, env).bubbles && Visit(w, i, env).bubbles[x] == w.bubbles[x]
  {
    var e := Examined(w, i, env);
    var id := w.circles[i];
    if Spent(e.bubbles[id]) {
      var r := e.(circles := Splice(e.circles, i), simple := Splice(e.simple, i));
      ExaminedKeepsValid(w, i, env);
      RemovalKeepsValid(e, i);
      if |r.circles| < env.cfg.population {
        NewBubbleWellMade(env.cfg, env.current, env.spawns(r.spawned));
        SpawnKeepsValid(r, NewBubble(env.cfg, env.current, env.spawns(r.spawned)));
      }
    }
  }

  /**
   * A bubble that the walk takes out of `circles` is inactive with alpha
   * below 0.01 at the end: removal happens only to spent bubbles, and a
   * removed bubble is not touched again.
   */
  lemma {:induction false} TickRemovesOnlySpent(w: PoolState, i: nat, env: PoolEnv)
    requires Valid(w) && ValidEnv(env)
    ensures forall id :: id in w.circles && id !in TickFrom(w, i, env).circles ==>
      id in TickFrom(w, i, env).bubbles && Spent(TickFrom(w, i, env).bubbles[id])
    decreases |w.circles| - i
  {
    if i < |w.circles| {
      var v := Visit(w, i, env);
      var t := TickFrom(w, i, env);
      VisitKeepsValid(w, i, env);
      VisitRemoval(w, i, env);
      TickRemovesOnlySpent(v, i + 1, env);
      assert t == TickFrom(v, i + 1, env);
      forall id | id in w.circles && id !in t.circles
        ensures id in t.bubbles && Spent(t.bubbles[id])
      {
        if id !in v.circles {
          RemovedStaysPut(v, i + 1, env, id);
          if id != w.circles[i] {
            StaysListed(w, i, env, id);
          }
        }
      }
    }
  }

  /** A bubble the visit does not visit stays in `circles`. */
  lemma StaysListed(w: PoolState, i: nat, env: PoolEnv, x: nat)
    requires Valid(w) && ValidEnv(env) && i < |w.circles| && x in w.circles && x != w.circles[i]
    ensures x in Visit(w, i, env).circles
  {
    VisitRemoval(w, i, env);
    SpliceMembers(w.circles, i);
    var j :| 0 <= j < |w.circles| && w.circles[j] == x;
    if j < i {
      assert Splice(w.circles, i)[j] == x;
    } else {
      assert j > i;
      assert Splice(w.circles, i)[j - 1] == x;
    }
  }

  /** The walk leaves alone a bubble that is no longer in `circles`. */
  lemma {:induction false} RemovedStaysPut(w: PoolState, i: nat, env: PoolEnv, x: nat)
    requires Valid(w) && ValidEnv(env) && x in w.bubbles && x !in w.circles
    ensures x in TickFrom(w, i, env).bubbles && TickFrom(w, i, env).bubbles[x] == w.bubbles[x]
    ensures x !in TickFrom(w, i, env).circles
    decreases |w.circles| - i
  {
    if i < |w.circles| {
      var v := Visit(w, i, env);
      VisitKeepsValid(w, i, env);
      VisitRemoval(w, i, env);
      VisitTouchesOne(w, i, env, x);
      SpliceMembers(w.circles, i);
      assert x != w.nextId;
      assert x !in v.circles;
      RemovedStaysPut(v, i + 1, env, x);
    }
  }

  /** Deactivating any bubbles keeps the pool valid. */
  lemma DeactivationKeepsValid(w: PoolState, bubbles: map<nat, Bubble>)
    requires Valid(w) && bubbles.Keys == w.bubbles.Keys
    requires forall x :: x in w.bubbles ==> bubbles[x] == w.bubbles[x] || bubbles[x] == w.bubbles[x].(active := false)
    ensures Valid(w.(bubbles := bubbles))
  {
  }

  /** `circles[i].active = false` for each `i`: the bubbles listed in `ids` made inactive. */
  function Grounded(bubbles: map<nat, Bubble>, ids: seq<nat>): (r: map<nat, Bubble>)
    ensures r.Keys == bubbles.Keys
    ensures forall x :: x in bubbles ==> r[x] == if x in ids then bubbles[x].(active := false) else bubbles[x]
  {
    map x | x in bubbles :: if x in ids then bubbles[x].(active := false) else bubbles[x]
  }

  /** The first loop of `generateLevel`, and of a rocket hit in `shoot`: every bubble in `circles` made inactive. */
  function Deactivated(w: PoolState): PoolState {
    w.(bubbles := Grounded(w.bubbles, w.circles))
  }

  /** `generateLevel`'s two loops: deactivate the listed bubbles, then make `population` new ones. */
  function Regenerate(w: PoolState, cfg: LevelConfig, current: real, spawns: nat -> SpawnDraws): PoolState
    requires |cfg.operators| > 0 && forall k: nat :: ValidDraws(spawns(k))
  {
    Populated(Deactivated(w), cfg, current, spawns, cfg.population)
  }

  /**
   * After `generateLevel` the bubbles that were listed are inactive, the
   * others are untouched, and exactly `population` new active bubbles are
   * appended to `circles`.
   */
  lemma RegenerateRules(w: PoolState, cfg: LevelConfig, current: real, spawns: nat -> SpawnDraws)
    requires Valid(w) && |cfg.operators| > 0 && forall k: nat :: ValidDraws(spawns(k))
    ensures var v := Regenerate(w, cfg, current, spawns);
      && Valid(v)
      && (forall x :: x in w.circles ==> x in v.bubbles && !v.bubbles[x].active)
      && (forall x :: x in w.bubbles && x !in w.circles ==> x in v.bubbles && v.bubbles[x] == w.bubbles[x])
      && v.circles == w.circles + Run(w.nextId, cfg.population)
      && (forall id :: w.nextId <= id < v.nextId ==> id !in w.bubbles && id in v.bubbles && v.bubbles[id].active)
      && v.nextId == w.nextId + cfg.population && v.colliding == w.colliding
  {
    var p := Deactivated(w);
    DeactivationKeepsValid(w, p.bubbles);
    var make := Made(cfg, current, spawns);
    MadeFresh(cfg, current, spawns);
    SpawnManyShape(p, make, cfg.population);
    SpawnManyFresh(p, make, cfg.population);
    forall x | x in p.bubbles
      ensures x in Regenerate(w, cfg, current, spawns).bubbles
      ensures Regenerate(w, cfg, current, spawns).bubbles[x] == p.bubbles[x]
    {
      SpawnManyKeeps(p, make, cfg.population, x);
    }
    forall x | x in w.circles
      ensures x in w.bubbles
    {
      var k := IndexOf(w.circles, x);
    }
  }
}
