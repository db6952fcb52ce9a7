/** The bonus rocket: its scale-in, its culling test and `resetRocket`. */
module Rocketry {
  import opened Viewport

  /**
   * The rocket sprite: position, velocity, `scale.x` (which `scale.set` keeps
   * equal to `scale.y`), `visible`, `active`, and the size of its texture,
   * which the image file decides.
   */
  datatype Rocket = Rocket(x: real, y: real, vx: real, vy: real, scale: real,
                           visible: bool, active: bool, texWidth: real, texHeight: real)

  /** Where `resetRocket`'s random angle puts the rocket, and its velocity toward the centre. */
  datatype Placement = Placement(x: real, y: real, vx: real, vy: real)

  /** `rocket.width` and `rocket.height`: the texture size times the scale. */
  function Width(r: Rocket): real {
    r.texWidth * r.scale
  }

  function Height(r: Rocket): real {
    r.texHeight * r.scale
  }

  /** `resetRocket`: placed afresh, active, hidden and shrunk to nothing. */
  function Reset(r: Rocket, p: Placement): (r': Rocket)
    ensures r'.active && !r'.visible && Width(r') == 0.0 && Height(r') == 0.0
    ensures r'.texWidth == r.texWidth && r'.texHeight == r.texHeight
  {
    Rocket(p.x, p.y, p.vx, p.vy, 0.0, false, true, r.texWidth, r.texHeight)
  }

  /** The rocket's culling test: a square as wide as the rocket is tall, raised by half its height. */
  predicate RocketInView(cam: Camera, scr: Screen, r: Rocket) {
    InView(cam, scr, r.x, r.y - Height(r) / 2.0, Height(r), Height(r))
  }

  /** `rocket.scale > 0`: `scale` is a point object, which compares with a number as NaN. */
  const ScalePointAboveZero: bool := false

  /** The scale-in and scale-out steps of `update`. */
  function ScaleStep(r: Rocket): Rocket {
    if r.scale < 0.5 && r.active then r.(scale := r.scale + 0.01)
    else if !r.active && ScalePointAboveZero then r.(scale := r.scale - 0.01)
    else r
  }

  /**
   * The scale-out step never applies: an active rocket grows by 0.01 while
   * below 0.5 and stops below 0.51, and an inactive one keeps its scale.
   */
  lemma ScaleNeverShrinks(r: Rocket)
    ensures ScaleStep(r).scale >= r.scale
    ensures r.active && r.scale < 0.5 ==> ScaleStep(r).scale == r.scale + 0.01
    ensures !r.active ==> ScaleStep(r) == r
    ensures r.scale < 0.5 ==> ScaleStep(r).scale < 0.51
    ensures r.scale >= 0.5 ==> ScaleStep(r) == r
    ensures ScaleStep(r).active == r.active && ScaleStep(r).x == r.x && ScaleStep(r).y == r.y
  {
  }

  /** The test in `shoot`: the rocket is closer to the crosshair centre than `radius + rocket.width`. */
  predicate RocketHit(cam: Camera, scr: Screen, r: Rocket) {
    CloserThan(r.x, r.y, -cam.x + scr.width / 2.0, -cam.y + scr.height / 2.0, scr.radius + Width(r))
  }

  /** A freshly reset rocket can only be hit by being within the crosshair radius itself. */
  lemma ResetRocketHitRange(cam: Camera, scr: Screen, r: Rocket, p: Placement)
    ensures RocketHit(cam, scr, Reset(r, p)) ==>
      CloserThan(p.x, p.y, -cam.x + scr.width / 2.0, -cam.y + scr.height / 2.0, scr.radius)
  {
  }
}
