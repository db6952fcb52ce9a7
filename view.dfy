/** What the player sees: the renderer size, the camera offset, culling and the crosshair's reach. */
module Viewport {

  /**
   * The renderer's `width` and `height`, and the crosshair's `radius`. The
   * radius is computed once at load; `resize` changes only the size.
   */
  datatype Screen = Screen(width: real, height: real, radius: real)

  /** `Camera.x`, `Camera.y`: the scene is drawn shifted by this offset. */
  datatype Camera = Camera(x: real, y: real)

  /** The side length of the square playing field. */
  const FieldSize: real := 5000.0

  /** `inView`: a `w` by `h` box centred on `(x, y)` in scene coordinates overlaps the screen. */
  predicate InView(cam: Camera, scr: Screen, x: real, y: real, w: real, h: real) {
    x + w / 2.0 > -cam.x && x - w / 2.0 < -cam.x + scr.width &&
    y + h / 2.0 > -cam.y && y - h / 2.0 < -cam.y + scr.height
  }

  /** `getDistance(x1, y1, x2, y2) < r`, compared on squares. */
  predicate CloserThan(x1: real, y1: real, x2: real, y2: real, r: real) {
    r > 0.0 && (x2 - x1) * (x2 - x1) + (y2 - y1) * (y2 - y1) < r * r
  }

  /** The crosshair's `radius` at load: an eighth of the smaller side of the screen. */
  function CrosshairRadius(width: real, height: real): (r: real)
    ensures r * 8.0 == width || r * 8.0 == height
    ensures r * 8.0 <= width && r * 8.0 <= height
  {
    (if width < height then width else height) / 8.0
  }

  /** A box whose centre is on screen is in view, whatever its positive size. */
  lemma CentreOnScreenInView(cam: Camera, scr: Screen, x: real, y: real, w: real, h: real)
    requires w > 0.0 && h > 0.0
    requires -cam.x <= x <= -cam.x + scr.width && -cam.y <= y <= -cam.y + scr.height
    ensures InView(cam, scr, x, y, w, h)
  {
  }

  /** Growing a box never takes it out of view. */
  lemma InViewGrows(cam: Camera, scr: Screen, x: real, y: real, w: real, h: real, w': real, h': real)
    requires InView(cam, scr, x, y, w, h) && w <= w' && h <= h'
    ensures InView(cam, scr, x, y, w', h')
  {
  }

  /** Two points closer than `r` differ by less than `r` in each coordinate. */
  lemma CloserThanBox(x1: real, y1: real, x2: real, y2: real, r: real)
    requires CloserThan(x1, y1, x2, y2, r)
    ensures -r < x2 - x1 < r && -r < y2 - y1 < r
  {
    SquareBelow(x2 - x1, r, (y2 - y1) * (y2 - y1));
    SquareBelow(y2 - y1, r, (x2 - x1) * (x2 - x1));
  }

  lemma SquareBelow(d: real, r: real, rest: real)
    requires r > 0.0 && rest >= 0.0 && d * d + rest < r * r
    ensures -r < d < r
  {
    if d >= r {
      assert false;
    } else if d <= -r {
      assert false;
    }
  }
}
