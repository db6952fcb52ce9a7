/**
 * The menu box: which pane is shown (`index`), whether play is paused, and
 * the fade requests `changePane` and `togglePause` queue; also the tutorial
 * slide counter.
 */
module Menu {
  import opened JsArray
  import opened Fades

  /** `panes`, in the order they are pushed: the level list, the directions, the end screen. */
  const Panes: seq<Element> := [LevelPane, DirectionsPane, EndPane]
  const LevelIndex: nat := 0
  const DirectionsIndex: nat := 1
  const EndIndex: nat := 2

  /** The menu globals: `index`, `pause`, `menuBox.active` and the two fade queues. */
  datatype Screens = Screens(index: nat, pause: bool, menuActive: bool, fadeOut: seq<Element>, fadeIn: seq<Element>)

  /** At load: the directions pane in an open menu, not paused, nothing fading. */
  const Initial: Screens := Screens(DirectionsIndex, false, true, [], [])

  // The guard of `changePane`, evaluated the way JavaScript evaluates it as written.

  /** The JavaScript values the guard hands to `indexOf`. */
  datatype JsValue = Obj(element: Element) | Bool(b: bool) | Num(n: int) | Undefined

  /** `queue.indexOf(v)`: a queue of display objects never holds a boolean, a number or `undefined`. */
  function QueueIndexOf(q: seq<Element>, v: JsValue): int {
    match v
    case Obj(e) => IndexOf(q, e)
    case _ => -1
  }

  /** `panes[index] < 0`: a display object compared with a number converts to NaN, so this is false. */
  const PaneBelowZero: bool := false

  /** `panels[k]`: `panels` is a container object, not an array, so every index reads `undefined`. */
  function PanelsAt(k: nat): JsValue {
    Undefined
  }

  /** JavaScript's `a && b` for a boolean `a`: `b` when `a` holds, `false` otherwise. */
  function And(a: bool, b: JsValue): JsValue {
    if a then b else Bool(false)
  }

  /**
   * The guard at the head of `changePane` as written: the first `indexOf` is
   * given the value of `panes[index] < 0 && fadeIn.indexOf(panes[index])`,
   * and the last two look up `panels` instead of `panes`.
   */
  predicate ChangePaneGuard(s: Screens, newIndex: nat)
    requires s.index < |Panes|
  {
    var first := And(PaneBelowZero, Num(IndexOf(s.fadeIn, Panes[s.index])));
    QueueIndexOf(s.fadeOut, first) < 0 &&
    QueueIndexOf(s.fadeOut, PanelsAt(newIndex)) < 0 &&
    QueueIndexOf(s.fadeIn, PanelsAt(newIndex)) < 0
  }

  /** The guard as written never blocks a pane change, whatever is queued. */
  lemma ChangePaneGuardHolds(s: Screens, newIndex: nat)
    requires s.index < |Panes|
    ensures ChangePaneGuard(s, newIndex)
  {
  }

  /** `changePane`: queue the shown pane to fade out and the new one to fade in. */
  function ChangePane(s: Screens, newIndex: nat): (t: Screens)
    requires s.index < |Panes| && newIndex < |Panes|
    ensures t.index < |Panes|
  {
    if ChangePaneGuard(s, newIndex) then
      s.(fadeOut := s.fadeOut + [Panes[s.index]], index := newIndex, fadeIn := s.fadeIn + [Panes[newIndex]])
    else s
  }

  /**
   * Every call switches to the requested pane and queues both panes, even
   * while earlier fades of the same panes are still under way.
   */
  lemma ChangePaneAlwaysSwitches(s: Screens, newIndex: nat)
    requires s.index < |Panes| && newIndex < |Panes|
    ensures ChangePane(s, newIndex).index == newIndex
    ensures multiset(ChangePane(s, newIndex).fadeIn)[Panes[newIndex]] == multiset(s.fadeIn)[Panes[newIndex]] + 1
    ensures multiset(ChangePane(s, newIndex).fadeOut)[Panes[s.index]] == multiset(s.fadeOut)[Panes[s.index]] + 1
    ensures ChangePane(s, newIndex).pause == s.pause && ChangePane(s, newIndex).menuActive == s.menuActive
  {
    ChangePaneGuardHolds(s, newIndex);
  }

  /** Asking twice for the same pane queues it twice for fading in. */
  lemma ChangePaneTwiceRepeats(s: Screens, newIndex: nat)
    requires s.index < |Panes| && newIndex < |Panes|
    ensures multiset(ChangePane(ChangePane(s, newIndex), newIndex).fadeIn)[Panes[newIndex]] >= 2
  {
    ChangePaneAlwaysSwitches(s, newIndex);
    ChangePaneAlwaysSwitches(ChangePane(s, newIndex), newIndex);
  }

  /** `togglePause`: on the directions pane, go to the level list; otherwise open or close the menu. */
  function TogglePause(s: Screens): (t: Screens)
    requires s.index < |Panes|
    ensures t.index < |Panes|
  {
    if s.index == DirectionsIndex then ChangePane(s, LevelIndex)
    else if s.menuActive && PauseGraphic !in s.fadeIn && PauseGraphic !in s.fadeOut then
      s.(pause := false, menuActive := false,
         fadeOut := s.fadeOut + [MenuBox, PlayGraphic], fadeIn := s.fadeIn + [PauseGraphic, Hud])
    else if PlayGraphic !in s.fadeIn && PlayGraphic !in s.fadeOut then
      s.(pause := true, menuActive := true,
         fadeIn := s.fadeIn + [MenuBox, PlayGraphic], fadeOut := s.fadeOut + [PauseGraphic, Hud])
    else s
  }

  /**
   * Away from the directions pane a toggle that does something leaves
   * `pause` equal to `menuBox.active`; closing the menu hides it and the play
   * button and brings up the pause button and the HUD, opening it does the reverse.
   */
  lemma TogglePauseEffect(s: Screens)
    requires s.index < |Panes| && s.index != DirectionsIndex && TogglePause(s) != s
    ensures TogglePause(s).pause == TogglePause(s).menuActive
    ensures !TogglePause(s).pause ==> s.menuActive
    ensures !TogglePause(s).pause ==> TogglePause(s).fadeOut == s.fadeOut + [MenuBox, PlayGraphic] &&
                                      TogglePause(s).fadeIn == s.fadeIn + [PauseGraphic, Hud]
    ensures TogglePause(s).pause ==> TogglePause(s).fadeIn == s.fadeIn + [MenuBox, PlayGraphic] &&
                                     TogglePause(s).fadeOut == s.fadeOut + [PauseGraphic, Hud]
    ensures TogglePause(s).index == s.index
  {
  }

  /**
   * The fade-queue guard debounces: until the fades queued by an effective
   * toggle have finished, a second toggle does nothing.
   */
  lemma TogglePauseDebounces(s: Screens)
    requires s.index < |Panes| && s.index != DirectionsIndex
    ensures TogglePause(TogglePause(s)) == TogglePause(s)
  {
  }

  /** On the directions pane, toggling is `changePane(0)` and leaves `pause` alone. */
  lemma TogglePauseFromDirections(s: Screens)
    requires s.index == DirectionsIndex
    ensures TogglePause(s) == ChangePane(s, LevelIndex) && TogglePause(s).pause == s.pause
  {
  }

  /** The menu steps of `selectLevel`: `togglePause`, then `menuBox.active = false` and `fadeOut.push(menuBox)`. */
  function SelectLevel(s: Screens): (t: Screens)
    requires s.index < |Panes|
    ensures t.index < |Panes| && !t.menuActive
  {
    var u := TogglePause(s);
    u.(menuActive := false, fadeOut := u.fadeOut + [MenuBox])
  }

  /**
   * Choosing a level from the open menu resumes play on the level pane and
   * queues the menu box to fade out twice: once in `togglePause` and once
   * more in `selectLevel` itself.
   */
  lemma SelectLevelFromOpenMenu(s: Screens)
    requires s.index == LevelIndex && s.menuActive && PauseGraphic !in s.fadeIn && PauseGraphic !in s.fadeOut
    ensures !SelectLevel(s).pause && SelectLevel(s).index == LevelIndex
    ensures SelectLevel(s).fadeOut == s.fadeOut + [MenuBox, PlayGraphic, MenuBox]
    ensures SelectLevel(s).fadeIn == s.fadeIn + [PauseGraphic, Hud]
    ensures multiset(SelectLevel(s).fadeOut)[MenuBox] == multiset(s.fadeOut)[MenuBox] + 2
  {
    assert s.fadeOut + [MenuBox, PlayGraphic] + [MenuBox] == s.fadeOut + [MenuBox, PlayGraphic, MenuBox];
  }

  /** `slideText.length`: the tutorial has three slides. */
  const SlideCount: nat := 3

  /** `currentSlide++`, wrapped to 0 past the last slide. */
  function NextSlide(n: nat): nat {
    if n + 1 > SlideCount - 1 then 0 else n + 1
  }

  /** From a valid slide, the counter steps modulo the number of slides. */
  lemma NextSlideCycles(n: nat)
    requires n < SlideCount
    ensures NextSlide(n) < SlideCount && NextSlide(n) == (n + 1) % SlideCount
  {
  }
}
