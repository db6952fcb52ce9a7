/**
 * The arithmetic of the puzzle: the level table, the four operators, the
 * choice of a bubble's operand, the choice of a target and the win/loss rule.
 */
module Puzzle {
  import opened JsMath

  datatype Operator = Add | Sub | Mul | Div

  /** One entry of `config.levels` (its `description` is display text only). */
  datatype LevelConfig = LevelConfig(operators: seq<Operator>, population: nat, range: real)

  /** `config.levels`; level `n` (counted from 1) is `Levels[n - 1]`. */
  const Levels: seq<LevelConfig> := [
    LevelConfig([Add, Sub], 20, 10.0),
    LevelConfig([Add, Sub], 35, 20.0),
    LevelConfig([Add, Sub, Mul, Div], 30, 30.0),
    LevelConfig([Add, Sub, Mul, Div], 35, 50.0),
    LevelConfig([Mul, Div], 40, 99.0)
  ]

  /** The losing bound on `|current|`. */
  const Ceiling: real := 500.0

  /** What `Math.random()` can return. */
  predicate IsDraw(u: real) {
    0.0 <= u < 1.0
  }

  /** The operator that undoes `op`. */
  function Inverse(op: Operator): Operator {
    match op
    case Add => Sub
    case Sub => Add
    case Mul => Div
    case Div => Mul
  }

  /** `performOperation`: combines the player's number `a` with a bubble's operand `b`. */
  function PerformOperation(op: Operator, a: real, b: real): (r: real)
    requires op == Div ==> b != 0.0
    ensures op == Add ==> r - b == a
    ensures op == Sub ==> r + b == a
    ensures op == Mul && b != 0.0 ==> r / b == a
    ensures op == Mul && b == 0.0 ==> r == 0.0
    ensures op == Div ==> r * b == a
  {
    match op
    case Add => a + b
    case Sub => a - b
    case Mul => a * b
    case Div => a / b
  }

  /** Shooting a bubble and then its inverse (with the same nonzero operand) restores the number. */
  lemma OperationInverse(op: Operator, a: real, b: real)
    requires b != 0.0
    ensures PerformOperation(Inverse(op), PerformOperation(op, a, b), b) == a
  {
    var r := PerformOperation(op, a, b);
    match op
    case Add =>
    case Sub =>
    case Mul => assert r / b == a;
    case Div => assert r * b == a;
  }

  /** The `+` and `-` branch of `randomRadius`: `Math.round(Math.random() * range)`. */
  function AdditiveOperand(range: real, u: real): int {
    Round(u * range)
  }

  /** An additive operand is a whole number in `[0, range + 1/2]`. */
  lemma AdditiveOperandBounds(range: real, u: real)
    requires IsDraw(u) && range >= 0.0
    ensures 0 <= AdditiveOperand(range, u) && AdditiveOperand(range, u) as real <= range + 0.5
  {
    var p := u * range;
    DrawScales(u, range);
    var r := Round(p);
    assert 0.0 <= p <= range;
  }

  /** A draw scales a nonnegative span into `[0, span]`. */
  lemma DrawScales(u: real, span: real)
    requires IsDraw(u) && span >= 0.0
    ensures 0.0 <= u * span <= span
  {
    MulMono(0.0, u, span);
    MulMono(u, 1.0, span);
  }

  lemma MulMono(a: real, b: real, c: real)
    requires a <= b && c >= 0.0
    ensures a * c <= b * c
  {
    assert b * c - a * c == (b - a) * c;
  }

  lemma NegMul(w: real, a: real)
    ensures w * -a == -(w * a)
  {
  }

  /** A centred draw `u - 1/2` scales `s` into `[-|s|/2, |s|/2]`. */
  lemma HalfSpan(u: real, s: real)
    requires IsDraw(u)
    ensures -(Abs(s) / 2.0) <= (u - 0.5) * s <= Abs(s) / 2.0
  {
    CentredSpan(u - 0.5, s);
  }

  lemma CentredSpan(w: real, s: real)
    requires -0.5 <= w <= 0.5
    ensures -(Abs(s) / 2.0) <= w * s <= Abs(s) / 2.0
  {
    var a := Abs(s);
    MulMono(w, 0.5, a);
    MulMono(-0.5, w, a);
    if s < 0.0 {
      assert s == -a;
      NegMul(w, a);
    } else {
      assert s == a;
    }
  }

  /** The divisor `randomRadius("*")` and `randomTarget` use: `current`, or 1 when it is 0. */
  function Scale(current: real): (d: real)
    ensures d != 0.0
  {
    if current != 0.0 then current else 1.0
  }

  /** The `*` branch of `randomRadius`, which also picks a level's starting number. */
  function ScaleOperand(range: real, current: real, u: real): int {
    Round((u - 0.5) * (range / Scale(current)))
  }

  /** A multiplicative operand has magnitude at most `|range / current| / 2 + 1/2`. */
  lemma ScaleOperandBounds(range: real, current: real, u: real)
    requires IsDraw(u)
    ensures Abs(ScaleOperand(range, current, u) as real) <= Abs(range / Scale(current)) / 2.0 + 0.5
  {
    HalfSpan(u, range / Scale(current));
  }

  /** `i` is a value the loop of `randomRadius("/")` visits: `-current`, `-current + 1`, ... up to `current`. */
  predicate IsCandidate(current: real, i: real) {
    -current <= i <= current && IsInteger(i + current)
  }

  /** `i` is an option of `randomRadius("/")`: a visited value with `current % i == 0`. */
  predicate IsDivisorOption(current: real, i: real) {
    IsCandidate(current, i) && RemainderIsZero(current, i)
  }

  /** The options the loop of `randomRadius("/")` still adds once it has reached `i`. */
  function OptionsFrom(current: real, i: real): seq<real>
    decreases if i <= current then (current - i).Floor + 1 else 0
  {
    if i > current then []
    else
      StepDown(current - i);
      (if RemainderIsZero(current, i) then [i] else []) + OptionsFrom(current, i + 1.0)
  }

  lemma StepDown(x: real)
    ensures (x - 1.0).Floor == x.Floor - 1
  {
  }

  /** The option list of `randomRadius("/")`. */
  function DivisorList(current: real): seq<real> {
    OptionsFrom(current, -current)
  }

  /** Every option listed from `i` on is a divisor option no smaller than `i`. */
  lemma {:induction false} OptionsFromSound(current: real, i: real)
    requires IsInteger(i + current) && -current <= i
    ensures forall x :: x in OptionsFrom(current, i) ==> IsDivisorOption(current, x) && x >= i
    decreases if i <= current then (current - i).Floor + 1 else 0
  {
    if i <= current {
      StepDown(current - i);
      NextCandidate(current, i);
      OptionsFromSound(current, i + 1.0);
    }
  }

  /** Every divisor option from `i` on is listed. */
  lemma {:induction false} OptionsFromComplete(current: real, i: real)
    requires IsInteger(i + current)
    ensures forall x :: IsDivisorOption(current, x) && x >= i ==> x in OptionsFrom(current, i)
    decreases if i <= current then (current - i).Floor + 1 else 0
  {
    if i <= current {
      StepDown(current - i);
      NextCandidate(current, i);
      OptionsFromComplete(current, i + 1.0);
      var tail := OptionsFrom(current, i + 1.0);
      forall x | IsDivisorOption(current, x) && x >= i
        ensures x in OptionsFrom(current, i)
      {
        if x != i {
          assert x in tail;
        }
      }
    }
  }

  /** The options come out in strictly increasing order. */
  lemma {:induction false} OptionsFromIncreasing(current: real, i: real)
    requires IsInteger(i + current) && -current <= i
    ensures forall j, l :: 0 <= j < l < |OptionsFrom(current, i)| ==> OptionsFrom(current, i)[j] < OptionsFrom(current, i)[l]
    decreases if i <= current then (current - i).Floor + 1 else 0
  {
    if i <= current {
      StepDown(current - i);
      NextCandidate(current, i);
      OptionsFromIncreasing(current, i + 1.0);
      OptionsFromSound(current, i + 1.0);
      var tail := OptionsFrom(current, i + 1.0);
      assert forall l :: 0 <= l < |tail| ==> tail[l] > i by {
        forall l | 0 <= l < |tail| ensures tail[l] > i {
          assert tail[l] in tail;
        }
      }
    }
  }

  /**
   * The option list holds exactly the divisor options of `current`, in
   * increasing order, and is empty exactly when `current <= 0`.
   */
  lemma DivisorListSpec(current: real)
    ensures forall x :: x in DivisorList(current) <==> IsDivisorOption(current, x)
    ensures forall j, l :: 0 <= j < l < |DivisorList(current)| ==> DivisorList(current)[j] < DivisorList(current)[l]
    ensures |DivisorList(current)| > 0 <==> current > 0.0
  {
    assert (-current + current).Floor == 0;
    OptionsFromSound(current, -current);
    OptionsFromComplete(current, -current);
    OptionsFromIncreasing(current, -current);
    if current > 0.0 {
      OppositeDivides(current);
      assert -current in DivisorList(current);
    } else if current < 0.0 {
      assert DivisorList(current) == [];
    } else {
      assert OptionsFrom(current, 1.0) == [];
    }
  }

  /** The loop of `randomRadius("/")`, from `-current` up to `current` in steps of 1. */
  method DivisorOptions(current: real) returns (options: seq<real>)
    ensures options == DivisorList(current)
  {
    options := [];
    var i := -current;
    assert (i + current).Floor == 0;
    while i <= current
      invariant IsInteger(i + current)
      invariant options + OptionsFrom(current, i) == DivisorList(current)
      decreases (current - i).Floor + 1
    {
      StepDown(current - i);
      NextCandidate(current, i);
      ghost var rest := OptionsFrom(current, i + 1.0);
      assert OptionsFrom(current, i) == (if RemainderIsZero(current, i) then [i] else []) + rest;
      if RemainderIsZero(current, i) {
        assert options + OptionsFrom(current, i) == (options + [i]) + rest;
        options := options + [i];
      } else {
        assert options + OptionsFrom(current, i) == options + rest;
      }
      i := i + 1.0;
    }
  }

  /** The loop visits every candidate: none lies strictly between `i` and `i + 1`. */
  lemma NextCandidate(current: real, i: real)
    requires IsInteger(i + current)
    ensures IsInteger(i + 1.0 + current)
    ensures forall x :: IsCandidate(current, x) && x < i + 1.0 ==> x <= i
  {
    forall x | IsCandidate(current, x) && x < i + 1.0
      ensures x <= i
    {
      var n := (x + current).Floor;
      var m := (i + current).Floor;
      assert n < m + 1;
    }
    assert (i + 1.0 + current).Floor == (i + current).Floor + 1;
  }

  /** `current % -current == 0`, so `-current`, the first value visited, is an option. */
  lemma OppositeDivides(c: real)
    requires c != 0.0
    ensures RemainderIsZero(c, -c)
  {
    assert c / -c == -1.0;
    assert (-1.0).Floor == -1;
  }

  /** When `current` is a whole number the candidates are exactly the whole numbers in `[-current, current]`. */
  lemma CandidatesOfWholeCurrent(current: real, i: real)
    requires IsInteger(current)
    ensures IsCandidate(current, i) <==> (IsInteger(i) && -current <= i <= current)
  {
    var c := current.Floor;
    if IsInteger(i + current) {
      assert ((i + current).Floor - c) as real == i;
    }
    if IsInteger(i) {
      assert (i.Floor + c) as real == i + current;
    }
  }

  /** `Math.floor(u * n)`: the position a draw picks in a list of `n` options. */
  function PickIndex(u: real, n: nat): (k: nat)
    requires IsDraw(u) && n > 0
    ensures k < n
  {
    assert 0.0 <= u * n as real < n as real by {
      assert u * n as real < 1.0 * n as real;
    }
    (u * n as real).Floor
  }

  /**
   * The operand `randomRadius(op)` returns for the draw `u`. `None` is the
   * `undefined` that indexing an empty option list yields.
   */
  function RadiusOf(op: Operator, cfg: LevelConfig, current: real, u: real): Option<real>
    requires IsDraw(u)
  {
    match op
    case Add => Some(AdditiveOperand(cfg.range, u) as real)
    case Sub => Some(AdditiveOperand(cfg.range, u) as real)
    case Mul => Some(ScaleOperand(cfg.range, current, u) as real)
    case Div =>
      var options := DivisorList(current);
      if |options| == 0 then None else Some(options[PickIndex(u, |options|)])
  }

  /**
   * A `+`, `-` or `*` operand is always a whole number; a `/` operand is a
   * nonzero divisor option of `current`, and exists exactly when `current > 0`.
   */
  lemma RadiusOfSpec(op: Operator, cfg: LevelConfig, current: real, u: real)
    requires IsDraw(u)
    ensures op != Div ==> RadiusOf(op, cfg, current, u).Some? && IsInteger(RadiusOf(op, cfg, current, u).value)
    ensures op == Div ==> (RadiusOf(op, cfg, current, u).Some? <==> current > 0.0)
    ensures op == Div && RadiusOf(op, cfg, current, u).Some? ==>
      IsDivisorOption(current, RadiusOf(op, cfg, current, u).value) && RadiusOf(op, cfg, current, u).value != 0.0
  {
    DivisorListSpec(current);
    if op == Div && current > 0.0 {
      var options := DivisorList(current);
      assert options[PickIndex(u, |options|)] in options;
    }
  }

  /** `randomRadius`: the `/` branch runs the divisor loop. */
  method RandomRadius(op: Operator, cfg: LevelConfig, current: real, u: real) returns (r: Option<real>)
    requires IsDraw(u)
    ensures r == RadiusOf(op, cfg, current, u)
  {
    match op
    case Add => r := Some(AdditiveOperand(cfg.range, u) as real);
    case Sub => r := Some(AdditiveOperand(cfg.range, u) as real);
    case Mul => r := Some(ScaleOperand(cfg.range, current, u) as real);
    case Div =>
      var options := DivisorOptions(current);
      if |options| == 0 {
        r := None;
      } else {
        r := Some(options[PickIndex(u, |options|)]);
      }
  }

  /** `randomTarget`: a rounded centred draw over the range; without `+`, scaled to a multiple of `current`. */
  function RandomTarget(cfg: LevelConfig, current: real, u: real): real {
    if Add in cfg.operators then
      Round((u - 0.5) * cfg.range) as real
    else
      TargetSteps(cfg.range, current, u) as real * current
  }

  /** How many multiples of `current` a target of a level without `+` is. */
  function TargetSteps(range: real, current: real, u: real): int {
    Round((u - 0.5) * range / Scale(current))
  }

  /**
   * With `+` the target is a whole number within `range / 2 + 1/2` of zero;
   * without it, a whole multiple of `current`, hence 0 whenever `current` is.
   */
  lemma RandomTargetShape(cfg: LevelConfig, current: real, u: real)
    requires IsDraw(u)
    ensures Add in cfg.operators ==>
      IsInteger(RandomTarget(cfg, current, u)) && Abs(RandomTarget(cfg, current, u)) <= Abs(cfg.range) / 2.0 + 0.5
    ensures Add !in cfg.operators && current != 0.0 ==> IsInteger(RandomTarget(cfg, current, u) / current)
    ensures Add !in cfg.operators && current == 0.0 ==> RandomTarget(cfg, current, u) == 0.0
  {
    if Add in cfg.operators {
      HalfSpan(u, cfg.range);
    } else if current != 0.0 {
      TargetIsMultiple(cfg, current, u);
    } else {
      assert TargetSteps(cfg.range, current, u) as real * 0.0 == 0.0;
    }
  }

  lemma TargetIsMultiple(cfg: LevelConfig, current: real, u: real)
    requires Add !in cfg.operators && current != 0.0
    ensures IsInteger(RandomTarget(cfg, current, u) / current)
  {
    var n := TargetSteps(cfg.range, current, u);
    assert RandomTarget(cfg, current, u) == n as real * current;
    assert n as real * current / current == n as real;
  }

  /**
   * Where the `do ... while (target == current)` loop of `generateLevel`
   * stops when its draws are `draws[i..]`: at the first draw whose target
   * differs from `current`, or at the last draw when none does.
   */
  function Settle(cfg: LevelConfig, current: real, draws: seq<real>, i: nat): (k: nat)
    requires i < |draws|
    ensures i <= k < |draws|
    ensures forall j :: i <= j < k ==> RandomTarget(cfg, current, draws[j]) == current
    ensures RandomTarget(cfg, current, draws[k]) == current ==> k == |draws| - 1
    decreases |draws| - i
  {
    if RandomTarget(cfg, current, draws[i]) != current || i == |draws| - 1 then i
    else Settle(cfg, current, draws, i + 1)
  }

  /** What `generateLevel` leaves in `current` and `target`, and where the target loop stopped. */
  datatype Roll = Roll(current: real, target: real, settled: bool, used: nat)

  /**
   * The first lines of `generateLevel` from `current == before`: a new
   * `current` from the draw `u`, then targets drawn until one differs.
   */
  function NewRound(cfg: LevelConfig, before: real, u: real, draws: seq<real>): Roll
    requires |draws| > 0
  {
    var c := ScaleOperand(cfg.range, before, u) as real;
    var k := Settle(cfg, c, draws, 0);
    var t := RandomTarget(cfg, c, draws[k]);
    Roll(c, t, t != c, k + 1)
  }

  /**
   * After `generateLevel` the target differs from `current` exactly when the
   * loop settled; every draw before the last one used repeated `current`,
   * and a loop that did not settle used up every draw.
   */
  lemma NewRoundRules(cfg: LevelConfig, before: real, u: real, draws: seq<real>)
    requires |draws| > 0
    ensures var r := NewRound(cfg, before, u, draws);
      && r.current == ScaleOperand(cfg.range, before, u) as real
      && 1 <= r.used <= |draws| && r.target == RandomTarget(cfg, r.current, draws[r.used - 1])
      && (r.settled <==> r.target != r.current)
      && (forall j :: 0 <= j < r.used - 1 ==> RandomTarget(cfg, r.current, draws[j]) == r.current)
      && (!r.settled ==> r.used == |draws| && forall j :: 0 <= j < |draws| ==> RandomTarget(cfg, r.current, draws[j]) == r.current)
  {
    var r := NewRound(cfg, before, u, draws);
    if !r.settled {
      forall j | 0 <= j < |draws|
        ensures RandomTarget(cfg, r.current, draws[j]) == r.current
      {
        if j == r.used - 1 {
        }
      }
    }
  }

  /**
   * The `do ... while (target == current)` loop of `generateLevel`, fed a
   * finite supply of draws. `settled` is false when every draw repeated
   * `current`: the source would still be looping.
   */
  method DrawTarget(cfg: LevelConfig, current: real, draws: seq<real>) returns (target: real, settled: bool, used: nat)
    requires |draws| > 0
    ensures 1 <= used <= |draws| && target == RandomTarget(cfg, current, draws[used - 1])
    ensures settled <==> target != current
    ensures forall j :: 0 <= j < used - 1 ==> RandomTarget(cfg, current, draws[j]) == current
    ensures !settled ==> used == |draws|
    ensures used == Settle(cfg, current, draws, 0) + 1
  {
    target := RandomTarget(cfg, current, draws[0]);
    used := 1;
    while target == current && used < |draws|
      invariant 1 <= used <= |draws| && target == RandomTarget(cfg, current, draws[used - 1])
      invariant forall j :: 0 <= j < used - 1 ==> RandomTarget(cfg, current, draws[j]) == current
      invariant Settle(cfg, current, draws, 0) == Settle(cfg, current, draws, used - 1)
    {
      target := RandomTarget(cfg, current, draws[used]);
      used := used + 1;
    }
    settled := target != current;
  }

  /** With `current == 0` in a level without `+`, no draw ever ends the target loop. */
  lemma TargetLoopCannotSettle(cfg: LevelConfig, draws: seq<real>)
    requires Add !in cfg.operators
    ensures forall j :: 0 <= j < |draws| ==> RandomTarget(cfg, 0.0, draws[j]) == 0.0
  {
    forall j | 0 <= j < |draws| ensures RandomTarget(cfg, 0.0, draws[j]) == 0.0 {
      assert TargetSteps(cfg.range, 0.0, draws[j]) as real * 0.0 == 0.0;
    }
  }

  /** The loss rule of `shoot`. */
  predicate Lost(cfg: LevelConfig, current: real) {
    Abs(current) > Ceiling || (current == 0.0 && Add !in cfg.operators)
  }

  datatype Outcome = Won | Lose | Playing

  /** What `shoot` decides once every colliding bubble has been applied. */
  function Resolve(cfg: LevelConfig, current: real, target: real): (o: Outcome)
    ensures o == Won <==> current == target
    ensures o == Lose <==> current != target && Lost(cfg, current)
  {
    if current == target then Won
    else if Lost(cfg, current) then Lose
    else Playing
  }
}
