/**
 * The loop shape `for (i = 0; i < a.length; i++) { ...; if (gone) a.splice(i, 1); }`
 * used for the particles: after a removal the index still advances, so the
 * element that slid into position `i` is not looked at in that pass.
 */
module Sweep {
  import opened JsArray

  /** The rest of the loop, from position `i` of the array as it now stands. */
  function SweepFrom<T>(s: seq<T>, i: nat, drop: T -> bool): seq<T>
    decreases |s| - i
  {
    if i >= |s| then s
    else if drop(s[i]) then SweepFrom(Splice(s, i), i + 1, drop)
    else SweepFrom(s, i + 1, drop)
  }

  /**
   * An independent account of what survives: the first element goes if it is
   * dropped, and then its successor stays unexamined.
   */
  function Survivors<T>(s: seq<T>, drop: T -> bool): seq<T>
    decreases |s|
  {
    if |s| == 0 then []
    else if !drop(s[0]) then [s[0]] + Survivors(s[1..], drop)
    else if |s| == 1 then []
    else [s[1]] + Survivors(s[2..], drop)
  }

  /** The loop leaves the part already passed alone and turns the rest into its survivors. */
  lemma {:induction false} SweepFromIsSurvivors<T>(p: seq<T>, s: seq<T>, drop: T -> bool)
    ensures SweepFrom(p + s, |p|, drop) == p + Survivors(s, drop)
    decreases |s|
  {
    var q := p + s;
    if |s| == 0 {
      assert q == p;
    } else {
      assert q[|p|] == s[0];
      if !drop(s[0]) {
        var p' := p + [s[0]];
        assert q == p' + s[1..];
        assert SweepFrom(q, |p|, drop) == SweepFrom(q, |p'|, drop);
        SweepFromIsSurvivors(p', s[1..], drop);
        assert p' + Survivors(s[1..], drop) == p + ([s[0]] + Survivors(s[1..], drop));
      } else {
        var r := Splice(q, |p|);
        assert r == p + s[1..];
        assert SweepFrom(q, |p|, drop) == SweepFrom(r, |p| + 1, drop);
        if |s| == 1 {
          assert r == p;
        } else {
          var p' := p + [s[1]];
          assert r == p' + s[2..];
          SweepFromIsSurvivors(p', s[2..], drop);
          assert p' + Survivors(s[2..], drop) == p + ([s[1]] + Survivors(s[2..], drop));
        }
      }
    }
  }

  /** A whole sweep yields exactly the survivors. */
  lemma SweepIsSurvivors<T>(s: seq<T>, drop: T -> bool)
    ensures SweepFrom(s, 0, drop) == Survivors(s, drop)
  {
    SweepFromIsSurvivors([], s, drop);
    assert [] + s == s;
  }

  /** The elements kept by `drop`-free filtering. */
  function Filter<T>(s: seq<T>, drop: T -> bool): seq<T>
    decreases |s|
  {
    if |s| == 0 then []
    else (if drop(s[0]) then [] else [s[0]]) + Filter(s[1..], drop)
  }

  lemma {:induction false} FilterMembers<T>(s: seq<T>, drop: T -> bool)
    ensures forall x :: x in Filter(s, drop) <==> x in s && !drop(x)
    decreases |s|
  {
    if |s| > 0 {
      FilterMembers(s[1..], drop);
      assert s == [s[0]] + s[1..];
    }
  }

  /** Every survivor was there before. */
  lemma {:induction false} SurvivorsShrink<T>(s: seq<T>, drop: T -> bool)
    ensures multiset(Survivors(s, drop)) <= multiset(s)
    decreases |s|
  {
    if |s| == 0 {
    } else if !drop(s[0]) {
      SurvivorsShrink(s[1..], drop);
      assert s == [s[0]] + s[1..];
      assert multiset(s) == multiset{s[0]} + multiset(s[1..]);
    } else if |s| > 1 {
      SurvivorsShrink(s[2..], drop);
      assert s == [s[0]] + [s[1]] + s[2..];
      assert multiset(s) == multiset{s[0]} + multiset{s[1]} + multiset(s[2..]);
    }
  }

  /** Nothing that should stay is removed: each such value keeps all its occurrences. */
  lemma {:induction false} SurvivorsKeep<T>(s: seq<T>, drop: T -> bool, x: T)
    requires !drop(x)
    ensures multiset(Survivors(s, drop))[x] == multiset(s)[x]
    decreases |s|
  {
    if |s| == 0 {
    } else if !drop(s[0]) {
      SurvivorsKeep(s[1..], drop, x);
      CountHead(s, x);
      CountHead([s[0]] + Survivors(s[1..], drop), x);
      assert ([s[0]] + Survivors(s[1..], drop))[1..] == Survivors(s[1..], drop);
    } else if |s| == 1 {
      assert s == [s[0]];
    } else {
      SurvivorsKeep(s[2..], drop, x);
      CountHead(s, x);
      CountHead(s[1..], x);
      assert s[1..][1..] == s[2..];
      CountHead([s[1]] + Survivors(s[2..], drop), x);
      assert ([s[1]] + Survivors(s[2..], drop))[1..] == Survivors(s[2..], drop);
    }
  }

  /** How often `x` occurs: once more than in the tail if the head is `x`. */
  lemma CountHead<T>(s: seq<T>, x: T)
    requires |s| > 0
    ensures multiset(s)[x] == (if s[0] == x then 1 else 0) + multiset(s[1..])[x]
  {
    assert s == [s[0]] + s[1..];
  }

  /** Without two removable elements side by side, the sweep removes every removable element. */
  lemma {:induction false} SurvivorsWithoutNeighbours<T>(s: seq<T>, drop: T -> bool)
    requires forall j :: 0 <= j < |s| - 1 ==> !(drop(s[j]) && drop(s[j + 1]))
    ensures Survivors(s, drop) == Filter(s, drop)
    decreases |s|
  {
    if |s| == 0 {
    } else if !drop(s[0]) {
      SurvivorsWithoutNeighbours(s[1..], drop);
    } else if |s| == 1 {
    } else {
      assert !drop(s[1]);
      SurvivorsWithoutNeighbours(s[2..], drop);
      assert s[1..][1..] == s[2..];
    }
  }

  /** Two removable elements in a row: the second survives the pass. */
  lemma AdjacentRemovalSkips<T>(x: T, y: T, drop: T -> bool)
    requires drop(x) && drop(y)
    ensures SweepFrom([x, y], 0, drop) == [y]
  {
    SweepIsSurvivors([x, y], drop);
    assert [x, y][2..] == [];
  }
}
