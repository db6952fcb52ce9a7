/**
 * The two fade queues. Every frame, `update` walks `fadeOut` and then
 * `fadeIn`, nudging each element's alpha by 0.1 and splicing out the ones
 * that are finished; the splice makes the pass skip the next element.
 */
module Fades {
  import opened JsArray
  import Sweep

  /** The display objects that are ever queued for fading. */
  datatype Element =
    | MenuBox | PlayGraphic | PauseGraphic | Hud
    | SlideArea | LevelPane | DirectionsPane | EndPane

  /** An element's `alpha` and `visible`. */
  datatype Look = Look(alpha: real, visible: bool)

  /** Every element has a look. */
  ghost predicate Total(looks: map<Element, Look>) {
    forall e: Element :: e in looks
  }

  /** Which queue is walked; it carries the other queue, which blocks progress. */
  datatype Direction = Out(fadeIn: seq<Element>) | In(fadeOut: seq<Element>)

  /** The element stays queued and is nudged, rather than settled and removed. */
  predicate Stays(d: Direction, e: Element, l: Look) {
    match d
    case Out(fadeIn) => l.alpha > 0.0 && e !in fadeIn
    case In(fadeOut) => l.alpha <= 1.0 && e !in fadeOut
  }

  /** One nudge: fading out lowers alpha; fading in shows the element and raises alpha. */
  function Nudged(d: Direction, l: Look): Look {
    match d
    case Out(_) => Look(l.alpha - 0.1, l.visible)
    case In(_) => Look(l.alpha + 0.1, true)
  }

  /** The look an element is left with when removed from the queue. */
  function Settled(d: Direction): Look {
    match d
    case Out(_) => Look(0.0, false)
    case In(_) => Look(1.0, true)
  }

  datatype Pass = Pass(queue: seq<Element>, looks: map<Element, Look>)

  /** The rest of one pass over queue `q`, from position `i`. */
  function PassFrom(d: Direction, q: seq<Element>, looks: map<Element, Look>, i: nat): Pass
    requires Total(looks)
    decreases |q| - i
  {
    if i >= |q| then Pass(q, looks)
    else
      var e := q[i];
      if Stays(d, e, looks[e]) then PassFrom(d, q, looks[e := Nudged(d, looks[e])], i + 1)
      else PassFrom(d, Splice(q, i), looks[e := Settled(d)], i + 1)
  }

  /** The `fadeOut` loop, which checks membership in `fadeIn`. */
  function FadeOutPass(fadeOut: seq<Element>, fadeIn: seq<Element>, looks: map<Element, Look>): Pass
    requires Total(looks)
  {
    PassFrom(Out(fadeIn), fadeOut, looks, 0)
  }

  /** The `fadeIn` loop, run after the `fadeOut` loop and checking membership in its result. */
  function FadeInPass(fadeIn: seq<Element>, fadeOut: seq<Element>, looks: map<Element, Look>): Pass
    requires Total(looks)
  {
    PassFrom(In(fadeOut), fadeIn, looks, 0)
  }

  /** All looks stay defined. */
  lemma {:induction false} PassTotal(d: Direction, q: seq<Element>, looks: map<Element, Look>, i: nat)
    requires Total(looks)
    ensures Total(PassFrom(d, q, looks, i).looks)
    decreases |q| - i
  {
    if i < |q| {
      var e := q[i];
      if Stays(d, e, looks[e]) {
        PassTotal(d, q, looks[e := Nudged(d, looks[e])], i + 1);
      } else {
        PassTotal(d, Splice(q, i), looks[e := Settled(d)], i + 1);
      }
    }
  }

  /** Positions already passed are never touched again. */
  lemma {:induction false} PassKeepsPrefix(d: Direction, q: seq<Element>, looks: map<Element, Look>, i: nat)
    requires Total(looks) && i <= |q|
    ensures i <= |PassFrom(d, q, looks, i).queue| && PassFrom(d, q, looks, i).queue[..i] == q[..i]
    decreases |q| - i
  {
    if i < |q| {
      var e := q[i];
      if Stays(d, e, looks[e]) {
        var looks' := looks[e := Nudged(d, looks[e])];
        assert PassFrom(d, q, looks, i) == PassFrom(d, q, looks', i + 1);
        PassKeepsPrefix(d, q, looks', i + 1);
        PrefixOfPrefix(PassFrom(d, q, looks', i + 1).queue, q, i);
      } else {
        var q', looks' := Splice(q, i), looks[e := Settled(d)];
        assert PassFrom(d, q, looks, i) == PassFrom(d, q', looks', i + 1);
        assert q'[..i] == q[..i];
        if i + 1 <= |q'| {
          PassKeepsPrefix(d, q', looks', i + 1);
          PrefixOfPrefix(PassFrom(d, q', looks', i + 1).queue, q', i);
        } else {
          assert PassFrom(d, q', looks', i + 1).queue == q';
        }
      }
    }
  }

  /** Agreeing on the first `i + 1` positions means agreeing on the first `i`. */
  lemma PrefixOfPrefix(r: seq<Element>, q: seq<Element>, i: nat)
    requires i + 1 <= |r| && i + 1 <= |q| && r[..i + 1] == q[..i + 1]
    ensures r[..i] == q[..i]
  {
    assert r[..i] == r[..i + 1][..i];
    assert q[..i] == q[..i + 1][..i];
  }

  /** The queue only loses elements. */
  lemma {:induction false} PassShrinks(d: Direction, q: seq<Element>, looks: map<Element, Look>, i: nat)
    requires Total(looks)
    ensures multiset(PassFrom(d, q, looks, i).queue) <= multiset(q)
    decreases |q| - i
  {
    if i < |q| {
      var e := q[i];
      if Stays(d, e, looks[e]) {
        PassShrinks(d, q, looks[e := Nudged(d, looks[e])], i + 1);
      } else {
        SpliceMembers(q, i);
        PassShrinks(d, Splice(q, i), looks[e := Settled(d)], i + 1);
      }
    }
  }

  /** An element not waiting in the rest of the queue keeps its look. */
  lemma {:induction false} PassLeavesOthers(d: Direction, q: seq<Element>, looks: map<Element, Look>, i: nat, x: Element)
    requires Total(looks) && i <= |q| && x !in q[i..]
    ensures x in PassFrom(d, q, looks, i).looks && PassFrom(d, q, looks, i).looks[x] == looks[x]
    decreases |q| - i
  {
    if i < |q| {
      var e := q[i];
      assert e != x by { assert q[i..][0] == e; }
      if Stays(d, e, looks[e]) {
        assert q[i + 1..] == q[i..][1..];
        PassLeavesOthers(d, q, looks[e := Nudged(d, looks[e])], i + 1, x);
      } else {
        var q' := Splice(q, i);
        SpliceMembers(q, i);
        if i + 1 <= |q'| {
          assert q'[i + 1..] == q[i..][2..];
          PassLeavesOthers(d, q', looks[e := Settled(d)], i + 1, x);
        }
      }
    }
  }

  /**
   * An element that was queued and is no longer queued after the pass was
   * settled: fully hidden by the `fadeOut` pass, fully shown by the `fadeIn` pass.
   */
  lemma {:induction false} PassSettlesLeavers(d: Direction, q: seq<Element>, looks: map<Element, Look>, i: nat, x: Element)
    requires Total(looks) && i <= |q| && x in q
    ensures x in PassFrom(d, q, looks, i).queue ||
      (x in PassFrom(d, q, looks, i).looks && PassFrom(d, q, looks, i).looks[x] == Settled(d))
    decreases |q| - i
  {
    PassTotal(d, q, looks, i);
    PassKeepsPrefix(d, q, looks, i);
    var r := PassFrom(d, q, looks, i);
    if x in q[..i] {
      assert x in r.queue[..i];
    } else {
      assert x in q[i..] by { assert q == q[..i] + q[i..]; }
      var e := q[i];
      var l := looks[e];
      if Stays(d, e, l) {
        var looks' := looks[e := Nudged(d, l)];
        PassKeepsPrefix(d, q, looks', i + 1);
        if e == x {
          assert r.queue[..i + 1][i] == x;
        } else {
          PassSettlesLeavers(d, q, looks', i + 1, x);
        }
      } else {
        var q' := Splice(q, i);
        var looks' := looks[e := Settled(d)];
        SpliceMembers(q, i);
        if i + 1 <= |q'| {
          PassKeepsPrefix(d, q', looks', i + 1);
          assert r.queue[..i + 1][i] == q'[i];
        }
        if i + 1 <= |q'| && x == q'[i] {
          assert r.queue[..i + 1][i] == x;
        } else if e == x && x !in q' {
          if i + 1 <= |q'| {
            PassLeavesOthers(d, q', looks', i + 1, x);
          }
        } else {
          assert x in q' by {
            if e != x {
              var k :| i < k < |q| && q[k] == x;
              assert q'[k - 1] == x;
            }
          }
          PassSettlesLeavers(d, q', looks', i + 1, x);
        }
      }
    }
  }

  /** The elements a pass would settle, judged by their looks before the pass. */
  function Finishes(d: Direction, looks: map<Element, Look>): Element -> bool {
    e => e in looks && !Stays(d, e, looks[e])
  }

  /** `looks` agrees with `looks0` on every element of `t`. */
  predicate AgreeOn(t: seq<Element>, looks: map<Element, Look>, looks0: map<Element, Look>) {
    forall k :: 0 <= k < |t| ==> t[k] in looks && t[k] in looks0 && looks[t[k]] == looks0[t[k]]
  }

  lemma AgreeOnSuffix(t: seq<Element>, n: nat, looks: map<Element, Look>, looks0: map<Element, Look>, e: Element, l: Look)
    requires AgreeOn(t, looks, looks0) && n <= |t| && e !in t[n..]
    ensures AgreeOn(t[n..], looks[e := l], looks0)
  {
    forall k | 0 <= k < |t[n..]|
      ensures t[n..][k] in looks0 && looks[e := l][t[n..][k]] == looks0[t[n..][k]]
    {
      assert t[n..][k] == t[n + k];
    }
  }

  lemma NoRepeatAhead(p: seq<Element>, s: seq<Element>, n: nat)
    requires NoDuplicates(p + s) && 0 < n <= |s|
    ensures s[0] !in s[n..]
  {
    forall k | 0 <= k < |s[n..]|
      ensures s[n..][k] != s[0]
    {
      assert (p + s)[|p|] == s[0] && (p + s)[|p| + n + k] == s[n..][k];
    }
  }

  lemma {:induction false} PassFromIsSurvivors(d: Direction, p: seq<Element>, s: seq<Element>,
                                               looks: map<Element, Look>, looks0: map<Element, Look>)
    requires Total(looks) && NoDuplicates(p + s) && AgreeOn(s, looks, looks0)
    ensures PassFrom(d, p + s, looks, |p|).queue == p + Sweep.Survivors(s, Finishes(d, looks0))
    decreases |s|, 2
  {
    var q := p + s;
    if |s| == 0 {
      assert q == p;
    } else if Stays(d, s[0], looks[s[0]]) {
      PassKeepsEntry(d, p, s, looks, looks0);
    } else {
      PassSettlesEntry(d, p, s, looks, looks0);
    }
  }

  lemma {:induction false} PassKeepsEntry(d: Direction, p: seq<Element>, s: seq<Element>,
                                          looks: map<Element, Look>, looks0: map<Element, Look>)
    requires Total(looks) && NoDuplicates(p + s) && AgreeOn(s, looks, looks0)
    requires |s| > 0 && Stays(d, s[0], looks[s[0]])
    ensures PassFrom(d, p + s, looks, |p|).queue == p + Sweep.Survivors(s, Finishes(d, looks0))
    decreases |s|, 0
  {
    var q := p + s;
    var drop := Finishes(d, looks0);
    var e := s[0];
    assert q[|p|] == e;
    assert !drop(e);
    var p' := p + [e];
    var looks' := looks[e := Nudged(d, looks[e])];
    assert q == p' + s[1..];
    assert PassFrom(d, q, looks, |p|) == PassFrom(d, p' + s[1..], looks', |p'|);
    NoRepeatAhead(p, s, 1);
    AgreeOnSuffix(s, 1, looks, looks0, e, Nudged(d, looks[e]));
    PassFromIsSurvivors(d, p', s[1..], looks', looks0);
    Reassociate(p, e, Sweep.Survivors(s[1..], drop));
  }

  lemma {:induction false} PassSettlesEntry(d: Direction, p: seq<Element>, s: seq<Element>,
                                            looks: map<Element, Look>, looks0: map<Element, Look>)
    requires Total(looks) && NoDuplicates(p + s) && AgreeOn(s, looks, looks0)
    requires |s| > 0 && !Stays(d, s[0], looks[s[0]])
    ensures PassFrom(d, p + s, looks, |p|).queue == p + Sweep.Survivors(s, Finishes(d, looks0))
    decreases |s|, 1
  {
    var q := p + s;
    var e := s[0];
    SpliceAtJoin(p, s);
    assert Finishes(d, looks0)(e);
    var looks' := looks[e := Settled(d)];
    assert PassFrom(d, q, looks, |p|) == PassFrom(d, Splice(q, |p|), looks', |p| + 1);
    if |s| == 1 {
      assert Splice(q, |p|) == p;
    } else {
      PassSkipsNext(d, p, s, looks, looks0);
    }
  }

  /** After settling `s[0]`, the pass resumes past `s[1]`, which the splice moved into its place. */
  lemma {:induction false} PassSkipsNext(d: Direction, p: seq<Element>, s: seq<Element>,
                                         looks: map<Element, Look>, looks0: map<Element, Look>)
    requires Total(looks) && NoDuplicates(p + s) && AgreeOn(s, looks, looks0) && |s| > 1
    ensures PassFrom(d, Splice(p + s, |p|), looks[s[0] := Settled(d)], |p| + 1).queue
            == p + ([s[1]] + Sweep.Survivors(s[2..], Finishes(d, looks0)))
    decreases |s|, 0
  {
    var p' := p + [s[1]];
    var looks' := looks[s[0] := Settled(d)];
    SpliceAtJoin(p, s);
    SpliceKeepsNoDuplicates(p + s, |p|);
    assert Splice(p + s, |p|) == p' + s[2..] && |p'| == |p| + 1;
    NoRepeatAhead(p, s, 2);
    AgreeOnSuffix(s, 2, looks, looks0, s[0], Settled(d));
    PassFromIsSurvivors(d, p', s[2..], looks', looks0);
    Reassociate(p, s[1], Sweep.Survivors(s[2..], Finishes(d, looks0)));
  }

  lemma Reassociate(p: seq<Element>, e: Element, t: seq<Element>)
    ensures (p + [e]) + t == p + ([e] + t)
  {
  }

  /** Splicing out the first element after `p` leaves `p` and the rest of `s`. */
  lemma SpliceAtJoin(p: seq<Element>, s: seq<Element>)
    requires |s| > 0
    ensures (p + s)[|p|] == s[0] && Splice(p + s, |p|) == p + s[1..]
    ensures |s| > 1 ==> Splice(p + s, |p|) == (p + [s[1]]) + s[2..]
  {
    assert (p + s)[..|p|] == p && (p + s)[|p| + 1..] == s[1..];
    if |s| > 1 {
      assert s[1..] == [s[1]] + s[2..];
    }
  }

  /**
   * On a queue without repeats, a pass removes exactly what the generic
   * forward-splice sweep removes, with each element judged by its look
   * before the pass.
   */
  lemma PassIsSurvivors(d: Direction, q: seq<Element>, looks: map<Element, Look>)
    requires Total(looks) && NoDuplicates(q)
    ensures PassFrom(d, q, looks, 0).queue == Sweep.Survivors(q, Finishes(d, looks))
  {
    assert [] + q == q;
    PassFromIsSurvivors(d, [], q, looks, looks);
  }
}
