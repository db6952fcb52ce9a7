/** The few `Array.prototype` operations the game state is updated with. */
module JsArray {

  /** `indexOf`: the first position holding `x`, or -1 when there is none. */
  function IndexOf<T(==)>(s: seq<T>, x: T): (i: int)
    ensures x in s ==> 0 <= i < |s| && s[i] == x && x !in s[..i]
    ensures x !in s ==> i == -1
  {
    if |s| == 0 then -1
    else if s[0] == x then 0
    else
      var j := IndexOf(s[1..], x);
      if j < 0 then -1
      else
        assert s[..j + 1] == [s[0]] + s[1..][..j];
        j + 1
  }

  /** `splice(i, 1)`: the array without its element at `i`. */
  function Splice<T>(s: seq<T>, i: nat): seq<T>
    requires i < |s|
  {
    s[..i] + s[i + 1..]
  }

  predicate NoDuplicates<T(==)>(s: seq<T>) {
    forall i, j :: 0 <= i < j < |s| ==> s[i] != s[j]
  }

  /** Splicing out one position removes that element's occurrence and keeps the order of the rest. */
  lemma SpliceMembers<T>(s: seq<T>, i: nat)
    requires i < |s|
    ensures |Splice(s, i)| == |s| - 1
    ensures forall k :: 0 <= k < i ==> Splice(s, i)[k] == s[k]
    ensures forall k :: i <= k < |s| - 1 ==> Splice(s, i)[k] == s[k + 1]
    ensures multiset(Splice(s, i)) == multiset(s) - multiset{s[i]}
  {
    assert s == s[..i] + [s[i]] + s[i + 1..];
    assert multiset(s) == multiset(s[..i]) + multiset{s[i]} + multiset(s[i + 1..]);
  }

  /**
   * On a duplicate-free array, splicing out the first occurrence of `x`
   * removes `x` altogether and keeps every other member.
   */
  lemma SpliceOfIndexOf<T>(s: seq<T>, x: T)
    requires NoDuplicates(s) && x in s
    ensures NoDuplicates(Splice(s, IndexOf(s, x)))
    ensures forall y :: y in Splice(s, IndexOf(s, x)) <==> y in s && y != x
  {
    var i := IndexOf(s, x);
    var r := Splice(s, i);
    SpliceMembers(s, i);
    forall y
      ensures y in r <==> y in s && y != x
    {
      if y in r {
        var k :| 0 <= k < |r| && r[k] == y;
        if k < i { assert s[k] == y; } else { assert s[k + 1] == y; }
      }
      if y in s && y != x {
        var k :| 0 <= k < |s| && s[k] == y;
        if k < i { assert r[k] == y; } else { assert k != i; assert r[k - 1] == y; }
      }
    }
  }

  lemma SpliceKeepsNoDuplicates<T>(s: seq<T>, i: nat)
    requires i < |s| && NoDuplicates(s)
    ensures NoDuplicates(Splice(s, i))
  {
    SpliceMembers(s, i);
    var r := Splice(s, i);
    forall a, b | 0 <= a < b < |r|
      ensures r[a] != r[b]
    {
      var a' := if a < i then a else a + 1;
      var b' := if b < i then b else b + 1;
      assert r[a] == s[a'] && r[b] == s[b'];
    }
  }

  /** Appending a value that is absent keeps an array duplicate-free. */
  lemma PushFresh<T>(s: seq<T>, x: T)
    requires NoDuplicates(s) && x !in s
    ensures NoDuplicates(s + [x])
  {
  }

  /** How many elements satisfy `p`. */
  function CountWhere<T>(s: seq<T>, p: T -> bool): nat
    decreases |s|
  {
    if |s| == 0 then 0 else (if p(s[0]) then 1 else 0) + CountWhere(s[1..], p)
  }

  lemma {:induction false} CountAppend<T>(a: seq<T>, b: seq<T>, p: T -> bool)
    ensures CountWhere(a + b, p) == CountWhere(a, p) + CountWhere(b, p)
    decreases |a|
  {
    if |a| > 0 {
      assert (a + b)[1..] == a[1..] + b;
      CountAppend(a[1..], b, p);
    } else {
      assert a + b == b;
    }
  }

  lemma {:induction false} CountSplice<T>(s: seq<T>, i: nat, p: T -> bool)
    requires i < |s|
    ensures CountWhere(Splice(s, i), p) == CountWhere(s, p) - (if p(s[i]) then 1 else 0)
    decreases i
  {
    if i == 0 {
      assert Splice(s, 0) == s[1..];
    } else {
      var t := Splice(s, i);
      assert t[0] == s[0] && t[1..] == Splice(s[1..], i - 1);
      CountSplice(s[1..], i - 1, p);
    }
  }

}
