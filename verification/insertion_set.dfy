/**
  A JavaScript `Set` filled by inserting values one after another and read
  back with `[...set]`: its elements come out once each, in the order of
  their first insertion.
*/
module InsertionSet {

  predicate NoDup<T(==)>(xs: seq<T>) {
    forall i, j :: 0 <= i < j < |xs| ==> xs[i] != xs[j]
  }

  /** The position of the first occurrence of `x` in `xs`. */
  function FirstIndex<T(==)>(xs: seq<T>, x: T): (i: nat)
    requires x in xs
    ensures i < |xs| && xs[i] == x && x !in xs[..i]
  {
    if xs[0] == x then 0 else 1 + FirstIndex(xs[1..], x)
  }

  /** Any occurrence with no earlier one is the first occurrence. */
  lemma FirstIndexIs<T>(xs: seq<T>, x: T, i: nat)
    requires i < |xs| && xs[i] == x && x !in xs[..i]
    ensures FirstIndex(xs, x) == i
  {
    var k := FirstIndex(xs, x);
  }

  /** A first occurrence inside a prefix is the first occurrence in the whole sequence. */
  lemma FirstIndexPrefix<T>(xs: seq<T>, n: nat, x: T)
    requires n <= |xs| && x in xs[..n]
    ensures FirstIndex(xs, x) == FirstIndex(xs[..n], x)
  {
    var i := FirstIndex(xs[..n], x);
    assert xs[..i] == xs[..n][..i];
    FirstIndexIs(xs, x, i);
  }

  /** Every element of `r` occurs in `xs`, and `r` lists them by their first occurrence in `xs`. */
  predicate InFirstSeenOrder<T(==)>(xs: seq<T>, r: seq<T>) {
    && (forall i :: 0 <= i < |r| ==> r[i] in xs)
    && (forall i, j :: 0 <= i < j < |r| ==> FirstIndex(xs, r[i]) < FirstIndex(xs, r[j]))
  }

  /** `[...set]` after `set.add(x)` for each `x` of `xs` in turn. */
  function SetOrder<T(==)>(xs: seq<T>): (r: seq<T>)
    ensures NoDup(r)
    ensures forall i :: 0 <= i < |r| ==> r[i] in xs
    ensures forall i :: 0 <= i < |xs| ==> xs[i] in r
    ensures |r| <= |xs|
  {
    if |xs| == 0 then []
    else
      var d := SetOrder(xs[..|xs| - 1]);
      var x := xs[|xs| - 1];
      assert xs == xs[..|xs| - 1] + [x];
      if x in d then d else d + [x]
  }

  /** The deduplicated sequence holds exactly the elements of its input. */
  lemma SetOrderMembers<T>(xs: seq<T>, x: T)
    ensures x in SetOrder(xs) <==> x in xs
  {
    var r := SetOrder(xs);
    if x in r {
      var i :| 0 <= i < |r| && r[i] == x;
    }
    if x in xs {
      var i :| 0 <= i < |xs| && xs[i] == x;
    }
  }

  /** Elements come out in the order in which they were first inserted. */
  lemma {:induction false} SetOrderFirstSeen<T>(xs: seq<T>)
    ensures InFirstSeenOrder(xs, SetOrder(xs))
    decreases |xs|
  {
    if |xs| > 0 {
      var init, x := xs[..|xs| - 1], xs[|xs| - 1];
      assert xs == init + [x];
      SetOrderFirstSeen(init);
      FirstSeenExtend(init, SetOrder(init), x);
    }
  }

  /** Inserting one more value keeps the order seen so far, and appends the value if it is new. */
  lemma FirstSeenExtend<T>(init: seq<T>, d: seq<T>, x: T)
    requires InFirstSeenOrder(init, d)
    ensures InFirstSeenOrder(init + [x], d)
    ensures x !in init ==> InFirstSeenOrder(init + [x], d + [x])
  {
    var xs := init + [x];
    var n := |init|;
    assert xs[..n] == init;
    forall i | 0 <= i < |d|
      ensures FirstIndex(xs, d[i]) == FirstIndex(init, d[i])
    {
      FirstIndexPrefix(xs, n, d[i]);
    }
    if x !in init {
      FirstIndexIs(xs, x, n);
      var r := d + [x];
      forall i, j | 0 <= i < j < |r|
        ensures FirstIndex(xs, r[i]) < FirstIndex(xs, r[j])
      {
        assert r[i] == d[i];
        if j < |d| {
          assert r[j] == d[j];
        }
      }
    }
  }

  /** `[...new Set(xs)].slice(0, cap)`: the first `cap` distinct values, in first-seen order. */
  function FirstDistinct<T(==)>(xs: seq<T>, cap: nat): (r: seq<T>)
    ensures |r| <= cap && NoDup(r)
    ensures forall i :: 0 <= i < |r| ==> r[i] in xs
    ensures forall i :: 0 <= i < |xs| && xs[i] !in r ==> |r| == cap
  {
    var d := SetOrder(xs);
    if |d| <= cap then d else d[..cap]
  }

  /** The values kept are the earliest ones: a dropped value was first seen after every kept one. */
  lemma FirstDistinctKeepsEarliest<T>(xs: seq<T>, cap: nat)
    ensures InFirstSeenOrder(xs, FirstDistinct(xs, cap))
    ensures var r := FirstDistinct(xs, cap);
      forall i, k :: 0 <= i < |r| && 0 <= k < |xs| && xs[k] !in r ==>
        FirstIndex(xs, r[i]) < FirstIndex(xs, xs[k])
  {
    var d := SetOrder(xs);
    var r := FirstDistinct(xs, cap);
    SetOrderFirstSeen(xs);
    assert r == d[..|r|];
    forall i, j | 0 <= i < j < |r|
      ensures FirstIndex(xs, r[i]) < FirstIndex(xs, r[j])
    {
      assert r[i] == d[i] && r[j] == d[j];
    }
    forall i, k | 0 <= i < |r| && 0 <= k < |xs| && xs[k] !in r
      ensures FirstIndex(xs, r[i]) < FirstIndex(xs, xs[k])
    {
      var j :| 0 <= j < |d| && d[j] == xs[k];
      assert d[i] == r[i];
    }
  }
}
