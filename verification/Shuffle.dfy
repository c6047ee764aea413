/**
  Fisher-Yates as the exam engine codes it: for `i` from the last index down to
  1, swap position `i` with a position drawn between 0 and `i`.  The draws are an
  argument, first draw first.
 */
module Shuffle {
  import opened Sequences

  /** One draw for every index from the last down to 1, each in range. */
  predicate ValidDraws(n: nat, draws: seq<nat>)
    decreases n
  {
    if n <= 1 then draws == []
    else draws != [] && draws[0] < n && ValidDraws(n - 1, draws[1..])
  }

  function Swap<T>(a: seq<T>, i: nat, j: nat): (b: seq<T>)
    requires i < |a| && j < |a|
    ensures |b| == |a|
  {
    a[i := a[j]][j := a[i]]
  }

  /** The final order: the last place is settled first, then the rest is shuffled. */
  function Shuffled<T>(a: seq<T>, draws: seq<nat>): (b: seq<T>)
    requires ValidDraws(|a|, draws)
    ensures |b| == |a|
    decreases |a|
  {
    if |a| <= 1 then a
    else
      var b := Swap(a, |a| - 1, draws[0]);
      Shuffled(b[..|a| - 1], draws[1..]) + [b[|a| - 1]]
  }

  /** What the loop still has to do when the places above `i` are settled. */
  function Remaining<T>(s: seq<T>, i: nat, draws: seq<nat>): (b: seq<T>)
    requires i < |s| && ValidDraws(i + 1, draws)
    ensures |b| == |s|
  {
    Shuffled(s[..i + 1], draws) + s[i + 1..]
  }

  /** One round of the loop settles place `i` and leaves the rest to the remaining draws. */
  lemma OneRound<T>(s: seq<T>, i: nat, draws: seq<nat>)
    requires 0 < i < |s| && ValidDraws(i + 1, draws)
    ensures Remaining(s, i, draws) == Remaining(Swap(s, i, draws[0]), i - 1, draws[1..])
  {
    var front, s' := Swap(s[..i + 1], i, draws[0]), Swap(s, i, draws[0]);
    assert front[..i] == s'[..i];
    assert s'[i..] == [front[i]] + s[i + 1..];
  }

  lemma NoRounds<T>(s: seq<T>, draws: seq<nat>)
    requires s != [] && ValidDraws(1, draws)
    ensures Remaining(s, 0, draws) == s
  {
  }

  lemma AllRounds<T>(s: seq<T>, draws: seq<nat>)
    requires s != [] && ValidDraws(|s|, draws)
    ensures Remaining(s, |s| - 1, draws) == Shuffled(s, draws)
  {
    assert s[..|s|] == s;
  }

  /** The loop over a copy of the list, in place. */
  method ShuffleArray<T>(list: seq<T>, draws: seq<nat>) returns (arr: array<T>)
    requires ValidDraws(|list|, draws)
    ensures fresh(arr) && arr[..] == Shuffled(list, draws)
  {
    arr := new T[|list|](i requires 0 <= i < |list| => list[i]);
    if arr.Length == 0 {
      return;
    }
    AllRounds(list, draws);
    ghost var s := list;
    var i, left := arr.Length - 1, draws;
    while i > 0
      invariant 0 <= i < |s| == arr.Length && arr[..] == s
      invariant ValidDraws(i + 1, left)
      invariant Remaining(s, i, left) == Shuffled(list, draws)
    {
      var j := left[0];
      OneRound(s, i, left);
      arr[i], arr[j] := arr[j], arr[i];
      s := Swap(s, i, j);
      assert arr[..] == s;
      i, left := i - 1, left[1..];
    }
    NoRounds(s, left);
  }

  lemma SwapPermutes<T>(a: seq<T>, i: nat, j: nat)
    requires i < |a| && j < |a|
    ensures multiset(Swap(a, i, j)) == multiset(a)
    ensures Swap(Swap(a, i, j), i, j) == a
  {
  }

  lemma SplitLast<T>(b: seq<T>)
    requires b != []
    ensures multiset(b) == multiset(b[..|b| - 1]) + multiset{b[|b| - 1]}
  {
    assert b == b[..|b| - 1] + [b[|b| - 1]];
  }

  /** Nothing is lost and nothing is repeated, whatever is drawn. */
  lemma {:induction false} ShufflePermutes<T>(a: seq<T>, draws: seq<nat>)
    requires ValidDraws(|a|, draws)
    ensures multiset(Shuffled(a, draws)) == multiset(a)
    decreases |a|
  {
    if |a| > 1 {
      var b := Swap(a, |a| - 1, draws[0]);
      SwapPermutes(a, |a| - 1, draws[0]);
      ShufflePermutes(b[..|a| - 1], draws[1..]);
      SplitLast(b);
    }
  }

  lemma SwapKeepsDistinct<T>(a: seq<T>, i: nat, j: nat)
    requires Distinct(a) && i < |a| && j < |a|
    ensures Distinct(Swap(a, i, j)) && Distinct(Swap(a, i, j)[..|a| - 1])
  {
  }

  /** Different draws give different orders. */
  lemma {:induction false} ShuffleInjective<T>(a: seq<T>, d: seq<nat>, e: seq<nat>)
    requires Distinct(a) && ValidDraws(|a|, d) && ValidDraws(|a|, e)
    requires Shuffled(a, d) == Shuffled(a, e)
    ensures d == e
    decreases |a|
  {
    if |a| > 1 {
      var n := |a| - 1;
      var b, c := Swap(a, n, d[0]), Swap(a, n, e[0]);
      assert Shuffled(a, d)[n] == b[n] == a[d[0]] && Shuffled(a, e)[n] == c[n] == a[e[0]];
      assert d[0] == e[0];
      assert Shuffled(a, d)[..n] == Shuffled(b[..n], d[1..]) && Shuffled(a, e)[..n] == Shuffled(c[..n], e[1..]);
      SwapKeepsDistinct(a, n, d[0]);
      ShuffleInjective(b[..n], d[1..], e[1..]);
      assert d == [d[0]] + d[1..] && e == [e[0]] + e[1..];
    }
  }

  lemma CancelOne<T>(x: multiset<T>, y: multiset<T>, e: T)
    requires x + multiset{e} == y + multiset{e}
    ensures x == y
  {
    assert x == (x + multiset{e}) - multiset{e};
    assert y == (y + multiset{e}) - multiset{e};
  }

  lemma SameElements<T>(a: seq<T>, p: seq<T>, x: T)
    requires multiset(a) == multiset(p)
    ensures x in a <==> x in p
  {
    assert x in a <==> x in multiset(a);
    assert x in p <==> x in multiset(p);
  }

  lemma SameLength<T>(a: seq<T>, p: seq<T>)
    requires multiset(a) == multiset(p)
    ensures |a| == |p|
  {
    assert |multiset(a)| == |a| && |multiset(p)| == |p|;
  }

  lemma SameLastSameFront<T>(p: seq<T>, b: seq<T>)
    requires p != [] && b != [] && multiset(p) == multiset(b) && p[|p| - 1] == b[|b| - 1]
    ensures multiset(p[..|p| - 1]) == multiset(b[..|b| - 1])
  {
    SplitLast(p);
    SplitLast(b);
    CancelOne(multiset(p[..|p| - 1]), multiset(b[..|b| - 1]), p[|p| - 1]);
  }

  /** Some swap brings the wanted element to the last place and leaves the other ones. */
  lemma SettleLast<T>(a: seq<T>, p: seq<T>) returns (j: nat)
    requires multiset(p) == multiset(a) && |p| == |a| > 0
    ensures j < |a| && a[j] == p[|a| - 1]
    ensures multiset(p[..|a| - 1]) == multiset(Swap(a, |a| - 1, j)[..|a| - 1])
  {
    var n := |a| - 1;
    SameElements(a, p, p[n]);
    j :| 0 <= j < |a| && a[j] == p[n];
    var b := Swap(a, n, j);
    SwapPermutes(a, n, j);
    SameLastSameFront(p, b);
  }

  lemma ShuffledSplit<T>(a: seq<T>, j: nat, rest: seq<nat>)
    requires |a| > 1 && j < |a| && ValidDraws(|a| - 1, rest)
    ensures ValidDraws(|a|, [j] + rest)
    ensures Shuffled(a, [j] + rest) == Shuffled(Swap(a, |a| - 1, j)[..|a| - 1], rest) + [a[j]]
  {
  }

  /** The draws that produce a given order, found from its last place backwards. */
  lemma {:induction false} ShuffleSurjective<T>(a: seq<T>, p: seq<T>) returns (draws: seq<nat>)
    requires multiset(p) == multiset(a)
    ensures ValidDraws(|a|, draws) && Shuffled(a, draws) == p
    decreases |a|
  {
    SameLength(a, p);
    if |a| == 0 {
      return [];
    }
    var n := |a| - 1;
    var j := SettleLast(a, p);
    if n == 0 {
      assert a == [a[0]] && p == [p[0]];
      return [];
    }
    var rest := ShuffleSurjective(Swap(a, n, j)[..n], p[..n]);
    ShuffledSplit(a, j, rest);
    assert p == p[..n] + [p[n]];
    draws := [j] + rest;
  }

  /**
    On distinct elements the shuffle is a bijection between draw sequences and
    permutations: every permutation is reached, by exactly one draw sequence.
   */
  lemma ShuffleBijective<T>(a: seq<T>, p: seq<T>) returns (draws: seq<nat>)
    requires Distinct(a) && multiset(p) == multiset(a)
    ensures ValidDraws(|a|, draws) && Shuffled(a, draws) == p
    ensures forall e: seq<nat> :: ValidDraws(|a|, e) && Shuffled(a, e) == p ==> e == draws
  {
    draws := ShuffleSurjective(a, p);
    forall e: seq<nat> | ValidDraws(|a|, e) && Shuffled(a, e) == p
      ensures e == draws
    {
      ShuffleInjective(a, e, draws);
    }
  }
}
