/** The answer shuffle of the quiz: a Fisher-Yates shuffle over a copy of the input
    (`shuffleArray` in assets/js/script.js). `Math.random` is replaced by an explicit
    random source `rand`: at loop counter `i` the shuffle swaps with index
    `rand(i) % (i + 1)`, which ranges over exactly the indices `[0, i]` that
    `Math.floor(Math.random() * (i + 1))` can produce. */
module Shuffle {

  /** The index the shuffle swaps with at loop counter `i`, given the random draw. */
  function SwapIndex(draw: nat, i: nat): (j: nat)
    ensures j <= i
  {
    draw % (i + 1)
  }

  /** A draw already in `[0, i]` is the swap index itself. */
  lemma SmallDrawIsIndex(draw: nat, i: nat)
    requires draw <= i
    ensures SwapIndex(draw, i) == draw
  {
  }

  /** `s` with the elements at `i` and `j` exchanged. */
  function Swap<T>(s: seq<T>, i: nat, j: nat): (r: seq<T>)
    requires i < |s| && j < |s|
    ensures |r| == |s| && r[i] == s[j] && r[j] == s[i]
  {
    s[i := s[j]][j := s[i]]
  }

  lemma SwapPermutes<T>(s: seq<T>, i: nat, j: nat)
    requires i < |s| && j < |s|
    ensures multiset(Swap(s, i, j)) == multiset(s)
  {
  }

  /** The shuffle loop run on `s` for loop counters `i`, `i - 1`, ..., `1`. */
  function ShuffleFrom<T>(s: seq<T>, i: nat, rand: nat -> nat): (r: seq<T>)
    requires i < |s|
    ensures |r| == |s|
    decreases i
  {
    if i == 0 then s else ShuffleFrom(Swap(s, i, SwapIndex(rand(i), i)), i - 1, rand)
  }

  /** What `shuffleArray` returns for input `s` when `Math.random` yields the draws `rand`. */
  function Shuffled<T>(s: seq<T>, rand: nat -> nat): (r: seq<T>)
    ensures |r| == |s|
  {
    if |s| == 0 then s else ShuffleFrom(s, |s| - 1, rand)
  }

  /** Inputs of length 0 or 1 come back unchanged: the loop body never runs. */
  lemma ShortInputUnchanged<T>(s: seq<T>, rand: nat -> nat)
    requires |s| <= 1
    ensures Shuffled(s, rand) == s
  {
  }

  lemma {:induction false} ShuffleFromPermutes<T>(s: seq<T>, i: nat, rand: nat -> nat)
    requires i < |s|
    ensures multiset(ShuffleFrom(s, i, rand)) == multiset(s)
    decreases i
  {
    if i > 0 {
      var t := Swap(s, i, SwapIndex(rand(i), i));
      SwapPermutes(s, i, SwapIndex(rand(i), i));
      ShuffleFromPermutes(t, i - 1, rand);
    }
  }

  /** The shuffle returns a permutation of its input: same length, same multiset. */
  lemma ShuffledIsPermutation<T>(s: seq<T>, rand: nat -> nat)
    ensures multiset(Shuffled(s, rand)) == multiset(s)
  {
    if |s| > 0 {
      ShuffleFromPermutes(s, |s| - 1, rand);
    }
  }

  /** Positions above the loop counter are final: the loop never touches them again. */
  lemma {:induction false} ShuffleFromKeepsAbove<T>(s: seq<T>, i: nat, rand: nat -> nat, k: nat)
    requires i < k < |s|
    ensures ShuffleFrom(s, i, rand)[k] == s[k]
    decreases i
  {
    if i > 0 {
      var t := Swap(s, i, SwapIndex(rand(i), i));
      ShuffleFromKeepsAbove(t, i - 1, rand, k);
      assert ShuffleFrom(s, i, rand) == ShuffleFrom(t, i - 1, rand);
    }
  }

  /** Steps whose draw picks the loop counter itself swap an element with itself. */
  lemma {:induction false} SelfSwapsSkip<T>(s: seq<T>, i: nat, lo: nat, rand: nat -> nat)
    requires lo <= i < |s|
    requires forall m :: lo < m <= i ==> rand(m) == m
    ensures ShuffleFrom(s, i, rand) == ShuffleFrom(s, lo, rand)
    decreases i
  {
    if i > lo {
      SmallDrawIsIndex(rand(i), i);
      assert Swap(s, i, SwapIndex(rand(i), i)) == s;
      SelfSwapsSkip(s, i - 1, lo, rand);
    }
  }

  /** Draws that keep every element in place except at loop counter `p`, where
      `s[q]` (with `q <= p`) is swapped into position `p`, leave `s[q]` at `p`. */
  lemma PlacedAtCounter<T>(s: seq<T>, q: nat, p: nat, rand: nat -> nat)
    requires q <= p < |s|
    requires rand(p) == q
    requires forall m :: m != p ==> rand(m) == m
    ensures Shuffled(s, rand)[p] == s[q]
  {
    SelfSwapsSkip(s, |s| - 1, p, rand);
    if p > 0 {
      var t := Swap(s, p, q);
      SmallDrawIsIndex(rand(p), p);
      assert ShuffleFrom(s, p, rand) == ShuffleFrom(t, p - 1, rand);
      ShuffleFromKeepsAbove(t, p - 1, rand, p);
    }
  }

  /** Draws that keep every element in place except at loop counter `q`, where
      position `p < q` is swapped with `q`, leave `s[q]` at `p`. */
  lemma PlacedBelowCounter<T>(s: seq<T>, q: nat, p: nat, rand: nat -> nat)
    requires p < q < |s|
    requires rand(q) == p
    requires forall m :: m != q ==> rand(m) == m
    ensures Shuffled(s, rand)[p] == s[q]
  {
    SelfSwapsSkip(s, |s| - 1, q, rand);
    var t := Swap(s, q, p);
    SmallDrawIsIndex(rand(q), q);
    assert ShuffleFrom(s, q, rand) == ShuffleFrom(t, q - 1, rand);
    SelfSwapsSkip(t, q - 1, p, rand);
    if p > 0 {
      SmallDrawIsIndex(rand(p), p);
      assert Swap(t, p, SwapIndex(rand(p), p)) == t;
      assert ShuffleFrom(t, p, rand) == ShuffleFrom(t, p - 1, rand);
      ShuffleFromKeepsAbove(t, p - 1, rand, p);
    }
  }

  /** Every element of the input can end up at every position: for each source index
      `q` and target index `p` some sequence of draws puts `s[q]` at `p`. */
  lemma EveryPlacementReachable<T>(s: seq<T>, q: nat, p: nat)
    requires q < |s| && p < |s|
    ensures exists rand: nat -> nat :: Shuffled(s, rand)[p] == s[q]
  {
    if q <= p {
      var rand: nat -> nat := m => if m == p then q else m;
      PlacedAtCounter(s, q, p, rand);
    } else {
      var rand: nat -> nat := m => if m == q then p else m;
      PlacedBelowCounter(s, q, p, rand);
    }
  }

  lemma CancelLast<T>(a: multiset<T>, b: multiset<T>, x: T)
    requires a + multiset{x} == b + multiset{x}
    ensures a == b
  {
    forall y ensures a[y] == b[y] {
      assert (a + multiset{x})[y] == (b + multiset{x})[y];
    }
  }

  /** Only the draws for loop counters `1..i` matter to the loop run from `i`. */
  lemma {:induction false} DrawsBelowCounterDecide<T>(s: seq<T>, i: nat, r1: nat -> nat, r2: nat -> nat)
    requires i < |s|
    requires forall m :: 1 <= m <= i ==> r1(m) == r2(m)
    ensures ShuffleFrom(s, i, r1) == ShuffleFrom(s, i, r2)
    decreases i
  {
    if i > 0 {
      DrawsBelowCounterDecide(Swap(s, i, SwapIndex(r1(i), i)), i - 1, r1, r2);
    }
  }

  /** Agreeing with `t` above `i` and holding the same elements as `t` at `0..i`. */
  ghost predicate MatchesAbove<T>(s: seq<T>, i: nat, t: seq<T>)
    requires i < |s| == |t|
  {
    multiset(s[..i + 1]) == multiset(t[..i + 1]) && s[i + 1..] == t[i + 1..]
  }

  /** With no loop steps left, a sequence matching `t` from index 0 up is `t`. */
  lemma MatchesFromZero<T>(s: seq<T>, t: seq<T>, rand: nat -> nat)
    requires 0 < |s| == |t| && MatchesAbove(s, 0, t)
    ensures ShuffleFrom(s, 0, rand) == t
  {
    assert s[0] in multiset(t[..1]);
    assert s == s[..1] + s[1..] && t == t[..1] + t[1..];
  }

  /** Swapping the element `t[i]` into position `i` leaves a sequence that matches
      `t` from `i - 1` up. */
  lemma SwapIntoPlace<T>(s: seq<T>, i: nat, j: nat, t: seq<T>)
    requires 0 < i < |s| == |t| && MatchesAbove(s, i, t)
    requires j <= i && s[j] == t[i]
    ensures MatchesAbove(Swap(s, i, j), i - 1, t)
  {
    var u := Swap(s, i, j);
    assert u[..i + 1] == Swap(s[..i + 1], i, j);
    SwapPermutes(s[..i + 1], i, j);
    assert multiset(u[..i + 1]) == multiset(t[..i + 1]);
    assert u[..i + 1] == u[..i] + [t[i]] && t[..i + 1] == t[..i] + [t[i]];
    CancelLast(multiset(u[..i]), multiset(t[..i]), t[i]);
    assert u[i..] == [t[i]] + s[i + 1..] && t[i..] == [t[i]] + t[i + 1..];
  }

  /** A position at or below `i` that holds `x`, when `s[..i + 1]` holds `x`. */
  lemma FindAtOrBelow<T>(s: seq<T>, i: nat, x: T) returns (j: nat)
    requires i < |s| && x in multiset(s[..i + 1])
    ensures j <= i && s[j] == x
  {
    assert x in s[..i + 1];
    var k :| 0 <= k < i + 1 && s[..i + 1][k] == x;
    j := k;
  }

  /** Draws that pick `j` at counter `i` and follow `r` below it run the loop from
      `i` as one swap followed by the loop from `i - 1` with `r`. */
  lemma PrependDraw<T>(s: seq<T>, i: nat, j: nat, r: nat -> nat) returns (rand: nat -> nat)
    requires 0 < i < |s| && j <= i
    ensures ShuffleFrom(s, i, rand) == ShuffleFrom(Swap(s, i, j), i - 1, r)
  {
    rand := m => if m == i then j else r(m);
    SmallDrawIsIndex(rand(i), i);
    DrawsBelowCounterDecide(Swap(s, i, j), i - 1, rand, r);
  }

  /** The loop run from counter `i` can turn `s` into any `t` that agrees with `s`
      above `i` and holds the same elements at `0..i`. */
  lemma {:induction false} ReachFrom<T>(s: seq<T>, i: nat, t: seq<T>) returns (rand: nat -> nat)
    requires i < |s| == |t| && MatchesAbove(s, i, t)
    ensures ShuffleFrom(s, i, rand) == t
    decreases i
  {
    if i == 0 {
      rand := m => 0;
      MatchesFromZero(s, t, rand);
    } else {
      assert t[i] in multiset(t[..i + 1]);
      var j := FindAtOrBelow(s, i, t[i]);
      SwapIntoPlace(s, i, j, t);
      var r := ReachFrom(Swap(s, i, j), i - 1, t);
      rand := PrependDraw(s, i, j, r);
    }
  }

  /** Every ordering of the input is produced by some draws: the shuffle can return
      each permutation of its input, and only those (`ShuffledIsPermutation`). This
      is the part of its uniformity that does not depend on probabilities. */
  lemma EveryOrderingReachable<T>(s: seq<T>, t: seq<T>)
    requires multiset(t) == multiset(s)
    ensures exists rand: nat -> nat :: Shuffled(s, rand) == t
  {
    assert |t| == |multiset(t)| == |multiset(s)| == |s|;
    if |s| == 0 {
      var rand: nat -> nat := m => 0;
      assert Shuffled(s, rand) == t;
    } else {
      assert s[..|s|] == s && t[..|t|] == t;
      assert s[|s|..] == [] == t[|t|..];
      var rand := ReachFrom(s, |s| - 1, t);
      assert Shuffled(s, rand) == t;
    }
  }

  /** The destructuring swap `[arr[i], arr[j]] = [arr[j], arr[i]]`. */
  method SwapInPlace<T>(arr: array<T>, i: nat, j: nat)
    requires i < arr.Length && j < arr.Length
    modifies arr
    ensures arr[..] == Swap(old(arr[..]), i, j)
  {
    arr[i], arr[j] := arr[j], arr[i];
  }

  /** `shuffleArray`: copies `a` and shuffles the copy in place with a descending loop.
      The caller's array is not modified (the method has no `modifies` clause). */
  method ShuffleArray<T>(a: array<T>, rand: nat -> nat) returns (shuffled: array<T>)
    ensures fresh(shuffled)
    ensures shuffled[..] == Shuffled(a[..], rand)
    ensures shuffled.Length == a.Length && multiset(shuffled[..]) == multiset(a[..])
  {
    ghost var input := a[..];
    shuffled := new T[a.Length](k requires 0 <= k < a.Length reads a => a[k]);
    assert shuffled[..] == input;
    var i: int := shuffled.Length - 1;
    while i > 0
      invariant -1 <= i < shuffled.Length
      invariant i < 0 ==> shuffled[..] == input == []
      invariant i >= 0 ==> ShuffleFrom(shuffled[..], i, rand) == Shuffled(input, rand)
      decreases i
    {
      var j := SwapIndex(rand(i), i);
      ghost var before := shuffled[..];
      assert ShuffleFrom(before, i, rand) == ShuffleFrom(Swap(before, i, j), i - 1, rand);
      SwapInPlace(shuffled, i, j);
      i := i - 1;
    }
    ShuffledIsPermutation(input, rand);
  }
}
