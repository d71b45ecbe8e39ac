/** Ranking of window permutations by the factorial number system, in both directions. */
module Permutations {
  import opened Arithmetic

  predicate Distinct<T(==)>(s: seq<T>) {
    forall i, j :: 0 <= i < j < |s| ==> s[i] != s[j]
  }

  predicate IsPermutation(p: seq<nat>) {
    Distinct(p) && forall i :: 0 <= i < |p| ==> p[i] < |p|
  }

  function Identity(n: nat): (p: seq<nat>)
    ensures |p| == n && IsPermutation(p)
  {
    seq(n, i => i)
  }

  function Factorial(n: nat): (f: nat)
    ensures f >= 1
  {
    if n == 0 then 1 else n * Factorial(n - 1)
  }

  function Remove<T>(s: seq<T>, i: nat): seq<T>
    requires i < |s|
  {
    s[..i] + s[i + 1..]
  }

  /** How many elements of s are below x. */
  function Smaller(x: nat, s: seq<nat>): nat {
    if s == [] then 0 else (if s[0] < x then 1 else 0) + Smaller(x, s[1..])
  }

  function Rank(p: seq<nat>): nat {
    if p == [] then 0 else Smaller(p[0], p[1..]) * Factorial(|p| - 1) + Rank(p[1..])
  }

  lemma BlockIsInRange(n: nat, r: nat)
    requires n > 0 && r < Factorial(n)
    ensures r / Factorial(n - 1) < n && r % Factorial(n - 1) < Factorial(n - 1)
    ensures r == r / Factorial(n - 1) * Factorial(n - 1) + r % Factorial(n - 1)
  {
    DivisionBelow(r, Factorial(n - 1), n);
  }

  function UnrankFrom(available: seq<nat>, r: nat): (p: seq<nat>)
    requires r < Factorial(|available|)
    ensures |p| == |available|
    decreases |available|
  {
    if available == [] then []
    else
      BlockIsInRange(|available|, r);
      var block := Factorial(|available| - 1);
      [available[r / block]] + UnrankFrom(Remove(available, r / block), r % block)
  }

  function Unrank(n: nat, r: nat): seq<nat>
    requires r < Factorial(n)
  {
    UnrankFrom(Identity(n), r)
  }

  // ----- counting below -----

  lemma {:induction false} SmallerConcat(x: nat, a: seq<nat>, b: seq<nat>)
    ensures Smaller(x, a + b) == Smaller(x, a) + Smaller(x, b)
  {
    if a == [] {
      assert a + b == b;
    } else {
      assert (a + b)[1..] == a[1..] + b;
      SmallerConcat(x, a[1..], b);
    }
  }

  lemma {:induction false} SmallerAll(x: nat, s: seq<nat>, all: bool)
    requires forall i :: 0 <= i < |s| ==> (s[i] < x) == all
    ensures Smaller(x, s) == if all then |s| else 0
  {
    if s != [] {
      assert s[0] < x <==> all;
      SmallerAll(x, s[1..], all);
    }
  }

  lemma SplitAt<T>(s: seq<T>, i: nat)
    requires i < |s|
    ensures s == s[..i] + [s[i]] + s[i + 1..]
    ensures multiset(s) == multiset{s[i]} + multiset(Remove(s, i))
  {
    assert s == s[..i] + [s[i]] + s[i + 1..];
  }

  /** Taking the same element out of two rearrangements leaves rearrangements. */
  lemma RestIsRearranged(a: seq<nat>, b: seq<nat>) returns (j: nat)
    requires a != [] && multiset(a) == multiset(b)
    ensures j < |b| && b[j] == a[0] && multiset(a[1..]) == multiset(Remove(b, j))
  {
    assert a[0] in multiset(b);
    j :| 0 <= j < |b| && b[j] == a[0];
    SplitAt(a, 0);
    SplitAt(b, j);
    assert Remove(a, 0) == a[1..];
    assert multiset(a[1..]) == multiset(a) - multiset{a[0]};
  }

  lemma SmallerSplit(x: nat, b: seq<nat>, j: nat)
    requires j < |b|
    ensures Smaller(x, b) == Smaller(x, Remove(b, j)) + if b[j] < x then 1 else 0
  {
    SplitAt(b, j);
    SmallerConcat(x, b[..j], b[j + 1..]);
    SmallerConcat(x, b[..j], b[j..]);
    assert b[..j] + b[j..] == b;
    assert b[j..][1..] == b[j + 1..];
  }

  lemma {:induction false} SmallerOfMultiset(x: nat, a: seq<nat>, b: seq<nat>)
    requires multiset(a) == multiset(b)
    ensures Smaller(x, a) == Smaller(x, b)
    decreases |a|
  {
    if a != [] {
      var j := RestIsRearranged(a, b);
      SmallerOfMultiset(x, a[1..], Remove(b, j));
      SmallerSplit(x, b, j);
    } else {
      assert |multiset(b)| == 0;
      assert b == [];
    }
  }

  predicate Ascending(s: seq<nat>) {
    forall i, j :: 0 <= i < j < |s| ==> s[i] < s[j]
  }

  /** Among the rest of an ascending list, the i-th element has exactly i below it. */
  lemma SmallerIsIndex(s: seq<nat>, i: nat, rest: seq<nat>)
    requires Ascending(s) && i < |s| && multiset(rest) == multiset(Remove(s, i))
    ensures Smaller(s[i], rest) == i
  {
    SmallerOfMultiset(s[i], rest, Remove(s, i));
    SmallerConcat(s[i], s[..i], s[i + 1..]);
    SmallerAll(s[i], s[..i], true);
    SmallerAll(s[i], s[i + 1..], false);
  }

  // ----- the two directions -----

  lemma {:induction false} RankOfUnrank(s: seq<nat>, r: nat)
    requires Ascending(s) && r < Factorial(|s|)
    ensures multiset(UnrankFrom(s, r)) == multiset(s)
    ensures Rank(UnrankFrom(s, r)) == r
    decreases |s|
  {
    if s != [] {
      BlockIsInRange(|s|, r);
      var block := Factorial(|s| - 1);
      var i := r / block;
      var p := UnrankFrom(s, r);
      RankOfUnrank(Remove(s, i), r % block);
      SplitAt(s, i);
      SplitAt(p, 0);
      assert p[1..] == UnrankFrom(Remove(s, i), r % block);
      assert Remove(p, 0) == p[1..];
      hide Factorial, Smaller, UnrankFrom;
      SmallerIsIndex(s, i, p[1..]);
    }
  }

  lemma {:induction false} UnrankOfRank(s: seq<nat>, p: seq<nat>)
    requires Ascending(s) && multiset(p) == multiset(s)
    ensures |p| == |s| && Rank(p) < Factorial(|s|)
    ensures UnrankFrom(s, Rank(p)) == p
    decreases |p|
  {
    assert |multiset(p)| == |p| && |multiset(s)| == |s|;
    if p != [] {
      var i := RestIsRearranged(p, s);
      var rest := Remove(s, i);
      UnrankOfRank(rest, p[1..]);
      SmallerIsIndex(s, i, p[1..]);
      DigitBound(i, |s|, Rank(p[1..]));
    }
  }

  lemma DigitBound(digit: nat, n: nat, low: nat)
    requires digit < n && low < Factorial(n - 1)
    ensures digit * Factorial(n - 1) + low < Factorial(n)
    ensures (digit * Factorial(n - 1) + low) / Factorial(n - 1) == digit
    ensures (digit * Factorial(n - 1) + low) % Factorial(n - 1) == low
  {
    var f := Factorial(n - 1);
    MultipleOrder(digit + 1, n, f);
    assert (digit + 1) * f == digit * f + f;
    assert Factorial(n) == n * f;
    hide Factorial;
    QuotientIs(digit * f + low, f, digit, low);
  }

  // ----- permutations are the rearrangements of the identity -----

  lemma {:induction false} CountOf<T>(s: seq<T>, x: T)
    requires Distinct(s)
    ensures multiset(s)[x] == if x in s then 1 else 0
  {
    if s != [] {
      CountOf(s[1..], x);
      SplitAt(s, 0);
      assert Remove(s, 0) == s[1..];
      assert x in s <==> x == s[0] || x in s[1..];
      assert s[0] !in s[1..];
    }
  }

  function Elements(s: seq<nat>): set<nat> {
    set x | x in s
  }

  lemma {:induction false} DistinctSize(s: seq<nat>)
    requires Distinct(s)
    ensures |Elements(s)| == |s|
  {
    if s != [] {
      DistinctSize(s[1..]);
      assert s[0] !in Elements(s[1..]);
      assert Elements(s) == {s[0]} + Elements(s[1..]);
    }
  }

  lemma {:induction false} SubsetOfSameSize<T>(a: set<T>, b: set<T>)
    requires a <= b && |a| == |b|
    ensures a == b
  {
    assert b == a + (b - a);
    assert |b| == |a| + |b - a|;
  }

  lemma PermutationIsRearrangement(p: seq<nat>)
    ensures IsPermutation(p) <==> multiset(p) == multiset(Identity(|p|))
  {
    var n := |p|;
    if IsPermutation(p) {
      DistinctSize(p);
      DistinctSize(Identity(n));
      forall x | x in Elements(p) ensures x in Elements(Identity(n)) {
        assert Identity(n)[x] == x;
      }
      SubsetOfSameSize(Elements(p), Elements(Identity(n)));
      forall x: nat ensures multiset(p)[x] == multiset(Identity(n))[x] {
        CountOf(p, x);
        CountOf(Identity(n), x);
        assert x in p <==> x in Elements(p);
        assert x in Identity(n) <==> x in Elements(Identity(n));
      }
    }
    if multiset(p) == multiset(Identity(n)) {
      forall i | 0 <= i < n ensures p[i] < n {
        assert p[i] in multiset(p);
        assert p[i] in Identity(n);
      }
      forall i, j | 0 <= i < j < n ensures p[i] != p[j] {
        CountOf(Identity(n), p[i]);
        SplitAt(p, i);
        assert Remove(p, i)[j - 1] == p[j];
        assert p[j] in multiset(Remove(p, i));
      }
    }
  }

  /** Ranking and unranking are mutually inverse bijections between the permutations of n and [0, n!). */
  lemma RankUnrankInverse(n: nat)
    ensures forall p: seq<nat> :: |p| == n && IsPermutation(p) ==> Rank(p) < Factorial(n) && Unrank(n, Rank(p)) == p
    ensures forall r: nat :: r < Factorial(n) ==>
              |Unrank(n, r)| == n && IsPermutation(Unrank(n, r)) && Rank(Unrank(n, r)) == r
  {
    forall p: seq<nat> | |p| == n && IsPermutation(p) ensures Rank(p) < Factorial(n) && Unrank(n, Rank(p)) == p {
      RankInverse(p);
    }
    forall r: nat | r < Factorial(n)
      ensures |Unrank(n, r)| == n && IsPermutation(Unrank(n, r)) && Rank(Unrank(n, r)) == r
    {
      UnrankInverse(n, r);
    }
  }

  lemma RankInverse(p: seq<nat>)
    requires IsPermutation(p)
    ensures Rank(p) < Factorial(|p|) && Unrank(|p|, Rank(p)) == p
  {
    PermutationIsRearrangement(p);
    UnrankOfRank(Identity(|p|), p);
  }

  lemma UnrankInverse(n: nat, r: nat)
    requires r < Factorial(n)
    ensures |Unrank(n, r)| == n && IsPermutation(Unrank(n, r)) && Rank(Unrank(n, r)) == r
  {
    RankOfUnrank(Identity(n), r);
    PermutationIsRearrangement(Unrank(n, r));
  }

  lemma {:induction false} AscendingHasRankZero(s: seq<nat>)
    requires Ascending(s)
    ensures Rank(s) == 0
  {
    if s != [] {
      SmallerAll(s[0], s[1..], false);
      AscendingHasRankZero(s[1..]);
    }
  }

  lemma IdentityHasRankZero(p: seq<nat>)
    requires IsPermutation(p)
    ensures Rank(p) == 0 <==> p == Identity(|p|)
  {
    AscendingHasRankZero(Identity(|p|));
    RankInverse(p);
    RankInverse(Identity(|p|));
  }

  // ----- the loops -----

  method RankPermutation(p: seq<nat>) returns (rank: nat)
    ensures rank == Rank(p)
  {
    rank := 0;
    var n := |p|;
    assert p[0..] == p;
    for i := 0 to n
      invariant rank + Rank(p[i..]) == Rank(p)
    {
      var smaller := 0;
      for j := i + 1 to n
        invariant smaller + Smaller(p[i], p[j..]) == Smaller(p[i], p[i + 1..])
      {
        assert p[j..][1..] == p[j + 1..];
        if p[j] < p[i] {
          smaller := smaller + 1;
        }
      }
      assert p[i..][1..] == p[i + 1..];
      rank := rank + smaller * Factorial(n - i - 1);
    }
  }

  lemma UnrankStep(available: seq<nat>, r: nat, block: nat)
    requires available != [] && r < Factorial(|available|) && block == Factorial(|available| - 1)
    ensures r / block < |available| && r % block < block
    ensures UnrankFrom(available, r) ==
            [available[r / block]] + UnrankFrom(Remove(available, r / block), r % block)
  {
    BlockIsInRange(|available|, r);
  }

  method UnrankPermutation(n: nat, r: nat) returns (p: seq<nat>)
    requires r < Factorial(n)
    ensures p == Unrank(n, r)
  {
    hide Factorial, UnrankFrom;
    var available: seq<nat> := Identity(n);
    var rest: nat := r;
    p := [];
    var remaining := n;
    while remaining > 0
      invariant |available| == remaining && 0 <= rest < Factorial(remaining)
      invariant p + UnrankFrom(available, rest) == Unrank(n, r)
    {
      var block := Factorial(remaining - 1);
      UnrankStep(available, rest, block);
      var selected := rest / block;
      rest := rest % block;
      p := p + [available[selected]];
      available := Remove(available, selected);
      remaining := remaining - 1;
    }
  }
}
