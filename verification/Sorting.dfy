/** Least elements and ascending listings of finite sets of numbers. */
module Sorting {
  import opened Permutations

  predicate IsLeast(x: nat, s: set<nat>) {
    x in s && forall y :: y in s ==> x <= y
  }

  lemma {:induction false} HasLeast(s: set<nat>)
    requires s != {}
    ensures exists x :: x in s && IsLeast(x, s)
    decreases |s|
  {
    var one :| one in s;
    var rest := s - {one};
    if rest == {} {
      assert s == {one};
      assert IsLeast(one, s);
    } else {
      HasLeast(rest);
      var other :| other in rest && IsLeast(other, rest);
      assert forall y :: y in s ==> y == one || y in rest;
      assert IsLeast(if other < one then other else one, s);
    }
  }

  lemma ListedStep(least: nat, s: set<nat>, rest: seq<nat>)
    requires IsLeast(least, s) && Elements(rest) == s - {least} && Ascending(rest)
    ensures Elements([least] + rest) == s && Ascending([least] + rest)
  {
    forall i | 0 <= i < |rest| ensures least < rest[i] {
      assert rest[i] in Elements(rest);
    }
    forall x: nat ensures x in Elements([least] + rest) <==> x in s {
      assert x in Elements(rest) <==> x in rest;
    }
  }

  /** The elements of a set in ascending order. */
  function Listed(s: set<nat>): (r: seq<nat>)
    ensures Elements(r) == s && Ascending(r)
    decreases |s|
  {
    if s == {} then []
    else
      HasLeast(s);
      var least :| least in s && IsLeast(least, s);
      var rest := Listed(s - {least});
      ListedStep(least, s, rest);
      [least] + rest
  }
}
