/** The cheapest way to rearrange a window of stack slots with moves alone: the priority-queue search over all
    permutations, and the plans read off its table. */
module MoveTable {
  import opened Wrappers
  import opened Permutations
  import opened StackSteps
  import opened CheapestSearch

  const MAX_MOVE_WINDOW: nat := 8

  // ----- the moves of a window -----

  function RollOps(from: nat, n: nat): seq<Step>
    decreases if from < n then n - from else 0
  {
    if from >= n then [] else [Step(Roll, from)] + RollOps(from + 1, n)
  }

  function MoveOps(n: nat): seq<Step> {
    (if n >= 2 then [Step(Swap, 1)] else [])
    + (if n >= 3 then [Step(Rot, 2)] else [])
    + (if n >= 4 then [Step(TwoSwap, 3)] else [])
    + (if n >= 6 then [Step(TwoRot, 5)] else [])
    + RollOps(3, n)
  }

  method MoveOnlyOperations(n: nat) returns (ops: seq<Step>)
    ensures ops == MoveOps(n)
  {
    ops := [];
    if n >= 2 {
      ops := ops + [Step(Swap, 1)];
    }
    if n >= 3 {
      ops := ops + [Step(Rot, 2)];
    }
    if n >= 4 {
      ops := ops + [Step(TwoSwap, 3)];
    }
    if n >= 6 {
      ops := ops + [Step(TwoRot, 5)];
    }
    ghost var named := ops;
    assert ops + RollOps(3, n) == MoveOps(n);
    var depth := 3;
    while depth < n
      invariant depth >= 3 && ops + RollOps(depth, n) == MoveOps(n)
    {
      ops := ops + [Step(Roll, depth)];
      depth := depth + 1;
    }
  }

  predicate IsListed(n: nat, op: Step) {
    match op.op
    case Swap => n >= 2 && op.depth == 1
    case Rot => n >= 3 && op.depth == 2
    case TwoSwap => n >= 4 && op.depth == 3
    case TwoRot => n >= 6 && op.depth == 5
    case Roll => 3 <= op.depth < n
    case _ => false
  }

  lemma {:induction false} RollOpsAre(from: nat, n: nat, op: Step)
    requires from >= 3
    ensures op in RollOps(from, n) <==> op.op.Roll? && from <= op.depth < n
    decreases if from < n then n - from else 0
  {
    if from < n {
      RollOpsAre(from + 1, n, op);
    }
  }

  lemma MoveOpsAre(n: nat, op: Step)
    ensures op in MoveOps(n) <==> IsListed(n, op)
  {
    RollOpsAre(3, n, op);
  }

  lemma ListedIsMove(n: nat, op: Step)
    requires IsListed(n, op)
    ensures IsMove(op) && StepBytes(op) >= 1
    ensures forall s: seq<nat> :: |s| == n ==> Shuffle(s, op).Some?
  {
    if op.op.Roll? {
      assert Encoded(op)[1..] == [Encoded(op)[1]];
    }
  }

  /** Any move is free or has the effect and cost of a listed one. */
  lemma CanonicalMove(s: seq<nat>, step: Step) returns (op: Option<Step>)
    requires IsMove(step) && Shuffle(s, step).Some?
    ensures op.None? ==> Shuffle(s, step) == Some(s) && forall c: Cost :: Extend(c, step) == c
    ensures op.Some? ==> IsListed(|s|, op.value) && Shuffle(s, op.value) == Shuffle(s, step)
    ensures op.Some? ==> forall c: Cost :: Extend(c, op.value) == Extend(c, step)
  {
    match step.op {
      case Swap => op := Some(Step(Swap, 1));
      case Rot => op := Some(Step(Rot, 2));
      case TwoSwap => op := Some(Step(TwoSwap, 3));
      case TwoRot => op := Some(Step(TwoRot, 5));
      case Roll =>
        if step.depth == 0 {
          assert [s[0]] + s[..0] + s[1..] == s;
          op := None;
        } else if step.depth == 1 {
          assert [s[1]] + s[..1] + s[2..] == [s[1], s[0]] + s[2..];
          op := Some(Step(Swap, 1));
        } else if step.depth == 2 {
          op := Some(Step(Rot, 2));
        } else {
          op := Some(step);
        }
      case _ =>
    }
  }

  /** Bringing a block to the front. */
  lemma BlockKeepsItems(s: seq<nat>, i: nat, j: nat)
    requires i <= j <= |s|
    ensures multiset(s[i..j] + s[..i] + s[j..]) == multiset(s)
  {
    assert s == s[..i] + s[i..j] + s[j..];
  }

  lemma RollKeepsItems(s: seq<nat>, depth: nat)
    requires RollUp(s, depth).Some?
    ensures multiset(RollUp(s, depth).value) == multiset(s)
  {
    BlockKeepsItems(s, depth, depth + 1);
    assert s[depth..depth + 1] == [s[depth]];
  }

  lemma ShuffleKeepsItems(s: seq<nat>, step: Step)
    requires Shuffle(s, step).Some?
    ensures multiset(Shuffle(s, step).value) == multiset(s)
  {
    hide RollUp;
    match step.op {
      case Swap =>
        BlockKeepsItems(s, 1, 2);
        assert s[1..2] + s[..1] + s[2..] == [s[1], s[0]] + s[2..];
      case Rot => RollKeepsItems(s, 2);
      case TwoSwap => BlockKeepsItems(s, 2, 4);
      case TwoRot => BlockKeepsItems(s, 4, 6);
      case Roll => RollKeepsItems(s, step.depth);
      case _ =>
    }
  }

  lemma ShuffledPermutation(p: seq<nat>, step: Step)
    requires IsPermutation(p) && Shuffle(p, step).Some?
    ensures IsPermutation(Shuffle(p, step).value)
  {
    PermutationIsRearrangement(p);
    ShuffleKeepsItems(p, step);
    PermutationIsRearrangement(Shuffle(p, step).value);
  }

  // ----- the table -----

  /** The permutation reached from the one ranked r. */
  function Next(n: nat, r: nat, op: Step): (next: nat)
    requires r < Factorial(n) && IsListed(n, op)
    ensures next < Factorial(n)
  {
    UnrankInverse(n, r);
    ListedIsMove(n, op);
    var p := Shuffle(Unrank(n, r), op).value;
    ShuffledPermutation(Unrank(n, r), op);
    RankInverse(p);
    Rank(p)
  }

  /** Ranks of the permutations of n, joined by the moves. */
  ghost function MoveGraph(n: nat): Graph<nat> {
    var next: (nat, Step) -> nat := (r: nat, op) => if r < Factorial(n) && IsListed(n, op) then Next(n, r, op) else 0;
    Graph(Elements(Identity(Factorial(n))), 0, r => MoveOps(n), next, None)
  }

  lemma IsNode(n: nat, r: nat)
    ensures r in MoveGraph(n).nodes <==> r < Factorial(n)
  {
    hide Factorial;
    if r < Factorial(n) {
      assert Identity(Factorial(n))[r] == r;
    }
  }

  lemma MoveGraphIsProper(n: nat)
    ensures Proper(MoveGraph(n))
  {
    hide Factorial, MoveOps, IsListed, Next;
    var g := MoveGraph(n);
    IsNode(n, 0);
    forall r, op | r in g.nodes && op in g.moves(r) ensures ProperStep(g, r, op) {
      IsNode(n, r);
      MoveOpsAre(n, op);
      ListedIsMove(n, op);
      IsNode(n, g.next(r, op));
    }
  }

  /** Every listed move applies to a full window, so none is skipped. */
  method NextRank(n: nat, r: nat, state: seq<nat>, operation: Step) returns (rank: nat)
    requires r in MoveGraph(n).nodes && state == Unrank(n, r) && operation in MoveOps(n)
    ensures rank == MoveGraph(n).next(r, operation)
  {
    hide MoveOps;
    IsNode(n, r);
    MoveOpsAre(n, operation);
    ListedIsMove(n, operation);
    UnrankInverse(n, r);
    rank := RankPermutation(Shuffle(state, operation).value);
  }

  /** The inner loop of the search: try every move out of the entry just taken from the queue. */
  method Relax(n: nat, entries: map<nat, Entry<nat>>, queue: set<QueueItem<nat>>, item: QueueItem<nat>,
               operations: seq<Step>, ghost settled: set<nat>)
      returns (table: map<nat, Entry<nat>>, waiting: set<QueueItem<nat>>)
    requires operations == MoveOps(n) && item.node in MoveGraph(n).nodes
    requires Expanding(MoveGraph(n), entries, queue, settled, item.node, item.cost, 0)
    ensures Searching(MoveGraph(n), table, waiting, settled + {item.node}, None)
  {
    hide Less, Extend, Searching, FirstRelaxed, NoneBelow, SettledBelow, MoveOps, Factorial, Next;
    table, waiting := entries, queue;
    ghost var g := MoveGraph(n);
    IsNode(n, item.node);
    var state := UnrankPermutation(n, item.node);
    for k := 0 to |operations|
      invariant Expanding(g, table, waiting, settled, item.node, item.cost, k)
    {
      var operation := operations[k];
      var nextRank := NextRank(n, item.node, state, operation);
      var nextCost := Extend(item.cost, operation);
      if nextRank !in table || Less(nextCost, table[nextRank].cost) {
        Improve(g, table, waiting, settled, item.node, item.cost, k, operation);
        table := table[nextRank := Entry(nextCost, Some(item.node), operation)];
        waiting := waiting + {QueueItem(nextCost, nextRank)};
      } else {
        Keep(g, table, waiting, settled, item.node, item.cost, k, operation);
      }
    }
    FinishExpanding(g, table, waiting, settled, item.node, item.cost);
  }

  method BuildMoveTable(n: nat) returns (entries: map<nat, Entry<nat>>)
    ensures Linked(MoveGraph(n), entries) && Closed(MoveGraph(n), entries)
  {
    hide Searching, Expanding, Linked, Closed, MoveGraph, MoveOps;
    ghost var g := MoveGraph(n);
    MoveGraphIsProper(n);
    entries := map[0 := Entry(ZERO, None, Step(Swap, 0))];
    var queue := {QueueItem(ZERO, 0)};
    StartsAtIdentity(n);
    StartSearching(g, Step(Swap, 0));
    var operations := MoveOnlyOperations(n);
    ghost var settled: set<nat> := {};
    while queue != {}
      invariant Searching(g, entries, queue, settled, None)
      decreases |g.nodes - settled|, |queue|
    {
      ghost var least := LeastExists(queue);
      var item :| item in queue && IsLeast(item, queue);
      TakenItem(g, entries, queue, settled, item);
      if item.cost != entries[item.node].cost {
        DropStale(g, entries, queue, settled, item);
        queue := queue - {item};
      } else {
        StartExpanding(g, entries, queue, settled, item);
        queue := queue - {item};
        entries, queue := Relax(n, entries, queue, item, operations, settled);
        assert g.nodes - (settled + {item.node}) == g.nodes - settled - {item.node};
        settled := settled + {item.node};
      }
    }
    EmptyQueueIsClosed(g, entries, settled);
  }

  lemma StartsAtIdentity(n: nat)
    ensures MoveGraph(n).start == 0 && MoveGraph(n).limit == None
  {
  }

  // ----- what the finished table says -----

  predicate AllMoves(steps: seq<Step>) {
    forall i :: 0 <= i < |steps| ==> IsMove(steps[i])
  }

  /** The steps are moves that turn one window into another. */
  predicate Turns(from: seq<nat>, steps: seq<Step>, to: seq<nat>) {
    AllMoves(steps) && ActAll(Stacks(from, []), steps) == Some(Stacks(to, []))
  }

  lemma TurnsStep(p: seq<nat>, steps: seq<Step>, q: seq<nat>)
    requires steps != []
    ensures Turns(p, steps, q) <==>
            IsMove(steps[0]) && Shuffle(p, steps[0]).Some? && Turns(Shuffle(p, steps[0]).value, steps[1..], q)
  {
    assert AllMoves(steps) <==> IsMove(steps[0]) && AllMoves(steps[1..]);
  }

  lemma ClosedStep(n: nat, e: map<nat, Entry<nat>>, p: seq<nat>, c: Cost, step: Step)
    requires Closed(MoveGraph(n), e) && |p| == n && IsPermutation(p) && CostsAtMost(e, Rank(p), c)
    requires IsMove(step) && Shuffle(p, step).Some?
    ensures var q := Shuffle(p, step).value; IsPermutation(q) && CostsAtMost(e, Rank(q), Extend(c, step))
  {
    hide Extend, Shuffle, AllRelaxed, AtMost, Rank, MoveOps;
    ShuffledPermutation(p, step);
    var op := CanonicalMove(p, step);
    if op.Some? {
      MoveOpsAre(n, op.value);
      RelaxedStep(MoveGraph(n), e, Rank(p), c, op.value);
      NextOfRank(n, p, op.value);
    }
  }

  lemma NextOfRank(n: nat, p: seq<nat>, op: Step)
    requires IsListed(n, op) && |p| == n && IsPermutation(p)
    ensures Shuffle(p, op).Some? && MoveGraph(n).next(Rank(p), op) == Rank(Shuffle(p, op).value)
  {
    ListedIsMove(n, op);
    RankInverse(p);
  }

  /** Nothing beats a closed table: a run of moves costs at least what the table says of where it ends. */
  lemma {:induction false} ClosedIsLowerBound(n: nat, e: map<nat, Entry<nat>>, p: seq<nat>, c: Cost, steps: seq<Step>,
                                              q: seq<nat>)
    requires Closed(MoveGraph(n), e) && |p| == n && IsPermutation(p)
    requires CostsAtMost(e, Rank(p), c) && Turns(p, steps, q)
    ensures CostsAtMost(e, Rank(q), CostFrom(c, steps))
    decreases |steps|
  {
    hide Closed, CostsAtMost, Turns, IsPermutation, Extend, Rank;
    if steps == [] {
      EmptyTurn(p, q);
    } else {
      TurnsStep(p, steps, q);
      ClosedStep(n, e, p, c, steps[0]);
      ClosedIsLowerBound(n, e, Shuffle(p, steps[0]).value, Extend(c, steps[0]), steps[1..], q);
    }
  }

  lemma EmptyTurn(p: seq<nat>, q: seq<nat>)
    ensures Turns(p, [], q) <==> p == q
  {
  }

  /** Rolling up the target's items, deepest first, reaches every permutation. */
  lemma {:induction false} ClosedIsTotal(n: nat, e: map<nat, Entry<nat>>, p: seq<nat>, target: seq<nat>, k: nat)
    requires Closed(MoveGraph(n), e) && |p| == |target| == n && IsPermutation(p) && IsPermutation(target)
    requires k <= n && p[..k] == target[n - k..]
    requires Rank(p) in e
    ensures Rank(target) in e
    decreases n - k
  {
    hide Closed, IsPermutation, Shuffle, Rank, AtMost;
    if k == n {
      assert p == p[..k] && target == target[0..];
    } else {
      var d := PositionOf(p, target, k);
      var c := e[Rank(p)].cost;
      AtMostOrder(c, c, c);
      RollIsShuffle(p, d);
      ClosedStep(n, e, p, c, Step(Roll, d));
      OneMoreInPlace(p, target, k, d);
      hide RollUp;
      ClosedIsTotal(n, e, RollUp(p, d).value, target, k + 1);
    }
  }

  lemma OneMoreInPlace(p: seq<nat>, target: seq<nat>, k: nat, d: nat)
    requires |p| == |target| && k <= d < |p| && p[..k] == target[|p| - k..] && p[d] == target[|p| - k - 1]
    ensures RollUp(p, d).value[..k + 1] == target[|p| - k - 1..] && |RollUp(p, d).value| == |p|
  {
    var n := |p|;
    assert RollUp(p, d).value[..k + 1] == [p[d]] + p[..k];
    assert target[n - k - 1..] == [p[d]] + target[n - k..];
  }

  lemma RollIsShuffle(p: seq<nat>, d: nat)
    requires d < |p|
    ensures Shuffle(p, Step(Roll, d)) == RollUp(p, d)
  {
  }

  lemma PositionOf(p: seq<nat>, target: seq<nat>, k: nat) returns (d: nat)
    requires |p| == |target| && IsPermutation(p) && IsPermutation(target)
    requires k < |p| && p[..k] == target[|p| - k..]
    ensures k <= d < |p| && p[d] == target[|p| - k - 1]
  {
    var n := |p|;
    var wanted := target[n - k - 1];
    PermutationIsRearrangement(p);
    PermutationIsRearrangement(target);
    assert wanted in multiset(target);
    assert wanted in multiset(p);
    d :| 0 <= d < n && p[d] == wanted;
    assert forall i :: 0 <= i < k ==> p[..k][i] == target[n - k..][i] && p[i] == target[n - k + i];
  }

  // ----- reading plans off the table -----

  ghost predicate Cheapest(from: seq<nat>, to: seq<nat>, steps: seq<Step>) {
    forall other: seq<Step> :: Turns(from, other, to) ==> AtMost(CostOf(steps), CostOf(other))
  }

  predicate AllListed(n: nat, steps: seq<Step>) {
    forall i :: 0 <= i < |steps| ==> IsListed(n, steps[i])
  }

  /** Stepping back over one link of the predecessor chain. */
  lemma FollowLink(n: nat, e: map<nat, Entry<nat>>, cursor: nat, steps: seq<Step>, target: seq<nat>, total: Cost)
    requires Linked(MoveGraph(n), e) && cursor != 0 && cursor in e && cursor < Factorial(n) && AllListed(n, steps)
    requires Turns(Unrank(n, cursor), steps, target) && AtMost(CostFrom(e[cursor].cost, steps), total)
    ensures e[cursor].predecessor.Some? && e[cursor].predecessor.value in e
    ensures var back, op := e[cursor].predecessor.value, e[cursor].incoming;
            && back < Factorial(n) && AllListed(n, [op] + steps) && Turns(Unrank(n, back), [op] + steps, target)
            && AtMost(CostFrom(e[back].cost, [op] + steps), total)
            && e[back].cost.bytes < e[cursor].cost.bytes
  {
    hide Linked, Extend, Rank, UnrankFrom, IsListed, Turns, Shuffle, Factorial;
    LinkFacts(n, e, cursor);
    var back, op := e[cursor].predecessor.value, e[cursor].incoming;
    assert ([op] + steps)[1..] == steps;
    TurnsStep(Unrank(n, back), [op] + steps, target);
    CostIsMonotone(Extend(e[back].cost, op), e[cursor].cost, steps);
    AtMostOrder(CostFrom(Extend(e[back].cost, op), steps), CostFrom(e[cursor].cost, steps), total);
  }

  lemma LinkFacts(n: nat, e: map<nat, Entry<nat>>, cursor: nat)
    requires Linked(MoveGraph(n), e) && cursor != 0 && cursor in e
    ensures e[cursor].predecessor.Some? && e[cursor].predecessor.value in e
    ensures var back, op := e[cursor].predecessor.value, e[cursor].incoming;
            && back < Factorial(n) && IsListed(n, op) && IsMove(op)
            && Shuffle(Unrank(n, back), op) == Some(Unrank(n, cursor))
            && e[back].cost.bytes < e[cursor].cost.bytes
            && AtMost(Extend(e[back].cost, op), e[cursor].cost)
  {
    hide Shuffle, Extend, Rank, UnrankFrom, MoveOps, IsListed;
    MoveGraphIsProper(n);
    ChainStep(MoveGraph(n), e, cursor);
    var back, op := e[cursor].predecessor.value, e[cursor].incoming;
    IsNode(n, back);
    MoveOpsAre(n, op);
    ListedIsMove(n, op);
    UnrankInverse(n, back);
    ShuffledPermutation(Unrank(n, back), op);
    RankInverse(Shuffle(Unrank(n, back), op).value);
    NextOfRank(n, Unrank(n, back), op);
  }

  /** The table turns the identity into every permutation, at the least possible cost. */
  lemma TableIsTotal(n: nat, e: map<nat, Entry<nat>>, target: seq<nat>)
    requires Linked(MoveGraph(n), e) && Closed(MoveGraph(n), e) && |target| == n && IsPermutation(target)
    ensures Rank(target) in e
  {
    hide Closed;
    IdentityHasRankZero(Identity(n));
    ClosedIsTotal(n, e, Identity(n), target, 0);
  }

  lemma TableIsCheapest(n: nat, e: map<nat, Entry<nat>>, target: seq<nat>, steps: seq<Step>)
    requires Linked(MoveGraph(n), e) && Closed(MoveGraph(n), e) && |target| == n && IsPermutation(target)
    requires Rank(target) in e && AtMost(CostOf(steps), e[Rank(target)].cost)
    ensures Cheapest(Identity(n), target, steps)
  {
    hide Closed, Rank, Turns;
    IdentityHasRankZero(Identity(n));
    forall other: seq<Step> | Turns(Identity(n), other, target) ensures AtMost(CostOf(steps), CostOf(other)) {
      AtMostOrder(ZERO, ZERO, ZERO);
      ClosedIsLowerBound(n, e, Identity(n), ZERO, other, target);
      AtMostOrder(CostOf(steps), e[Rank(target)].cost, CostOf(other));
    }
  }

  method PlanMoveOnly(target: seq<nat>) returns (plan: Option<Plan>)
    ensures plan.Some? <==> |target| <= MAX_MOVE_WINDOW && IsPermutation(target)
    ensures plan.Some? ==> IsPlan(plan.value) && AllListed(|target|, plan.value.steps)
    ensures plan.Some? ==> Turns(Identity(|target|), plan.value.steps, target)
    ensures plan.Some? ==> Cheapest(Identity(|target|), target, plan.value.steps)
  {
    hide Linked, Closed, Turns, UnrankFrom, Rank, AtMost, Cheapest, Factorial;
    var n := |target|;
    if n > MAX_MOVE_WINDOW {
      return None;
    }
    if n == 0 {
      EmptyTurn(Identity(0), target);
      NothingIsCheapest(target);
      return Some(Plan([], 0, 0, 0));
    }
    var isPermutation := CheckPermutation(target);
    if !isPermutation {
      return None;
    }
    var table := BuildMoveTable(n);
    RankInverse(target);
    var targetRank := RankPermutation(target);
    TableIsTotal(n, table, target);
    var reversed: seq<Step> := [];
    var cursor: nat := targetRank;
    EmptyTurn(target, target);
    AtMostOrder(table[cursor].cost, table[cursor].cost, table[cursor].cost);
    while cursor != 0
      invariant 0 <= cursor < Factorial(n) && cursor in table && AllListed(n, Reversed(reversed))
      invariant Turns(Unrank(n, cursor), Reversed(reversed), target)
      invariant AtMost(CostFrom(table[cursor].cost, Reversed(reversed)), table[targetRank].cost)
      decreases table[cursor].cost.bytes
    {
      var entry := table[cursor];
      FollowLink(n, table, cursor, Reversed(reversed), target, table[targetRank].cost);
      ReversedSnoc(reversed, entry.incoming);
      reversed := reversed + [entry.incoming];
      cursor := entry.predecessor.value;
    }
    var steps := Reversed(reversed);
    IdentityHasRankZero(Identity(n));
    RankInverse(Identity(n));
    StartsAtZero(n, table);
    TableIsCheapest(n, table, target, steps);
    var made := MakePlan(steps);
    plan := Some(made);
  }

  lemma StartsAtZero(n: nat, e: map<nat, Entry<nat>>)
    requires Linked(MoveGraph(n), e)
    ensures 0 in e && e[0].cost == ZERO
  {
  }

  lemma NothingIsCheapest(target: seq<nat>)
    requires target == []
    ensures Cheapest(Identity(0), target, [])
  {
  }

  /** The seen-flags check on the requested window. */
  method CheckPermutation(target: seq<nat>) returns (ok: bool)
    ensures ok <==> IsPermutation(target)
  {
    var seen: set<nat> := {};
    for i := 0 to |target|
      invariant forall x :: x in seen <==> x in target[..i]
      invariant forall j :: 0 <= j < i ==> target[j] < |target|
      invariant Distinct(target[..i])
    {
      if target[i] >= |target| {
        return false;
      }
      if target[i] in seen {
        var j :| 0 <= j < i && target[j] == target[i];
        return false;
      }
      seen := seen + {target[i]};
      assert target[..i + 1] == target[..i] + [target[i]];
    }
    assert target[..|target|] == target;
    return true;
  }
}
