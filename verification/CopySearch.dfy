/** The bounded search for the cheapest copy assignment, and the plans handed to callers. */
module CopySearch {
  import opened Wrappers
  import opened ScriptVm
  import opened StackSteps
  import opened StackOnVm
  import opened CheapestSearch
  import opened MoveTable
  import opened CopySteps

  const MAX_COPY_DEPTH: nat := 6

  ghost function CopyGraph(source: nat, target: nat, limit: nat): Graph<CopyState> {
    Graph(States(Window(source, target)), Initial(source, target),
          (c: CopyState) => AllowedSteps(c, source, target),
          (c: CopyState, step: Step) => if CopyAct(c, step).Some? then CopyAct(c, step).value else c,
          Some(limit))
  }

  lemma CopyGraphIsProper(source: nat, target: nat, limit: nat)
    ensures Proper(CopyGraph(source, target, limit))
  {
    hide CopyAct, AllowedSteps, StepBytes, IsAllowed, States;
    var g := CopyGraph(source, target, limit);
    var w := Window(source, target);
    StatesAre(w, g.start);
    forall c, op | c in g.nodes && op in g.moves(c) ensures ProperStep(g, c, op) {
      AllowedAre(c, source, target, op);
      AllowedApplies(c, source, target, op);
      StatesAre(w, c);
      ActKeepsState(c, op, w);
      StatesAre(w, g.next(c, op));
    }
  }

  // ----- the steps tried at a state -----

  function Neighbours(c: CopyState, steps: seq<Step>): seq<(CopyState, Step)> {
    if steps == [] then []
    else
      (match CopyAct(c, steps[0]) case None => [] case Some(d) => [(d, steps[0])]) + Neighbours(c, steps[1..])
  }

  lemma {:induction false} NeighboursConcat(c: CopyState, a: seq<Step>, b: seq<Step>)
    ensures Neighbours(c, a + b) == Neighbours(c, a) + Neighbours(c, b)
  {
    hide CopyAct;
    if a == [] {
      assert a + b == b;
    } else {
      assert (a + b)[1..] == a[1..] + b;
      NeighboursConcat(c, a[1..], b);
    }
  }

  lemma {:induction false} NeighboursAt(c: CopyState, steps: seq<Step>)
    requires forall i :: 0 <= i < |steps| ==> CopyAct(c, steps[i]).Some?
    ensures |Neighbours(c, steps)| == |steps|
    ensures forall i :: 0 <= i < |steps| ==> Neighbours(c, steps)[i] == (CopyAct(c, steps[i]).value, steps[i])
  {
    hide CopyAct;
    if steps != [] {
      NeighboursAt(c, steps[1..]);
    }
  }

  /** Append the state a step leads to, if it applies. */
  method AddCopyNeighbour(c: CopyState, step: Step, ghost tried: seq<Step>, neighbours: seq<(CopyState, Step)>)
      returns (more: seq<(CopyState, Step)>)
    requires neighbours == Neighbours(c, tried)
    ensures more == Neighbours(c, tried + [step])
  {
    hide CopyAct;
    NeighboursConcat(c, tried, [step]);
    assert [step][1..] == [];
    var next := CopyAct(c, step);
    more := if next.Some? then neighbours + [(next.value, step)] else neighbours;
  }

  method AddAll(c: CopyState, steps: seq<Step>, ghost tried: seq<Step>, neighbours: seq<(CopyState, Step)>)
      returns (more: seq<(CopyState, Step)>)
    requires neighbours == Neighbours(c, tried)
    ensures more == Neighbours(c, tried + steps)
  {
    more := neighbours;
    assert tried + steps[..0] == tried;
    for i := 0 to |steps|
      invariant more == Neighbours(c, tried + steps[..i])
    {
      more := AddCopyNeighbour(c, steps[i], tried + steps[..i], more);
      assert tried + steps[..i] + [steps[i]] == tried + steps[..i + 1];
    }
    assert steps[..|steps|] == steps;
  }

  method CopyNeighbours(c: CopyState, source: nat, target: nat) returns (result: seq<(CopyState, Step)>)
    ensures result == Neighbours(c, AllowedSteps(c, source, target))
  {
    hide Neighbours, MoveOps, CopyOps;
    var main := c.stacks.main;
    ghost var tried: seq<Step> := [];
    result := [];
    NoNeighbours(c);
    if !c.copied {
      var wanted := CopyOperations(main, source);
      result := AddAll(c, wanted, tried, result);
      tried := tried + wanted;
    }
    if !c.deleted {
      var wanted: seq<Step> := [];
      if main != [] && main[0] == target {
        wanted := wanted + [Step(Drop, 0)];
      }
      if |main| >= 2 && main[1] == target {
        wanted := wanted + [Step(Nip, 1)];
      }
      result := AddAll(c, wanted, tried, result);
      tried := tried + wanted;
    }
    var moves := MoveOnlyOperations(|main|);
    result := AddAll(c, moves, tried, result);
    tried := tried + moves;
    result := AddAll(c, AltOps(c.stacks), tried, result);
    assert tried + AltOps(c.stacks) == AllowedSteps(c, source, target);
  }

  method CopyOperations(main: seq<nat>, source: nat) returns (wanted: seq<Step>)
    ensures wanted == CopyOps(main, source)
  {
    wanted := [];
    if main != [] && main[0] == source {
      wanted := wanted + [Step(Dup, 0)];
      if |main| >= 2 {
        wanted := wanted + [Step(Tuck, 1)];
      }
    }
    if |main| >= 2 && main[1] == source {
      wanted := wanted + [Step(Over, 1)];
    }
    assert wanted + PickOps(2, main, source) == CopyOps(main, source);
    hide CopyOps;
    var depth := 2;
    while depth < |main|
      invariant depth >= 2 && wanted + PickOps(depth, main, source) == CopyOps(main, source)
      decreases |main| - depth
    {
      if main[depth] == source {
        wanted := wanted + [Step(Pick, depth)];
      }
      depth := depth + 1;
    }
  }

  lemma NoNeighbours(c: CopyState)
    ensures Neighbours(c, []) == []
  {
  }

  // ----- what the search proves when it stops -----

  lemma {:induction false} CostGrows(c: Cost, steps: seq<Step>)
    ensures AtMost(c, CostFrom(c, steps)) && c.bytes <= CostFrom(c, steps).bytes
    decreases |steps|
  {
    hide StepBytes, InstructionCount, TouchedDepth;
    if steps != [] {
      CostGrows(Extend(c, steps[0]), steps[1..]);
    }
  }

  /** Any solution within the limit passes through a queued state that costs no more than it, as long as the goal has
      not been expanded. */
  lemma {:induction false} SolutionIsQueued(source: nat, target: nat, limit: nat, e: map<CopyState, Entry<CopyState>>,
      queue: set<QueueItem<CopyState>>, settled: set<CopyState>, c: CopyState, cost: Cost, steps: seq<Step>)
      returns (item: QueueItem<CopyState>)
    requires source != target && Searching(CopyGraph(source, target, limit), e, queue, settled, None)
    requires Goal(source, target) !in settled
    requires CostsAtMost(e, c, cost) && OnTrack(c, source, target)
    requires CopyActAll(c, steps) == Some(Goal(source, target)) && CostFrom(cost, steps).bytes < limit
    ensures item in queue && AtMost(item.cost, CostFrom(cost, steps))
    decreases |steps|
  {
    hide CopyAct, OnTrack, Extend, AtMost, Linked, QueueSound, Proper, AllRelaxed, AllowedSteps, IsAllowed, States;
    if c !in settled {
      item := QueueItem(e[c].cost, c);
      CostGrows(cost, steps);
      AtMostOrder(e[c].cost, cost, CostFrom(cost, steps));
    } else {
      var next := CopyAct(c, steps[0]).value;
      StepStaysOnTrack(c, source, target, steps[0], steps[1..]);
      var op := CanonicalStep(c, source, target, steps[0]);
      if op.Some? {
        AllowedAre(c, source, target, op.value);
        CostGrows(Extend(cost, steps[0]), steps[1..]);
        RelaxedStep(CopyGraph(source, target, limit), e, c, cost, op.value);
      }
      item := SolutionIsQueued(source, target, limit, e, queue, settled, next, Extend(cost, steps[0]), steps[1..]);
    }
  }

  ghost predicate CheapestCopy(source: nat, target: nat, steps: seq<Step>) {
    forall other: seq<Step> :: Solves(source, target, other) ==> AtMost(CostOf(steps), CostOf(other))
  }

  ghost predicate NoCopyBelow(source: nat, target: nat, limit: nat) {
    forall other: seq<Step> :: Solves(source, target, other) ==> CostOf(other).bytes >= limit
  }

  lemma StartIsListed(source: nat, target: nat, limit: nat, e: map<CopyState, Entry<CopyState>>)
    requires Linked(CopyGraph(source, target, limit), e) && source != target
    ensures CostsAtMost(e, Initial(source, target), ZERO) && OnTrack(Initial(source, target), source, target)
  {
    GoalCounts(source, target);
  }

  /** An empty queue means that nothing within the limit reaches the goal. */
  lemma ExhaustedMeansNone(source: nat, target: nat, limit: nat, e: map<CopyState, Entry<CopyState>>,
                           settled: set<CopyState>)
    requires source != target && Searching(CopyGraph(source, target, limit), e, {}, settled, None)
    requires Goal(source, target) !in settled
    ensures NoCopyBelow(source, target, limit)
  {
    StartIsListed(source, target, limit, e);
    hide Searching, OnTrack, CostsAtMost, AtMost, CopyGraph;
    forall other: seq<Step> | Solves(source, target, other) ensures CostOf(other).bytes >= limit {
      if CostOf(other).bytes < limit {
        var item := SolutionIsQueued(source, target, limit, e, {}, settled, Initial(source, target), ZERO, other);
        assert false;
      }
    }
  }

  /** The goal leaving the queue first means that nothing is cheaper. */
  lemma FirstGoalIsCheapest(source: nat, target: nat, limit: nat, e: map<CopyState, Entry<CopyState>>,
      queue: set<QueueItem<CopyState>>, settled: set<CopyState>, item: QueueItem<CopyState>, steps: seq<Step>)
    requires source != target && Searching(CopyGraph(source, target, limit), e, queue, settled, None)
    requires Goal(source, target) !in settled && IsLeast(item, queue)
    requires AtMost(CostOf(steps), item.cost) && item.cost.bytes < limit
    ensures CheapestCopy(source, target, steps)
  {
    StartIsListed(source, target, limit, e);
    hide Searching, OnTrack, CostsAtMost, AtMost, CopyGraph;
    forall other: seq<Step> | Solves(source, target, other) ensures AtMost(CostOf(steps), CostOf(other)) {
      if CostOf(other).bytes < limit {
        var on := SolutionIsQueued(source, target, limit, e, queue, settled, Initial(source, target), ZERO, other);
        AtMostOrder(item.cost, on.cost, CostOf(other));
        AtMostOrder(CostOf(steps), item.cost, CostOf(other));
      } else {
        FewerBytes(item.cost, CostOf(other));
        AtMostOrder(CostOf(steps), item.cost, CostOf(other));
      }
    }
  }

  lemma FewerBytes(a: Cost, b: Cost)
    ensures a.bytes < b.bytes ==> AtMost(a, b)
  {
  }

  // ----- the loops -----

  /** Try every neighbour of the state just taken from the queue. */
  method RelaxCopies(source: nat, target: nat, limit: nat, entries: map<CopyState, Entry<CopyState>>,
      queue: set<QueueItem<CopyState>>, item: QueueItem<CopyState>, ghost settled: set<CopyState>)
      returns (records: map<CopyState, Entry<CopyState>>, waiting: set<QueueItem<CopyState>>)
    requires Expanding(CopyGraph(source, target, limit), entries, queue, settled, item.node, item.cost, 0)
    ensures Searching(CopyGraph(source, target, limit), records, waiting, settled + {item.node}, None)
  {
    hide Less, Extend, Searching, FirstRelaxed, NoneBelow, SettledBelow, AllowedSteps, CopyAct, Neighbours, States,
      IsAllowed;
    records, waiting := entries, queue;
    ghost var g := CopyGraph(source, target, limit);
    var neighbours := CopyNeighbours(item.node, source, target);
    AllApply(item.node, source, target);
    for k := 0 to |neighbours|
      invariant Expanding(g, records, waiting, settled, item.node, item.cost, k)
    {
      var next, operation := neighbours[k].0, neighbours[k].1;
      var nextCost := Extend(item.cost, operation);
      if nextCost.bytes < limit && (next !in records || Less(nextCost, records[next].cost)) {
        Improve(g, records, waiting, settled, item.node, item.cost, k, operation);
        records := records[next := Entry(nextCost, Some(item.node), operation)];
        waiting := waiting + {QueueItem(nextCost, next)};
      } else {
        Keep(g, records, waiting, settled, item.node, item.cost, k, operation);
      }
    }
    FinishExpanding(g, records, waiting, settled, item.node, item.cost);
  }

  lemma AllApply(c: CopyState, source: nat, target: nat)
    ensures var steps := AllowedSteps(c, source, target);
            && |Neighbours(c, steps)| == |steps|
            && (forall i :: 0 <= i < |steps| ==>
                  CopyAct(c, steps[i]).Some? && Neighbours(c, steps)[i] == (CopyAct(c, steps[i]).value, steps[i]))
  {
    hide CopyAct, AllowedSteps, IsAllowed;
    var steps := AllowedSteps(c, source, target);
    forall i | 0 <= i < |steps| ensures CopyAct(c, steps[i]).Some? {
      AllowedAre(c, source, target, steps[i]);
      AllowedApplies(c, source, target, steps[i]);
    }
    NeighboursAt(c, steps);
  }

  lemma FollowRecord(source: nat, target: nat, limit: nat, e: map<CopyState, Entry<CopyState>>, cursor: CopyState,
                     steps: seq<Step>, total: Cost)
    requires Linked(CopyGraph(source, target, limit), e) && cursor in e && cursor != Initial(source, target)
    requires CopyActAll(cursor, steps) == Some(Goal(source, target)) && AtMost(CostFrom(e[cursor].cost, steps), total)
    requires ShallowSteps(source, target, steps)
    ensures e[cursor].predecessor.Some? && e[cursor].predecessor.value in e
    ensures var back, op := e[cursor].predecessor.value, e[cursor].incoming;
            && CopyActAll(back, [op] + steps) == Some(Goal(source, target))
            && AtMost(CostFrom(e[back].cost, [op] + steps), total)
            && ShallowSteps(source, target, [op] + steps)
            && e[back].cost.bytes < e[cursor].cost.bytes
  {
    hide Extend, AllowedSteps, CopyAct, IsAllowed, States;
    var g := CopyGraph(source, target, limit);
    CopyGraphIsProper(source, target, limit);
    ChainStep(g, e, cursor);
    var back, op := e[cursor].predecessor.value, e[cursor].incoming;
    assert ([op] + steps)[1..] == steps;
    AllowedAre(back, source, target, op);
    AllowedApplies(back, source, target, op);
    StatesAre(Window(source, target), back);
    AllowedIsShallow(back, source, target, op);
    CostIsMonotone(Extend(e[back].cost, op), e[cursor].cost, steps);
    AtMostOrder(CostFrom(Extend(e[back].cost, op), steps), CostFrom(e[cursor].cost, steps), total);
  }

  predicate ShallowSteps(source: nat, target: nat, steps: seq<Step>) {
    forall i :: 0 <= i < |steps| ==> steps[i].depth <= Max(5, Window(source, target))
  }

  lemma AllowedIsShallow(c: CopyState, source: nat, target: nat, op: Step)
    requires IsAllowed(c, source, target, op) && IsState(c, Window(source, target))
    ensures op.depth <= Max(5, Window(source, target))
  {
  }

  /** The search proper: None exactly when no solution stays below the limit. */
  method SearchCopyAssignment(source: nat, target: nat, limit: nat) returns (plan: Option<Plan>)
    requires source != target
    ensures plan.Some? ==> IsPlan(plan.value) && Solves(source, target, plan.value.steps)
    ensures plan.Some? ==> CheapestCopy(source, target, plan.value.steps) && plan.value.serializedBytes < limit
    ensures plan.Some? ==> ShallowSteps(source, target, plan.value.steps)
    ensures plan.None? ==> NoCopyBelow(source, target, limit)
  {
    hide Searching, Expanding, CopyGraph, AtMost, CopyActAll, CheapestCopy, NoCopyBelow, IsLeast;
    ghost var g := CopyGraph(source, target, limit);
    CopyGraphIsProper(source, target, limit);
    var initial, goal := Initial(source, target), Goal(source, target);
    var records := map[initial := Entry(ZERO, None, Step(Swap, 0))];
    var queue := {QueueItem(ZERO, initial)};
    GraphStart(source, target, limit);
    StartSearching(g, Step(Swap, 0));
    ghost var settled: set<CopyState> := {};
    while queue != {}
      invariant Searching(g, records, queue, settled, None) && goal !in settled
      decreases |g.nodes - settled|, |queue|
    {
      ghost var least := LeastExists(queue);
      var item :| item in queue && IsLeast(item, queue);
      TakenItem(g, records, queue, settled, item);
      if item.cost != records[item.node].cost {
        DropStale(g, records, queue, settled, item);
        queue := queue - {item};
      } else if item.node == goal {
        plan := ReadPlan(source, target, limit, records, settled, queue, item);
        return;
      } else {
        StartExpanding(g, records, queue, settled, item);
        queue := queue - {item};
        records, queue := RelaxCopies(source, target, limit, records, queue, item, settled);
        assert g.nodes - (settled + {item.node}) == g.nodes - settled - {item.node};
        settled := settled + {item.node};
      }
    }
    ExhaustedMeansNone(source, target, limit, records, settled);
    return None;
  }

  lemma GraphStart(source: nat, target: nat, limit: nat)
    ensures CopyGraph(source, target, limit).start == Initial(source, target)
    ensures CopyGraph(source, target, limit).limit == Some(limit)
  {
  }

  lemma SearchingIsLinked(g: Graph<CopyState>, e: map<CopyState, Entry<CopyState>>, queue: set<QueueItem<CopyState>>,
                          settled: set<CopyState>)
    requires Searching(g, e, queue, settled, None)
    ensures Linked(g, e)
  {
  }

  /** Follow the predecessor records back from the goal. */
  method ReadPlan(source: nat, target: nat, limit: nat, records: map<CopyState, Entry<CopyState>>,
                  ghost settled: set<CopyState>, ghost queue: set<QueueItem<CopyState>>,
                  ghost item: QueueItem<CopyState>)
      returns (plan: Option<Plan>)
    requires source != target && Searching(CopyGraph(source, target, limit), records, queue, settled, None)
    requires IsLeast(item, queue) && item.node == Goal(source, target) && item.node !in settled
    requires item.node in records && records[item.node].cost == item.cost
    ensures plan.Some? && IsPlan(plan.value) && Solves(source, target, plan.value.steps)
    ensures CheapestCopy(source, target, plan.value.steps) && plan.value.serializedBytes < limit
    ensures ShallowSteps(source, target, plan.value.steps)
  {
    ghost var g := CopyGraph(source, target, limit);
    SearchingIsLinked(g, records, queue, settled);
    GoalCost(source, target, limit, records);
    hide Searching, CopyGraph, AtMost, CopyActAll, CheapestCopy, IsLeast, Linked;
    var goal := Goal(source, target);
    var reversed: seq<Step> := [];
    var cursor := goal;
    NothingLeft(goal, records[goal].cost);
    while cursor != Initial(source, target)
      invariant cursor in records && ShallowSteps(source, target, Reversed(reversed))
      invariant CopyActAll(cursor, Reversed(reversed)) == Some(goal)
      invariant AtMost(CostFrom(records[cursor].cost, Reversed(reversed)), records[goal].cost)
      decreases records[cursor].cost.bytes
    {
      var record := records[cursor];
      FollowRecord(source, target, limit, records, cursor, Reversed(reversed), records[goal].cost);
      ReversedSnoc(reversed, record.incoming);
      reversed := reversed + [record.incoming];
      cursor := record.predecessor.value;
    }
    var steps := Reversed(reversed);
    InitialCost(source, target, limit, records);
    AtMostBytes(CostOf(steps), item.cost);
    FirstGoalIsCheapest(source, target, limit, records, queue, settled, item, steps);
    var made := MakePlan(steps);
    plan := Some(made);
  }

  lemma NothingLeft(goal: CopyState, cost: Cost)
    ensures CopyActAll(goal, []) == Some(goal) && AtMost(CostFrom(cost, []), cost)
  {
    AtMostOrder(cost, cost, cost);
  }

  lemma AtMostBytes(a: Cost, b: Cost)
    ensures AtMost(a, b) ==> a.bytes <= b.bytes
  {
  }

  lemma GoalCost(source: nat, target: nat, limit: nat, e: map<CopyState, Entry<CopyState>>)
    requires Linked(CopyGraph(source, target, limit), e) && Goal(source, target) in e
    ensures e[Goal(source, target)].cost.bytes < limit
  {
    hide CopyAct, AllowedSteps;
    assert LinkedAt(CopyGraph(source, target, limit), e, Goal(source, target));
  }

  lemma InitialCost(source: nat, target: nat, limit: nat, e: map<CopyState, Entry<CopyState>>)
    requires Linked(CopyGraph(source, target, limit), e)
    ensures Initial(source, target) in e && e[Initial(source, target)].cost == ZERO
  {
  }

  /** planCopyAssignment: refused arguments aside, a plan is returned exactly when some solution beats the limit. */
  method PlanCopyAssignment(source: nat, target: nat, strictByteLimit: nat) returns (plan: Option<Plan>)
    ensures plan.Some? <==>
            && source != target && source <= MAX_COPY_DEPTH && target <= MAX_COPY_DEPTH
            && !NoCopyBelow(source, target, strictByteLimit)
    ensures plan.Some? ==> IsPlan(plan.value) && Solves(source, target, plan.value.steps)
    ensures plan.Some? ==> CheapestCopy(source, target, plan.value.steps)
    ensures plan.Some? ==> plan.value.serializedBytes < strictByteLimit
    ensures plan.Some? ==> ShallowSteps(source, target, plan.value.steps)
  {
    hide Solves;
    if source == target || source > MAX_COPY_DEPTH || target > MAX_COPY_DEPTH || strictByteLimit == 0 {
      return None;
    }
    var legacyCost := LegacyByteCost(source, target);
    var cached := SearchCopyAssignment(source, target, legacyCost + 1);
    PlainStepsSolve(source, target);
    PlainStepsCost(source, target);
    if cached.None? || cached.value.serializedBytes >= strictByteLimit {
      return None;
    }
    return cached;
  }

  /** Without a caller's limit there is always a plan, and it never costs more than the sequence it replaces. */
  lemma LegacyIsBeatenOrMet(source: nat, target: nat)
    requires source != target
    ensures !NoCopyBelow(source, target, LegacyByteCost(source, target) + 1)
  {
    hide Solves;
    PlainStepsSolve(source, target);
    PlainStepsCost(source, target);
  }

  /** The instructions of a copy plan overwrite one slot of any running stack and leave the rest and the altstack. */
  lemma CopyPlanOnVm(vm: Vm, source: nat, target: nat, steps: seq<Step>, c: Core, cond: seq<bool>)
    requires ReadsNumbers(vm) && false !in cond
    requires source <= MAX_COPY_DEPTH && target <= MAX_COPY_DEPTH && source < |c.main| && target < |c.main|
    requires Solves(source, target, steps) && ShallowSteps(source, target, steps)
    ensures ActsAs(vm, EncodedAll(steps), cond, c, Core(c.main[target := c.main[source]], c.alt))
  {
    hide ReadsNumbers, ActsAs, Act, Solves;
    SolutionIsExact(source, target, steps, c.main, c.alt);
    StepsOnVm(vm, steps, cond, Stacks(c.main, c.alt));
  }
}
