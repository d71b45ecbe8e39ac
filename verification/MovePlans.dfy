/** Move plans in use: between two windows of slot ids, and as instructions on a running script. */
module MovePlans {
  import opened Wrappers
  import opened ScriptVm
  import opened Permutations
  import opened StackSteps
  import opened StackOnVm
  import opened CheapestSearch
  import opened MoveTable

  /** Whether moves apply depends only on how many slots there are. */
  lemma {:induction false} MovesNeedOnlyRoom(s: seq<nat>, t: seq<nat>, steps: seq<Step>)
    requires |s| == |t| && AllMoves(steps) && ActAll(Stacks(s, []), steps).Some?
    ensures exists r: seq<nat> :: Turns(t, steps, r)
    decreases |steps|
  {
    hide Shuffle;
    if steps == [] {
      assert Turns(t, [], t);
    } else {
      RoomIsEnough(s, t, steps[0]);
      MovesNeedOnlyRoom(Shuffle(s, steps[0]).value, Shuffle(t, steps[0]).value, steps[1..]);
      var r :| Turns(Shuffle(t, steps[0]).value, steps[1..], r);
      TurnsStep(t, steps, r);
    }
  }

  lemma RoomIsEnough(s: seq<nat>, t: seq<nat>, step: Step)
    requires |s| == |t|
    ensures Shuffle(s, step).Some? <==> Shuffle(t, step).Some?
  {
  }

  /** On distinct ids, moving the ids is moving their positions. */
  lemma IdsFollowPositions(ids: seq<nat>, p: seq<nat>, steps: seq<Step>)
    requires Distinct(ids) && |p| == |ids| && Names(p, ids)
    ensures Turns(Identity(|ids|), steps, p) <==> Turns(ids, steps, Select(ids, p))
  {
    hide Act;
    var n := |ids|;
    assert Select(ids, Identity(n)) + [] == ids;
    assert Stacks(ids, []) == Stacks(Select(ids, Identity(n)) + [], Select(ids, []) + []);
    if Turns(Identity(n), steps, p) {
      ActAllSelect(ids, Stacks(Identity(n), []), Stacks([], []), steps);
      assert Select(ids, p) + [] == Select(ids, p);
    }
    if Turns(ids, steps, Select(ids, p)) {
      MovesNeedOnlyRoom(ids, Identity(n), steps);
      var q :| Turns(Identity(n), steps, q);
      ActAllSelect(ids, Stacks(Identity(n), []), Stacks([], []), steps);
      assert Select(ids, q) + [] == Select(ids, q);
      assert ActAll(Stacks(ids, []), steps) == Some(Stacks(Select(ids, q) + [], Select(ids, []) + []));
      assert Select(ids, q) == Select(ids, p);
      forall i | 0 <= i < n ensures q[i] == p[i] {
        assert Select(ids, q)[i] == ids[q[i]] && Select(ids, p)[i] == ids[p[i]];
      }
      assert q == p;
    }
  }

  predicate SameIds(a: seq<nat>, b: seq<nat>) {
    Distinct(a) && Distinct(b) && |a| == |b| && forall i :: 0 <= i < |b| ==> b[i] in a
  }

  /** planMoveOnly between two windows of stable slot ids. */
  method PlanBetween(current: seq<nat>, target: seq<nat>) returns (plan: Option<Plan>)
    ensures plan.Some? <==> |current| <= MAX_MOVE_WINDOW && SameIds(current, target)
    ensures plan.Some? ==> IsPlan(plan.value) && Turns(current, plan.value.steps, target)
    ensures plan.Some? ==> Cheapest(current, target, plan.value.steps)
  {
    hide Turns, Cheapest;
    if |current| != |target| || |current| > MAX_MOVE_WINDOW {
      return None;
    }
    var positions: map<nat, nat> := map[];
    for i := 0 to |current|
      invariant Distinct(current[..i])
      invariant forall x :: x in positions ==> positions[x] < i && current[positions[x]] == x
      invariant forall j :: 0 <= j < i ==> current[j] in positions
    {
      if current[i] in positions {
        assert current[positions[current[i]]] == current[i];
        return None;
      }
      positions := positions[current[i] := i];
      assert current[..i + 1] == current[..i] + [current[i]];
    }
    assert current[..|current|] == current;
    var p: seq<nat> := [];
    var seen: set<nat> := {};
    for i := 0 to |target|
      invariant |p| == i && Names(p, current)
      invariant forall j :: 0 <= j < i ==> current[p[j]] == target[j]
      invariant Distinct(target[..i])
      invariant forall x :: x in seen <==> x in target[..i]
    {
      if target[i] !in positions || target[i] in seen {
        if target[i] in seen {
          var j :| 0 <= j < i && target[j] == target[i];
        }
        return None;
      }
      seen := seen + {target[i]};
      p := p + [positions[target[i]]];
      assert target[..i + 1] == target[..i] + [target[i]];
    }
    assert target[..|target|] == target && Select(current, p) == target;
    assert IsPermutation(p);
    plan := PlanMoveOnly(p);
    IdsFollowPositions(current, p, plan.value.steps);
    CheapestFollows(current, p, plan.value.steps);
  }

  lemma CheapestFollows(ids: seq<nat>, p: seq<nat>, steps: seq<Step>)
    requires Distinct(ids) && |p| == |ids| && Names(p, ids) && Cheapest(Identity(|ids|), p, steps)
    ensures Cheapest(ids, Select(ids, p), steps)
  {
    forall other: seq<Step> | Turns(ids, other, Select(ids, p)) ensures AtMost(CostOf(steps), CostOf(other)) {
      IdsFollowPositions(ids, p, other);
    }
  }

  /** The instructions of a move plan rearrange any items and leave everything below the window, and the altstack,
      as they were. */
  lemma MovePlanOnVm(vm: Vm, target: seq<nat>, steps: seq<Step>, items: seq<Item>, below: seq<Item>, alt: seq<Item>,
                     cond: seq<bool>)
    requires ReadsNumbers(vm) && false !in cond
    requires IsPermutation(target) && |target| == |items| <= MAX_MOVE_WINDOW
    requires Turns(Identity(|target|), steps, target) && AllListed(|target|, steps)
    ensures Names(target, items)
    ensures ActsAs(vm, EncodedAll(steps), cond, Core(items + below, alt), Core(Select(items, target) + below, alt))
  {
    hide ReadsNumbers, ActsAs, Act;
    var n := |target|;
    assert Select(items, Identity(n)) == items;
    assert Select(items, []) + alt == alt;
    ActAllSelect(items, Stacks(Identity(n), []), Stacks(below, alt), steps);
    forall i | 0 <= i < |steps| ensures |NumberBytes(steps[i].depth)| <= 4 {
      assert IsListed(n, steps[i]);
    }
    StepsOnVm(vm, steps, cond, Stacks(items + below, alt));
  }
}
