/** The loops of the common-tail optimizer: the result object is filled in place, and ends up holding what the
    specification functions say. */
module IfTailPass {
  import opened Wrappers
  import opened CondMachine
  import opened IfTree
  import opened IfTailOptimizer
  import IfTailPlan

  class RewriteResult {
    var instructions: seq<string>
    var oldToNew: seq<Option<nat>>
    var newToOld: seq<seq<Origin>>
    var changed: bool
    var mergedIfCount: nat
    var skippedUnsafeTailCount: nat

    constructor (oldCount: nat)
      ensures instructions == [] && newToOld == [] && oldToNew == Unassigned(oldCount)
      ensures !changed && mergedIfCount == 0 && skippedUnsafeTailCount == 0
    {
      instructions, newToOld := [], [];
      oldToNew := Unassigned(oldCount);
      changed, mergedIfCount, skippedUnsafeTailCount := false, 0, 0;
    }

    method OptimizeSequence(input: seq<Node>) returns (output: seq<Node>)
      modifies this`changed, this`mergedIfCount, this`skippedUnsafeTailCount
      ensures output == OptimizeSeq(input)
      ensures mergedIfCount == old(mergedIfCount) + MergedIfs(input)
      ensures skippedUnsafeTailCount == old(skippedUnsafeTailCount) + SkippedTails(input)
      ensures changed == (old(changed) || MergedIfs(input) > 0)
      decreases input, 1
    {
      hide OptimizeSeq, OptimizeNode, MergedIfs, MergedIfsNode, SkippedTails, SkippedTailsNode;
      output := [];
      var i := 0;
      assert input[0..] == input && output + OptimizeSeq(input) == OptimizeSeq(input);
      while i < |input|
        invariant i <= |input|
        invariant output + OptimizeSeq(input[i..]) == OptimizeSeq(input)
        invariant mergedIfCount + MergedIfs(input[i..]) == old(mergedIfCount) + MergedIfs(input)
        invariant skippedUnsafeTailCount + SkippedTails(input[i..]) ==
                  old(skippedUnsafeTailCount) + SkippedTails(input)
        invariant changed == (old(changed) || mergedIfCount > old(mergedIfCount))
        invariant mergedIfCount >= old(mergedIfCount)
      {
        FirstOfRest(input, i);
        var nodes := OptimizeOne(input[i]);
        assert output + (nodes + OptimizeSeq(input[i + 1..])) == (output + nodes) + OptimizeSeq(input[i + 1..]);
        output := output + nodes;
        i := i + 1;
      }
      assert input[i..] == [] && output + [] == output;
      NoneLeft();
    }

    method OptimizeOne(node: Node) returns (output: seq<Node>)
      modifies this`changed, this`mergedIfCount, this`skippedUnsafeTailCount
      ensures output == OptimizeNode(node)
      ensures mergedIfCount == old(mergedIfCount) + MergedIfsNode(node)
      ensures skippedUnsafeTailCount == old(skippedUnsafeTailCount) + SkippedTailsNode(node)
      ensures changed == (old(changed) || MergedIfsNode(node) > 0)
      decreases node, 0
    {
      hide EquivNode, SafeSeq, CommonCount, MergeSeq;
      if node.AtomNode? {
        return [node];
      }
      var thenBody := OptimizeSequence(node.thenBody);
      var elseBody := OptimizeSequence(node.elseBody);
      hide OptimizeSeq, MergedIfs, SkippedTails, Hoist, SkipsTail, HoistCount;
      output := HoistOne(node.opener, thenBody, node.elseMarker, elseBody, node.endMarker);
    }

    /** The hoist at one region whose branches are already optimized. */
    method HoistOne(opener: Atom, thenBody: seq<Node>, elseMarker: Option<Atom>, elseBody: seq<Node>, endMarker: Atom)
        returns (output: seq<Node>)
      modifies this`changed, this`mergedIfCount, this`skippedUnsafeTailCount
      ensures output == Hoist(opener, thenBody, elseMarker, elseBody, endMarker)
      ensures mergedIfCount == old(mergedIfCount) + if HoistCount(thenBody, elseMarker, elseBody) > 0 then 1 else 0
      ensures skippedUnsafeTailCount ==
              old(skippedUnsafeTailCount) + if SkipsTail(thenBody, elseMarker, elseBody) then 1 else 0
      ensures changed == (old(changed) || HoistCount(thenBody, elseMarker, elseBody) > 0)
    {
      hide EquivNode, EquivSeq, SafeSeq, CommonCount, MergeSeq, Hoist;
      var commonCount := 0;
      if elseMarker.Some? {
        if !(SafeSeq(thenBody) && SafeSeq(elseBody)) {
          if thenBody != [] && elseBody != [] && EquivNode(thenBody[|thenBody| - 1], elseBody[|elseBody| - 1]) {
            skippedUnsafeTailCount := skippedUnsafeTailCount + 1;
          }
        } else {
          commonCount := CountCommonTail(thenBody, elseBody);
        }
      }
      assert commonCount == HoistCount(thenBody, elseMarker, elseBody);
      HoistIs(opener, thenBody, elseMarker, elseBody, endMarker);
      if commonCount != 0 {
        var thenStart, elseStart := |thenBody| - commonCount, |elseBody| - commonCount;
        var commonTail := CombineTails(thenBody[thenStart..], elseBody[elseStart..]);
        changed := true;
        mergedIfCount := mergedIfCount + 1;
        output := [IfRegion(opener, thenBody[..thenStart], elseMarker, elseBody[..elseStart], endMarker)] + commonTail;
      } else {
        NoTail(opener, thenBody, elseMarker, elseBody, endMarker);
        output := [IfRegion(opener, thenBody, elseMarker, elseBody, endMarker)];
      }
    }

    method FlattenInto(sequence: seq<Node>)
      modifies this`instructions, this`oldToNew, this`newToOld
      ensures instructions == old(instructions) + Text(sequence)
      ensures newToOld == old(newToOld) + OriginLists(FlattenSeq(sequence))
      ensures oldToNew == AssignAll(old(oldToNew), FlattenSeq(sequence), |old(instructions)|)
      decreases sequence, 1
    {
      hide FlattenSeq, FlattenNode, Encodings, OriginLists, AssignAll;
      var i := 0;
      ghost var done: seq<Atom> := [];
      NothingFlattened(oldToNew, |instructions|);
      assert sequence[0..] == sequence && done + FlattenSeq(sequence) == FlattenSeq(sequence);
      while i < |sequence|
        invariant i <= |sequence| && done + FlattenSeq(sequence[i..]) == FlattenSeq(sequence)
        invariant instructions == old(instructions) + Encodings(done)
        invariant newToOld == old(newToOld) + OriginLists(done)
        invariant oldToNew == AssignAll(old(oldToNew), done, |old(instructions)|)
      {
        FlattenFirst(sequence, i);
        FlattenOne(sequence[i]);
        ghost var more := FlattenNode(sequence[i]);
        AppendAtoms(old(oldToNew), done, more, |old(instructions)|);
        assert done + (more + FlattenSeq(sequence[i + 1..])) == (done + more) + FlattenSeq(sequence[i + 1..]);
        done := done + more;
        i := i + 1;
      }
      assert sequence[i..] == [] && done + [] == done;
      NothingFlattened(oldToNew, |instructions|);
    }

    method FlattenOne(node: Node)
      modifies this`instructions, this`oldToNew, this`newToOld
      ensures instructions == old(instructions) + Encodings(FlattenNode(node))
      ensures newToOld == old(newToOld) + OriginLists(FlattenNode(node))
      ensures oldToNew == AssignAll(old(oldToNew), FlattenNode(node), |old(instructions)|)
      decreases node, 0
    {
      hide Encodings, OriginLists, AssignAll, FlattenSeq;
      ghost var m, base := oldToNew, |instructions|;
      if node.AtomNode? {
        FlattenAtom(node.atom);
        return;
      }
      FlattenAtom(node.opener);
      FlattenInto(node.thenBody);
      ghost var done := [node.opener] + FlattenSeq(node.thenBody);
      AppendAtoms(m, [node.opener], FlattenSeq(node.thenBody), base);
      if node.elseMarker.Some? {
        FlattenAtom(node.elseMarker.value);
        AppendAtoms(m, done, [node.elseMarker.value], base);
        done := done + [node.elseMarker.value];
        FlattenInto(node.elseBody);
        AppendAtoms(m, done, FlattenSeq(node.elseBody), base);
        done := done + FlattenSeq(node.elseBody);
      }
      FlattenAtom(node.endMarker);
      AppendAtoms(m, done, [node.endMarker], base);
    }

    method FlattenAtom(atom: Atom)
      modifies this`instructions, this`oldToNew, this`newToOld
      ensures instructions == old(instructions) + Encodings([atom])
      ensures newToOld == old(newToOld) + OriginLists([atom])
      ensures oldToNew == AssignAll(old(oldToNew), [atom], |old(instructions)|)
    {
      var newPC := |instructions|;
      instructions := instructions + [atom.encoding];
      newToOld := newToOld + [atom.origins];
      var i := 0;
      assert atom.origins[0..] == atom.origins;
      while i < |atom.origins|
        invariant i <= |atom.origins|
        invariant AssignOrigins(oldToNew, atom.origins[i..], newPC) == AssignOrigins(old(oldToNew), atom.origins, newPC)
        modifies this`oldToNew
      {
        assert atom.origins[i..][1..] == atom.origins[i + 1..];
        if atom.origins[i].oldPC < |oldToNew| {
          oldToNew := oldToNew[atom.origins[i].oldPC := Some(newPC)];
        }
        i := i + 1;
      }
      assert atom.origins[i..] == [];
      assert [atom][1..] == [];
    }

    /** normalizeBranchPaths on this result's plan; false leaves the plan to be thrown away. */
    method NormalizeBranchPaths(source: seq<string>) returns (ok: bool)
      modifies this`newToOld
      ensures ok == NormalizePaths(Plan(oldToNew, old(newToOld)), source, instructions).Some?
      ensures ok ==> newToOld == NormalizePaths(Plan(oldToNew, old(newToOld)), source, instructions).value.newToOld
    {
      hide NormalizeList;
      var before := newToOld;
      var lists: seq<seq<Origin>> := [];
      var pc := 0;
      assert before[0..] == before;
      NoneBefore(NormalizeLists(before, oldToNew, source, instructions));
      while pc < |before|
        invariant pc <= |before| && newToOld == before
        invariant NormalizeLists(before, oldToNew, source, instructions) ==
                  Before(lists, NormalizeLists(before[pc..], oldToNew, source, instructions))
      {
        assert before[pc..][0] == before[pc] && before[pc..][1..] == before[pc + 1..];
        var origins := NormalizeOrigins(before[pc], source);
        if origins.None? {
          return false;
        }
        OneBefore(lists, SortOrigins(origins.value),
                  NormalizeLists(before[pc + 1..], oldToNew, source, instructions));
        lists := lists + [SortOrigins(origins.value)];
        pc := pc + 1;
      }
      assert before[pc..] == [] && lists + [] == lists;
      newToOld := lists;
      return true;
    }

    method NormalizeOrigins(origins: seq<Origin>, source: seq<string>) returns (r: Option<seq<Origin>>)
      ensures r == NormalizeList(origins, oldToNew, source, instructions)
    {
      hide MapPath, DistinctRegions;
      var done: seq<Origin> := [];
      var i := 0;
      assert origins[0..] == origins;
      NoneBefore(NormalizeList(origins, oldToNew, source, instructions));
      while i < |origins|
        invariant i <= |origins|
        invariant NormalizeList(origins, oldToNew, source, instructions) ==
                  Before(done, NormalizeList(origins[i..], oldToNew, source, instructions))
      {
        assert origins[i..][0] == origins[i] && origins[i..][1..] == origins[i + 1..];
        var path := NormalizePath(origins[i].path, source);
        if path.None? {
          return None;
        }
        var distinct := HasDistinctRegions(path.value);
        if !distinct {
          return None;
        }
        OneBefore(done, Origin(origins[i].oldPC, path.value),
                  NormalizeList(origins[i + 1..], oldToNew, source, instructions));
        done := done + [Origin(origins[i].oldPC, path.value)];
        i := i + 1;
      }
      assert origins[i..] == [] && done + [] == done;
      return Some(done);
    }

    method NormalizePath(path: seq<BranchPredicate>, source: seq<string>) returns (r: Option<seq<BranchPredicate>>)
      ensures r == MapPath(path, oldToNew, source, instructions)
    {
      hide ControlToken;
      var done: seq<BranchPredicate> := [];
      var i := 0;
      assert path[0..] == path;
      NoneBefore(MapPath(path, oldToNew, source, instructions));
      while i < |path|
        invariant i <= |path|
        invariant MapPath(path, oldToNew, source, instructions) ==
                  Before(done, MapPath(path[i..], oldToNew, source, instructions))
      {
        assert path[i..][0] == path[i] && path[i..][1..] == path[i + 1..];
        var ifPC := path[i].ifPC;
        if ifPC >= |source| || ifPC >= |oldToNew| {
          return None;
        }
        var oldToken := ControlToken(source[ifPC]);
        if oldToken != IfToken && oldToken != NotIfToken {
          return None;
        }
        var mapped := oldToNew[ifPC];
        if mapped.None? || mapped.value >= |instructions| {
          return None;
        }
        if ControlToken(instructions[mapped.value]) != oldToken {
          return None;
        }
        OneBefore(done, BranchPredicate(mapped.value, path[i].arm),
                  MapPath(path[i + 1..], oldToNew, source, instructions));
        done := done + [BranchPredicate(mapped.value, path[i].arm)];
        i := i + 1;
      }
      assert path[i..] == [] && done + [] == done;
      return Some(done);
    }
  }

  lemma FirstOfRest(ns: seq<Node>, i: nat)
    requires i < |ns|
    ensures OptimizeSeq(ns[i..]) == OptimizeNode(ns[i]) + OptimizeSeq(ns[i + 1..])
    ensures MergedIfs(ns[i..]) == MergedIfsNode(ns[i]) + MergedIfs(ns[i + 1..])
    ensures SkippedTails(ns[i..]) == SkippedTailsNode(ns[i]) + SkippedTails(ns[i + 1..])
  {
    hide OptimizeNode, MergedIfsNode, SkippedTailsNode;
    assert ns[i..][0] == ns[i] && ns[i..][1..] == ns[i + 1..];
  }

  lemma NoneLeft()
    ensures OptimizeSeq([]) == [] && MergedIfs([]) == 0 && SkippedTails([]) == 0
  {
  }

  lemma FlattenFirst(ns: seq<Node>, i: nat)
    requires i < |ns|
    ensures FlattenSeq(ns[i..]) == FlattenNode(ns[i]) + FlattenSeq(ns[i + 1..])
  {
    hide FlattenNode;
    assert ns[i..][0] == ns[i] && ns[i..][1..] == ns[i + 1..];
  }

  lemma NothingFlattened(m: seq<Option<nat>>, newPC: nat)
    ensures FlattenSeq([]) == [] && Encodings([]) == [] && OriginLists([]) == [] && AssignAll(m, [], newPC) == m
  {
  }

  lemma HoistIs(o: Atom, t: seq<Node>, k: Option<Atom>, e: seq<Node>, x: Atom)
    ensures var c := HoistCount(t, k, e);
            && EquivSeq(t[|t| - c..], e[|e| - c..])
            && Hoist(o, t, k, e, x) ==
               [IfRegion(o, t[..|t| - c], k, e[..|e| - c], x)] + MergeSeq(t[|t| - c..], e[|e| - c..])
  {
    hide HoistCount, EquivSeq, MergeSeq;
    HoistTail(t, k, e);
  }

  lemma NoTail(o: Atom, t: seq<Node>, k: Option<Atom>, e: seq<Node>, x: Atom)
    requires HoistCount(t, k, e) == 0
    ensures Hoist(o, t, k, e, x) == [IfRegion(o, t, k, e, x)] + []
  {
    hide HoistCount;
    HoistTail(t, k, e);
    assert t[..|t|] == t && e[..|e|] == e;
    assert t[|t|..] == [] && e[|e|..] == [];
    assert MergeSeq([], []) == [];
  }

  method CountCommonTail(t: seq<Node>, e: seq<Node>) returns (commonCount: nat)
    ensures commonCount == CommonCount(t, e)
  {
    hide EquivNode;
    commonCount := 0;
    assert t[..|t|] == t && e[..|e|] == e;
    while commonCount < |t| && commonCount < |e|
      invariant commonCount <= |t| && commonCount <= |e|
      invariant CommonCount(t, e) == commonCount + CommonCount(t[..|t| - commonCount], e[..|e| - commonCount])
    {
      var t', e' := t[..|t| - commonCount], e[..|e| - commonCount];
      assert t'[|t'| - 1] == t[|t| - 1 - commonCount] && e'[|e'| - 1] == e[|e| - 1 - commonCount];
      if !EquivNode(t[|t| - 1 - commonCount], e[|e| - 1 - commonCount]) {
        break;
      }
      assert t'[..|t'| - 1] == t[..|t| - commonCount - 1] && e'[..|e'| - 1] == e[..|e| - commonCount - 1];
      commonCount := commonCount + 1;
    }
  }

  method CombineTails(kept: seq<Node>, duplicate: seq<Node>) returns (commonTail: seq<Node>)
    requires EquivSeq(kept, duplicate)
    ensures commonTail == MergeSeq(kept, duplicate)
  {
    hide EquivNode, MergeNode;
    commonTail := [];
    var offset := 0;
    assert kept[0..] == kept && duplicate[0..] == duplicate;
    assert commonTail + MergeSeq(kept, duplicate) == MergeSeq(kept, duplicate);
    while offset < |kept|
      invariant offset <= |kept| && EquivSeq(kept[offset..], duplicate[offset..])
      invariant commonTail + MergeSeq(kept[offset..], duplicate[offset..]) == MergeSeq(kept, duplicate)
    {
      assert kept[offset..][1..] == kept[offset + 1..] && duplicate[offset..][1..] == duplicate[offset + 1..];
      var combined := MergeNode(kept[offset], duplicate[offset]);
      assert commonTail + ([combined] + MergeSeq(kept[offset + 1..], duplicate[offset + 1..])) ==
             (commonTail + [combined]) + MergeSeq(kept[offset + 1..], duplicate[offset + 1..]);
      commonTail := commonTail + [combined];
      offset := offset + 1;
    }
    assert kept[offset..] == [] && duplicate[offset..] == [];
    assert commonTail + [] == commonTail;
  }

  lemma {:induction false} AssignConcat(m: seq<Option<nat>>, a: seq<Atom>, b: seq<Atom>, base: nat)
    ensures AssignAll(m, a + b, base) == AssignAll(AssignAll(m, a, base), b, base + |a|)
    decreases a
  {
    if a == [] {
      assert a + b == b;
    } else {
      assert (a + b)[1..] == a[1..] + b;
      AssignConcat(AssignOrigins(m, a[0].origins, base), a[1..], b, base + 1);
    }
  }

  lemma AppendAtoms(m: seq<Option<nat>>, a: seq<Atom>, b: seq<Atom>, base: nat)
    ensures AssignAll(m, a + b, base) == AssignAll(AssignAll(m, a, base), b, base + |Encodings(a)|)
    ensures Encodings(a + b) == Encodings(a) + Encodings(b)
    ensures OriginLists(a + b) == OriginLists(a) + OriginLists(b)
  {
    AssignConcat(m, a, b, base);
  }

  function Before<T>(done: seq<T>, rest: Option<seq<T>>): Option<seq<T>> {
    match rest case None => None case Some(r) => Some(done + r)
  }

  lemma NoneBefore<T>(rest: Option<seq<T>>)
    ensures Before([], rest) == rest
  {
    if rest.Some? {
      assert [] + rest.value == rest.value;
    }
  }

  lemma OneBefore<T>(done: seq<T>, x: T, rest: Option<seq<T>>)
    ensures Before(done, Before([x], rest)) == Before(done + [x], rest)
  {
    if rest.Some? {
      assert done + ([x] + rest.value) == done + [x] + rest.value;
    }
  }

  method HasDistinctRegions(path: seq<BranchPredicate>) returns (distinct: bool)
    ensures distinct == DistinctRegions(path)
  {
    var regions: set<nat> := {};
    for i := 0 to |path|
      invariant forall k :: 0 <= k < i ==> path[k].ifPC in regions
      invariant forall r :: r in regions ==> exists k :: 0 <= k < i && path[k].ifPC == r
      invariant DistinctRegions(path[..i])
    {
      if path[i].ifPC in regions {
        var k :| 0 <= k < i && path[k].ifPC == path[i].ifPC;
        return false;
      }
      regions := regions + {path[i].ifPC};
      assert forall k :: 0 <= k < i ==> path[..i + 1][k] == path[..i][k];
    }
    assert path[..|path|] == path;
    return true;
  }

  // ----- validation -----

  lemma {:induction false} CountListsSnoc(lists: seq<seq<Origin>>, last: seq<Origin>, pc: nat)
    ensures CountInLists(lists + [last], pc) == CountInLists(lists, pc) + CountIn(last, pc)
  {
    if lists == [] {
      assert [last][1..] == [] && [] + [last] == [last];
    } else {
      assert (lists + [last])[1..] == lists[1..] + [last];
      CountListsSnoc(lists[1..], last, pc);
    }
  }

  lemma CountSnoc(os: seq<Origin>, o: Origin, pc: nat)
    ensures CountIn(os + [o], pc) == CountIn(os, pc) + if o.oldPC == pc then 1 else 0
  {
    IfTailPlan.CountConcat(os, [o], pc);
    assert [o][1..] == [];
  }

  method CheckOrigin(o: Origin, newPC: nat, plan: Plan, source: seq<string>, target: seq<string>) returns (ok: bool)
    requires |plan.oldToNew| == |source|
    ensures ok == ValidOrigin(o, newPC, plan, source, target)
  {
    hide ControlToken;
    if o.oldPC >= |source| || plan.oldToNew[o.oldPC] != Some(newPC) {
      return false;
    }
    for i := 0 to |o.path|
      invariant forall k :: 0 <= k < i ==>
                  o.path[k].ifPC < |target| && o.path[k].ifPC < newPC && OpensRegion(target[o.path[k].ifPC])
    {
      var ifPC := o.path[i].ifPC;
      if ifPC >= |target| || ifPC >= newPC {
        return false;
      }
      var token := ControlToken(target[ifPC]);
      if token != IfToken && token != NotIfToken {
        return false;
      }
    }
    ok := HasDistinctRegions(o.path);
  }

  method CheckOrigins(newPC: nat, plan: Plan, source: seq<string>, target: seq<string>, counts: array<nat>)
      returns (ok: bool)
    requires |plan.oldToNew| == |source| == counts.Length && newPC < |plan.newToOld|
    modifies counts
    ensures ok == (plan.newToOld[newPC] != [] &&
                   forall i :: 0 <= i < |plan.newToOld[newPC]| ==>
                     ValidOrigin(plan.newToOld[newPC][i], newPC, plan, source, target))
    ensures ok ==> forall pc :: 0 <= pc < counts.Length ==>
                     counts[pc] == old(counts[pc]) + CountIn(plan.newToOld[newPC], pc)
  {
    hide ValidOrigin;
    var origins := plan.newToOld[newPC];
    if origins == [] {
      return false;
    }
    for i := 0 to |origins|
      invariant forall k :: 0 <= k < i ==> ValidOrigin(origins[k], newPC, plan, source, target)
      invariant forall pc :: 0 <= pc < counts.Length ==> counts[pc] == old(counts[pc]) + CountIn(origins[..i], pc)
    {
      var valid := CheckOrigin(origins[i], newPC, plan, source, target);
      if !valid {
        return false;
      }
      InRange(origins[i], newPC, plan, source, target);
      forall pc | 0 <= pc < counts.Length
        ensures CountIn(origins[..i + 1], pc) == CountIn(origins[..i], pc) + if origins[i].oldPC == pc then 1 else 0
      {
        assert origins[..i + 1] == origins[..i] + [origins[i]];
        CountSnoc(origins[..i], origins[i], pc);
      }
      counts[origins[i].oldPC] := counts[origins[i].oldPC] + 1;
    }
    assert origins[..|origins|] == origins;
    return true;
  }

  lemma InRange(o: Origin, newPC: nat, plan: Plan, source: seq<string>, target: seq<string>)
    requires |plan.oldToNew| == |source| && ValidOrigin(o, newPC, plan, source, target)
    ensures o.oldPC < |source|
  {
  }

  /** validateInstructionRewritePlan. */
  method Validate(plan: Plan, source: seq<string>, target: seq<string>) returns (ok: bool)
    ensures ok == ValidPlan(plan, source, target)
  {
    hide ValidOrigin;
    if |plan.oldToNew| != |source| || |plan.newToOld| != |target| {
      return false;
    }
    var counts := new nat[|source|](_ => 0);
    for newPC := 0 to |plan.newToOld|
      invariant forall j :: 0 <= j < newPC ==>
                  && plan.newToOld[j] != []
                  && forall i :: 0 <= i < |plan.newToOld[j]| ==>
                        ValidOrigin(plan.newToOld[j][i], j, plan, source, target)
      invariant forall pc :: 0 <= pc < counts.Length ==> counts[pc] == CountInLists(plan.newToOld[..newPC], pc)
    {
      var valid := CheckOrigins(newPC, plan, source, target, counts);
      if !valid {
        return false;
      }
      forall pc | 0 <= pc < counts.Length
        ensures CountInLists(plan.newToOld[..newPC + 1], pc) ==
                CountInLists(plan.newToOld[..newPC], pc) + CountIn(plan.newToOld[newPC], pc)
      {
        assert plan.newToOld[..newPC + 1] == plan.newToOld[..newPC] + [plan.newToOld[newPC]];
        CountListsSnoc(plan.newToOld[..newPC], plan.newToOld[newPC], pc);
      }
    }
    assert plan.newToOld[..|plan.newToOld|] == plan.newToOld;
    for pc := 0 to |source|
      invariant forall q :: 0 <= q < pc ==>
                  var count := CountInLists(plan.newToOld, q);
                  if count == 0 then plan.oldToNew[q].None?
                  else count == 1 && plan.oldToNew[q].Some? && plan.oldToNew[q].value < |target|
    {
      if counts[pc] == 0 {
        if plan.oldToNew[pc].Some? {
          return false;
        }
      } else if counts[pc] != 1 || plan.oldToNew[pc].None? || plan.oldToNew[pc].value >= |target| {
        return false;
      }
    }
    return true;
  }

  /** StructuredIfTailOptimizer::optimize. */
  method RunOptimizer(p: seq<string>, labels: set<string>) returns (r: Rewrite)
    ensures r == Optimize(p, labels)
    ensures r.rewritePlanValid
  {
    hide ControlToken, IsSafeEncoding, ValidPlan, NormalizePaths, AssignAll;
    IfTailPlan.RewritePlanIsAlwaysValid(p, labels);
    var parser := new Parser(p, labels);
    var parsed := parser.ParseAll();
    if parsed.None? {
      return Unchanged(p, false, true);
    }
    var result := new RewriteResult(|p|);
    var optimized := result.OptimizeSequence(parsed.value);
    result.FlattenInto(optimized);
    assert result.instructions == Text(optimized);
    assert result.newToOld == OriginLists(FlattenSeq(optimized));
    assert Plan(result.oldToNew, result.newToOld) == FlatPlan(optimized, |p|);
    var normalized := result.NormalizeBranchPaths(p);
    if !normalized {
      return Unchanged(p, true, false);
    }
    var plan := Plan(result.oldToNew, result.newToOld);
    ghost var expected := NormalizePaths(FlatPlan(optimized, |p|), p, Text(optimized));
    SamePlan(FlatPlan(optimized, |p|), p, Text(optimized), plan);
    var valid := Validate(plan, p, result.instructions);
    if !valid {
      return Unchanged(p, true, false);
    }
    return Rewrite(result.instructions, plan, true, true, result.changed, result.mergedIfCount,
                   result.skippedUnsafeTailCount);
  }

  lemma SamePlan(before: Plan, source: seq<string>, target: seq<string>, after: Plan)
    requires NormalizePaths(before, source, target).Some?
    requires after.oldToNew == before.oldToNew
    requires after.newToOld == NormalizePaths(before, source, target).value.newToOld
    ensures NormalizePaths(before, source, target) == Some(after)
  {
    hide NormalizeLists;
  }
}
