/** The typed artifact follows every peephole round and every hoist: no rewrite is refused, and the artifact that comes
    out mirrors the new text and shows the new end of optimizable code. */
module PeepholeProvenance {
  import opened Wrappers
  import opened Permutations
  import opened PeepholeRules
  import opened PeepholeRounds
  import opened PeepholeBoundary
  import opened IfTree
  import opened IfTailOptimizer
  import CondMachine
  import IfTailPlan
  import IfTailNormalForm
  import opened BytecodeIr
  import opened LegacyAdapter
  import opened ArtifactRewriter

  lemma RoundSources(v: seq<string>, end: nat, rules: Rules)
    requires end <= |v|
    ensures var out := RoundScan(v, end, rules).out;
            forall k :: 0 <= k < |out| ==> Reverse(PlacesOf(out, |v|), |out|)[k] == [out[k].oldPC]
  {
    hide PlacesOf, RoundScan;
    RemapIsMonotoneAndOnto(v, end, rules);
    var out := RoundScan(v, end, rules).out;
    forall k | 0 <= k < |out| ensures Reverse(PlacesOf(out, |v|), |out|)[k] == [out[k].oldPC] {
      OneSource(PlacesOf(out, |v|), k, out[k].oldPC);
    }
  }

  /** After any peephole round every output comes from exactly one input, no position is out of range, and an artifact
      with distinct identities and consistent placeholder sizes is rewritten without error. */
  lemma RoundIsRewritable(v: seq<string>, end: nat, rules: Rules, a: seq<Instruction>)
    requires end <= |v| == |a| && UniqueIds(a) && ConsistentSizes(a)
    ensures var out := RoundScan(v, end, rules).out;
            var oldToNew := PlacesOf(out, |v|);
            && (forall i :: 0 <= i < |v| && oldToNew[i].Some? ==> oldToNew[i].value < |out|)
            && (forall k :: 0 <= k < |out| ==> out[k].oldPC < |v| && Reverse(oldToNew, |out|)[k] == [out[k].oldPC])
            && Acceptable(a, Reverse(oldToNew, |out|))
  {
    hide RoundScan, PlacesOf, UniqueIds, ConsistentSizes;
    var out := RoundScan(v, end, rules).out;
    var oldToNew := PlacesOf(out, |v|);
    RemapIsMonotoneAndOnto(v, end, rules);
    RoundSources(v, end, rules);
    var m := Reverse(oldToNew, |out|);
    forall p, q, x | 0 <= p < q < |m| && x in m[p] ensures x !in m[q] {
      assert oldToNew[out[p].oldPC] == Some(p) && oldToNew[out[q].oldPC] == Some(q);
    }
    NoneSynthetic(m);
  }

  // ----- hoisting -----

  function PcList(os: seq<Origin>): (r: seq<nat>)
    ensures |r| == |os|
  {
    seq(|os|, i requires 0 <= i < |os| => os[i].oldPC)
  }

  /** Sources of the hoisted prefix followed by the untouched rest, as handed to the artifact rewriter. */
  function ArtifactOrigins(lists: seq<seq<Origin>>, end: nat, size: nat): (r: seq<seq<nat>>)
    requires end <= size
    ensures |r| == |lists| + (size - end)
  {
    seq(|lists|, k requires 0 <= k < |lists| => PcList(lists[k])) +
    seq(size - end, k requires 0 <= k < size - end => [end + k])
  }

  lemma {:induction false} CountedOnce(os: seq<Origin>, i: nat)
    requires i < |os|
    ensures CountIn(os, os[i].oldPC) >= 1
  {
    if i > 0 {
      CountedOnce(os[1..], i - 1);
    }
  }

  lemma {:induction false} CountedTwice(os: seq<Origin>, i: nat, j: nat)
    requires i < j < |os| && os[i].oldPC == os[j].oldPC
    ensures CountIn(os, os[i].oldPC) >= 2
  {
    if i > 0 {
      CountedTwice(os[1..], i - 1, j - 1);
    } else {
      CountedOnce(os[1..], j - 1);
    }
  }

  lemma {:induction false} ListWithin(lists: seq<seq<Origin>>, k: nat, pc: nat)
    requires k < |lists|
    ensures CountIn(lists[k], pc) <= CountInLists(lists, pc)
  {
    if k > 0 {
      ListWithin(lists[1..], k - 1, pc);
    }
  }

  /** A valid plan lists each old position once, under the output it maps to. */
  lemma PlanLists(plan: IfTailOptimizer.Plan, source: seq<string>, target: seq<string>, k: nat)
    requires ValidPlan(plan, source, target) && k < |target|
    ensures Distinct(PcList(plan.newToOld[k])) && PcList(plan.newToOld[k]) != []
    ensures forall x :: x in PcList(plan.newToOld[k]) ==> x < |source| && plan.oldToNew[x] == Some(k)
  {
    hide CountInLists, CountIn;
    var os := plan.newToOld[k];
    forall i, j | 0 <= i < j < |os| ensures os[i].oldPC != os[j].oldPC {
      assert ValidOrigin(os[i], k, plan, source, target);
      ListWithin(plan.newToOld, k, os[i].oldPC);
      assert CountInLists(plan.newToOld, os[i].oldPC) <= 1;
      if os[i].oldPC == os[j].oldPC {
        CountedTwice(os, i, j);
        assert false;
      }
    }
    forall x | x in PcList(os) ensures x < |source| && plan.oldToNew[x] == Some(k) {
      var i :| 0 <= i < |os| && os[i].oldPC == x;
      assert ValidOrigin(os[i], k, plan, source, target);
    }
  }

  /** Passing the optimizer's own validation is enough for the artifact to follow a hoist. */
  lemma HoistIsRewritable(plan: IfTailOptimizer.Plan, source: seq<string>, target: seq<string>, a: seq<Instruction>)
    requires ValidPlan(plan, source, target) && |source| <= |a|
    requires UniqueIds(a) && ConsistentSizes(a)
    requires forall i :: 0 <= i < |source| ==> a[i].region == a[0].region
    ensures |plan.newToOld| == |target|
    ensures Acceptable(a, ArtifactOrigins(plan.newToOld, |source|, |a|))
  {
    hide UniqueIds, ConsistentSizes, Distinct;
    var m := ArtifactOrigins(plan.newToOld, |source|, |a|);
    forall k | 0 <= k < |m| ensures SourcesFit(a, m[k]) && m[k] != [] {
      if k < |target| {
        PlanLists(plan, source, target, k);
        assert forall i :: 0 <= i < |m[k]| ==> m[k][i] in m[k];
      } else {
        OneIsDistinct(|source| + (k - |target|));
      }
    }
    hide ValidPlan;
    forall p, q, x | 0 <= p < q < |m| && x in m[p] ensures x !in m[q] {
      if p < |target| {
        PlanLists(plan, source, target, p);
      }
      if q < |target| {
        PlanLists(plan, source, target, q);
      }
    }
    NoneSynthetic(m);
  }

  lemma OneIsDistinct(x: nat)
    ensures Distinct([x])
  {
  }

  /** So the hoist of any executable prefix is always followed by the artifact. */
  lemma OptimizerIsRewritable(p: seq<string>, labels: set<string>, a: seq<Instruction>)
    requires Parse(p, labels).Some? && |p| <= |a| && UniqueIds(a) && ConsistentSizes(a)
    requires forall i :: 0 <= i < |p| ==> a[i].region == a[0].region
    ensures var r := Optimize(p, labels);
            |r.plan.newToOld| == |r.instructions| && Acceptable(a, ArtifactOrigins(r.plan.newToOld, |p|, |a|))
  {
    hide UniqueIds, ConsistentSizes, ValidPlan, NormalizePaths, FlatPlan, CondMachine.ControlToken;
    IfTailPlan.RewritePlanIsAlwaysValid(p, labels);
    HoistIsRewritable(Optimize(p, labels).plan, p, Optimize(p, labels).instructions, a);
  }

  // ----- the artifact that comes out -----

  /** The artifact belongs to the text: same spelling, 64-bit identities, OP_RETURN typed where it is written. */
  predicate Mirrors(a: seq<Instruction>, v: seq<string>) {
    Export(a) == v && IdsFit(a) && ReturnsAreTyped(a)
  }

  /** What the rewriter asks of its input besides. */
  predicate Consistent(a: seq<Instruction>) {
    UniqueIds(a) && ConsistentSizes(a)
  }

  /** Provenance of code q written in place of the first end instructions, everything behind staying one to one. */
  predicate ReplacesPrefix(m: seq<seq<nat>>, end: nat, count: nat, size: nat) {
    && count <= end <= size && |m| == count + (size - end)
    && (forall k :: 0 <= k < count ==> m[k] != [] && forall x :: x in m[k] ==> x < end)
    && (forall k :: count <= k < |m| ==> m[k] == [end + (k - count)])
  }

  lemma RewriteMirrors(a: seq<Instruction>, w: seq<string>, m: seq<seq<nat>>, b: seq<Instruction>)
    requires Written(a, w, m, b) && ReturnsAreTyped(a) && |m| == |w| == |b|
    requires forall p :: 0 <= p < |m| ==> m[p] != []
    ensures Export(b) == w && ReturnsAreTyped(b)
  {
    hide Written, IsReturnText, IsReturn, Serialize;
    forall p | 0 <= p < |b|
      ensures Serialize(b[p]) == w[p]
      ensures b[p].region == Executable ==> (IsReturn(b[p]) <==> IsReturnText(w[p]))
    {
      OutputMirrors(a, w, m, b, p);
    }
  }

  lemma RewriteReplaces(a: seq<Instruction>, v: seq<string>, q: seq<string>, m: seq<seq<nat>>, b: seq<Instruction>)
    requires Mirrors(a, v) && ReplacesPrefix(m, TypedPrefixLength(a), |q|, |a|)
    requires Written(a, q + v[TypedPrefixLength(a)..], m, b)
    ensures Replaced(a, TypedPrefixLength(a), q, b)
  {
    hide Written, IdsFit, IsReturnText, Serialize, RunOf, ReturnEnd;
    var end := TypedPrefixLength(a);
    var w := q + v[end..];
    WrittenSize(a, w, m, b);
    RewriteMirrors(a, w, m, b);
    assert forall i :: 0 <= i < end ==> a[i].region == Executable;
    hide ExecutableFirst, TypedPrefixLength, ReturnsAreTyped;
    forall p | 0 <= p < |b| ensures forall x :: x in m[p] ==> x < |a| && b[p].region == a[x].region {
      OutputMirrors(a, w, m, b, p);
    }
    forall k | 0 <= k < |q| ensures b[k].region == Executable {
      assert m[k][0] in m[k];
    }
    forall j | end <= j < |a|
      ensures b[|q| + (j - end)].region == a[j].region && Serialize(b[|q| + (j - end)]) == Serialize(a[j])
    {
      assert m[|q| + (j - end)] == [j] && j in m[|q| + (j - end)];
      assert Export(b)[|q| + (j - end)] == w[|q| + (j - end)] == v[j] == Serialize(a[j]);
    }
    assert forall k :: 0 <= k < |q| ==> Export(b)[k] == q[k];
  }

  /** Whatever replaces optimizable code in this way, the rewritten artifact mirrors the new text, can be rewritten
      again, and marks the new code as what is optimizable. */
  lemma RewriteFollows(a: seq<Instruction>, v: seq<string>, q: seq<string>, m: seq<seq<nat>>, b: seq<Instruction>)
    requires Mirrors(a, v) && Continues(v[..TypedPrefixLength(a)], q)
    requires ReplacesPrefix(m, TypedPrefixLength(a), |q|, |a|)
    requires Written(a, q + v[TypedPrefixLength(a)..], m, b) && UniqueIds(b)
    ensures Mirrors(b, q + v[TypedPrefixLength(a)..]) && Consistent(b)
    ensures TypedPrefixLength(b) == |q|
  {
    hide Written, IdsFit, UniqueIds, ConsistentSizes, IsReturnText, Serialize, Continues, RunOf, ReturnEnd, Import;
    var end := TypedPrefixLength(a);
    var w := q + v[end..];
    WrittenSize(a, w, m, b);
    RewriteKeepsSizes(a, w, m, b);
    RewriteKeepsIdsSmall(a, w, m, b);
    RewriteMirrors(a, w, m, b);
    RewriteReplaces(a, v, q, m, b);
    TypedBoundaryMoves(a, b, q);
  }

  predicate SyncedWith(artifact: Option<seq<Instruction>>, v: seq<string>) {
    artifact.Some? ==> Mirrors(artifact.value, v)
  }

  predicate AcceptedInput(artifact: Option<seq<Instruction>>) {
    artifact.Some? ==> Consistent(artifact.value)
  }

  lemma SyncedSizes(artifact: Option<seq<Instruction>>, v: seq<string>)
    requires SyncedWith(artifact, v)
    ensures artifact.Some? ==> |artifact.value| == |v| && IdsFit(artifact.value)
    ensures artifact.Some? ==> Boundary(v, artifact) == TypedPrefixLength(artifact.value)
  {
    hide TypedPrefixLength, ReturnsAreTyped, IdsFit;
  }

  /** With or without an artifact, what replaces optimizable code is what is optimizable afterwards. */
  lemma BoundaryFollows(artifact: Option<seq<Instruction>>, v: seq<string>, q: seq<string>, m: seq<seq<nat>>,
                        next: Option<seq<Instruction>>)
    requires SyncedWith(artifact, v) && next.Some? == artifact.Some?
    requires Continues(v[..Boundary(v, artifact)], q) && ReplacesPrefix(m, Boundary(v, artifact), |q|, |v|)
    requires artifact.Some? ==> Written(artifact.value, q + v[Boundary(v, artifact)..], m, next.value)
    requires artifact.Some? ==> UniqueIds(next.value)
    ensures var w := q + v[Boundary(v, artifact)..];
            SyncedWith(next, w) && AcceptedInput(next) && Boundary(w, next) == |q|
  {
    hide Continues, ReplacesPrefix, Written, UniqueIds, Mirrors, Consistent, TypedPrefixLength, PrefixLength;
    SyncedSizes(artifact, v);
    if artifact.Some? {
      RewriteFollows(artifact.value, v, q, m, next.value);
      SyncedSizes(next, q + v[Boundary(v, artifact)..]);
    } else {
      var end := Boundary(v, artifact);
      assert v[..end] + v[end..] == v;
      TextBoundaryMoves(v[..end], v[end..], q);
    }
  }

  lemma WrittenSize(a: seq<Instruction>, w: seq<string>, m: seq<seq<nat>>, b: seq<Instruction>)
    requires Written(a, w, m, b)
    ensures |b| == |m| == |w|
  {
  }

  lemma RoundShape(v: seq<string>, end: nat, rules: Rules)
    requires end <= |v|
    ensures var out, n := RoundScan(v, end, rules).out, |Round(v[..end], rules).0|;
            && n <= end && |out| == n + (|v| - end)
            && (forall k :: 0 <= k < n ==> out[k].oldPC < end)
            && (forall k :: n <= k < |out| ==> out[k].oldPC == end + (k - n))
  {
    hide ScanFrom, Pushes, TotalBytes;
    ScanIsOrdered(v, end, 0, Scan([], false), rules);
    ScanIsLocal(v, end, 0, Scan([], false), rules);
    RoundAlone(v[..end], rules);
  }

  /** A round's provenance is of that kind. */
  lemma RoundReplaces(v: seq<string>, end: nat, rules: Rules)
    requires end <= |v|
    ensures var scan := RoundScan(v, end, rules);
            && Texts(scan.out) == Round(v[..end], rules).0 + v[end..]
            && ReplacesPrefix(Reverse(PlacesOf(scan.out, |v|), |scan.out|), end, |Round(v[..end], rules).0|, |v|)
  {
    hide PlacesOf, RoundScan, Round, Reverse;
    RoundOfPrefix(v, end, rules);
    RoundSources(v, end, rules);
    RoundShape(v, end, rules);
  }

  /** A hoist's provenance is of that kind. */
  lemma HoistReplaces(p: seq<string>, labels: set<string>, size: nat)
    requires Parse(p, labels).Some? && |p| <= size
    ensures var r := Optimize(p, labels);
            ReplacesPrefix(ArtifactOrigins(r.plan.newToOld, |p|, size), |p|, |r.instructions|, size)
  {
    hide ValidPlan, Optimize, PcList, Parse;
    OptimizedPlan(p, labels);
    var r := Optimize(p, labels);
    PlanSize(r.plan, p, r.instructions);
    forall k | 0 <= k < |r.instructions|
      ensures PcList(r.plan.newToOld[k]) != [] && forall x :: x in PcList(r.plan.newToOld[k]) ==> x < |p|
    {
      PlanLists(r.plan, p, r.instructions, k);
    }
  }

  lemma OptimizedPlan(p: seq<string>, labels: set<string>)
    requires Parse(p, labels).Some?
    ensures var r := Optimize(p, labels); ValidPlan(r.plan, p, r.instructions) && |r.instructions| <= |p|
  {
    hide ValidPlan, NormalizePaths, FlatPlan, CondMachine.ControlToken, Parse, OptimizeSeq;
    IfTailPlan.RewritePlanIsAlwaysValid(p, labels);
    IfTailNormalForm.ChangedMeansShorter(p, labels);
  }

  lemma PlanSize(plan: IfTailOptimizer.Plan, source: seq<string>, target: seq<string>)
    requires ValidPlan(plan, source, target)
    ensures |plan.newToOld| == |target|
  {
  }

  /** Nor is the hoist's provenance ever refused. */
  lemma HoistIsAccepted(a: seq<Instruction>, v: seq<string>, labels: set<string>)
    requires Mirrors(a, v) && Consistent(a) && Parse(v[..TypedPrefixLength(a)], labels).Some?
    ensures var end := TypedPrefixLength(a);
            var r := Optimize(v[..end], labels);
            |r.plan.newToOld| == |r.instructions| && Acceptable(a, ArtifactOrigins(r.plan.newToOld, end, |a|))
  {
    hide Optimize, Parse, IdsFit, ReturnsAreTyped, UniqueIds, ConsistentSizes, Acceptable, ReturnEnd;
    var end := TypedPrefixLength(a);
    assert forall i :: 0 <= i < end ==> a[i].region == Executable;
    OptimizerIsRewritable(v[..end], labels, a);
  }

  // ----- provenance over a whole run -----

  /** b comes from a, with code of the given size in place of the first end instructions and the rest one to one. */
  ghost predicate DescendsFrom(a: seq<Instruction>, end: nat, b: seq<Instruction>, count: nat) {
    exists m :: Inherits(a, m, b) && ReplacesPrefix(m, end, count, |a|)
  }

  lemma DescendsFromItself(a: seq<Instruction>, end: nat)
    requires end <= |a|
    ensures DescendsFrom(a, end, a, end)
  {
    InheritsFromItself(a);
    assert ReplacesPrefix(OneEach(|a|), end, end, |a|);
  }

  lemma ReplacesCompose(first: seq<seq<nat>>, second: seq<seq<nat>>, end: nat, middle: nat, count: nat, size: nat)
    requires ReplacesPrefix(first, end, middle, size) && ReplacesPrefix(second, middle, count, |first|)
    requires forall k, i :: 0 <= k < |second| && 0 <= i < |second[k]| ==> second[k][i] < |first|
    ensures ReplacesPrefix(ComposedAll(first, second), end, count, size)
  {
    var m := ComposedAll(first, second);
    forall k | 0 <= k < count ensures m[k] != [] && forall x :: x in m[k] ==> x < end {
      forall x: nat | x in m[k] ensures x < end {
        ComposedMembers(first, second[k], x);
        var u: nat :| u in second[k] && u < |first| && x in first[u];
      }
      var u := second[k][0];
      assert u in second[k] && first[u][0] in first[u];
      ComposedMembers(first, second[k], first[u][0]);
    }
    forall k | count <= k < |m| ensures m[k] == [end + (k - count)] {
      assert second[k] == [middle + (k - count)];
      OneComposed(first, middle + (k - count));
    }
  }

  lemma OneComposed(first: seq<seq<nat>>, u: nat)
    requires u < |first|
    ensures Composed(first, [u]) == first[u]
  {
    assert [u][1..] == [];
    assert first[u] + [] == first[u];
  }

  lemma DescentComposes(a: seq<Instruction>, end: nat, b: seq<Instruction>, middle: nat, c: seq<Instruction>,
                        count: nat)
    requires DescendsFrom(a, end, b, middle) && DescendsFrom(b, middle, c, count)
    ensures DescendsFrom(a, end, c, count)
  {
    hide Inherits, ReplacesPrefix, ComposedAll;
    var first :| Inherits(a, first, b) && ReplacesPrefix(first, end, middle, |a|);
    var second :| Inherits(b, second, c) && ReplacesPrefix(second, middle, count, |b|);
    InheritsSize(a, first, b);
    InheritsCompose(a, first, b, second, c);
    ReplacesCompose(first, second, end, middle, count, |a|);
  }

  lemma InheritsSize(a: seq<Instruction>, m: seq<seq<nat>>, b: seq<Instruction>)
    requires Inherits(a, m, b)
    ensures |m| == |b|
  {
  }

  /** One rewrite of optimizable code. */
  lemma RewriteDescends(a: seq<Instruction>, w: seq<string>, m: seq<seq<nat>>, b: seq<Instruction>, end: nat,
                        count: nat)
    requires Written(a, w, m, b) && ReplacesPrefix(m, end, count, |a|)
    ensures DescendsFrom(a, end, b, count)
  {
    hide Written, Inherits;
    RewriteInherits(a, w, m, b);
  }

  /** The same for an artifact that may be absent. */
  ghost predicate Descended(artifact: Option<seq<Instruction>>, end: nat, next: Option<seq<Instruction>>, count: nat) {
    artifact.Some? == next.Some? && (artifact.Some? ==> DescendsFrom(artifact.value, end, next.value, count))
  }
}
