/** The loops of the peephole pass over instruction text and, when there is one, the typed artifact that mirrors it. */
module PeepholeExecute {
  import opened Wrappers
  import opened CondMachine
  import opened IfTree
  import opened IfTailOptimizer
  import opened BytecodeIr
  import opened LegacyAdapter
  import opened ArtifactRewriter
  import opened ScriptVm
  import opened PeepholeRules
  import opened PeepholeRounds
  import opened PeepholeBoundary
  import opened PeepholePass
  import opened PeepholeProvenance
  import IfTailPass

  lemma TextsSnoc(out: seq<Emitted>, e: Emitted)
    ensures Texts(out + [e]) == Texts(out) + [e.encoding]
  {
  }

  lemma PlacesSnoc(out: seq<Emitted>, e: Emitted, n: nat)
    requires e.oldPC < n
    ensures PlacesOf(out + [e], n) == PlacesOf(out, n)[e.oldPC := Some(|out|)]
  {
    assert (out + [e])[..|out|] == out;
  }

  lemma EmptyPlaces(n: nat)
    ensures PlacesOf([], n) == seq(n, _ => None)
  {
  }

  // ----- one position -----

  /** tryRewritePair, with the depth scan where a rule asks for it. */
  method RewritePair(cur: string, nxt: string, emitted: seq<string>, allowTrueVerify: bool) returns (r: PairRewrite)
    ensures r == TryRewritePair(cur, nxt, emitted, allowTrueVerify)
  {
    hide ProvenDepth;
    if IsOp(cur, OP_DUP) && IsOp(nxt, OP_DROP) {
      var proven := HasProvenStackDepth(emitted, 1);
      return if proven then DeletePair else KeepBoth;
    }
    if IsOp(cur, OP_SWAP) && IsOp(nxt, OP_SWAP) {
      var proven := HasProvenStackDepth(emitted, 2);
      return if proven then DeletePair else KeepBoth;
    }
    return TryRewritePair(cur, nxt, emitted, allowTrueVerify);
  }

  method FindMove(v: seq<string>, end: nat, i: nat, emitted: seq<string>, rules: Rules) returns (m: Move)
    requires i < end <= |v|
    ensures m == NextMove(v, end, i, emitted, rules)
  {
    hide IsInert, IsControlFlow, TryRewriteTriple, TryRewritePair, IsProfitableDuplicatePush;
    var cur := v[i];
    if i + 2 < end && !IsInert(cur) && !IsInert(v[i + 1]) && !IsInert(v[i + 2]) &&
       !IsControlFlow(cur) && !IsControlFlow(v[i + 1]) && !IsControlFlow(v[i + 2]) {
      var triple := TryRewriteTriple(cur, v[i + 1], v[i + 2]);
      if triple.Some? {
        return Move(3, triple.value, true);
      }
    }
    if i + 1 < end && IsProfitableDuplicatePush(cur, v[i + 1], rules.options) {
      return Move(2, [Replacement(cur, 0), Replacement(OpHex(OP_DUP), 1)], true);
    }
    if !IsInert(cur) && !IsControlFlow(cur) && i + 1 < end && !IsInert(v[i + 1]) {
      var rewrite := RewritePair(cur, v[i + 1], emitted, rules.allowTrueVerify);
      return PairMove(rewrite, cur);
    }
    return KeepOne(cur);
  }

  // ----- what a round or a hoist means for the artifact -----

  lemma UnchangedRound(v: seq<string>, end: nat, rules: Rules)
    requires end <= |v| && !RoundScan(v, end, rules).changed
    ensures Texts(RoundScan(v, end, rules).out) == v
  {
    hide RoundScan;
    RoundImproves(v, end, rules);
  }

  lemma RoundIsInRange(v: seq<string>, end: nat, rules: Rules)
    requires end <= |v|
    ensures var out := RoundScan(v, end, rules).out;
            forall i :: 0 <= i < |v| && PlacesOf(out, |v|)[i].Some? ==> PlacesOf(out, |v|)[i].value < |out|
  {
    hide RoundScan, PlacesOf;
    RemapIsMonotoneAndOnto(v, end, rules);
  }

  /** The artifact follows a round unless it was not fit to follow any. */
  lemma RoundIsAccepted(a: seq<Instruction>, v: seq<string>, end: nat, rules: Rules)
    requires end <= |v| == |a|
    ensures var out := RoundScan(v, end, rules).out;
            Acceptable(a, Reverse(PlacesOf(out, |v|), |out|)) <==> Consistent(a)
  {
    hide RoundScan, PlacesOf;
    if Consistent(a) {
      RoundIsRewritable(v, end, rules, a);
    }
  }

  lemma RoundIsFollowed(artifact: Option<seq<Instruction>>, v: seq<string>, rules: Rules,
                        next: Option<seq<Instruction>>)
    requires SyncedWith(artifact, v) && next.Some? == artifact.Some?
    requires artifact.Some? ==>
               var scan := RoundScan(v, Boundary(v, artifact), rules);
               Written(artifact.value, Texts(scan.out), Reverse(PlacesOf(scan.out, |v|), |scan.out|), next.value)
    requires artifact.Some? ==> UniqueIds(next.value)
    ensures var end := Boundary(v, artifact);
            var q := Round(v[..end], rules).0;
            && SyncedWith(next, q + v[end..]) && AcceptedInput(next) && Boundary(q + v[end..], next) == |q|
            && Descended(artifact, end, next, |q|)
  {
    hide Written, Mirrors, Consistent, Boundary, RoundScan, PlacesOf, Round, ReplacesPrefix, Continues, UniqueIds;
    hide IdsFit;
    var end := Boundary(v, artifact);
    RoundReplaces(v, end, rules);
    RoundContinues(v[..end], rules);
    var scan := RoundScan(v, end, rules);
    var m := Reverse(PlacesOf(scan.out, |v|), |scan.out|);
    BoundaryFollows(artifact, v, Round(v[..end], rules).0, m, next);
    SyncedSizes(artifact, v);
    if artifact.Some? {
      RewriteDescends(artifact.value, Texts(scan.out), m, next.value, end, |Round(v[..end], rules).0|);
    }
  }

  lemma HoistIsFollowed(artifact: Option<seq<Instruction>>, v: seq<string>, labels: set<string>,
                        next: Option<seq<Instruction>>)
    requires SyncedWith(artifact, v) && next.Some? == artifact.Some?
    requires Parse(v[..Boundary(v, artifact)], labels).Some?
    requires artifact.Some? ==>
               var end := Boundary(v, artifact);
               var r := Optimize(v[..end], labels);
               Written(artifact.value, r.instructions + v[end..], ArtifactOrigins(r.plan.newToOld, end, |v|),
                       next.value)
    requires artifact.Some? ==> UniqueIds(next.value)
    ensures var end := Boundary(v, artifact);
            var q := Optimize(v[..end], labels).instructions;
            && SyncedWith(next, q + v[end..]) && AcceptedInput(next) && Boundary(q + v[end..], next) == |q|
            && Descended(artifact, end, next, |q|)
  {
    hide IdsFit;
    hide Written, Mirrors, Consistent, Boundary, Optimize, ReplacesPrefix, Continues, UniqueIds, Parse, ArtifactOrigins;
    var end := Boundary(v, artifact);
    HoistReplaces(v[..end], labels, |v|);
    HoistContinues(v[..end], labels);
    var r := Optimize(v[..end], labels);
    var m := ArtifactOrigins(r.plan.newToOld, end, |v|);
    BoundaryFollows(artifact, v, r.instructions, m, next);
    SyncedSizes(artifact, v);
    if artifact.Some? {
      RewriteDescends(artifact.value, r.instructions + v[end..], m, next.value, end, |r.instructions|);
    }
  }

  /** The same for a hoist. */
  lemma HoistIsAcceptedInput(artifact: Option<seq<Instruction>>, v: seq<string>, labels: set<string>)
    requires artifact.Some? && SyncedWith(artifact, v) && Parse(v[..Boundary(v, artifact)], labels).Some?
    ensures var end := Boundary(v, artifact);
            var r := Optimize(v[..end], labels);
            && |r.plan.newToOld| == |r.instructions|
            && (Acceptable(artifact.value, ArtifactOrigins(r.plan.newToOld, end, |v|)) <==> AcceptedInput(artifact))
  {
    hide Optimize, Parse, Mirrors, ArtifactOrigins, TypedPrefixLength, UniqueIds, ConsistentSizes;
    SyncedSizes(artifact, v);
    PlanSizes(v[..Boundary(v, artifact)], labels);
    if AcceptedInput(artifact) {
      HoistIsAccepted(artifact.value, v, labels);
    }
  }

  lemma PlanSizes(p: seq<string>, labels: set<string>)
    requires Parse(p, labels).Some?
    ensures |Optimize(p, labels).plan.newToOld| == |Optimize(p, labels).instructions|
  {
    hide Optimize, Parse;
    HoistReplaces(p, labels, |p|);
  }

  lemma NothingDescended(artifact: Option<seq<Instruction>>, v: seq<string>)
    requires SyncedWith(artifact, v)
    ensures Descended(artifact, Boundary(v, artifact), artifact, Boundary(v, artifact))
  {
    hide Mirrors, TypedPrefixLength, DescendsFrom;
    SyncedSizes(artifact, v);
    if artifact.Some? {
      DescendsFromItself(artifact.value, TypedPrefixLength(artifact.value));
    }
  }

  lemma DescentContinues(a: Option<seq<Instruction>>, end: nat, b: Option<seq<Instruction>>, middle: nat,
                         c: Option<seq<Instruction>>, count: nat)
    requires Descended(a, end, b, middle) && Descended(b, middle, c, count)
    ensures Descended(a, end, c, count)
  {
    hide DescendsFrom;
    if a.Some? {
      DescentComposes(a.value, end, b.value, middle, c.value, count);
    }
  }

  method BuildOrigins(lists: seq<seq<Origin>>, end: nat, size: nat) returns (r: seq<seq<nat>>)
    requires end <= size
    ensures r == ArtifactOrigins(lists, end, size)
  {
    r := [];
    for k := 0 to |lists|
      invariant r == ArtifactOrigins(lists, end, size)[..k]
    {
      r := r + [PcList(lists[k])];
    }
    for oldPC := end to size
      invariant r == ArtifactOrigins(lists, end, size)[..|lists| + (oldPC - end)]
    {
      r := r + [[oldPC]];
    }
  }

  // ----- the pass -----

  class LocalRewriter {
    var v: seq<string>
    var oldToNew: seq<Option<nat>>
    var artifact: Option<seq<Instruction>>

    constructor (v: seq<string>, artifact: Option<seq<Instruction>>)
      ensures this.v == v && this.artifact == artifact
    {
      this.v := v;
      this.artifact := artifact;
      oldToNew := [];
    }

    predicate InSync()
      reads this
    {
      SyncedWith(artifact, v)
    }

    /** What the rewriter asks of the artifact. */
    predicate Accepted()
      reads this
    {
      AcceptedInput(artifact)
    }

    function End(): (end: nat)
      reads this
      ensures end <= |v|
    {
      Boundary(v, artifact)
    }

    /** keepInstruction, replacePairWithOne and applyTripleRewrite: append replacements and record their origins. */
    method Emit(out: seq<string>, ghost emitted: seq<Emitted>, rs: seq<Replacement>, i: nat) returns (r: seq<string>)
      requires out == Texts(emitted) && oldToNew == PlacesOf(emitted, |v|)
      requires forall k :: 0 <= k < |rs| ==> i + rs[k].offset < |v|
      modifies `oldToNew
      ensures r == Texts(emitted + Place(rs, i)) && oldToNew == PlacesOf(emitted + Place(rs, i), |v|)
    {
      hide PlacesOf;
      r := out;
      assert emitted + Place(rs[..0], i) == emitted;
      for k := 0 to |rs|
        invariant r == Texts(emitted + Place(rs[..k], i))
        invariant oldToNew == PlacesOf(emitted + Place(rs[..k], i), |v|)
      {
        ghost var done := emitted + Place(rs[..k], i);
        ghost var e := Emitted(rs[k].encoding, i + rs[k].offset);
        assert emitted + Place(rs[..k + 1], i) == done + [e];
        TextsSnoc(done, e);
        PlacesSnoc(done, e, |v|);
        oldToNew := oldToNew[i + rs[k].offset := Some(|r|)];
        r := r + [rs[k].encoding];
      }
      assert rs[..|rs|] == rs;
    }

    method RunOnePass(rules: Rules) returns (changed: bool)
      modifies `v, `oldToNew
      ensures var scan := RoundScan(old(v), old(End()), rules);
              && v == Texts(scan.out)
              && oldToNew == PlacesOf(scan.out, |old(v)|)
              && changed == scan.changed
    {
      hide NextMove, PlacesOf, Boundary;
      var executableEnd := OptimizablePrefixLength(v, artifact);
      oldToNew := seq(|v|, _ => None);
      EmptyPlaces(|v|);
      var out: seq<string> := [];
      ghost var s := Scan([], false);
      changed := false;
      var i := 0;
      while i < executableEnd
        invariant i <= executableEnd && v == old(v) && out == Texts(s.out) && changed == s.changed
        invariant oldToNew == PlacesOf(s.out, |v|)
        invariant ScanFrom(v, executableEnd, i, s, rules) == ScanFrom(v, executableEnd, 0, Scan([], false), rules)
      {
        var m := FindMove(v, executableEnd, i, out, rules);
        MoveIsOrdered(v, executableEnd, i, out, rules);
        out := Emit(out, s.out, m.emits, i);
        s := Scan(s.out + Place(m.emits, i), s.changed || m.rewrites);
        changed := changed || m.rewrites;
        i := i + m.consumed;
      }
      ghost var prefix := s.out;
      assert prefix + Suffix(v, executableEnd)[..0] == prefix;
      while i < |v|
        invariant executableEnd <= i <= |v| && v == old(v) && changed == s.changed
        invariant s.out == prefix + Suffix(v, executableEnd)[..i - executableEnd]
        invariant out == Texts(s.out) && oldToNew == PlacesOf(s.out, |v|)
      {
        CopiedNext(prefix, v, executableEnd, i);
        out := Emit(out, s.out, [Replacement(v[i], 0)], i);
        s := Scan(s.out + Place([Replacement(v[i], 0)], i), s.changed);
        i := i + 1;
      }
      assert Suffix(v, executableEnd)[..|v| - executableEnd] == Suffix(v, executableEnd);
      RoundImproves(v, executableEnd, rules);
      if changed {
        v := out;
      }
    }

    /** Let the artifact, if there is one, follow the new text. */
    method ApplyArtifactRewrite(newToOld: seq<seq<nat>>) returns (ok: bool)
      requires artifact.Some? ==> IdsFit(artifact.value)
      modifies `artifact
      ensures artifact.Some? == old(artifact).Some? && (!ok ==> artifact == old(artifact))
      ensures old(artifact).None? ==> ok
      ensures old(artifact).Some? ==> (ok <==> |newToOld| == |v| && Acceptable(old(artifact).value, newToOld))
      ensures old(artifact).Some? && ok ==>
                Written(old(artifact).value, v, newToOld, artifact.value) && UniqueIds(artifact.value)
    {
      hide Acceptable, Written, UniqueIds, IdsFit;
      if artifact.None? {
        return true;
      }
      var candidate := ArtifactRewriter.Rewrite(artifact.value, v, newToOld);
      if candidate.Err? {
        return false;
      }
      artifact := Some(candidate.value);
      return true;
    }

    /** One round, followed by the artifact or taken back. */
    method RewriteRound(rules: Rules) returns (changed: bool, failed: bool)
      requires InSync()
      modifies this
      ensures artifact.Some? == old(artifact).Some?
      ensures var p := old(v[..End()]);
              && changed == Round(p, rules).1
              && (failed <==> changed && !old(Accepted()))
              && (failed || !changed ==> v == old(v) && artifact == old(artifact))
              && (changed && !failed ==>
                    && v == Round(p, rules).0 + old(v[End()..]) && End() == |Round(p, rules).0|
                    && InSync() && Accepted() && Descended(old(artifact), old(End()), artifact, End()))
    {
      hide Boundary, RoundScan, Round, PlacesOf, Mirrors, Consistent, Acceptable, Written, UniqueIds, Reverse, IdsFit;
      hide Descended;
      ghost var end := End();
      var beforeRound := v;
      SyncedSizes(artifact, v);
      changed := RunOnePass(rules);
      RoundOfPrefix(beforeRound, end, rules);
      if !changed {
        UnchangedRound(beforeRound, end, rules);
        return changed, false;
      }
      RoundIsInRange(beforeRound, end, rules);
      if artifact.Some? {
        RoundIsAccepted(artifact.value, beforeRound, end, rules);
      }
      var newToOld := ReverseMapping(oldToNew, |v|);
      var ok := |newToOld| == |v|;
      if ok {
        ok := ApplyArtifactRewrite(newToOld);
      }
      if !ok {
        v := beforeRound;
        return changed, true;
      }
      RoundIsFollowed(old(artifact), beforeRound, rules, artifact);
      return changed, false;
    }

    /** The fixed-point loop with its defensive cap. */
    method RunRounds(rules: Rules) returns (failed: bool)
      requires InSync()
      modifies this
      ensures artifact.Some? == old(artifact).Some?
      ensures failed <==> !old(Accepted()) && Round(old(v[..End()]), rules).1
      ensures !old(Accepted()) ==> v == old(v) && artifact == old(artifact)
      ensures old(Accepted()) ==>
                var q := Rounds(old(v[..End()]), rules, MAX_ROUNDS);
                && v == q + old(v[End()..]) && End() == |q| && InSync() && Accepted()
                && Descended(old(artifact), old(End()), artifact, End())
    {
      hide Round, Boundary, Mirrors, Consistent, Descended;
      NothingDescended(artifact, v);
      ghost var p, rest := v[..End()], v[End()..];
      assert v == p + rest;
      var round := 0;
      var changed := true;
      failed := false;
      while changed && round < MAX_ROUNDS
        invariant round <= MAX_ROUNDS && !failed && artifact.Some? == old(artifact).Some? && InSync()
        invariant Accepted() == old(Accepted()) && (changed || round > 0)
        invariant !Accepted() ==> v == old(v) && artifact == old(artifact)
        invariant !Accepted() && round > 0 ==> !changed && !Round(p, rules).1
        invariant v == v[..End()] + rest
        invariant Descended(old(artifact), old(End()), artifact, End())
        invariant Accepted() && changed ==>
                    Rounds(p, rules, MAX_ROUNDS) == Rounds(v[..End()], rules, MAX_ROUNDS - round)
        invariant Accepted() && !changed ==> v[..End()] == Rounds(p, rules, MAX_ROUNDS)
        decreases MAX_ROUNDS - round
      {
        ghost var cur := v[..End()];
        ghost var before, at := artifact, End();
        assert v[End()..] == rest;
        changed, failed := RewriteRound(rules);
        if failed {
          return;
        }
        if changed {
          DescentContinues(old(artifact), old(End()), before, at, artifact, End());
        }
        assert changed ==> v[..End()] == Round(cur, rules).0;
        round := round + 1;
      }
    }

    /** Common tails are hoisted out of the optimizable code; what that exposes is cleaned up. */
    method HoistTails(rules: Rules)
      requires InSync()
      modifies this
      ensures artifact.Some? == old(artifact).Some?
      ensures !old(Accepted()) ==> v == old(v) && artifact == old(artifact)
      ensures old(Accepted()) ==>
                var q := HoistAndClean(old(v[..End()]), rules);
                && v == q + old(v[End()..]) && End() == |q| && InSync() && Accepted()
                && Descended(old(artifact), old(End()), artifact, End())
    {
      hide Descended;
      NothingDescended(artifact, v);
      hide Optimize, Boundary, Mirrors, Consistent, Acceptable, Written, Rounds, UniqueIds, Round;
      var end := OptimizablePrefixLength(v, artifact);
      var labels := rules.options.placeholders.Keys;
      var structured := IfTailPass.RunOptimizer(v[..end], labels);
      assert v == v[..end] + v[end..];
      if !structured.structurallyValid || !structured.changed || !structured.rewritePlanValid {
        return;
      }
      assert Parse(v[..end], labels).Some? by { ParsedIfValid(v[..end], labels); }
      var beforeText, beforeArtifact := v, artifact;
      SyncedSizes(artifact, v);
      if artifact.Some? {
        HoistIsAcceptedInput(artifact, v, labels);
      }
      var artifactOrigins := BuildOrigins(structured.plan.newToOld, end, |v|);
      v := structured.instructions + v[end..];
      assert |v| == |structured.instructions| + (|beforeText| - end);
      var structuredMappingValid := ApplyArtifactRewrite(artifactOrigins);
      if !structuredMappingValid {
        v, artifact := beforeText, beforeArtifact;
        return;
      }
      HoistIsFollowed(beforeArtifact, beforeText, labels, artifact);
      assert v[..End()] == structured.instructions && v[End()..] == beforeText[end..];
      ghost var hoisted, at := artifact, End();
      var cleanupFailed := RunRounds(rules);
      DescentContinues(beforeArtifact, end, hoisted, at, artifact, End());
    }

    /** Rounds, hoisting and clean-up rounds; failed when the first rounds met an artifact the rewriter refuses. */
    method RunStages(rules: Rules) returns (failed: bool)
      requires InSync()
      modifies this
      ensures artifact.Some? == old(artifact).Some?
      ensures !old(Accepted()) ==> v == old(v) && artifact == old(artifact)
      ensures old(Accepted()) ==>
                var q := HoistAndClean(Rounds(old(v[..End()]), rules, MAX_ROUNDS), rules);
                && !failed && v == q + old(v[End()..]) && End() == |q| && InSync() && Accepted()
                && Descended(old(artifact), old(End()), artifact, End())
    {
      hide Descended, Rounds, Round, HoistAndClean, Boundary, Mirrors, Consistent;
      failed := RunRounds(rules);
      if failed {
        return;
      }
      ghost var settled, at := artifact, End();
      HoistTails(rules);
      if old(Accepted()) {
        DescentContinues(old(artifact), old(End()), settled, at, artifact, End());
      }
    }
  }

  /** Behind the optimizable code one instruction more is copied. */
  lemma CopiedNext(prefix: seq<Emitted>, v: seq<string>, end: nat, i: nat)
    requires end <= i < |v|
    ensures |Suffix(v, end)| == |v| - end
    ensures prefix + Suffix(v, end)[..i - end + 1] ==
            prefix + Suffix(v, end)[..i - end] + Place([Replacement(v[i], 0)], i)
  {
    var rest := Suffix(v, end);
    assert rest[..i - end + 1] == rest[..i - end] + [rest[i - end]];
    assert Place([Replacement(v[i], 0)], i) == [rest[i - end]];
  }

  lemma ParsedIfValid(p: seq<string>, labels: set<string>)
    requires Optimize(p, labels).structurallyValid
    ensures Parse(p, labels).Some?
  {
    hide Parse, ValidPlan, NormalizePaths, FlatPlan, OptimizeSeq;
  }

  // ----- the pass as a whole -----

  /** The text the pass starts from: a stale view of an artifact is restored first. */
  function StartText(v: seq<string>, artifact: Option<seq<Instruction>>): seq<string> {
    match artifact case Some(code) => Export(code) case None => v
  }

  /** The pass optimizes the code in front of the boundary and touches nothing behind it; the artifact that comes out
      mirrors the text that comes out, and an artifact the rewriter would refuse leaves everything as it was. */
  method Execute(v: seq<string>, artifact: Option<seq<Instruction>>, rules: Rules)
      returns (r: seq<string>, next: Option<seq<Instruction>>)
    requires artifact.Some? ==> IdsFit(artifact.value) && ReturnsAreTyped(artifact.value)
    ensures next.Some? == artifact.Some?
    ensures v == [] ==> r == v && next == artifact
    ensures v != [] && !AcceptedInput(artifact) ==> r == StartText(v, artifact) && next == artifact
    ensures v != [] && AcceptedInput(artifact) ==>
              var start := StartText(v, artifact);
              var end := Boundary(start, artifact);
              var q := Pass(start[..end], rules);
              && r == q + start[end..] && Boundary(r, next) == |q|
              && SyncedWith(next, r) && AcceptedInput(next) && Descended(artifact, end, next, |q|)
  {
    hide Round, Optimize, CountBytes, Rounds, Boundary, Consistent, IdsFit, ReturnsAreTyped, HoistAndClean, Descended;
    hide ContainsTrueVerify, UniqueIds;
    if v == [] {
      return v, artifact;
    }
    var start := v;
    if artifact.Some? {
      start := ExportPreserving(artifact.value);
    }
    var local := new LocalRewriter(start, artifact);
    NothingDescended(artifact, start);
    var localMappingFailed := local.RunStages(rules);
    if localMappingFailed {
      return start, artifact;
    }
    var originalEnd := OptimizablePrefixLength(start, artifact);
    var finalEnd := OptimizablePrefixLength(local.v, local.artifact);
    assert start == start[..originalEnd] + start[originalEnd..];
    if rules.allowTrueVerify && CountBytes(start[..originalEnd]) != 0 && CountBytes(local.v[..finalEnd]) == 0 &&
       ContainsTrueVerify(start[..originalEnd]) {
      return start, artifact;
    }
    return local.v, local.artifact;
  }
}
