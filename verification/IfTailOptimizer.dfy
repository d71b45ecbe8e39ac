/** Common-tail hoisting on the control-flow tree, and the rewrite plan that records where every instruction went. */
module IfTailOptimizer {
  import opened Wrappers
  import opened Hex
  import opened CondMachine
  import opened IfTree

  // ----- when two pieces of code are the same -----

  predicate EquivAtom(a: Atom, b: Atom) {
    if IsPureHex(a.encoding) && IsPureHex(b.encoding) then Normalize(a.encoding) == Normalize(b.encoding)
    else a.encoding == b.encoding
  }

  predicate EquivSeq(a: seq<Node>, b: seq<Node>)
    decreases a
  {
    |a| == |b| && (a == [] || (EquivNode(a[0], b[0]) && EquivSeq(a[1..], b[1..])))
  }

  predicate EquivNode(a: Node, b: Node)
    decreases a
  {
    match a
    case AtomNode(x) => b.AtomNode? && EquivAtom(x, b.atom)
    case IfRegion(o, t, k, e, x) =>
      && b.IfRegion?
      && EquivAtom(o, b.opener)
      && k.Some? == b.elseMarker.Some?
      && (k.Some? ==> EquivAtom(k.value, b.elseMarker.value))
      && EquivAtom(x, b.endMarker)
      && EquivSeq(t, b.thenBody)
      && EquivSeq(e, b.elseBody)
  }

  predicate SafeSeq(ns: seq<Node>)
    decreases ns
  {
    ns == [] || (SafeNode(ns[0]) && SafeSeq(ns[1..]))
  }

  predicate SafeNode(n: Node)
    decreases n
  {
    match n
    case AtomNode(a) => a.extractionSafe
    case IfRegion(o, t, k, e, x) =>
      && o.extractionSafe && x.extractionSafe
      && (k.Some? ==> k.value.extractionSafe)
      && SafeSeq(t) && SafeSeq(e)
  }

  // ----- provenance -----

  predicate PredicateLess(a: BranchPredicate, b: BranchPredicate) {
    if a.ifPC != b.ifPC then a.ifPC < b.ifPC else a.arm == Then && b.arm == Else
  }

  /** Lexicographic order of branch paths. */
  predicate PathLess(a: seq<BranchPredicate>, b: seq<BranchPredicate>) {
    if b == [] then false
    else if a == [] then true
    else if PredicateLess(a[0], b[0]) then true
    else if PredicateLess(b[0], a[0]) then false
    else PathLess(a[1..], b[1..])
  }

  predicate OriginLess(a: Origin, b: Origin) {
    if a.oldPC != b.oldPC then a.oldPC < b.oldPC else PathLess(a.path, b.path)
  }

  function InsertOrigin(o: Origin, s: seq<Origin>): seq<Origin> {
    if s == [] || !OriginLess(s[0], o) then [o] + s else [s[0]] + InsertOrigin(o, s[1..])
  }

  /** The library sort by originLess. */
  function SortOrigins(s: seq<Origin>): seq<Origin> {
    if s == [] then [] else InsertOrigin(s[0], SortOrigins(s[1..]))
  }

  /** The library unique: keeps the first of each run of equal elements. */
  function DropRepeats(s: seq<Origin>): seq<Origin> {
    if |s| <= 1 then s
    else if s[0] == s[1] then DropRepeats(s[1..])
    else [s[0]] + DropRepeats(s[1..])
  }

  function MergeAtom(kept: Atom, duplicate: Atom): Atom {
    kept.(origins := DropRepeats(SortOrigins(kept.origins + duplicate.origins)))
  }

  function MergeSeq(kept: seq<Node>, duplicate: seq<Node>): (r: seq<Node>)
    requires EquivSeq(kept, duplicate)
    ensures |r| == |kept|
    decreases kept
  {
    if kept == [] then [] else [MergeNode(kept[0], duplicate[0])] + MergeSeq(kept[1..], duplicate[1..])
  }

  function MergeNode(kept: Node, duplicate: Node): Node
    requires EquivNode(kept, duplicate)
    decreases kept
  {
    match kept
    case AtomNode(a) => AtomNode(MergeAtom(a, duplicate.atom))
    case IfRegion(o, t, k, e, x) =>
      IfRegion(MergeAtom(o, duplicate.opener),
               MergeSeq(t, duplicate.thenBody),
               if k.Some? then Some(MergeAtom(k.value, duplicate.elseMarker.value)) else None,
               MergeSeq(e, duplicate.elseBody),
               MergeAtom(x, duplicate.endMarker))
  }

  // ----- hoisting -----

  /** Length of the longest common tail, node by node from the end. */
  function CommonCount(t: seq<Node>, e: seq<Node>): (k: nat)
    ensures k <= |t| && k <= |e|
  {
    if t == [] || e == [] || !EquivNode(t[|t| - 1], e[|e| - 1]) then 0
    else 1 + CommonCount(t[..|t| - 1], e[..|e| - 1])
  }

  lemma {:induction false} CommonTail(t: seq<Node>, e: seq<Node>)
    ensures EquivSeq(t[|t| - CommonCount(t, e)..], e[|e| - CommonCount(t, e)..])
  {
    hide EquivNode;
    if !(t == [] || e == [] || !EquivNode(t[|t| - 1], e[|e| - 1])) {
      var t', e' := t[..|t| - 1], e[..|e| - 1];
      var k := CommonCount(t', e');
      CommonTail(t', e');
      EquivSnoc(t'[|t'| - k..], e'[|e'| - k..], t[|t| - 1], e[|e| - 1]);
      assert t[|t| - k - 1..] == t'[|t'| - k..] + [t[|t| - 1]];
      assert e[|e| - k - 1..] == e'[|e'| - k..] + [e[|e| - 1]];
    }
  }

  /** No longer tails of the two branches are equivalent. */
  lemma {:induction false} CommonTailIsMaximal(t: seq<Node>, e: seq<Node>, j: nat)
    requires j <= |t| && j <= |e| && EquivSeq(t[|t| - j..], e[|e| - j..])
    ensures j <= CommonCount(t, e)
    decreases j
  {
    hide EquivNode;
    if j > 0 {
      var t', e' := t[..|t| - 1], e[..|e| - 1];
      EquivInit(t[|t| - j..], e[|e| - j..]);
      assert t[|t| - j..][..j - 1] == t'[|t'| - (j - 1)..] && e[|e| - j..][..j - 1] == e'[|e'| - (j - 1)..];
      CommonTailIsMaximal(t', e', j - 1);
    }
  }

  lemma {:induction false} EquivInit(a: seq<Node>, b: seq<Node>)
    requires EquivSeq(a, b) && a != []
    ensures EquivNode(a[|a| - 1], b[|b| - 1]) && EquivSeq(a[..|a| - 1], b[..|b| - 1])
  {
    hide EquivNode;
    if |a| > 1 {
      EquivInit(a[1..], b[1..]);
      assert a[1..][..|a| - 2] == a[..|a| - 1][1..] && b[1..][..|b| - 2] == b[..|b| - 1][1..];
    }
  }

  /** The nodes in front of the common tail differ. */
  lemma TailStops(t: seq<Node>, e: seq<Node>)
    ensures var k := CommonCount(t, e);
            k < |t| && k < |e| ==> !EquivNode(t[|t| - k - 1], e[|e| - k - 1])
  {
    hide EquivNode, CommonCount;
    var k := CommonCount(t, e);
    CommonTail(t, e);
    if k < |t| && k < |e| && EquivNode(t[|t| - k - 1], e[|e| - k - 1]) {
      assert t[|t| - k - 1..][1..] == t[|t| - k..] && e[|e| - k - 1..][1..] == e[|e| - k..];
      CommonTailIsMaximal(t, e, k + 1);
      assert false;
    }
  }

  /** Both branches are safe and end in the same node. */
  predicate HasCommonTail(t: seq<Node>, k: Option<Atom>, e: seq<Node>) {
    k.Some? && SafeSeq(t) && SafeSeq(e) && t != [] && e != [] && EquivNode(t[|t| - 1], e[|e| - 1])
  }

  /** A region gives something up exactly when its safe branches end alike. */
  lemma HoistsCommonTails(t: seq<Node>, k: Option<Atom>, e: seq<Node>)
    ensures HoistCount(t, k, e) > 0 <==> HasCommonTail(t, k, e)
  {
    hide EquivNode, CommonCount, SafeSeq;
    var c := CommonCount(t, e);
    TailStops(t, e);
    if c > 0 {
      CommonTail(t, e);
      EquivInit(t[|t| - c..], e[|e| - c..]);
    }
  }

  lemma {:induction false} EquivSnoc(a: seq<Node>, b: seq<Node>, x: Node, y: Node)
    requires EquivSeq(a, b) && EquivNode(x, y)
    ensures EquivSeq(a + [x], b + [y])
  {
    if a != [] {
      EquivSnoc(a[1..], b[1..], x, y);
      assert (a + [x])[1..] == a[1..] + [x] && (b + [y])[1..] == b[1..] + [y];
    }
  }

  /** How many nodes a region whose branches are already optimized gives up to its parent. */
  function HoistCount(t: seq<Node>, k: Option<Atom>, e: seq<Node>): (c: nat)
    ensures c <= |t| && c <= |e|
  {
    if k.Some? && SafeSeq(t) && SafeSeq(e) then CommonCount(t, e) else 0
  }

  lemma HoistTail(t: seq<Node>, k: Option<Atom>, e: seq<Node>)
    ensures var c := HoistCount(t, k, e);
            EquivSeq(t[|t| - c..], e[|e| - c..])
  {
    hide EquivNode, SafeSeq, CommonCount;
    CommonTail(t, e);
  }

  function Hoist(o: Atom, t: seq<Node>, k: Option<Atom>, e: seq<Node>, x: Atom): seq<Node> {
    var c := HoistCount(t, k, e);
    HoistTail(t, k, e);
    [IfRegion(o, t[..|t| - c], k, e[..|e| - c], x)] + MergeSeq(t[|t| - c..], e[|e| - c..])
  }

  /** The four parts of a hoist: what stays in each branch, and the equivalent tails that leave. */
  lemma HoistParts(o: Atom, t: seq<Node>, k: Option<Atom>, e: seq<Node>, x: Atom)
      returns (t0: seq<Node>, t1: seq<Node>, e0: seq<Node>, e1: seq<Node>)
    ensures t == t0 + t1 && e == e0 + e1 && EquivSeq(t1, e1)
    ensures Hoist(o, t, k, e, x) == [IfRegion(o, t0, k, e0, x)] + MergeSeq(t1, e1)
    ensures t1 == [] <==> e1 == []
    ensures k.None? ==> t1 == [] && e1 == []
    ensures t1 != [] ==> SafeSeq(t) && SafeSeq(e)
  {
    hide EquivSeq, MergeSeq, CommonCount, SafeSeq;
    var c := HoistCount(t, k, e);
    HoistTail(t, k, e);
    t0, t1, e0, e1 := t[..|t| - c], t[|t| - c..], e[..|e| - c], e[|e| - c..];
  }

  function OptimizeSeq(ns: seq<Node>): seq<Node>
    decreases ns
  {
    if ns == [] then [] else OptimizeNode(ns[0]) + OptimizeSeq(ns[1..])
  }

  function OptimizeNode(n: Node): seq<Node>
    decreases n
  {
    match n
    case AtomNode(_) => [n]
    case IfRegion(o, t, k, e, x) => Hoist(o, OptimizeSeq(t), k, OptimizeSeq(e), x)
  }

  /** Number of regions that give something up. */
  function MergedIfs(ns: seq<Node>): nat
    decreases ns
  {
    if ns == [] then 0 else MergedIfsNode(ns[0]) + MergedIfs(ns[1..])
  }

  function MergedIfsNode(n: Node): nat
    decreases n
  {
    match n
    case AtomNode(_) => 0
    case IfRegion(o, t, k, e, x) =>
      MergedIfs(t) + MergedIfs(e) + if HoistCount(OptimizeSeq(t), k, OptimizeSeq(e)) > 0 then 1 else 0
  }

  /** Number of regions with a common last node that an unsafe instruction kept in place. */
  function SkippedTails(ns: seq<Node>): nat
    decreases ns
  {
    if ns == [] then 0 else SkippedTailsNode(ns[0]) + SkippedTails(ns[1..])
  }

  function SkippedTailsNode(n: Node): nat
    decreases n
  {
    match n
    case AtomNode(_) => 0
    case IfRegion(o, t, k, e, x) =>
      SkippedTails(t) + SkippedTails(e) + if SkipsTail(OptimizeSeq(t), k, OptimizeSeq(e)) then 1 else 0
  }

  predicate SkipsTail(t: seq<Node>, k: Option<Atom>, e: seq<Node>) {
    k.Some? && !(SafeSeq(t) && SafeSeq(e)) && t != [] && e != [] && EquivNode(t[|t| - 1], e[|e| - 1])
  }

  // ----- the rewrite plan -----

  function OriginLists(atoms: seq<Atom>): (r: seq<seq<Origin>>)
    ensures |r| == |atoms|
  {
    seq(|atoms|, i requires 0 <= i < |atoms| => atoms[i].origins)
  }

  function AssignOrigins(m: seq<Option<nat>>, origins: seq<Origin>, newPC: nat): (r: seq<Option<nat>>)
    ensures |r| == |m|
    decreases origins
  {
    if origins == [] then m
    else
      var pc := origins[0].oldPC;
      AssignOrigins(if pc < |m| then m[pc := Some(newPC)] else m, origins[1..], newPC)
  }

  function AssignAll(m: seq<Option<nat>>, atoms: seq<Atom>, base: nat): (r: seq<Option<nat>>)
    ensures |r| == |m|
    decreases atoms
  {
    if atoms == [] then m else AssignAll(AssignOrigins(m, atoms[0].origins, base), atoms[1..], base + 1)
  }

  function Unassigned(n: nat): seq<Option<nat>> {
    seq(n, _ => None)
  }

  datatype Plan = Plan(oldToNew: seq<Option<nat>>, newToOld: seq<seq<Origin>>)

  function FlatPlan(ns: seq<Node>, oldCount: nat): Plan {
    Plan(AssignAll(Unassigned(oldCount), FlattenSeq(ns), 0), OriginLists(FlattenSeq(ns)))
  }

  /** One predicate of one origin, moved to the output's numbering; None when it is rejected. */
  function MapPredicate(b: BranchPredicate, oldToNew: seq<Option<nat>>, source: seq<string>,
                        target: seq<string>): Option<BranchPredicate>
  {
    if b.ifPC >= |source| || b.ifPC >= |oldToNew| || !OpensRegion(source[b.ifPC]) then None
    else
      match oldToNew[b.ifPC]
      case None => None
      case Some(q) =>
        if q >= |target| || ControlToken(target[q]) != ControlToken(source[b.ifPC]) then None
        else Some(BranchPredicate(q, b.arm))
  }

  function MapPath(path: seq<BranchPredicate>, oldToNew: seq<Option<nat>>, source: seq<string>,
                   target: seq<string>): Option<seq<BranchPredicate>>
  {
    if path == [] then Some([])
    else
      match MapPredicate(path[0], oldToNew, source, target)
      case None => None
      case Some(b) =>
        match MapPath(path[1..], oldToNew, source, target)
        case None => None
        case Some(rest) => Some([b] + rest)
  }

  predicate DistinctRegions(path: seq<BranchPredicate>) {
    forall i, j :: 0 <= i < j < |path| ==> path[i].ifPC != path[j].ifPC
  }

  function NormalizeOrigin(o: Origin, oldToNew: seq<Option<nat>>, source: seq<string>,
                           target: seq<string>): Option<Origin>
  {
    match MapPath(o.path, oldToNew, source, target)
    case None => None
    case Some(path) => if DistinctRegions(path) then Some(Origin(o.oldPC, path)) else None
  }

  function NormalizeList(os: seq<Origin>, oldToNew: seq<Option<nat>>, source: seq<string>,
                         target: seq<string>): Option<seq<Origin>>
  {
    if os == [] then Some([])
    else
      match NormalizeOrigin(os[0], oldToNew, source, target)
      case None => None
      case Some(o) =>
        match NormalizeList(os[1..], oldToNew, source, target)
        case None => None
        case Some(rest) => Some([o] + rest)
  }

  function NormalizeLists(lists: seq<seq<Origin>>, oldToNew: seq<Option<nat>>, source: seq<string>,
                          target: seq<string>): Option<seq<seq<Origin>>>
  {
    if lists == [] then Some([])
    else
      match NormalizeList(lists[0], oldToNew, source, target)
      case None => None
      case Some(os) =>
        match NormalizeLists(lists[1..], oldToNew, source, target)
        case None => None
        case Some(rest) => Some([SortOrigins(os)] + rest)
  }

  /** normalizeBranchPaths. */
  function NormalizePaths(plan: Plan, source: seq<string>, target: seq<string>): Option<Plan> {
    match NormalizeLists(plan.newToOld, plan.oldToNew, source, target)
    case None => None
    case Some(lists) => Some(plan.(newToOld := lists))
  }

  /** How often an old PC occurs among origins. */
  function CountIn(os: seq<Origin>, pc: nat): nat {
    if os == [] then 0 else (if os[0].oldPC == pc then 1 else 0) + CountIn(os[1..], pc)
  }

  function CountInLists(lists: seq<seq<Origin>>, pc: nat): nat {
    if lists == [] then 0 else CountIn(lists[0], pc) + CountInLists(lists[1..], pc)
  }

  predicate ValidOrigin(o: Origin, newPC: nat, plan: Plan, source: seq<string>, target: seq<string>)
    requires |plan.oldToNew| == |source|
  {
    && o.oldPC < |source| && plan.oldToNew[o.oldPC] == Some(newPC)
    && (forall i :: 0 <= i < |o.path| ==>
          o.path[i].ifPC < |target| && o.path[i].ifPC < newPC && OpensRegion(target[o.path[i].ifPC]))
    && DistinctRegions(o.path)
  }

  /** validateInstructionRewritePlan. */
  predicate ValidPlan(plan: Plan, source: seq<string>, target: seq<string>) {
    && |plan.oldToNew| == |source| && |plan.newToOld| == |target|
    && (forall newPC :: 0 <= newPC < |target| ==>
          && plan.newToOld[newPC] != []
          && (forall i :: 0 <= i < |plan.newToOld[newPC]| ==>
              ValidOrigin(plan.newToOld[newPC][i], newPC, plan, source, target)))
    && (forall pc :: 0 <= pc < |source| ==>
          var count := CountInLists(plan.newToOld, pc);
          if count == 0 then plan.oldToNew[pc].None?
          else count == 1 && plan.oldToNew[pc].Some? && plan.oldToNew[pc].value < |target|)
  }

  datatype Rewrite = Rewrite(
    instructions: seq<string>,
    plan: Plan,
    rewritePlanValid: bool,
    structurallyValid: bool,
    changed: bool,
    mergedIfCount: nat,
    skippedUnsafeTailCount: nat)

  function IdentityPlan(n: nat): Plan {
    Plan(seq(n, i requires 0 <= i < n => Some(i as nat)), seq(n, i requires 0 <= i < n => [Origin(i as nat, [])]))
  }

  function Unchanged(p: seq<string>, structurallyValid: bool, rewritePlanValid: bool): Rewrite {
    Rewrite(p, IdentityPlan(|p|), rewritePlanValid, structurallyValid, false, 0, 0)
  }

  /** StructuredIfTailOptimizer::optimize. */
  function Optimize(p: seq<string>, labels: set<string>): Rewrite {
    match Parse(p, labels)
    case None => Unchanged(p, false, true)
    case Some(ns) =>
      var out := OptimizeSeq(ns);
      var plan := NormalizePaths(FlatPlan(out, |p|), p, Text(out));
      if plan.None? || !ValidPlan(plan.value, p, Text(out)) then Unchanged(p, true, false)
      else Rewrite(Text(out), plan.value, true, true, MergedIfs(ns) > 0, MergedIfs(ns), SkippedTails(ns))
  }
}
