/** The whole pass over optimizable code: local rounds, common-tail hoisting, clean-up rounds, and the narrow rollback
    that keeps a script from being emptied by the OP_1 VERIFY rule. */
module PeepholePass {
  import opened Wrappers
  import opened Hex
  import opened CondMachine
  import opened IfTree
  import opened IfTailOptimizer
  import opened ScriptVm
  import opened PeepholeRules
  import opened PeepholeSound
  import opened PeepholeRounds
  import opened PeepholeBoundary
  import opened LegacyAdapter
  import IfTailMeaning
  import IfTailPlan
  import IfTailNormalForm

  const MAX_ROUNDS: nat := 16

  /** Bytes of the bare-hex instructions among v. */
  function CountBytes(v: seq<string>): nat {
    if v == [] then 0 else (if IsInert(v[0]) then 0 else |v[0]| / 2) + CountBytes(v[1..])
  }

  predicate ContainsTrueVerify(v: seq<string>) {
    exists i :: 0 <= i && i + 1 < |v| && IsOp(v[i], OP_1) && IsOp(v[i + 1], OP_VERIFY)
  }

  /** Hoisting, then clean-up if it changed anything. */
  function HoistAndClean(p: seq<string>, rules: Rules): seq<string> {
    var r := Optimize(p, rules.options.placeholders.Keys);
    if r.structurallyValid && r.changed && r.rewritePlanValid then Rounds(r.instructions, rules, MAX_ROUNDS) else p
  }

  function Pass(p: seq<string>, rules: Rules): seq<string> {
    var q := HoistAndClean(Rounds(p, rules, MAX_ROUNDS), rules);
    if rules.allowTrueVerify && CountBytes(p) != 0 && CountBytes(q) == 0 && ContainsTrueVerify(p) then p else q
  }

  // ----- the virtual machine satisfies what hoisting asks for -----

  lemma VmSuitsHoisting(vm: Vm, labels: set<string>)
    requires Sane(vm) && labels <= vm.data.Keys
    ensures IfTailMeaning.RespectsKeys(MachineOf(vm))
    ensures IfTailMeaning.SafeIsDepthFree(MachineOf(vm), labels)
  {
    hide Meaning, Exec, IsSafeEncoding, Key;
    forall a, b, d, s | Key(a) == Key(b) ensures MachineOf(vm).exec(a, d, s) == MachineOf(vm).exec(b, d, s) {
      MeaningOfKey(vm, a, b);
    }
    forall e, d, d', s | IsSafeEncoding(e, labels) ensures MachineOf(vm).exec(e, d, s) == MachineOf(vm).exec(e, d', s) {
      SafeMeaning(vm, e, labels);
      ExecIgnoresDepth(vm, Meaning(vm, e), d, d', s);
    }
  }

  // ----- hoisting does not move the end of the executable prefix -----

  lemma {:induction false} ErasedText(ns: seq<Node>)
    ensures Text(EraseSeq(ns)) == Text(ns)
    decreases ns, 1
  {
    hide EraseNode, FlattenNode;
    if ns != [] {
      ErasedNodeText(ns[0]);
      ErasedText(ns[1..]);
      assert EraseSeq(ns)[1..] == EraseSeq(ns[1..]);
      EncodingsConcat(FlattenNode(ns[0]), FlattenSeq(ns[1..]));
      EncodingsConcat(FlattenNode(EraseNode(ns[0])), FlattenSeq(EraseSeq(ns[1..])));
    }
  }

  lemma {:induction false} ErasedNodeText(n: Node)
    ensures Encodings(FlattenNode(EraseNode(n))) == Encodings(FlattenNode(n))
    decreases n, 0
  {
    hide Encodings, FlattenNode;
    match n
    case AtomNode(a) =>
      ErasedAtomText(n);
    case IfRegion(o, t, k, e, x) =>
      ErasedText(t);
      ErasedText(e);
      RegionText(n);
      RegionText(EraseNode(n));
  }

  lemma ErasedAtomText(n: Node)
    requires n.AtomNode?
    ensures Encodings(FlattenNode(EraseNode(n))) == Encodings(FlattenNode(n))
  {
  }

  function Words(es: seq<string>): set<string> {
    set e | e in es
  }

  lemma WordsConcat(a: seq<string>, b: seq<string>)
    ensures Words(a + b) == Words(a) + Words(b)
  {
  }

  lemma TextConcat(a: seq<Node>, b: seq<Node>)
    ensures Text(a + b) == Text(a) + Text(b)
  {
    FlattenConcat(a, b);
    EncodingsConcat(FlattenSeq(a), FlattenSeq(b));
  }

  lemma RegionWords(n: Node)
    requires n.IfRegion?
    ensures var w := Words(Encodings(FlattenNode(n)));
            && w <= {n.opener.encoding, n.endMarker.encoding} + Words(Text(n.thenBody))
                    + (if n.elseMarker.Some? then {n.elseMarker.value.encoding} + Words(Text(n.elseBody)) else {})
            && {n.opener.encoding, n.endMarker.encoding} + Words(Text(n.thenBody)) <= w
            && (n.elseMarker.Some? ==> {n.elseMarker.value.encoding} + Words(Text(n.elseBody)) <= w)
  {
    hide Encodings, FlattenNode, Text;
    RegionText(n);
  }

  lemma HoistWords(o: Atom, t: seq<Node>, k: Option<Atom>, e: seq<Node>, x: Atom)
    ensures Words(Text(Hoist(o, t, k, e, x))) <= Words(Encodings(FlattenNode(IfRegion(o, t, k, e, x))))
  {
    hide MergeSeq, EquivSeq, SafeSeq, EraseSeq, Words, Encodings, FlattenNode, Text, Hoist;
    var t0, t1, e0, e1 := HoistParts(o, t, k, e, x);
    var kept, whole := IfRegion(o, t0, k, e0, x), IfRegion(o, t, k, e, x);
    IfTailNormalForm.MergeErased(t1, e1);
    ErasedText(MergeSeq(t1, e1));
    ErasedText(t1);
    TextConcat(t0, t1);
    TextConcat(e0, e1);
    TextConcat([kept], MergeSeq(t1, e1));
    WordsConcat(Text(t0), Text(t1));
    WordsConcat(Text(e0), Text(e1));
    WordsConcat(Text([kept]), Text(t1));
    IfTailPlan.SingleFlat(kept);
    assert Text([kept]) == Encodings(FlattenNode(kept)) by { TextOfOne(kept); }
    RegionWords(kept);
    RegionWords(whole);
  }

  lemma TextOfOne(n: Node)
    ensures Text([n]) == Encodings(FlattenNode(n))
  {
    IfTailPlan.SingleFlat(n);
  }

  /** Hoisting writes no instruction that was not there before. */
  lemma {:induction false} OptimizeWords(ns: seq<Node>)
    ensures Words(Text(OptimizeSeq(ns))) <= Words(Text(ns))
    decreases ns, 1
  {
    hide OptimizeNode, FlattenNode, Words, Encodings;
    if ns != [] {
      OptimizeWordsNode(ns[0]);
      OptimizeWords(ns[1..]);
      TextConcat(OptimizeNode(ns[0]), OptimizeSeq(ns[1..]));
      WordsConcat(Text(OptimizeNode(ns[0])), Text(OptimizeSeq(ns[1..])));
      EncodingsConcat(FlattenNode(ns[0]), FlattenSeq(ns[1..]));
      WordsConcat(Encodings(FlattenNode(ns[0])), Text(ns[1..]));
    }
  }

  lemma {:induction false} OptimizeWordsNode(n: Node)
    ensures Words(Text(OptimizeNode(n))) <= Words(Encodings(FlattenNode(n)))
    decreases n, 0
  {
    hide Words, Encodings, FlattenNode, Text, Hoist;
    match n
    case AtomNode(_) =>
      TextOfOne(n);
    case IfRegion(o, t, k, e, x) =>
      OptimizeWords(t);
      OptimizeWords(e);
      HoistWords(o, OptimizeSeq(t), k, OptimizeSeq(e), x);
      RegionWords(n);
      RegionWords(IfRegion(o, OptimizeSeq(t), k, OptimizeSeq(e), x));
  }

  /** An ordinary last instruction of balanced code stays last. */
  lemma {:induction false} LastStaysLast(ns: seq<Node>, labels: set<string>)
    requires GoodSeq(ns, labels) && ns != [] && Text(ns) != []
    requires ControlToken(Text(ns)[|Text(ns)| - 1]) == NoToken
    ensures Text(OptimizeSeq(ns)) != []
    ensures Text(OptimizeSeq(ns))[|Text(OptimizeSeq(ns))| - 1] == Text(ns)[|Text(ns)| - 1]
    decreases ns
  {
    hide ControlToken, IsSafeEncoding;
    EncodingsConcat(FlattenNode(ns[0]), FlattenSeq(ns[1..]));
    TextConcat(OptimizeNode(ns[0]), OptimizeSeq(ns[1..]));
    if |ns| == 1 {
      assert ns[1..] == [];
      var last := FlattenNode(ns[0])[|FlattenNode(ns[0])| - 1];
      assert Text(ns)[|Text(ns)| - 1] == last.encoding;
      assert ns[0].AtomNode?;
      assert Text(OptimizeSeq(ns)) == Text([ns[0]]) + [];
      TextOfOne(ns[0]);
    } else {
      NonEmptyText(ns[1..]);
      LastStaysLast(ns[1..], labels);
    }
  }

  lemma NonEmptyText(ns: seq<Node>)
    requires ns != []
    ensures Text(ns) != []
  {
    EncodingsConcat(FlattenNode(ns[0]), FlattenSeq(ns[1..]));
    assert FlattenNode(ns[0]) != [];
  }

  /** Hoisting keeps a final OP_RETURN final and makes none up. */
  lemma HoistContinues(p: seq<string>, labels: set<string>)
    ensures Continues(p, Optimize(p, labels).instructions)
  {
    hide ControlToken, IsSafeEncoding, ValidPlan, NormalizePaths, FlatPlan, IsReturnText, Parse, OptimizeSeq;
    if Parse(p, labels).Some? {
      IfTailPlan.RewritePlanIsAlwaysValid(p, labels);
      ParseSound(p, labels);
      TreeContinues(Parse(p, labels).value, labels);
    }
  }

  lemma TreeContinues(ns: seq<Node>, labels: set<string>)
    requires GoodSeq(ns, labels)
    ensures Continues(Text(ns), Text(OptimizeSeq(ns)))
  {
    hide ControlToken, IsReturnText, OptimizeSeq, GoodSeq;
    var p, q := Text(ns), Text(OptimizeSeq(ns));
    OptimizeWords(ns);
    forall k | 0 <= k < |q| ensures q[k] in p {
      assert q[k] in Words(q);
    }
    if p != [] && IsReturnText(p[|p| - 1]) {
      ReturnIsNoControl(p[|p| - 1]);
      LastStaysLast(ns, labels);
    }
  }

  lemma ReturnIsNoControl(s: string)
    requires IsReturnText(s)
    ensures ControlToken(s) == NoToken
  {
    SingleOpcodeBytes(s, OP_IF);
    SingleOpcodeBytes(s, OP_NOTIF);
    SingleOpcodeBytes(s, OP_ELSE);
    SingleOpcodeBytes(s, OP_ENDIF);
  }

  // ----- the main result -----

  lemma HoistBehaves(vm: Vm, p: seq<string>, rules: Rules, st: Status<Core>)
    requires Sane(vm) && KnowsPlaceholders(rules, vm)
    ensures SameBehaviour(vm, p, HoistAndClean(p, rules), st)
  {
    hide Optimize, Round, Run;
    var labels := rules.options.placeholders.Keys;
    var r := Optimize(p, labels);
    if r.structurallyValid && r.changed && r.rewritePlanValid {
      VmSuitsHoisting(vm, labels);
      IfTailMeaning.OptimizePreservesMeaning(MachineOf(vm), p, st, labels);
      RoundsBehave(vm, r.instructions, rules, MAX_ROUNDS, st);
    }
  }

  /** The whole pass preserves the behaviour of optimizable code from every status, on every virtual machine that knows
      the bound placeholders. */
  lemma PassPreservesBehaviour(vm: Vm, p: seq<string>, rules: Rules, st: Status<Core>)
    requires Sane(vm) && KnowsPlaceholders(rules, vm)
    ensures SameBehaviour(vm, p, Pass(p, rules), st)
  {
    hide Rounds, HoistAndClean, Run;
    RoundsBehave(vm, p, rules, MAX_ROUNDS, st);
    HoistBehaves(vm, Rounds(p, rules, MAX_ROUNDS), rules, st);
  }

  lemma {:induction false} RoundsShrink(p: seq<string>, rules: Rules, k: nat)
    ensures |Rounds(p, rules, k)| <= |p|
    decreases k
  {
    hide Round, Pushes, TotalBytes;
    if k > 0 && Round(p, rules).1 {
      RoundAlone(p, rules);
      RoundsShrink(Round(p, rules).0, rules, k - 1);
    }
  }

  /** The pass never adds an instruction. */
  lemma PassShrinks(p: seq<string>, rules: Rules)
    ensures |Pass(p, rules)| <= |p|
  {
    hide Rounds, Optimize, CountBytes;
    RoundsShrink(p, rules, MAX_ROUNDS);
    var q := Rounds(p, rules, MAX_ROUNDS);
    var r := Optimize(q, rules.options.placeholders.Keys);
    IfTailNormalForm.ChangedMeansShorter(q, rules.options.placeholders.Keys);
    RoundsShrink(r.instructions, rules, MAX_ROUNDS);
  }

  /** Hoisting takes effect: code in front of clean-up is no longer than what the optimizer returns, so whatever it
      merges stays merged. */
  lemma HoistTakesEffect(p: seq<string>, rules: Rules)
    ensures |HoistAndClean(p, rules)| <= |Optimize(p, rules.options.placeholders.Keys).instructions|
  {
    hide Rounds, Optimize;
    var r := Optimize(p, rules.options.placeholders.Keys);
    IfTailNormalForm.ChangedMeansShorter(p, rules.options.placeholders.Keys);
    OnlyValidCodeChanges(p, rules.options.placeholders.Keys);
    RoundsShrink(r.instructions, rules, MAX_ROUNDS);
  }

  lemma OnlyValidCodeChanges(p: seq<string>, labels: set<string>)
    ensures var r := Optimize(p, labels); r.changed ==> r.structurallyValid && r.rewritePlanValid
  {
    hide Parse, ValidPlan, NormalizePaths, FlatPlan, OptimizeSeq;
  }

  /** The rollback: a script that has executable bytes and elides an OP_1 VERIFY pair never loses all of them. */
  lemma PassKeepsScriptNonEmpty(p: seq<string>, rules: Rules)
    requires rules.allowTrueVerify && ContainsTrueVerify(p) && exists k :: 0 <= k < |p| && !IsInert(p[k])
    ensures exists k :: 0 <= k < |Pass(p, rules)| && !IsInert(Pass(p, rules)[k])
  {
    hide HoistAndClean, Rounds, CountBytes, ContainsTrueVerify, IsInert;
    BytesAreHex(p);
    BytesAreHex(Pass(p, rules));
  }

  /** Code has bytes exactly when some instruction is bare hex. */
  lemma {:induction false} BytesAreHex(v: seq<string>)
    ensures CountBytes(v) != 0 <==> exists k :: 0 <= k < |v| && !IsInert(v[k])
  {
    if v != [] {
      BytesAreHex(v[1..]);
      HexHasBytes(v[0]);
      hide IsInert;
      if k :| 0 <= k < |v| && !IsInert(v[k]) {
        assert k > 0 ==> v[1..][k - 1] == v[k];
      }
      if k :| 0 <= k < |v[1..]| && !IsInert(v[1..][k]) {
        assert v[k + 1] == v[1..][k];
      }
    }
  }

  lemma HexHasBytes(s: string)
    ensures !IsInert(s) ==> |s| / 2 > 0
  {
  }

  /** Only such a script is ever rolled back: otherwise the pass goes at least as far as rounds and hoisting do, and
      what it returns is the code no further round changes unless the cap on rounds was met. */
  lemma PassTakesEffect(p: seq<string>, rules: Rules)
    ensures var q := Rounds(p, rules, MAX_ROUNDS);
            var labels := rules.options.placeholders.Keys;
            || (|Pass(p, rules)| <= |Optimize(q, labels).instructions| <= |q| <= |p|
                && (Round(Pass(p, rules), rules).1 ==>
                      Round(q, rules).1 || Round(Rounds(Optimize(q, labels).instructions, rules, MAX_ROUNDS), rules).1))
            || (Pass(p, rules) == p && rules.allowTrueVerify && ContainsTrueVerify(p) && CountBytes(p) != 0
                && CountBytes(HoistAndClean(q, rules)) == 0)
  {
    hide Rounds, CountBytes, ContainsTrueVerify, Optimize, Round;
    var q := Rounds(p, rules, MAX_ROUNDS);
    HoistTakesEffect(q, rules);
    IfTailNormalForm.ChangedMeansShorter(q, rules.options.placeholders.Keys);
    RoundsShrink(p, rules, MAX_ROUNDS);
  }
}
