/** Which windows a round rewrites, listed on their own: a round reports a change exactly when one of them is present,
    so code that no round changes has none left. */
module PeepholeWindows {
  import opened Wrappers
  import opened Hex
  import opened ScriptCodec
  import opened CondMachine
  import opened ScriptVm
  import opened PeepholeRules
  import opened PeepholeSound
  import opened PeepholeRounds
  import opened PeepholeMeaning

  // ----- the windows -----

  predicate IsPush(s: string) {
    WellFormedPushSize(s).Some?
  }

  predicate TripleWindow(a: string, b: string, e: string) {
    || (IsPush(a) && IsPush(b) && IsOp(e, OP_EQUAL))
    || (IsPush(a) && IsOp(b, OP_DUP) && IsOneOf(e, {OP_EQUAL, OP_DROP, OP_2DROP}))
    || (ProducesCanonicalBool(a) && IsOp(b, OP_NOT) && IsOp(e, OP_NOT))
    || (ProducesCanonicalBool(a) && IsOneOf(b, {OP_0, OP_1}) && IsOneOf(e, {OP_EQUAL, OP_NUMEQUAL, OP_NUMNOTEQUAL}))
  }

  /** Two instructions that fuse wherever they stand. */
  predicate PairWindow(a: string, b: string, rules: Rules) {
    || IsProfitableDuplicatePush(a, b, rules.options)
    || (IsOp(a, OP_1) && IsOneOf(b, {OP_ADD, OP_SUB, OP_PICK, OP_ROLL}))
    || (IsOp(a, OP_1NEGATE) && IsOneOf(b, {OP_ADD, OP_SUB}))
    || (IsOp(a, OP_0) && IsOp(b, OP_PICK))
    || (IsOp(a, OP_2) && IsOp(b, OP_ROLL))
    || (IsOp(a, OP_SWAP) && IsOp(b, OP_DROP))
    || (IsOp(a, OP_OVER) && IsOp(b, OP_OVER))
    || (IsOp(a, OP_DROP) && IsOp(b, OP_DROP))
    || (IsPush(a) && IsOp(b, OP_DROP))
    || (IsOneOf(a, {OP_EQUAL, OP_NUMEQUAL, OP_CHECKSIG, OP_CHECKMULTISIG}) && IsOp(b, OP_VERIFY))
    || (rules.allowTrueVerify && IsOp(a, OP_1) && IsOp(b, OP_VERIFY))
  }

  /** Two instructions that fuse because of what stands before them. */
  predicate ContextWindow(before: seq<string>, a: string, b: string) {
    || (AfterCanonicalBool(before) && IsOp(a, OP_NOT) && IsOneOf(b, {OP_NOT, OP_IF, OP_NOTIF}))
    || (AfterCanonicalBool(before) && IsOp(a, OP_0) && IsOneOf(b, {OP_EQUAL, OP_NUMEQUAL}))
    || (ProvenDepth(before) >= 1 && IsOp(a, OP_DUP) && IsOp(b, OP_DROP))
    || (ProvenDepth(before) >= 2 && IsOp(a, OP_SWAP) && IsOp(b, OP_SWAP))
  }

  predicate WindowAt(p: seq<string>, i: nat, rules: Rules) {
    || (i + 2 < |p| && TripleWindow(p[i], p[i + 1], p[i + 2]))
    || (i + 1 < |p| && (PairWindow(p[i], p[i + 1], rules) || ContextWindow(p[..i], p[i], p[i + 1])))
  }

  // ----- one position -----

  lemma SmallOps(s: string, op: Byte)
    requires IsOp(s, op)
    ensures !IsInert(s) && (IsControlFlow(s) <==> op in CONTROL_BYTES)
    ensures forall ops: set<Byte> :: IsOneOf(s, ops) <==> op in ops
    ensures forall other: Byte :: IsOp(s, other) <==> other == op
  {
    assert DigitValue(s[0]) >= 0;
  }

  lemma PushIsPlain(s: string)
    requires IsPush(s)
    ensures !IsInert(s) && !IsControlFlow(s) && DecodedPushPayload(s).Some?
  {
    assert DigitValue(s[0]) >= 0;
  }

  lemma ProducerIsPlain(s: string)
    requires ProducesCanonicalBool(s)
    ensures !IsInert(s) && !IsControlFlow(s) && |s| == 2
  {
    assert DigitValue(s[0]) >= 0;
  }

  /** Triple rewrites are exactly the triple windows; each is strictly smaller than what it replaces. */
  lemma TripleIsWindow(a: string, b: string, e: string)
    ensures TryRewriteTriple(a, b, e).Some? <==> TripleWindow(a, b, e)
    ensures TripleWindow(a, b, e) ==>
              !IsInert(a) && !IsInert(b) && !IsInert(e) && !IsControlFlow(a) && !IsControlFlow(b) && !IsControlFlow(e)
  {
    hide IsInert, IsControlFlow, WellFormedPushSize, DecodedPushPayload, IsOp, IsOneOf, ProducesCanonicalBool,
      IsStrictlySmaller;
    CandidateIsWindow(a, b, e);
    if TripleWindow(a, b, e) {
      WindowIsPlain(a, b, e);
      WindowShrinks(a, b, e);
    }
  }

  lemma CandidateIsWindow(a: string, b: string, e: string)
    ensures TripleCandidate(a, b, e).Some? <==> TripleWindow(a, b, e)
  {
    hide IsStrictHex, WellFormedPushSize;
    PayloadOfPush(a);
    PayloadOfPush(b);
    hide DecodedPushPayload, ProducesCanonicalBool;
  }

  lemma PayloadOfPush(s: string)
    ensures DecodedPushPayload(s).Some? <==> IsPush(s)
  {
  }

  lemma WindowIsPlain(a: string, b: string, e: string)
    requires TripleWindow(a, b, e)
    ensures !IsInert(a) && !IsInert(b) && !IsInert(e) && !IsControlFlow(a) && !IsControlFlow(b) && !IsControlFlow(e)
    ensures IsStrictHex(a) && IsStrictHex(b) && IsStrictHex(e)
  {
    hide IsInert, IsControlFlow, WellFormedPushSize, IsOp, IsOneOf, ProducesCanonicalBool, IsStrictHex;
    if IsPush(a) { PushIsPlain(a); } else { ProducerIsPlain(a); }
    if IsPush(b) { PushIsPlain(b); }
    if IsOneOf(b, {OP_0, OP_1}) { OneOfIsPlain(b, {OP_0, OP_1}); }
    if IsOp(b, OP_DUP) { SmallOps(b, OP_DUP); }
    if IsOp(b, OP_NOT) { SmallOps(b, OP_NOT); }
    if IsOp(e, OP_EQUAL) { SmallOps(e, OP_EQUAL); }
    if IsOp(e, OP_NOT) { SmallOps(e, OP_NOT); }
    if IsOneOf(e, {OP_EQUAL, OP_DROP, OP_2DROP}) { OneOfIsPlain(e, {OP_EQUAL, OP_DROP, OP_2DROP}); }
    if IsOneOf(e, {OP_EQUAL, OP_NUMEQUAL, OP_NUMNOTEQUAL}) { OneOfIsPlain(e, {OP_EQUAL, OP_NUMEQUAL, OP_NUMNOTEQUAL}); }
    PlainIsHex(a);
    PlainIsHex(b);
    PlainIsHex(e);
  }

  lemma PlainIsHex(s: string)
    ensures !IsInert(s) ==> IsStrictHex(s)
  {
  }

  lemma OneOfIsPlain(s: string, ops: set<Byte>)
    requires IsOneOf(s, ops) && ops !! CONTROL_BYTES
    ensures !IsInert(s) && !IsControlFlow(s)
  {
    assert DigitValue(s[0]) >= 0;
  }

  lemma WindowShrinks(a: string, b: string, e: string)
    requires TripleCandidate(a, b, e).Some? && IsStrictHex(a) && IsStrictHex(b) && IsStrictHex(e)
    ensures IsStrictlySmaller(a, b, e, TripleCandidate(a, b, e).value)
  {
    var rs := TripleCandidate(a, b, e).value;
    if ProducesCanonicalBool(a) {
      ProducerIsPlain(a);
    }
    hide IsStrictHex, DecodedPushPayload, IsOneOf, IsOp, ProducesCanonicalBool;
    TwoDigits(OP_0);
    TwoDigits(OP_1);
    TwoDigits(OP_NOT);
    AtLeastTwo(a);
    AtLeastTwo(b);
    AtLeastTwo(e);
    assert |rs| <= 2 && (|rs| == 2 ==> rs[0].encoding == a && |a| == 2 && rs[1].encoding == OpHex(OP_NOT));
    assert |rs| >= 1 ==> rs[0].encoding == a || rs[0].encoding == OpHex(OP_0) || rs[0].encoding == OpHex(OP_1);
    hide TripleCandidate, OpHex;
    if |rs| == 1 {
      assert ReplacementDigits(rs[1..]) == 0;
    } else if |rs| == 2 {
      assert rs[1..][0] == rs[1] && rs[1..][1..] == [];
      assert ReplacementDigits(rs[1..]) == |rs[1].encoding| + ReplacementDigits([]);
    }
  }

  lemma TwoDigits(op: Byte)
    ensures |OpHex(op)| == 2 && IsStrictHex(OpHex(op))
  {
    OpHexIsOp(op);
  }

  lemma AtLeastTwo(s: string)
    requires IsStrictHex(s)
    ensures |s| >= 2
  {
  }

  /** Pair rewrites are exactly the pair and context windows. */
  lemma PairIsWindow(before: seq<string>, a: string, b: string, rules: Rules)
    requires !IsProfitableDuplicatePush(a, b, rules.options)
    ensures TryRewritePair(a, b, before, rules.allowTrueVerify) != KeepBoth <==>
            PairWindow(a, b, rules) || ContextWindow(before, a, b)
  {
    hide WellFormedPushSize, ProvenDepth, ProducesCanonicalBool, IsProfitableDuplicatePush;
  }

  lemma PairWindowIsPlain(before: seq<string>, a: string, b: string, rules: Rules)
    requires !IsProfitableDuplicatePush(a, b, rules.options)
    requires PairWindow(a, b, rules) || ContextWindow(before, a, b)
    ensures !IsInert(a) && !IsControlFlow(a) && !IsInert(b)
  {
    hide WellFormedPushSize, ProvenDepth, ProducesCanonicalBool, IsProfitableDuplicatePush, AfterCanonicalBool;
    if IsPush(a) {
      PushIsPlain(a);
    }
    assert |b| == 2 && DigitValue(b[0]) >= 0;
    assert IsPush(a) || (|a| == 2 && DigitValue(a[0]) >= 0);
  }

  /** The scan rewrites at a position exactly when a window starts there. */
  lemma MoveIsWindow(p: seq<string>, i: nat, rules: Rules)
    requires i < |p|
    ensures NextMove(p, |p|, i, p[..i], rules).rewrites <==> WindowAt(p, i, rules)
    ensures !WindowAt(p, i, rules) ==> NextMove(p, |p|, i, p[..i], rules) == KeepOne(p[i])
  {
    hide IsInert, IsControlFlow, IsProfitableDuplicatePush, TryRewritePair, TryRewriteTriple, TripleWindow, PairWindow,
      ContextWindow;
    if i + 2 < |p| {
      TripleIsWindow(p[i], p[i + 1], p[i + 2]);
    }
    if i + 1 < |p| {
      if IsProfitableDuplicatePush(p[i], p[i + 1], rules.options) {
        DuplicateIsWindow(p[i], p[i + 1], rules);
      } else {
        PairIsWindow(p[..i], p[i], p[i + 1], rules);
        if PairWindow(p[i], p[i + 1], rules) || ContextWindow(p[..i], p[i], p[i + 1]) {
          PairWindowIsPlain(p[..i], p[i], p[i + 1], rules);
        }
      }
    }
  }

  lemma DuplicateIsWindow(a: string, b: string, rules: Rules)
    requires IsProfitableDuplicatePush(a, b, rules.options)
    ensures PairWindow(a, b, rules)
  {
    hide IsProfitableDuplicatePush;
  }

  // ----- a whole round -----

  lemma {:induction false} ChangedStays(p: seq<string>, i: nat, s: Scan, rules: Rules)
    requires i <= |p| && s.changed
    ensures ScanFrom(p, |p|, i, s, rules).changed
    decreases |p| - i
  {
    hide NextMove;
    if i < |p| {
      var m := NextMove(p, |p|, i, Texts(s.out), rules);
      ChangedStays(p, i + m.consumed, Scan(s.out + Place(m.emits, i), s.changed || m.rewrites), rules);
    }
  }

  lemma {:induction false} ScanFindsWindows(p: seq<string>, i: nat, s: Scan, rules: Rules)
    requires i <= |p| && !s.changed && Texts(s.out) == p[..i]
    ensures ScanFrom(p, |p|, i, s, rules).changed <==> exists j :: i <= j < |p| && WindowAt(p, j, rules)
    decreases |p| - i
  {
    hide NextMove, WindowAt;
    if i < |p| {
      MoveIsWindow(p, i, rules);
      var m := NextMove(p, |p|, i, Texts(s.out), rules);
      var next := Scan(s.out + Place(m.emits, i), s.changed || m.rewrites);
      if WindowAt(p, i, rules) {
        ChangedStays(p, i + m.consumed, next, rules);
      } else {
        PlacedTexts(s.out, m.emits, i);
        assert Encs(m.emits) == [p[i]];
        assert p[..i + 1] == p[..i] + [p[i]];
        ScanFindsWindows(p, i + 1, next, rules);
      }
    }
  }

  /** A round changes code exactly when a window is present; so settled code has none. */
  lemma RoundFindsWindows(p: seq<string>, rules: Rules)
    ensures Round(p, rules).1 <==> exists i :: 0 <= i < |p| && WindowAt(p, i, rules)
  {
    hide WindowAt;
    assert p[..0] == [] && Texts([]) == [];
    ScanFindsWindows(p, 0, Scan([], false), rules);
  }

  // ----- provenance of a rewrite -----

  /** Every emitted instruction is its source letter for letter, or a new opcode that inherits from the last instruction
      of its window, where execution would have stopped. */
  lemma InheritedPosition(v: seq<string>, end: nat, i: nat, emitted: seq<string>, rules: Rules)
    requires i < end <= |v|
    ensures var m := NextMove(v, end, i, emitted, rules);
            forall k :: 0 <= k < |m.emits| ==>
              && m.emits[k].offset < m.consumed
              && (m.emits[k].encoding == v[i + m.emits[k].offset] || m.emits[k].offset == m.consumed - 1)
  {
    hide IsInert, IsControlFlow, IsProfitableDuplicatePush, TryRewritePair, DecodedPushPayload, IsOp, IsOneOf,
      ProducesCanonicalBool, IsStrictlySmaller;
  }

  // ----- the context conditions are as wide as they can be -----

  predicate IsDepthOp(s: string) {
    IsPush(s) || IsOp(s, OP_DUP) || IsOp(s, OP_DROP) || IsOp(s, OP_SWAP)
  }

  /** On straight code of pushes, DUP, DROP and SWAP the proven depth is not just a bound: it is the height of the stack
      the code builds. */
  lemma {:induction false} DepthIsExact(vm: Vm, v: seq<string>, alt: seq<Item>)
    requires forall k :: 0 <= k < |v| ==> IsDepthOp(v[k])
    ensures var after := Run(MachineOf(vm), v, Running([], Core([], alt)));
            after.Failed? || (after.Running? && after.cond == [] && ProvenDepth(v) == |after.state.main|)
  {
    hide IsDepthOp, NextDepth;
    var st := Running([], Core([], alt));
    if v != [] {
      var init, last := v[..|v| - 1], v[|v| - 1];
      DepthIsExact(vm, init, alt);
      assert v == init + [last];
      RunConcat(MachineOf(vm), init, [last], st);
      var before := Run(MachineOf(vm), init, st);
      RunOne(MachineOf(vm), last, before);
      DepthOpStep(vm, ProvenDepth(init), last, before);
    }
  }

  lemma DepthOpStep(vm: Vm, depth: nat, last: string, before: Status<Core>)
    requires IsDepthOp(last)
    requires before.Failed? || (before.Running? && before.cond == [] && depth == |before.state.main|)
    ensures var after := Step(MachineOf(vm), last, before);
            || after.Failed?
            || (after.Running? && after.cond == [] && NextDepth(depth, last) == |after.state.main|)
  {
    hide ControlToken, Meaning, WellFormedPushSize, ValueOp, IsInert, IsControlFlow;
    if before.Running? {
      if IsPush(last) {
        PushIsPlain(last);
        NotControl(last);
        PushDenotes(vm, last);
      } else {
        var op := if IsOp(last, OP_DUP) then OP_DUP else if IsOp(last, OP_DROP) then OP_DROP else OP_SWAP;
        SmallOps(last, op);
        NotControl(last);
        OpDenotes(vm, last, op);
        StackEffects(vm, before.state.main);
      }
    }
  }

  /** An opcode counts as a producer exactly when no machine lets it leave anything but a canonical boolean. */
  lemma ProducersAreExact(op: Byte)
    ensures op in CANONICAL_BOOL_PRODUCERS <==>
            forall vm: Vm, d: nat, c: Core :: Sane(vm) ==> LeavesBoolOrFails(vm, op, d, c)
  {
    if op in CANONICAL_BOOL_PRODUCERS {
      forall vm: Vm, d: nat, c: Core ensures LeavesBoolOrFails(vm, op, d, c) {
        ProducerOp(vm, op, d, c);
      }
    } else {
      var vm, c := Loose(), Core([[2], [2], [2], [2], [2], [2], [2]], [[2]]);
      LooseIsSane();
      LooseLeavesOther(op, vm, c);
      assert Sane(vm) && !LeavesBoolOrFails(vm, op, 0, c);
    }
  }

  predicate LeavesBoolOrFails(vm: Vm, op: Byte, d: nat, c: Core) {
    var o := Exec(vm, OpMeaning(op), d, c);
    o.Fail? || (o.Next? && CanonicalTop(o.state))
  }

  function SmallNumber(x: Item): Option<int> {
    if x == [] then Some(0)
    else if x == [1] then Some(1)
    else if x == [2] then Some(2)
    else if x == [0x81] then Some(-1)
    else None
  }

  /** A machine whose free parts leave whatever the rules do not exclude. */
  function Loose(): Vm {
    Vm(SmallNumber, n => [2], c => Some((true, c)), c => Some((true, c)), map[], (i, d, c) => Next(c))
  }

  lemma LooseIsSane()
    ensures Sane(Loose())
  {
  }

  lemma LooseLeavesOther(op: Byte, vm: Vm, c: Core)
    requires op !in CANONICAL_BOOL_PRODUCERS && vm == Loose()
    requires c == Core([[2], [2], [2], [2], [2], [2], [2]], [[2]])
    ensures !LeavesBoolOrFails(vm, op, 0, c)
  {
    hide StackOp, ValueOp, IsStackOp, IsValueOp, SmallNumber;
    if OpMeaning(op).Push? {
      LoosePush(op);
    } else if IsStackOp(op) {
      LooseStackOp(op, vm, c);
    } else if IsValueOp(op) {
      LooseValueOp(op, vm, c);
    }
  }

  lemma LoosePush(op: Byte)
    requires op !in CANONICAL_BOOL_PRODUCERS && OpMeaning(op).Push?
    ensures OpMeaning(op).payload != [] && OpMeaning(op).payload != [1]
  {
  }

  lemma LooseStackOp(op: Byte, vm: Vm, c: Core)
    requires IsStackOp(op) && vm == Loose() && c == Core([[2], [2], [2], [2], [2], [2], [2]], [[2]])
    ensures StackOp(vm, op, c.main).Some? && StackOp(vm, op, c.main).value != []
    ensures StackOp(vm, op, c.main).value[0] == [2]
  {
  }

  lemma LooseValueOp(op: Byte, vm: Vm, c: Core)
    requires IsValueOp(op) && op !in CANONICAL_BOOL_PRODUCERS
    requires vm == Loose() && c == Core([[2], [2], [2], [2], [2], [2], [2]], [[2]])
    ensures ValueOp(vm, op, c.main).Some? && ValueOp(vm, op, c.main).value != []
    ensures ValueOp(vm, op, c.main).value[0] == [2]
  {
    assert [2][0] == 2 && Truthy([2]);
    assert Bool(true) == [1] && [1][0] == 1 && Truthy([1]);
  }
}
