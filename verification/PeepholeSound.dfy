/** From rules to rounds: every move of a scan, every round, and any number of rounds keep the behaviour. */
module PeepholeSound {
  import opened Wrappers
  import opened Hex
  import opened ScriptCodec
  import opened CondMachine
  import opened IfTree
  import opened ScriptVm
  import opened PeepholeRules
  import opened PeepholeMeaning

  function Encs(rs: seq<Replacement>): (r: seq<string>)
    ensures |r| == |rs|
  {
    seq(|rs|, k requires 0 <= k < |rs| => rs[k].encoding)
  }

  // ----- windows of three -----

  lemma TripleTexts(vm: Vm, a: string, b: string, e: string)
    ensures Meanings(vm, [a, b, e]) == [Meaning(vm, a), Meaning(vm, b), Meaning(vm, e)]
  {
  }

  lemma PairTexts(vm: Vm, a: string, b: string)
    ensures Meanings(vm, [a, b]) == [Meaning(vm, a), Meaning(vm, b)]
    ensures Meanings(vm, [a]) == [Meaning(vm, a)]
    ensures Meanings(vm, []) == []
  {
  }

  lemma OneOf(s: string, p: Byte, q: Byte)
    requires IsOneOf(s, {p, q})
    ensures IsOp(s, p) || IsOp(s, q)
  {
  }

  /** Rules whose first instruction is a constant push. */
  lemma PushTripleSound(vm: Vm, a: string, b: string, e: string, d: nat, c: Core)
    requires DecodedPushPayload(a).Some? && TripleCandidate(a, b, e).Some?
    requires (DecodedPushPayload(b).Some? && IsOp(e, OP_EQUAL))
             || (IsOp(b, OP_DUP) && (IsOp(e, OP_EQUAL) || IsOp(e, OP_DROP) || IsOp(e, OP_2DROP)))
    ensures ExecAll(vm, [Meaning(vm, a), Meaning(vm, b), Meaning(vm, e)], d, c) ==
            ExecAll(vm, Meanings(vm, Encs(TripleCandidate(a, b, e).value)), d, c)
  {
    hide ExecAll, Meaning, DecodedPushPayload, ProducesCanonicalBool, IsOneOf;
    PayloadIsPush(vm, a);
    var x := Meaning(vm, a).payload;
    PushDupRules(vm, x, d, c);
    OpHexDenotes(vm, OP_1);
    OpHexDenotes(vm, OP_0);
    var rs := TripleCandidate(a, b, e).value;
    if DecodedPushPayload(b).Some? && IsOp(e, OP_EQUAL) {
      SamePayload(vm, a, b);
      OpDenotes(vm, e, OP_EQUAL);
      ConstantEquality(vm, x, Meaning(vm, b).payload, d, c);
      assert Encs(rs) == [OpHex(if DecodedPushPayload(a) == DecodedPushPayload(b) then OP_1 else OP_0)];
      PairTexts(vm, Encs(rs)[0], "");
    } else {
      OpDenotes(vm, b, OP_DUP);
      if IsOp(e, OP_EQUAL) {
        OpDenotes(vm, e, OP_EQUAL);
        assert Encs(rs) == [OpHex(OP_1)];
        PairTexts(vm, OpHex(OP_1), "");
      } else if IsOp(e, OP_DROP) {
        OpDenotes(vm, e, OP_DROP);
        assert Encs(rs) == [a];
        PairTexts(vm, a, "");
      } else {
        OpDenotes(vm, e, OP_2DROP);
        assert Encs(rs) == [];
        PairTexts(vm, a, "");
      }
    }
  }

  lemma PayloadIsPush(vm: Vm, a: string)
    requires DecodedPushPayload(a).Some?
    ensures Meaning(vm, a).Push?
  {
    hide Meaning, WellFormedPushSize;
    assert WellFormedPushSize(a).Some?;
    PushDenotes(vm, a);
  }

  /** What follows a producer of a canonical boolean, and what replaces it. */
  lemma BoolTailSound(vm: Vm, b: string, e: string, d: nat, c: Core)
    requires Sane(vm) && CanonicalTop(c)
    ensures IsOp(b, OP_NOT) && IsOp(e, OP_NOT) ==>
              ExecAll(vm, [Meaning(vm, b), Meaning(vm, e)], d, c) == Next(c)
    ensures IsOp(b, OP_1) && (IsOp(e, OP_EQUAL) || IsOp(e, OP_NUMEQUAL)) ==>
              ExecAll(vm, [Meaning(vm, b), Meaning(vm, e)], d, c) == Next(c)
    ensures IsOp(b, OP_0) && IsOp(e, OP_NUMNOTEQUAL) ==>
              ExecAll(vm, [Meaning(vm, b), Meaning(vm, e)], d, c) == Next(c)
    ensures IsOp(b, OP_0) && (IsOp(e, OP_EQUAL) || IsOp(e, OP_NUMEQUAL)) ==>
              ExecAll(vm, [Meaning(vm, b), Meaning(vm, e)], d, c) == Exec(vm, Op(OP_NOT), d, c)
    ensures IsOp(b, OP_1) && IsOp(e, OP_NUMNOTEQUAL) ==>
              ExecAll(vm, [Meaning(vm, b), Meaning(vm, e)], d, c) == Exec(vm, Op(OP_NOT), d, c)
  {
    hide ExecAll, Exec, Meaning, IsOp;
    NotOnBool(vm, d, c);
    CompareBool(vm, d, c);
    ExecOne(vm, Op(OP_NOT), d, c);
    if IsOp(b, OP_NOT) { OpDenotes(vm, b, OP_NOT); }
    if IsOp(b, OP_1) { OpDenotes(vm, b, OP_1); }
    if IsOp(b, OP_0) { OpDenotes(vm, b, OP_0); }
    if IsOp(e, OP_NOT) { OpDenotes(vm, e, OP_NOT); }
    if IsOp(e, OP_EQUAL) { OpDenotes(vm, e, OP_EQUAL); }
    if IsOp(e, OP_NUMEQUAL) { OpDenotes(vm, e, OP_NUMEQUAL); }
    if IsOp(e, OP_NUMNOTEQUAL) { OpDenotes(vm, e, OP_NUMNOTEQUAL); }
    assert [c.main[0]] + c.main[1..] == c.main;
    BoolNumbers(vm, c.main[0]);
  }

  lemma ExecCons(vm: Vm, a: Instr, rest: seq<Instr>, d: nat, c: Core)
    ensures ExecAll(vm, [a] + rest, d, c) ==
            var o := Exec(vm, a, d, c); if o.Next? then ExecAll(vm, rest, d, o.state) else o
  {
    hide Exec;
    assert ([a] + rest)[1..] == rest;
  }

  lemma TripleSound(vm: Vm, a: string, b: string, e: string, d: nat, c: Core)
    requires Sane(vm) && TripleCandidate(a, b, e).Some?
    ensures ExecAll(vm, Meanings(vm, [a, b, e]), d, c) ==
            ExecAll(vm, Meanings(vm, Encs(TripleCandidate(a, b, e).value)), d, c)
  {
    hide ExecAll, Exec, Meaning, DecodedPushPayload, ProducesCanonicalBool, IsOneOf, IsOp;
    TripleTexts(vm, a, b, e);
    var rs := TripleCandidate(a, b, e).value;
    if DecodedPushPayload(a).Some? &&
       ((DecodedPushPayload(b).Some? && IsOp(e, OP_EQUAL))
        || (IsOp(b, OP_DUP) && (IsOp(e, OP_EQUAL) || IsOp(e, OP_DROP) || IsOp(e, OP_2DROP)))) {
      PushTripleSound(vm, a, b, e, d, c);
    } else {
      assert ProducesCanonicalBool(a);
      ProducerLeavesBool(vm, a, d, c);
      if IsOneOf(e, {OP_EQUAL, OP_NUMEQUAL}) {
        OneOf(e, OP_EQUAL, OP_NUMEQUAL);
      }
      ExecCons(vm, Meaning(vm, a), [Meaning(vm, b), Meaning(vm, e)], d, c);
      assert [Meaning(vm, a)] + [Meaning(vm, b), Meaning(vm, e)] == [Meaning(vm, a), Meaning(vm, b), Meaning(vm, e)];
      var o := Exec(vm, Meaning(vm, a), d, c);
      if o.Next? {
        BoolTailSound(vm, b, e, d, o.state);
      }
      if |rs| == 1 {
        assert Encs(rs) == [a];
        PairTexts(vm, a, "");
        ExecOne(vm, Meaning(vm, a), d, c);
      } else {
        assert Encs(rs) == [a, OpHex(OP_NOT)];
        PairTexts(vm, a, OpHex(OP_NOT));
        OpHexDenotes(vm, OP_NOT);
        ExecTwo(vm, Meaning(vm, a), Op(OP_NOT), d, c);
      }
    }
  }

  lemma TripleNoControl(a: string, b: string, e: string)
    requires TripleCandidate(a, b, e).Some?
    requires ControlToken(a) == NoToken
    ensures NoControl(Encs(TripleCandidate(a, b, e).value))
  {
    hide ControlToken, DecodedPushPayload, ProducesCanonicalBool, IsOneOf, IsOp;
    OpHexIsOp(OP_0);
    OpHexIsOp(OP_1);
    OpHexIsOp(OP_NOT);
    OpIsNotControl(OpHex(OP_0), OP_0);
    OpIsNotControl(OpHex(OP_1), OP_1);
    OpIsNotControl(OpHex(OP_NOT), OP_NOT);
    var rs := TripleCandidate(a, b, e).value;
    forall k | 0 <= k < |rs| ensures ControlToken(Encs(rs)[k]) == NoToken {
      assert rs[k].encoding in {a, OpHex(OP_0), OpHex(OP_1), OpHex(OP_NOT)};
    }
  }

  // ----- duplicate pushes -----

  lemma DuplicateSound(vm: Vm, a: string, options: LocalOptions, d: nat, c: Core)
    requires IsProfitableDuplicatePush(a, a, options) && options.placeholders.Keys <= vm.data.Keys
    ensures ControlToken(a) == NoToken
    ensures ExecAll(vm, Meanings(vm, [a, a]), d, c) == ExecAll(vm, Meanings(vm, [a, OpHex(OP_DUP)]), d, c)
  {
    hide ExecAll, Exec;
    PairTexts(vm, a, a);
    PairTexts(vm, a, OpHex(OP_DUP));
    OpHexDenotes(vm, OP_DUP);
    DuplicateDenotes(vm, a, options);
    if Meaning(vm, a).Push? {
      PushDupRules(vm, Meaning(vm, a).payload, d, c);
    } else {
      DataDup(vm, Meaning(vm, a).name, d, c);
    }
  }

  lemma DuplicateDenotes(vm: Vm, a: string, options: LocalOptions)
    requires IsProfitableDuplicatePush(a, a, options) && options.placeholders.Keys <= vm.data.Keys
    ensures ControlToken(a) == NoToken
    ensures Meaning(vm, a).Push? || (Meaning(vm, a).Data? && Meaning(vm, a).name in vm.data)
  {
    SingleOpcodeBytes(a, OP_IF);
    SingleOpcodeBytes(a, OP_NOTIF);
    SingleOpcodeBytes(a, OP_ELSE);
    SingleOpcodeBytes(a, OP_ENDIF);
    hide IsSingleOpcode;
    if DecodePushHex(a, false).Err? {
      PlaceholderIsNotHex(a, options.placeholders.Keys);
    }
  }

  lemma PlaceholderIsNotHex(a: string, labels: set<string>)
    requires IsKnownPlaceholder(a, labels)
    ensures HexToBytes(a).Err?
  {
    var h := StripPrefix(a);
    assert h == a && DigitValue(a[0]) < 0;
    if |a| % 2 == 0 {
      ParsePairsChars(a);
    }
  }

  lemma DataDup(vm: Vm, name: string, d: nat, c: Core)
    requires name in vm.data
    ensures ExecAll(vm, [Data(name), Data(name)], d, c) == ExecAll(vm, [Data(name), Op(OP_DUP)], d, c)
  {
    ExecTwo(vm, Data(name), Data(name), d, c);
    ExecTwo(vm, Data(name), Op(OP_DUP), d, c);
  }

  // ----- windows of two -----

  /** What the code emitted so far guarantees at a status. */
  ghost predicate Context(emitted: seq<string>, st: Status<Core>) {
    st.Running? && false !in st.cond ==>
      && |st.state.main| >= ProvenDepth(emitted)
      && (AfterCanonicalBool(emitted) ==> CanonicalTop(st.state))
  }

  lemma EmittedGivesContext(vm: Vm, emitted: seq<string>, start: Status<Core>)
    ensures Context(emitted, Run(MachineOf(vm), emitted, start))
  {
    hide ProvenDepth, AfterCanonicalBool;
    DepthIsProven(vm, emitted, start);
    if AfterCanonicalBool(emitted) {
      AfterProducer(vm, emitted, start);
    }
  }

  lemma NegatedCondition(vm: Vm, cur: string, nxt: string, st: Status<Core>, emitted: seq<string>)
    requires Sane(vm) && Context(emitted, st) && AfterCanonicalBool(emitted)
    requires IsOp(cur, OP_NOT) && (IsOp(nxt, OP_IF) || IsOp(nxt, OP_NOTIF))
    ensures var other := OpHex(if IsOp(nxt, OP_IF) then OP_NOTIF else OP_IF);
            Run(MachineOf(vm), [cur, nxt], st) == Run(MachineOf(vm), [other], st)
  {
    hide ControlToken, Meaning, ProvenDepth, AfterCanonicalBool, Exec;
    var m := MachineOf(vm);
    var other := OpHex(if IsOp(nxt, OP_IF) then OP_NOTIF else OP_IF);
    OpHexIsOp(OP_IF);
    OpHexIsOp(OP_NOTIF);
    IfTokens(nxt);
    IfTokens(other);
    OpIsNotControl(cur, OP_NOT);
    OpDenotes(vm, cur, OP_NOT);
    assert [cur, nxt] == [cur] + [nxt];
    RunConcat(m, [cur], [nxt], st);
    RunOne(m, cur, st);
    RunOne(m, nxt, Step(m, cur, st));
    RunOne(m, other, st);
    if st.Running? && false !in st.cond {
      NotOnBool(vm, |st.cond|, st.state);
      ExecOne(vm, Op(OP_NOT), |st.cond|, st.state);
      BoolNumbers(vm, st.state.main[0]);
      var flipped: Item := Bool((st.state.main[0] == [1]) == false);
      BoolNumbers(vm, flipped);
      assert ([flipped] + st.state.main[1..])[1..] == st.state.main[1..];
    }
  }

  lemma VerifyPairSound(vm: Vm, cur: string, nxt: string, d: nat, c: Core)
    requires Sane(vm) && IsOp(nxt, OP_VERIFY)
    ensures IsOp(cur, OP_1) ==> ExecAll(vm, [Meaning(vm, cur), Meaning(vm, nxt)], d, c) == ExecAll(vm, [], d, c)
    ensures FusedVerifyOpcode(cur).Some? ==>
              ExecAll(vm, [Meaning(vm, cur), Meaning(vm, nxt)], d, c) ==
              ExecAll(vm, [Op(FusedVerifyOpcode(cur).value)], d, c)
  {
    hide ExecAll, Exec, Meaning, IsOp;
    OpDenotes(vm, nxt, OP_VERIFY);
    TrueVerify(vm, d, c);
    VerifyRules(vm, d, c);
    SignatureRules(vm, d, c);
    if IsOp(cur, OP_1) { OpDenotes(vm, cur, OP_1); }
    if IsOp(cur, OP_EQUAL) { OpDenotes(vm, cur, OP_EQUAL); }
    else if IsOp(cur, OP_NUMEQUAL) { OpDenotes(vm, cur, OP_NUMEQUAL); }
    else if IsOp(cur, OP_CHECKSIG) { OpDenotes(vm, cur, OP_CHECKSIG); }
    else if IsOp(cur, OP_CHECKMULTISIG) { OpDenotes(vm, cur, OP_CHECKMULTISIG); }
  }

  function PairCode(r: PairRewrite): seq<Instr>
    requires !r.KeepBoth?
  {
    if r.DeletePair? then [] else [OpMeaning(r.replacement)]
  }

  lemma FixedPairSound(vm: Vm, cur: string, nxt: string, emitted: seq<string>, d: nat, c: Core)
    requires Sane(vm) && !RewriteStraightPair(cur, nxt, emitted).KeepBoth?
    requires |c.main| >= ProvenDepth(emitted) && (AfterCanonicalBool(emitted) ==> CanonicalTop(c))
    ensures ExecAll(vm, [Meaning(vm, cur), Meaning(vm, nxt)], d, c) ==
            ExecAll(vm, PairCode(RewriteStraightPair(cur, nxt, emitted)), d, c)
  {
    hide ExecAll, Exec, Meaning, IsOp, WellFormedPushSize, ProvenDepth, AfterCanonicalBool;
    OpTexts(vm, cur);
    OpTexts(vm, nxt);
    NumberRules(vm, d, c);
    ShuffleRules(vm, d, c);
    PickRules(vm, d, c);
    RollRules(vm, d, c);
    DeepRules(vm, d, c);
    if CanonicalTop(c) {
      NotOnBool(vm, d, c);
      CompareBool(vm, d, c);
      SameBool(vm, [Op(OP_NOT), Op(OP_NOT)], [Op(OP_0NOTEQUAL)], d, c, true);
      SameBool(vm, [Push([]), Op(OP_EQUAL)], [Op(OP_NOT)], d, c, false);
      SameBool(vm, [Push([]), Op(OP_NUMEQUAL)], [Op(OP_NOT)], d, c, false);
    }
    if WellFormedPushSize(cur).Some? {
      PushDenotes(vm, cur);
      PushDupRules(vm, Meaning(vm, cur).payload, d, c);
    }
  }

  /** What the opcodes of the pair rules denote. */
  lemma OpTexts(vm: Vm, s: string)
    ensures IsOp(s, OP_0) ==> Meaning(vm, s) == Push([])
    ensures IsOp(s, OP_1) ==> Meaning(vm, s) == Push([1])
    ensures IsOp(s, OP_2) ==> Meaning(vm, s) == Push([2])
    ensures IsOp(s, OP_1NEGATE) ==> Meaning(vm, s) == Push([0x81])
    ensures IsOp(s, OP_ADD) ==> Meaning(vm, s) == Op(OP_ADD)
    ensures IsOp(s, OP_SUB) ==> Meaning(vm, s) == Op(OP_SUB)
    ensures IsOp(s, OP_SWAP) ==> Meaning(vm, s) == Op(OP_SWAP)
    ensures IsOp(s, OP_DROP) ==> Meaning(vm, s) == Op(OP_DROP)
    ensures IsOp(s, OP_DUP) ==> Meaning(vm, s) == Op(OP_DUP)
    ensures IsOp(s, OP_OVER) ==> Meaning(vm, s) == Op(OP_OVER)
    ensures IsOp(s, OP_PICK) ==> Meaning(vm, s) == Op(OP_PICK)
    ensures IsOp(s, OP_ROLL) ==> Meaning(vm, s) == Op(OP_ROLL)
    ensures IsOp(s, OP_NOT) ==> Meaning(vm, s) == Op(OP_NOT)
    ensures IsOp(s, OP_EQUAL) ==> Meaning(vm, s) == Op(OP_EQUAL)
    ensures IsOp(s, OP_NUMEQUAL) ==> Meaning(vm, s) == Op(OP_NUMEQUAL)
  {
    hide Meaning;
    if |s| == 2 && IsStrictHex(s) {
      OpDenotes(vm, s, HexByteAt(s, 0));
    }
  }

  lemma ReplacementIsOrdinary(cur: string, nxt: string, emitted: seq<string>, allow: bool)
    requires TryRewritePair(cur, nxt, emitted, allow).ReplacePair?
    requires !(IsOp(cur, OP_NOT) && (IsOp(nxt, OP_IF) || IsOp(nxt, OP_NOTIF)) && AfterCanonicalBool(emitted))
    ensures var op := TryRewritePair(cur, nxt, emitted, allow).replacement;
            op !in {OP_IF, OP_NOTIF, OP_ELSE, OP_ENDIF} && OpMeaning(op) == Op(op)
  {
    hide IsOp, WellFormedPushSize, ProvenDepth, AfterCanonicalBool, IsControlFlow;
  }

  lemma VerifyIsNotControl(s: string)
    requires IsOp(s, OP_VERIFY)
    ensures ControlToken(s) == NoToken
  {
    OpIsNotControl(s, OP_VERIFY);
  }

  function PairText(r: PairRewrite): seq<string>
    requires !r.KeepBoth?
  {
    if r.DeletePair? then [] else [OpHex(r.replacement)]
  }

  lemma PairSound(vm: Vm, cur: string, nxt: string, emitted: seq<string>, allow: bool, st: Status<Core>)
    requires Sane(vm) && Context(emitted, st) && !TryRewritePair(cur, nxt, emitted, allow).KeepBoth?
    requires !IsInert(cur) && !IsControlFlow(cur) && !IsInert(nxt)
    ensures Run(MachineOf(vm), [cur, nxt], st) ==
            Run(MachineOf(vm), PairText(TryRewritePair(cur, nxt, emitted, allow)), st)
  {
    hide ControlToken, Meaning, ProvenDepth, AfterCanonicalBool, Exec, ExecAll, IsOp, IsInert, IsControlFlow,
      WellFormedPushSize, RewriteStraightPair, Run;
    var r := TryRewritePair(cur, nxt, emitted, allow);
    if IsOp(cur, OP_NOT) && (IsOp(nxt, OP_IF) || IsOp(nxt, OP_NOTIF)) && AfterCanonicalBool(emitted) {
      NegatedCondition(vm, cur, nxt, st, emitted);
    } else {
      NotControl(cur);
      if IsOp(nxt, OP_VERIFY) {
        VerifyIsNotControl(nxt);
      } else if !IsControlFlow(nxt) {
        NotControl(nxt);
      }
      if r.ReplacePair? {
        ReplacementIsOrdinary(cur, nxt, emitted, allow);
        OpHexIsOp(r.replacement);
        OpIsNotControl(OpHex(r.replacement), r.replacement);
        OpHexDenotes(vm, r.replacement);
        PairTexts(vm, OpHex(r.replacement), "");
      }
      PairTexts(vm, cur, nxt);
      if st.Running? && false !in st.cond {
        if IsOp(nxt, OP_VERIFY) && ((allow && IsOp(cur, OP_1)) || FusedVerifyOpcode(cur).Some?) {
          VerifyPairSound(vm, cur, nxt, |st.cond|, st.state);
        } else {
          FixedPairSound(vm, cur, nxt, emitted, |st.cond|, st.state);
        }
      }
      assert NoControl([cur, nxt]);
      assert NoControl(PairText(r));
      SameWindow(vm, [cur, nxt], PairText(r), st);
    }
  }

  // ----- moves, scans, rounds -----

  ghost predicate KnowsPlaceholders(rules: Rules, vm: Vm) {
    rules.options.placeholders.Keys <= vm.data.Keys
  }

  lemma MoveSound(vm: Vm, v: seq<string>, end: nat, i: nat, emitted: seq<string>, rules: Rules, st: Status<Core>)
    requires Sane(vm) && KnowsPlaceholders(rules, vm) && i < end <= |v| && Context(emitted, st)
    ensures var m := NextMove(v, end, i, emitted, rules);
            Run(MachineOf(vm), Encs(m.emits), st) == Run(MachineOf(vm), v[i..i + m.consumed], st)
  {
    hide ControlToken, Meaning, ProvenDepth, AfterCanonicalBool, Exec, ExecAll, IsOp, IsInert, IsControlFlow, Run,
      TryRewritePair, TripleCandidate, IsProfitableDuplicatePush, IsStrictlySmaller, NoControl, Context;
    var m := NextMove(v, end, i, emitted, rules);
    if m == KeepOne(v[i]) {
      assert Encs(m.emits) == [v[i]] == v[i..i + 1];
    } else if m.consumed == 3 {
      assert v[i..i + 3] == [v[i], v[i + 1], v[i + 2]];
      TripleMoveSound(vm, v[i], v[i + 1], v[i + 2], st);
    } else {
      assert v[i..i + 2] == [v[i], v[i + 1]];
      if IsProfitableDuplicatePush(v[i], v[i + 1], rules.options) && m.emits != [] && m.emits[0].offset == 0 {
        assert Encs(m.emits) == [v[i], OpHex(OP_DUP)];
        DuplicateMoveSound(vm, v[i], v[i + 1], rules.options, st);
      } else {
        PairSound(vm, v[i], v[i + 1], emitted, rules.allowTrueVerify, st);
        assert Encs(m.emits) == PairText(TryRewritePair(v[i], v[i + 1], emitted, rules.allowTrueVerify));
      }
    }
  }

  lemma TripleMoveSound(vm: Vm, a: string, b: string, e: string, st: Status<Core>)
    requires Sane(vm) && TripleCandidate(a, b, e).Some?
    requires !IsInert(a) && !IsControlFlow(a) && !IsInert(b) && !IsControlFlow(b) && !IsInert(e) && !IsControlFlow(e)
    ensures Run(MachineOf(vm), Encs(TripleCandidate(a, b, e).value), st) == Run(MachineOf(vm), [a, b, e], st)
  {
    hide ControlToken, Meaning, Exec, ExecAll, IsInert, IsControlFlow, Run, TripleCandidate;
    NotControl(a);
    NotControl(b);
    NotControl(e);
    TripleNoControl(a, b, e);
    if st.Running? && false !in st.cond {
      TripleSound(vm, a, b, e, |st.cond|, st.state);
    }
    SameWindow(vm, Encs(TripleCandidate(a, b, e).value), [a, b, e], st);
  }

  lemma DuplicateMoveSound(vm: Vm, a: string, b: string, options: LocalOptions, st: Status<Core>)
    requires IsProfitableDuplicatePush(a, b, options) && options.placeholders.Keys <= vm.data.Keys
    ensures Run(MachineOf(vm), [a, OpHex(OP_DUP)], st) == Run(MachineOf(vm), [a, b], st)
  {
    hide ControlToken, Meaning, Exec, ExecAll, Run;
    assert a == b;
    DuplicateDenotes(vm, a, options);
    OpHexIsOp(OP_DUP);
    OpIsNotControl(OpHex(OP_DUP), OP_DUP);
    if st.Running? && false !in st.cond {
      DuplicateSound(vm, a, options, |st.cond|, st.state);
    }
    SameWindow(vm, [a, OpHex(OP_DUP)], [a, b], st);
  }

  lemma PlacedTexts(out: seq<Emitted>, rs: seq<Replacement>, i: nat)
    ensures Texts(out + Place(rs, i)) == Texts(out) + Encs(rs)
  {
  }

  /** The scan keeps behaviour: whatever has been emitted stands for whatever has been consumed. */
  lemma {:induction false} ScanSound(vm: Vm, v: seq<string>, end: nat, i: nat, s: Scan, rules: Rules, st: Status<Core>)
    requires Sane(vm) && KnowsPlaceholders(rules, vm) && i <= end <= |v|
    requires Run(MachineOf(vm), Texts(s.out), st) == Run(MachineOf(vm), v[..i], st)
    ensures Run(MachineOf(vm), Texts(ScanFrom(v, end, i, s, rules).out), st) == Run(MachineOf(vm), v[..end], st)
    decreases end - i
  {
    hide NextMove, Run, KnowsPlaceholders;
    if i < end {
      var m := NextMove(v, end, i, Texts(s.out), rules);
      var mid := Run(MachineOf(vm), Texts(s.out), st);
      EmittedGivesContext(vm, Texts(s.out), st);
      MoveSound(vm, v, end, i, Texts(s.out), rules, mid);
      PlacedTexts(s.out, m.emits, i);
      RunConcat(MachineOf(vm), Texts(s.out), Encs(m.emits), st);
      assert v[..i + m.consumed] == v[..i] + v[i..i + m.consumed];
      RunConcat(MachineOf(vm), v[..i], v[i..i + m.consumed], st);
      ScanSound(vm, v, end, i + m.consumed, Scan(s.out + Place(m.emits, i), s.changed || m.rewrites), rules, st);
    }
  }

  /** Main result for one round: the executable prefix behaves as before and the rest is the same text. */
  lemma RoundSound(vm: Vm, v: seq<string>, end: nat, rules: Rules, st: Status<Core>)
    requires Sane(vm) && KnowsPlaceholders(rules, vm) && end <= |v|
    ensures var prefix := Texts(ScanFrom(v, end, 0, Scan([], false), rules).out);
            && Texts(RoundScan(v, end, rules).out) == prefix + v[end..]
            && Run(MachineOf(vm), prefix, st) == Run(MachineOf(vm), v[..end], st)
  {
    hide ScanFrom, KnowsPlaceholders;
    assert Texts([]) == [] && v[..0] == [];
    ScanSound(vm, v, end, 0, Scan([], false), rules, st);
  }
}
