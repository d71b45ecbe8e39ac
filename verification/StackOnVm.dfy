/** The text of a stack step, run on the virtual machine, does what the step says. */
module StackOnVm {
  import opened Wrappers
  import opened Hex
  import opened ScriptCodec
  import opened CondMachine
  import opened ScriptVm
  import opened PeepholeRules
  import opened PeepholeMeaning
  import opened StackSteps

  /** The machine reads the shortest form of every number of at most four bytes. */
  ghost predicate ReadsNumbers(vm: Vm) {
    forall k: nat :: |NumberBytes(k)| <= 4 ==> vm.number(NumberBytes(k)) == Some(k)
  }

  /** There are machines of the kind the results speak about: one that reads numbers the usual way. */
  lemma SuitableMachineExists() returns (vm: Vm)
    ensures Sane(vm) && ReadsNumbers(vm)
  {
    vm := Vm(x => Some(ReadNumber(x)), n => [], c => None, c => None, map[], (i, d, c) => Fail);
    NumberRoundTrip(0);
    NumberRoundTrip(1);
    NumberRoundTrip(2);
    assert ReadNumber([0x81]) == -1 by {
      assert [0x81 as Byte][0 := 1] == [1];
      assert Magnitude([1]) == 1;
    }
    forall k: nat | |NumberBytes(k)| <= 4 ensures vm.number(NumberBytes(k)) == Some(k) {
      NumberRoundTrip(k);
    }
  }

  lemma NumberDenotes(vm: Vm, k: nat)
    requires |NumberBytes(k)| <= 4
    ensures Meaning(vm, NumberText(k)) == Push(NumberBytes(k))
    ensures ControlToken(NumberText(k)) == NoToken
    ensures EncodedByteSize(NumberText(k)) == if k <= 16 then 1 else 1 + |NumberBytes(k)|
  {
    hide DecodePush;
    var bytes := if k == 0 then [OP_0] else if k <= 16 then [0x50 + k] else EncodeBytes(NumberBytes(k), Legacy).value;
    if 0 < k <= 16 {
      assert DecodePush(bytes, false).Ok? && DecodePush(bytes, false).value.payload == [k] by {
        OneByteNumber(k);
      }
      OneByteHex(0x50 + k);
    } else if k == 0 {
      assert DecodePush(bytes, false).Ok? && DecodePush(bytes, false).value.payload == [] by { ZeroPush(); }
      OneByteHex(OP_0);
    } else {
      EncodeDecode(NumberBytes(k), Legacy, []);
    }
    PrefixedHex(bytes);
    assert NumberText(k) == "0x" + BytesToHex(bytes);
    SingleOpcodeBytes(NumberText(k), OP_IF);
    SingleOpcodeBytes(NumberText(k), OP_NOTIF);
    SingleOpcodeBytes(NumberText(k), OP_ELSE);
    SingleOpcodeBytes(NumberText(k), OP_ENDIF);
  }

  lemma OneByteNumber(k: nat)
    requires 0 < k <= 16
    ensures DecodePush([0x50 + k], false).Ok? && DecodePush([0x50 + k], false).value.payload == [k]
  {
  }

  lemma ZeroPush()
    ensures DecodePush([OP_0], false).Ok? && DecodePush([OP_0], false).value.payload == []
  {
  }

  lemma OpText(vm: Vm, op: Byte)
    requires op >= 0x69
    ensures Meaning(vm, OpHex(op)) == Op(op) && ControlToken(OpHex(op)) == NoToken
  {
    OpHexIsOp(op);
    OpHexDenotes(vm, op);
    OpIsNotControl(OpHex(op), op);
  }

  ghost predicate ActsAs(vm: Vm, es: seq<string>, cond: seq<bool>, c: Core, t: Core) {
    Run(MachineOf(vm), es, Running(cond, c)) == Running(cond, t)
  }

  lemma OneOp(vm: Vm, op: Byte, cond: seq<bool>, c: Core, t: Core)
    requires op >= 0x69 && false !in cond
    requires ExecOp(vm, op, |cond|, c) == Next(t)
    ensures ActsAs(vm, [OpHex(op)], cond, c, t)
  {
    hide ControlToken, Meaning, ExecOp;
    OpText(vm, op);
    RunOne(MachineOf(vm), OpHex(op), Running(cond, c));
  }

  /** PICK and ROLL take their depth from the top of the stack. */
  lemma CountedOp(vm: Vm, k: nat, op: Byte, cond: seq<bool>, c: Core)
    requires ReadsNumbers(vm) && false !in cond && |NumberBytes(k)| <= 4 && k < |c.main|
    requires op == OP_ROLL || op == OP_PICK
    ensures ActsAs(vm, [NumberText(k), OpHex(op)], cond, c,
                   c.(main := if op == OP_ROLL then RollUp(c.main, k).value else [c.main[k]] + c.main))
  {
    hide ControlToken, Meaning, NumberBytes, NumberText;
    NumberDenotes(vm, k);
    var x := NumberBytes(k);
    var pushed := c.(main := [x] + c.main);
    var t := c.(main := if op == OP_ROLL then RollUp(c.main, k).value else [c.main[k]] + c.main);
    RunOne(MachineOf(vm), NumberText(k), Running(cond, c));
    assert vm.number(x) == Some(k);
    assert ExecOp(vm, op, |cond|, pushed) == Next(t) by {
      assert pushed.main[0] == x && pushed.main[1 + k] == c.main[k];
      assert pushed.main[1..] == c.main;
      assert pushed.main[1..1 + k] == c.main[..k] && pushed.main[2 + k..] == c.main[k + 1..];
    }
    OneOp(vm, op, cond, pushed, t);
    RunConcat(MachineOf(vm), [NumberText(k)], [OpHex(op)], Running(cond, c));
    assert [NumberText(k)] + [OpHex(op)] == [NumberText(k), OpHex(op)];
  }

  function CoreOf(s: Stacks<Item>): Core {
    Core(s.main, s.alt)
  }

  predicate ShortDepths(steps: seq<Step>) {
    forall i :: 0 <= i < |steps| ==> |NumberBytes(steps[i].depth)| <= 4
  }

  lemma StepOnVm(vm: Vm, step: Step, cond: seq<bool>, s: Stacks<Item>)
    requires ReadsNumbers(vm) && false !in cond && |NumberBytes(step.depth)| <= 4
    requires Act(s, step).Some?
    ensures ActsAs(vm, Encoded(step), cond, CoreOf(s), CoreOf(Act(s, step).value))
  {
    hide ReadsNumbers, ActsAs, NumberText, NumberBytes, Shuffle;
    var c, t := CoreOf(s), CoreOf(Act(s, step).value);
    match step.op {
      case Swap | Rot | TwoSwap | TwoRot | Roll => MoveText(vm, step, cond, c, t);
      case Dup => OneOp(vm, OP_DUP, cond, c, t);
      case Over => OneOp(vm, OP_OVER, cond, c, t);
      case Pick =>
        if step.depth >= 2 {
          CountedOp(vm, step.depth, OP_PICK, cond, c);
        } else {
          OneOp(vm, if step.depth == 0 then OP_DUP else OP_OVER, cond, c, t);
        }
      case Drop => OneOp(vm, OP_DROP, cond, c, t);
      case Nip => OneOp(vm, OP_NIP, cond, c, t);
      case Tuck => OneOp(vm, OP_TUCK, cond, c, t);
      case ToAltStack => OneOp(vm, OP_TOALTSTACK, cond, c, t);
      case FromAltStack => OneOp(vm, OP_FROMALTSTACK, cond, c, t);
    }
  }

  lemma MoveText(vm: Vm, step: Step, cond: seq<bool>, c: Core, t: Core)
    requires ReadsNumbers(vm) && false !in cond && |NumberBytes(step.depth)| <= 4
    requires IsMove(step) && Shuffle(c.main, step).Some? && t == c.(main := Shuffle(c.main, step).value)
    ensures ActsAs(vm, Encoded(step), cond, c, t)
  {
    hide ReadsNumbers, ActsAs, NumberText, NumberBytes, ExecOp;
    match step.op {
      case Swap => ShuffleOp(vm, OP_SWAP, cond, c, t);
      case Rot => RotText(vm, cond, c, t);
      case TwoSwap => ShuffleOp(vm, OP_2SWAP, cond, c, t);
      case TwoRot => ShuffleOp(vm, OP_2ROT, cond, c, t);
      case Roll => RollText(vm, step, cond, c, t);
      case _ =>
    }
  }

  lemma ShuffleOp(vm: Vm, op: Byte, cond: seq<bool>, c: Core, t: Core)
    requires false !in cond && op in {OP_SWAP, OP_2SWAP, OP_2ROT}
    requires |c.main| >= if op == OP_SWAP then 2 else if op == OP_2SWAP then 4 else 6
    requires t == c.(main := if op == OP_SWAP then [c.main[1], c.main[0]] + c.main[2..]
                             else if op == OP_2SWAP then c.main[2..4] + c.main[..2] + c.main[4..]
                             else c.main[4..6] + c.main[..4] + c.main[6..])
    ensures ActsAs(vm, [OpHex(op)], cond, c, t)
  {
    hide ActsAs;
    if op == OP_2SWAP {
      assert t.main == [c.main[2], c.main[3], c.main[0], c.main[1]] + c.main[4..];
    } else if op == OP_2ROT {
      assert t.main == [c.main[4], c.main[5], c.main[0], c.main[1], c.main[2], c.main[3]] + c.main[6..];
    }
    OneOp(vm, op, cond, c, t);
  }

  lemma RotText(vm: Vm, cond: seq<bool>, c: Core, t: Core)
    requires false !in cond && |c.main| > 2 && t == c.(main := RollUp(c.main, 2).value)
    ensures ActsAs(vm, [OpHex(OP_ROT)], cond, c, t)
  {
    assert t.main == [c.main[2], c.main[0], c.main[1]] + c.main[3..];
    OneOp(vm, OP_ROT, cond, c, t);
  }

  lemma RollText(vm: Vm, step: Step, cond: seq<bool>, c: Core, t: Core)
    requires ReadsNumbers(vm) && false !in cond && step.op.Roll? && |NumberBytes(step.depth)| <= 4
    requires step.depth < |c.main| && t == c.(main := RollUp(c.main, step.depth).value)
    ensures ActsAs(vm, Encoded(step), cond, c, t)
  {
    hide ReadsNumbers, NumberText, NumberBytes;
    if step.depth == 0 {
      assert t.main == c.main;
    } else if step.depth == 1 {
      assert t.main == [c.main[1], c.main[0]] + c.main[2..];
      OneOp(vm, OP_SWAP, cond, c, t);
    } else if step.depth == 2 {
      RotText(vm, cond, c, t);
    } else {
      CountedOp(vm, step.depth, OP_ROLL, cond, c);
    }
  }

  /** Running the text of a plan has the effect of its steps. */
  lemma {:induction false} StepsOnVm(vm: Vm, steps: seq<Step>, cond: seq<bool>, s: Stacks<Item>)
    requires ReadsNumbers(vm) && false !in cond && ShortDepths(steps)
    requires ActAll(s, steps).Some?
    ensures ActsAs(vm, EncodedAll(steps), cond, CoreOf(s), CoreOf(ActAll(s, steps).value))
    decreases |steps|
  {
    hide ReadsNumbers, Act, Encoded;
    if steps != [] {
      var t := Act(s, steps[0]).value;
      StepOnVm(vm, steps[0], cond, s);
      StepsOnVm(vm, steps[1..], cond, t);
      RunConcat(MachineOf(vm), Encoded(steps[0]), EncodedAll(steps[1..]), Running(cond, CoreOf(s)));
    }
  }
}
