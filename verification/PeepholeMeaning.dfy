/** Every rewrite of a peephole round keeps the behaviour of the virtual machine on every start status, failures by
    underflow or by an invalid number included. */
module PeepholeMeaning {
  import opened Wrappers
  import opened Hex
  import opened ScriptCodec
  import opened CondMachine
  import opened IfTree
  import opened ScriptVm
  import opened PeepholeRules
  import ScriptSplit

  // ----- what instruction text denotes -----

  lemma StrictHexBytes(s: string)
    requires IsStrictHex(s)
    ensures HexToBytes(s).Ok? && |HexToBytes(s).value| == |s| / 2
    ensures forall i :: 0 <= i < |s| / 2 ==> HexToBytes(s).value[i] == HexByteAt(s, i)
  {
    ScriptSplit.BareHexText(s);
    ParsePairsChars(s);
  }

  lemma OpBytes(s: string, op: Byte)
    requires IsOp(s, op)
    ensures HexToBytes(s) == Ok([op])
  {
    StrictHexBytes(s);
    assert HexToBytes(s).value == [HexByteAt(s, 0)];
  }

  lemma OpHexIsOp(op: Byte)
    ensures IsOp(OpHex(op), op)
  {
    OneByteHex(op);
    PrintParse([op]);
    StrictHexBytes(OpHex(op));
  }

  /** The instruction a single opcode byte denotes. */
  function OpMeaning(op: Byte): Instr {
    if op == 0x00 then Push([])
    else if op == 0x4f then Push([0x81])
    else if 0x51 <= op <= 0x60 then Push([op - 0x50])
    else Op(op)
  }

  lemma OpDenotes(vm: Vm, s: string, op: Byte)
    requires IsOp(s, op)
    ensures Meaning(vm, s) == OpMeaning(op)
  {
    OpBytes(s, op);
    var bytes := [op];
    if 0x01 <= op <= 0x4b {
      assert DecodeStructural(bytes) == Err(TruncatedPayload);
    }
  }

  lemma OpHexDenotes(vm: Vm, op: Byte)
    ensures Meaning(vm, OpHex(op)) == OpMeaning(op)
  {
    OpHexIsOp(op);
    OpDenotes(vm, OpHex(op), op);
  }

  lemma OneOfIsOp(s: string, ops: set<Byte>)
    requires IsOneOf(s, ops)
    ensures exists op :: op in ops && IsOp(s, op)
  {
    assert IsOp(s, HexByteAt(s, 0));
  }

  /** The peephole's own push reader and the codec agree on bare hex. */
  lemma PushReadersAgree(s: string)
    requires IsStrictHex(s)
    ensures WellFormedPushSize(s).Some? <==> DecodePushHex(s, false).Ok?
  {
    StrictHexBytes(s);
    var bytes := HexToBytes(s).value;
    assert bytes[0] == HexByteAt(s, 0);
    if |bytes| >= 2 {
      assert bytes[1] == HexByteAt(s, 1);
    }
    if |bytes| >= 3 {
      assert bytes[2] == HexByteAt(s, 2);
    }
    if |bytes| >= 5 {
      assert bytes[3] == HexByteAt(s, 3) && bytes[4] == HexByteAt(s, 4);
    }
  }

  lemma PushDenotes(vm: Vm, s: string)
    requires WellFormedPushSize(s).Some?
    ensures DecodePushHex(s, false).Ok?
    ensures Meaning(vm, s) == Push(DecodePushHex(s, false).value.payload)
  {
    hide DecodePush;
    PushReadersAgree(s);
  }

  lemma {:induction false} LowerIsPrint(h: string)
    requires |h| % 2 == 0 && AllDigits(h)
    ensures ParsePairs(h).Some? && LowerAll(h) == BytesToHex(ParsePairs(h).value)
  {
    ParsePairsChars(h);
    ParsePairsPrint(h);
  }

  /** The payload text the peephole compares is the hex of the payload the codec decodes. */
  lemma PayloadText(s: string)
    requires WellFormedPushSize(s).Some?
    ensures DecodePushHex(s, false).Ok?
    ensures DecodedPushPayload(s) == Some(BytesToHex(DecodePushHex(s, false).value.payload))
  {
    hide WellFormedPushSize, DecodePush, HexToBytes;
    StrictBytes(s);
    PushReadersAgree(s);
    var opcode := HexByteAt(s, 0);
    if opcode == 0x00 || opcode == 0x4f || 0x51 <= opcode <= 0x60 {
      SmallPayloadText(HexToBytes(s).value);
    } else {
      var prefix := if opcode == 0x4c then 2 else if opcode == 0x4d then 3 else if opcode == 0x4e then 5 else 1;
      PushPayloadTail(HexToBytes(s).value, prefix);
      PayloadTail(s, prefix);
    }
  }

  lemma StrictBytes(s: string)
    requires WellFormedPushSize(s).Some?
    ensures IsStrictHex(s) && HexToBytes(s).Ok? && HexToBytes(s).value != []
    ensures |HexToBytes(s).value| == |s| / 2 && HexToBytes(s).value[0] == HexByteAt(s, 0)
  {
    StrictHexBytes(s);
  }

  lemma SmallPayloadText(bytes: seq<Byte>)
    requires DecodePush(bytes, false).Ok?
    requires bytes[0] == 0x00 || bytes[0] == 0x4f || 0x51 <= bytes[0] <= 0x60
    ensures BytesToHex(DecodePush(bytes, false).value.payload) ==
            if bytes[0] == 0x00 then "" else if bytes[0] == 0x4f then "81" else ByteToHex(bytes[0] - 0x50)
  {
    SmallPayload(bytes);
    hide DecodePush;
    if bytes[0] == 0x4f {
      OneByteHex(0x81);
    } else if bytes[0] != 0x00 {
      OneByteHex(bytes[0] - 0x50);
    }
  }

  lemma SmallPayload(bytes: seq<Byte>)
    requires DecodePush(bytes, false).Ok?
    ensures bytes != []
    ensures bytes[0] == 0x00 ==> DecodePush(bytes, false).value.payload == []
    ensures bytes[0] == 0x4f ==> DecodePush(bytes, false).value.payload == [0x81]
    ensures 0x51 <= bytes[0] <= 0x60 ==> DecodePush(bytes, false).value.payload == [bytes[0] - 0x50]
  {
  }

  lemma PushPayloadTail(bytes: seq<Byte>, prefix: nat)
    requires DecodePush(bytes, false).Ok? && bytes[0] != 0x00 && bytes[0] != 0x4f && !(0x51 <= bytes[0] <= 0x60)
    requires prefix ==
             if bytes[0] == 0x4c then 2 else if bytes[0] == 0x4d then 3 else if bytes[0] == 0x4e then 5 else 1
    ensures prefix <= |bytes| && DecodePush(bytes, false).value.payload == bytes[prefix..]
  {
  }

  lemma PayloadTail(s: string, prefix: nat)
    requires IsStrictHex(s) && prefix <= |s| / 2
    ensures HexToBytes(s).Ok? && prefix <= |HexToBytes(s).value|
    ensures LowerAll(s[2 * prefix..]) == BytesToHex(HexToBytes(s).value[prefix..])
  {
    StrictHexBytes(s);
    var tail := s[2 * prefix..];
    LowerIsPrint(tail);
    ParsePairsChars(tail);
    var a, b := ParsePairs(tail).value, HexToBytes(s).value[prefix..];
    forall i | 0 <= i < |a| ensures a[i] == b[i] {
      assert tail[2 * i] == s[2 * (i + prefix)] && tail[2 * i + 1] == s[2 * (i + prefix) + 1];
    }
    assert a == b;
  }

  lemma PrintIsInjective(a: seq<Byte>, b: seq<Byte>)
    ensures BytesToHex(a) == BytesToHex(b) <==> a == b
  {
    if BytesToHex(a) == BytesToHex(b) && a != [] {
      PrintParse(a);
      PrintParse(b);
    }
  }

  /** Two constant pushes push the same item iff their payload texts are equal. */
  lemma SamePayload(vm: Vm, a: string, b: string)
    requires DecodedPushPayload(a).Some? && DecodedPushPayload(b).Some?
    ensures Meaning(vm, a).Push? && Meaning(vm, b).Push?
    ensures DecodedPushPayload(a) == DecodedPushPayload(b) <==> Meaning(vm, a) == Meaning(vm, b)
  {
    hide DecodePushHex, Meaning, WellFormedPushSize;
    assert WellFormedPushSize(a).Some? && WellFormedPushSize(b).Some?;
    PushDenotes(vm, a);
    PushDenotes(vm, b);
    PayloadText(a);
    PayloadText(b);
    PrintIsInjective(DecodePushHex(a, false).value.payload, DecodePushHex(b, false).value.payload);
  }

  /** Ordinary text is not a control token. */
  lemma NotControl(s: string)
    requires !IsInert(s) && !IsControlFlow(s)
    ensures ControlToken(s) == NoToken
  {
    StrictHexBytes(s);
    SingleOpcodeBytes(s, OP_IF);
    SingleOpcodeBytes(s, OP_NOTIF);
    SingleOpcodeBytes(s, OP_ELSE);
    SingleOpcodeBytes(s, OP_ENDIF);
  }

  lemma OpIsNotControl(s: string, op: Byte)
    requires IsOp(s, op) && op !in {OP_IF, OP_NOTIF, OP_ELSE, OP_ENDIF}
    ensures ControlToken(s) == NoToken
  {
    OpBytes(s, op);
    SingleOpcodeBytes(s, OP_IF);
    SingleOpcodeBytes(s, OP_NOTIF);
    SingleOpcodeBytes(s, OP_ELSE);
    SingleOpcodeBytes(s, OP_ENDIF);
  }

  lemma IfTokens(s: string)
    ensures IsOp(s, OP_IF) ==> ControlToken(s) == IfToken
    ensures IsOp(s, OP_NOTIF) ==> ControlToken(s) == NotIfToken
  {
    if IsOp(s, OP_IF) {
      OpBytes(s, OP_IF);
      SingleOpcodeBytes(s, OP_IF);
    }
    if IsOp(s, OP_NOTIF) {
      OpBytes(s, OP_NOTIF);
      SingleOpcodeBytes(s, OP_IF);
      SingleOpcodeBytes(s, OP_NOTIF);
    }
  }

  // ----- straight-line code -----

  function ThenExec(vm: Vm, o: Outcome<Core>, i: Instr, d: nat): Outcome<Core> {
    if o.Next? then Exec(vm, i, d, o.state) else o
  }

  function ExecAll(vm: Vm, code: seq<Instr>, d: nat, c: Core): Outcome<Core> {
    if code == [] then Next(c)
    else
      var o := Exec(vm, code[0], d, c);
      if o.Next? then ExecAll(vm, code[1..], d, o.state) else o
  }

  function Meanings(vm: Vm, es: seq<string>): (r: seq<Instr>)
    ensures |r| == |es|
  {
    seq(|es|, k requires 0 <= k < |es| => Meaning(vm, es[k]))
  }

  predicate NoControl(es: seq<string>) {
    forall k :: 0 <= k < |es| ==> ControlToken(es[k]) == NoToken
  }

  lemma {:induction false} StraightLine(vm: Vm, es: seq<string>, cond: seq<bool>, c: Core)
    requires NoControl(es)
    ensures Run(MachineOf(vm), es, Running(cond, c)) ==
            if false in cond then Running(cond, c) else Lift(cond, ExecAll(vm, Meanings(vm, es), |cond|, c))
  {
    hide ControlToken, Meaning, Exec;
    if es != [] {
      assert ControlToken(es[0]) == NoToken;
      assert Meanings(vm, es)[1..] == Meanings(vm, es[1..]);
      if false in cond {
        StraightLine(vm, es[1..], cond, c);
      } else {
        var o := Exec(vm, Meaning(vm, es[0]), |cond|, c);
        if o.Next? {
          StraightLine(vm, es[1..], cond, o.state);
        } else {
          RunStopped(MachineOf(vm), es[1..], Lift(cond, o));
        }
      }
    }
  }

  /** Two windows of ordinary instructions agree at a status when they agree on its stacks. */
  lemma SameWindow(vm: Vm, a: seq<string>, b: seq<string>, st: Status<Core>)
    requires NoControl(a) && NoControl(b)
    requires st.Running? && false !in st.cond ==>
               ExecAll(vm, Meanings(vm, a), |st.cond|, st.state) == ExecAll(vm, Meanings(vm, b), |st.cond|, st.state)
    ensures Run(MachineOf(vm), a, st) == Run(MachineOf(vm), b, st)
  {
    hide NoControl;
    if st.Running? {
      StraightLine(vm, a, st.cond, st.state);
      StraightLine(vm, b, st.cond, st.state);
    } else {
      RunStopped(MachineOf(vm), a, st);
      RunStopped(MachineOf(vm), b, st);
    }
  }

  lemma ExecOne(vm: Vm, a: Instr, d: nat, c: Core)
    ensures ExecAll(vm, [a], d, c) == Exec(vm, a, d, c)
  {
    hide Exec;
    assert [a][1..] == [];
  }

  lemma ExecTwo(vm: Vm, a: Instr, b: Instr, d: nat, c: Core)
    ensures ExecAll(vm, [a, b], d, c) == ThenExec(vm, Exec(vm, a, d, c), b, d)
  {
    hide Exec;
    assert [a, b][1..] == [b];
    var o := Exec(vm, a, d, c);
    if o.Next? {
      ExecOne(vm, b, d, o.state);
    }
  }

  lemma ExecThree(vm: Vm, a: Instr, b: Instr, e: Instr, d: nat, c: Core)
    ensures ExecAll(vm, [a, b, e], d, c) == ThenExec(vm, ThenExec(vm, Exec(vm, a, d, c), b, d), e, d)
  {
    hide Exec;
    assert [a, b, e][1..] == [b, e];
    var o := Exec(vm, a, d, c);
    if o.Next? {
      ExecTwo(vm, b, e, d, o.state);
    }
  }

  // ----- canonical booleans -----

  predicate CanonicalTop(c: Core) {
    c.main != [] && (c.main[0] == [] || c.main[0] == [1])
  }

  lemma BoolNumbers(vm: Vm, x: Item)
    requires Sane(vm) && (x == [] || x == [1])
    ensures vm.number(x) == Some(if x == [] then 0 else 1)
    ensures Truthy(x) <==> x == [1]
    ensures x == Bool(x == [1])
  {
    assert [1][0] == 1;
  }

  lemma ProducerLeavesBool(vm: Vm, s: string, d: nat, c: Core)
    requires ProducesCanonicalBool(s)
    ensures ControlToken(s) == NoToken
    ensures var o := Exec(vm, Meaning(vm, s), d, c);
            o.Fail? || (o.Next? && CanonicalTop(o.state))
  {
    hide Meaning, Exec, ControlToken;
    OneOfIsOp(s, CANONICAL_BOOL_PRODUCERS);
    var op :| op in CANONICAL_BOOL_PRODUCERS && IsOp(s, op);
    OpDenotes(vm, s, op);
    OpIsNotControl(s, op);
    ProducerOp(vm, op, d, c);
  }

  lemma ProducerOp(vm: Vm, op: Byte, d: nat, c: Core)
    requires op in CANONICAL_BOOL_PRODUCERS
    ensures var o := Exec(vm, OpMeaning(op), d, c);
            o.Fail? || (o.Next? && CanonicalTop(o.state))
  {
    if op == OP_CHECKSIG || op == OP_CHECKMULTISIG {
    } else if op != OP_0 && op != OP_1 {
      ProducerValueOp(vm, op, c.main);
    }
  }

  lemma ProducerValueOp(vm: Vm, op: Byte, s: seq<Item>)
    requires op in CANONICAL_BOOL_PRODUCERS - {OP_0, OP_1, OP_CHECKSIG, OP_CHECKMULTISIG}
    ensures IsValueOp(op) && !IsStackOp(op)
    ensures var r := ValueOp(vm, op, s);
            r.Some? ==> r.value != [] && (r.value[0] == [] || r.value[0] == [1])
  {
  }

  /** Code whose last instruction produces a boolean leaves one on top, if it goes on executing at all. */
  lemma AfterProducer(vm: Vm, emitted: seq<string>, st: Status<Core>)
    requires AfterCanonicalBool(emitted)
    ensures var after := Run(MachineOf(vm), emitted, st);
            after.Running? && false !in after.cond ==> CanonicalTop(after.state)
  {
    hide ControlToken, Meaning, Exec, ProducesCanonicalBool;
    var last := emitted[|emitted| - 1];
    var before := Run(MachineOf(vm), emitted[..|emitted| - 1], st);
    assert emitted == emitted[..|emitted| - 1] + [last];
    RunConcat(MachineOf(vm), emitted[..|emitted| - 1], [last], st);
    RunOne(MachineOf(vm), last, before);
    if before.Running? {
      ProducerLeavesBool(vm, last, |before.cond|, before.state);
    }
  }

  // ----- proven depth -----

  /** The scan's depth estimate is a true lower bound on the stack whenever the code runs on. */
  lemma {:induction false} DepthIsProven(vm: Vm, emitted: seq<string>, st: Status<Core>)
    ensures var after := Run(MachineOf(vm), emitted, st);
            after.Running? && false !in after.cond ==> |after.state.main| >= ProvenDepth(emitted)
  {
    hide NextDepth;
    if emitted != [] {
      var init, last := emitted[..|emitted| - 1], emitted[|emitted| - 1];
      DepthIsProven(vm, init, st);
      var before := Run(MachineOf(vm), init, st);
      assert emitted == init + [last];
      RunConcat(MachineOf(vm), init, [last], st);
      RunOne(MachineOf(vm), last, before);
      DepthStep(vm, ProvenDepth(init), last, before);
    }
  }

  lemma DepthStep(vm: Vm, depth: nat, last: string, before: Status<Core>)
    requires before.Running? && false !in before.cond ==> |before.state.main| >= depth
    ensures var after := Step(MachineOf(vm), last, before);
            after.Running? && false !in after.cond ==> |after.state.main| >= NextDepth(depth, last)
  {
    hide ControlToken, Meaning, WellFormedPushSize, StackOp, ValueOp;
    if before.Running? && !IsInert(last) && !IsControlFlow(last) {
      NotControl(last);
      if WellFormedPushSize(last).Some? {
        PushDenotes(vm, last);
      } else if IsOp(last, OP_DUP) {
        OpDenotes(vm, last, OP_DUP);
        StackEffects(vm, before.state.main);
      } else if IsOp(last, OP_DROP) {
        OpDenotes(vm, last, OP_DROP);
        StackEffects(vm, before.state.main);
      } else if IsOp(last, OP_SWAP) {
        OpDenotes(vm, last, OP_SWAP);
        StackEffects(vm, before.state.main);
      }
    }
  }

  lemma StackEffects(vm: Vm, s: seq<Item>)
    ensures IsStackOp(OP_DUP) && IsStackOp(OP_DROP) && IsStackOp(OP_SWAP)
    ensures StackOp(vm, OP_DUP, s).Some? ==> |StackOp(vm, OP_DUP, s).value| == |s| + 1
    ensures StackOp(vm, OP_DROP, s).Some? ==> |StackOp(vm, OP_DROP, s).value| == |s| - 1
    ensures StackOp(vm, OP_SWAP, s).Some? ==> |StackOp(vm, OP_SWAP, s).value| == |s|
  {
  }

  // ----- the rules, on denotations -----

  lemma ConstantEquality(vm: Vm, x: Item, y: Item, d: nat, c: Core)
    ensures ExecAll(vm, [Push(x), Push(y), Op(OP_EQUAL)], d, c) ==
            ExecAll(vm, [OpMeaning(if x == y then OP_1 else OP_0)], d, c)
  {
    ExecThree(vm, Push(x), Push(y), Op(OP_EQUAL), d, c);
    ExecOne(vm, OpMeaning(if x == y then OP_1 else OP_0), d, c);
    assert ([y] + ([x] + c.main))[2..] == c.main;
  }

  lemma PushDupRules(vm: Vm, x: Item, d: nat, c: Core)
    ensures ExecAll(vm, [Push(x), Op(OP_DUP), Op(OP_EQUAL)], d, c) == ExecAll(vm, [OpMeaning(OP_1)], d, c)
    ensures ExecAll(vm, [Push(x), Op(OP_DUP), Op(OP_DROP)], d, c) == ExecAll(vm, [Push(x)], d, c)
    ensures ExecAll(vm, [Push(x), Op(OP_DUP), Op(OP_2DROP)], d, c) == ExecAll(vm, [], d, c)
    ensures ExecAll(vm, [Push(x), Push(x)], d, c) == ExecAll(vm, [Push(x), Op(OP_DUP)], d, c)
    ensures ExecAll(vm, [Push(x), Op(OP_DROP)], d, c) == ExecAll(vm, [], d, c)
  {
    ExecThree(vm, Push(x), Op(OP_DUP), Op(OP_EQUAL), d, c);
    ExecThree(vm, Push(x), Op(OP_DUP), Op(OP_DROP), d, c);
    ExecThree(vm, Push(x), Op(OP_DUP), Op(OP_2DROP), d, c);
    ExecTwo(vm, Push(x), Push(x), d, c);
    ExecTwo(vm, Push(x), Op(OP_DUP), d, c);
    ExecTwo(vm, Push(x), Op(OP_DROP), d, c);
    ExecOne(vm, OpMeaning(OP_1), d, c);
    ExecOne(vm, Push(x), d, c);
    var s := [x] + c.main;
    assert StackOp(vm, OP_DUP, s) == Some([x] + s);
    assert ([x] + s)[1..] == s && ([x] + s)[2..] == c.main && s[1..] == c.main;
  }

  /** Equality with a constant on top of a canonical boolean. */
  lemma PushThenEqual(vm: Vm, x: Item, d: nat, c: Core)
    requires c.main != []
    ensures ExecAll(vm, [Push(x), Op(OP_EQUAL)], d, c) == Next(c.(main := [Bool(x == c.main[0])] + c.main[1..]))
  {
    ExecTwo(vm, Push(x), Op(OP_EQUAL), d, c);
    assert ([x] + c.main)[2..] == c.main[1..];
    EqualEffects(vm, d, c.(main := [x] + c.main));
    hide ValueOp;
    assert !IsStackOp(OP_EQUAL);
  }

  predicate LeavesBool(vm: Vm, code: seq<Instr>, d: nat, c: Core, want: bool) {
    c.main != [] && ExecAll(vm, code, d, c) == Next(c.(main := [Bool((c.main[0] == [1]) == want)] + c.main[1..]))
  }

  lemma SameBool(vm: Vm, a: seq<Instr>, b: seq<Instr>, d: nat, c: Core, want: bool)
    requires LeavesBool(vm, a, d, c, want) && LeavesBool(vm, b, d, c, want)
    ensures ExecAll(vm, a, d, c) == ExecAll(vm, b, d, c)
  {
  }

  lemma NotOnBool(vm: Vm, d: nat, c: Core)
    requires Sane(vm) && CanonicalTop(c)
    ensures LeavesBool(vm, [Op(OP_NOT)], d, c, false)
    ensures LeavesBool(vm, [Op(OP_0NOTEQUAL)], d, c, true)
    ensures LeavesBool(vm, [Op(OP_NOT), Op(OP_NOT)], d, c, true)
  {
    hide ExecAll, Exec;
    BoolNumbers(vm, c.main[0]);
    UnaryAlone(vm, OP_NOT, d, c);
    UnaryAlone(vm, OP_0NOTEQUAL, d, c);
    ExecTwo(vm, Op(OP_NOT), Op(OP_NOT), d, c);
    ExecOne(vm, Op(OP_NOT), d, c);
    var flipped: Item := Bool(c.main[0] == []);
    var c' := c.(main := [flipped] + c.main[1..]);
    BoolNumbers(vm, flipped);
    UnaryAlone(vm, OP_NOT, d, c');
    ExecOne(vm, Op(OP_NOT), d, c');
    assert c'.main[1..] == c.main[1..];
  }

  lemma CompareBool(vm: Vm, d: nat, c: Core)
    requires Sane(vm) && CanonicalTop(c)
    ensures LeavesBool(vm, [Push([1]), Op(OP_EQUAL)], d, c, true)
    ensures LeavesBool(vm, [Push([1]), Op(OP_NUMEQUAL)], d, c, true)
    ensures LeavesBool(vm, [Push([1]), Op(OP_NUMNOTEQUAL)], d, c, false)
    ensures LeavesBool(vm, [Push([]), Op(OP_EQUAL)], d, c, false)
    ensures LeavesBool(vm, [Push([]), Op(OP_NUMEQUAL)], d, c, false)
    ensures LeavesBool(vm, [Push([]), Op(OP_NUMNOTEQUAL)], d, c, true)
  {
    hide ExecAll, Exec;
    BoolNumbers(vm, c.main[0]);
    PushThenEqual(vm, [1], d, c);
    PushThenEqual(vm, [], d, c);
    PushThenBinary(vm, [1], OP_NUMEQUAL, d, c);
    PushThenBinary(vm, [1], OP_NUMNOTEQUAL, d, c);
    PushThenBinary(vm, [], OP_NUMEQUAL, d, c);
    PushThenBinary(vm, [], OP_NUMNOTEQUAL, d, c);
  }

  lemma PushThenBinary(vm: Vm, x: Item, code: Byte, d: nat, c: Core)
    requires code in BINARY_OPS && vm.number(x).Some?
    ensures IsValueOp(code) && !IsStackOp(code)
    ensures ExecAll(vm, [Push(x), Op(code)], d, c) ==
            if c.main == [] || vm.number(c.main[0]).None? then Fail
            else Next(c.(main := [BinaryResult(vm, code, vm.number(c.main[0]).value, vm.number(x).value)] +
                         c.main[1..]))
  {
    hide BinaryResult;
    ExecTwo(vm, Push(x), Op(code), d, c);
    var s := [x] + c.main;
    assert ValueOp(vm, code, s) == Binary(vm, code, s);
    if c.main != [] {
      assert s[2..] == c.main[1..] && s[1] == c.main[0];
    }
  }

  lemma UnaryAlone(vm: Vm, code: Byte, d: nat, c: Core)
    requires code in UNARY_OPS
    ensures ExecAll(vm, [Op(code)], d, c) ==
            if c.main == [] || vm.number(c.main[0]).None? then Fail
            else Next(c.(main := [UnaryResult(vm, code, vm.number(c.main[0]).value)] + c.main[1..]))
  {
    hide UnaryResult;
    ExecOne(vm, Op(code), d, c);
    assert IsValueOp(code) && !IsStackOp(code);
    assert ValueOp(vm, code, c.main) == Unary(vm, code, c.main);
  }

  lemma NumberRules(vm: Vm, d: nat, c: Core)
    requires Sane(vm)
    ensures ExecAll(vm, [Push([1]), Op(OP_ADD)], d, c) == ExecAll(vm, [Op(OP_1ADD)], d, c)
    ensures ExecAll(vm, [Push([1]), Op(OP_SUB)], d, c) == ExecAll(vm, [Op(OP_1SUB)], d, c)
    ensures ExecAll(vm, [Push([0x81]), Op(OP_ADD)], d, c) == ExecAll(vm, [Op(OP_1SUB)], d, c)
    ensures ExecAll(vm, [Push([0x81]), Op(OP_SUB)], d, c) == ExecAll(vm, [Op(OP_1ADD)], d, c)
  {
    hide ExecAll;
    PushThenBinary(vm, [1], OP_ADD, d, c);
    PushThenBinary(vm, [1], OP_SUB, d, c);
    PushThenBinary(vm, [0x81], OP_ADD, d, c);
    PushThenBinary(vm, [0x81], OP_SUB, d, c);
    UnaryAlone(vm, OP_1ADD, d, c);
    UnaryAlone(vm, OP_1SUB, d, c);
  }

  lemma ShuffleRules(vm: Vm, d: nat, c: Core)
    ensures ExecAll(vm, [Op(OP_SWAP), Op(OP_DROP)], d, c) == ExecAll(vm, [Op(OP_NIP)], d, c)
    ensures ExecAll(vm, [Op(OP_OVER), Op(OP_OVER)], d, c) == ExecAll(vm, [Op(OP_2DUP)], d, c)
    ensures ExecAll(vm, [Op(OP_DROP), Op(OP_DROP)], d, c) == ExecAll(vm, [Op(OP_2DROP)], d, c)
  {
    ExecTwo(vm, Op(OP_SWAP), Op(OP_DROP), d, c);
    ExecTwo(vm, Op(OP_OVER), Op(OP_OVER), d, c);
    ExecTwo(vm, Op(OP_DROP), Op(OP_DROP), d, c);
    ExecOne(vm, Op(OP_NIP), d, c);
    ExecOne(vm, Op(OP_2DUP), d, c);
    ExecOne(vm, Op(OP_2DROP), d, c);
    var s := c.main;
    if |s| >= 2 {
      assert ([s[1], s[0]] + s[2..])[1..] == [s[0]] + s[2..];
      assert [s[0]] + ([s[1]] + s) == [s[0], s[1]] + s;
      assert s[1..][1..] == s[2..];
    }
  }

  lemma PickRules(vm: Vm, d: nat, c: Core)
    requires Sane(vm)
    ensures ExecAll(vm, [Push([]), Op(OP_PICK)], d, c) == ExecAll(vm, [Op(OP_DUP)], d, c)
    ensures ExecAll(vm, [Push([1]), Op(OP_PICK)], d, c) == ExecAll(vm, [Op(OP_OVER)], d, c)
  {
    ExecTwo(vm, Push([]), Op(OP_PICK), d, c);
    ExecTwo(vm, Push([1]), Op(OP_PICK), d, c);
    ExecOne(vm, Op(OP_DUP), d, c);
    ExecOne(vm, Op(OP_OVER), d, c);
    assert ([[]] + c.main)[1..] == c.main && ([[1]] + c.main)[1..] == c.main;
  }

  lemma RollRules(vm: Vm, d: nat, c: Core)
    requires Sane(vm)
    ensures ExecAll(vm, [Push([1]), Op(OP_ROLL)], d, c) == ExecAll(vm, [Op(OP_SWAP)], d, c)
    ensures ExecAll(vm, [Push([2]), Op(OP_ROLL)], d, c) == ExecAll(vm, [Op(OP_ROT)], d, c)
  {
    ExecTwo(vm, Push([1]), Op(OP_ROLL), d, c);
    ExecTwo(vm, Push([2]), Op(OP_ROLL), d, c);
    ExecOne(vm, Op(OP_SWAP), d, c);
    ExecOne(vm, Op(OP_ROT), d, c);
    var s := c.main;
    var one: Item, two: Item := [1], [2];
    if |s| >= 2 {
      assert ([one] + s)[1..2] == [s[0]] && ([one] + s)[3..] == s[2..];
      assert [s[1]] + [s[0]] + s[2..] == [s[1], s[0]] + s[2..];
    }
    if |s| >= 3 {
      assert ([two] + s)[1..3] == [s[0], s[1]] && ([two] + s)[4..] == s[3..];
      assert [s[2]] + [s[0], s[1]] + s[3..] == [s[2], s[0], s[1]] + s[3..];
    }
  }

  lemma DeepRules(vm: Vm, d: nat, c: Core)
    ensures |c.main| >= 1 ==> ExecAll(vm, [Op(OP_DUP), Op(OP_DROP)], d, c) == ExecAll(vm, [], d, c)
    ensures |c.main| >= 2 ==> ExecAll(vm, [Op(OP_SWAP), Op(OP_SWAP)], d, c) == ExecAll(vm, [], d, c)
  {
    ExecTwo(vm, Op(OP_DUP), Op(OP_DROP), d, c);
    ExecTwo(vm, Op(OP_SWAP), Op(OP_SWAP), d, c);
    var s := c.main;
    if |s| >= 1 {
      assert ([s[0]] + s)[1..] == s;
    }
    if |s| >= 2 {
      assert ([s[1], s[0]] + s[2..])[2..] == s[2..];
      assert [s[0], s[1]] + s[2..] == s;
    }
  }

  lemma TrueVerify(vm: Vm, d: nat, c: Core)
    ensures ExecAll(vm, [Push([1]), Op(OP_VERIFY)], d, c) == ExecAll(vm, [], d, c)
  {
    ExecTwo(vm, Push([1]), Op(OP_VERIFY), d, c);
    var one: Item := [1];
    assert one[0] == 1 && Truthy(one);
    assert ([one] + c.main)[1..] == c.main;
    assert ValueOp(vm, OP_VERIFY, [one] + c.main) == Verified(Some([one] + c.main));
  }

  /** A value opcode followed by VERIFY is its result, verified. */
  lemma ThenVerify(vm: Vm, code: Byte, d: nat, c: Core)
    requires IsValueOp(code)
    ensures ExecAll(vm, [Op(code), Op(OP_VERIFY)], d, c) == OnMain(c, Verified(ValueOp(vm, code, c.main)))
  {
    ExecTwo(vm, Op(code), Op(OP_VERIFY), d, c);
    hide ValueOp;
    assert !IsStackOp(code) && !IsStackOp(OP_VERIFY) && IsValueOp(OP_VERIFY);
    var r := ValueOp(vm, code, c.main);
    if r.Some? {
      VerifyAlone(vm, r.value);
    }
  }

  lemma VerifyAlone(vm: Vm, s: seq<Item>)
    ensures ValueOp(vm, OP_VERIFY, s) == Verified(Some(s))
  {
  }

  lemma EqualEffects(vm: Vm, d: nat, c: Core)
    ensures IsValueOp(OP_EQUAL) && ValueOp(vm, OP_EQUAL, c.main) == Equal(c.main)
    ensures IsValueOp(OP_NUMEQUAL) && ValueOp(vm, OP_NUMEQUAL, c.main) == Binary(vm, OP_NUMEQUAL, c.main)
    ensures Exec(vm, Op(OP_EQUALVERIFY), d, c) == OnMain(c, Verified(Equal(c.main)))
    ensures Exec(vm, Op(OP_NUMEQUALVERIFY), d, c) == OnMain(c, Verified(Binary(vm, OP_NUMEQUAL, c.main)))
  {
    hide Verified, Equal, Binary, OnMain;
  }

  lemma VerifyRules(vm: Vm, d: nat, c: Core)
    ensures ExecAll(vm, [Op(OP_EQUAL), Op(OP_VERIFY)], d, c) == ExecAll(vm, [Op(OP_EQUALVERIFY)], d, c)
    ensures ExecAll(vm, [Op(OP_NUMEQUAL), Op(OP_VERIFY)], d, c) == ExecAll(vm, [Op(OP_NUMEQUALVERIFY)], d, c)
  {
    hide ExecAll, Exec, ValueOp, OnMain, Verified, Equal, Binary;
    EqualEffects(vm, d, c);
    ThenVerify(vm, OP_EQUAL, d, c);
    ThenVerify(vm, OP_NUMEQUAL, d, c);
    ExecOne(vm, Op(OP_EQUALVERIFY), d, c);
    ExecOne(vm, Op(OP_NUMEQUALVERIFY), d, c);
  }

  lemma SignatureEffects(vm: Vm, d: nat, c: Core)
    ensures Exec(vm, Op(OP_CHECKSIG), d, c) == Signature(vm.checkSig(c), false)
    ensures Exec(vm, Op(OP_CHECKSIGVERIFY), d, c) == Signature(vm.checkSig(c), true)
    ensures Exec(vm, Op(OP_CHECKMULTISIG), d, c) == Signature(vm.checkMultiSig(c), false)
    ensures Exec(vm, Op(OP_CHECKMULTISIGVERIFY), d, c) == Signature(vm.checkMultiSig(c), true)
  {
    hide Signature, StackOp, ValueOp;
  }

  lemma SignatureRules(vm: Vm, d: nat, c: Core)
    requires Sane(vm)
    ensures ExecAll(vm, [Op(OP_CHECKSIG), Op(OP_VERIFY)], d, c) == ExecAll(vm, [Op(OP_CHECKSIGVERIFY)], d, c)
    ensures ExecAll(vm, [Op(OP_CHECKMULTISIG), Op(OP_VERIFY)], d, c) == ExecAll(vm, [Op(OP_CHECKMULTISIGVERIFY)], d, c)
  {
    hide ExecAll, Exec, Signature, ThenExec;
    SignatureEffects(vm, d, c);
    ExecTwo(vm, Op(OP_CHECKSIG), Op(OP_VERIFY), d, c);
    ExecTwo(vm, Op(OP_CHECKMULTISIG), Op(OP_VERIFY), d, c);
    ExecOne(vm, Op(OP_CHECKSIGVERIFY), d, c);
    ExecOne(vm, Op(OP_CHECKMULTISIGVERIFY), d, c);
    VerifySignature(vm, vm.checkSig(c), c, d);
    VerifySignature(vm, vm.checkMultiSig(c), c, d);
  }

  lemma VerifySignature(vm: Vm, r: Option<(bool, Core)>, c: Core, d: nat)
    requires Sane(vm)
    ensures ThenExec(vm, Signature(r, false), Op(OP_VERIFY), d) == Signature(r, true)
  {
    if r.Some? {
      BoolNumbers(vm, Bool(r.value.0));
      var t := r.value.1.main;
      assert ([Bool(r.value.0)] + t)[1..] == t;
    }
  }
}
