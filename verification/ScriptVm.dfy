/** A virtual machine for the opcodes the optimizers know by name. Everything else (hashing, signature checks, the
    number format, opaque instructions) is a parameter. Stacks are written top first. */
module ScriptVm {
  import opened Wrappers
  import opened Hex
  import opened ScriptCodec
  import opened CondMachine
  import opened IfTree

  const OP_0: Byte := 0x00
  const OP_1NEGATE: Byte := 0x4f
  const OP_1: Byte := 0x51
  const OP_2: Byte := 0x52
  const OP_VERIFY: Byte := 0x69
  const OP_TOALTSTACK: Byte := 0x6b
  const OP_FROMALTSTACK: Byte := 0x6c
  const OP_2DROP: Byte := 0x6d
  const OP_2DUP: Byte := 0x6e
  const OP_2ROT: Byte := 0x71
  const OP_2SWAP: Byte := 0x72
  const OP_DROP: Byte := 0x75
  const OP_DUP: Byte := 0x76
  const OP_NIP: Byte := 0x77
  const OP_OVER: Byte := 0x78
  const OP_PICK: Byte := 0x79
  const OP_ROLL: Byte := 0x7a
  const OP_ROT: Byte := 0x7b
  const OP_SWAP: Byte := 0x7c
  const OP_TUCK: Byte := 0x7d
  const OP_EQUAL: Byte := 0x87
  const OP_EQUALVERIFY: Byte := 0x88
  const OP_1ADD: Byte := 0x8b
  const OP_1SUB: Byte := 0x8c
  const OP_NOT: Byte := 0x91
  const OP_0NOTEQUAL: Byte := 0x92
  const OP_ADD: Byte := 0x93
  const OP_SUB: Byte := 0x94
  const OP_BOOLAND: Byte := 0x9a
  const OP_BOOLOR: Byte := 0x9b
  const OP_NUMEQUAL: Byte := 0x9c
  const OP_NUMEQUALVERIFY: Byte := 0x9d
  const OP_NUMNOTEQUAL: Byte := 0x9e
  const OP_LESSTHAN: Byte := 0x9f
  const OP_GREATERTHAN: Byte := 0xa0
  const OP_LESSTHANOREQUAL: Byte := 0xa1
  const OP_GREATERTHANOREQUAL: Byte := 0xa2
  const OP_WITHIN: Byte := 0xa5
  const OP_CHECKSIG: Byte := 0xac
  const OP_CHECKSIGVERIFY: Byte := 0xad
  const OP_CHECKMULTISIG: Byte := 0xae
  const OP_CHECKMULTISIGVERIFY: Byte := 0xaf

  type Item = seq<Byte>

  datatype Core = Core(main: seq<Item>, alt: seq<Item>)

  /** What an instruction text denotes. */
  datatype Instr =
    | Push(payload: Item)
    | Data(name: string)
    | Op(code: Byte)
    | Raw(bytes: seq<Byte>)
    | Opaque(text: string)

  datatype Vm = Vm(
    number: Item -> Option<int>,
    encode: int -> Item,
    checkSig: Core -> Option<(bool, Core)>,
    checkMultiSig: Core -> Option<(bool, Core)>,
    data: map<string, Item>,
    other: (Instr, nat, Core) -> Outcome<Core>)

  /** The few numbers the rewrites rely on decode as expected, and only OP_RETURN, OP_CODESEPARATOR and opaque text
      may notice the conditional depth. */
  ghost predicate Sane(vm: Vm) {
    && vm.number([]) == Some(0) && vm.number([1]) == Some(1) && vm.number([2]) == Some(2)
    && vm.number([0x81]) == Some(-1)
    && (forall i: Instr, d: nat, d': nat, c: Core :: !i.Opaque? && i != Op(OP_RETURN) && i != Op(OP_CODESEPARATOR) ==>
          vm.other(i, d, c) == vm.other(i, d', c))
  }

  function Meaning(vm: Vm, e: string): Instr {
    match HexToBytes(e)
    case Err(_) => if IsKnownPlaceholder(e, vm.data.Keys) then Data(e[1..|e| - 1]) else Opaque(e)
    case Ok(bytes) =>
      match DecodePush(bytes, false)
      case Ok(d) => Push(d.payload)
      case Err(_) => if |bytes| == 1 then Op(bytes[0]) else Raw(bytes)
  }

  // ----- one instruction -----

  function Bool(b: bool): Item {
    if b then [1] else []
  }

  /** A byte string is false when it is zero, positive or negative. */
  predicate Truthy(x: Item) {
    exists i :: 0 <= i < |x| && x[i] != 0 && !(i == |x| - 1 && x[i] == 0x80)
  }

  const UNARY_OPS: set<Byte> := {OP_1ADD, OP_1SUB, OP_NOT, OP_0NOTEQUAL}
  const BINARY_OPS: set<Byte> :=
    {OP_ADD, OP_SUB, OP_BOOLAND, OP_BOOLOR, OP_NUMEQUAL, OP_NUMNOTEQUAL, OP_LESSTHAN, OP_GREATERTHAN,
     OP_LESSTHANOREQUAL, OP_GREATERTHANOREQUAL}

  function UnaryResult(vm: Vm, code: Byte, a: int): Item {
    if code == OP_1ADD then vm.encode(a + 1)
    else if code == OP_1SUB then vm.encode(a - 1)
    else if code == OP_NOT then Bool(a == 0)
    else Bool(a != 0)
  }

  function BinaryResult(vm: Vm, code: Byte, a: int, b: int): Item {
    if code == OP_ADD then vm.encode(a + b)
    else if code == OP_SUB then vm.encode(a - b)
    else if code == OP_BOOLAND then Bool(a != 0 && b != 0)
    else if code == OP_BOOLOR then Bool(a != 0 || b != 0)
    else if code == OP_NUMEQUAL then Bool(a == b)
    else if code == OP_NUMNOTEQUAL then Bool(a != b)
    else if code == OP_LESSTHAN then Bool(a < b)
    else if code == OP_GREATERTHAN then Bool(a > b)
    else if code == OP_LESSTHANOREQUAL then Bool(a <= b)
    else Bool(a >= b)
  }

  function Unary(vm: Vm, code: Byte, s: seq<Item>): Option<seq<Item>> {
    if |s| < 1 || vm.number(s[0]).None? then None
    else Some([UnaryResult(vm, code, vm.number(s[0]).value)] + s[1..])
  }

  function Binary(vm: Vm, code: Byte, s: seq<Item>): Option<seq<Item>> {
    if |s| < 2 || vm.number(s[1]).None? || vm.number(s[0]).None? then None
    else Some([BinaryResult(vm, code, vm.number(s[1]).value, vm.number(s[0]).value)] + s[2..])
  }

  /** The depth operand of PICK and ROLL, which must name an item below itself. */
  function Depth(vm: Vm, s: seq<Item>): (r: Option<nat>)
    ensures r.Some? ==> r.value + 1 < |s|
  {
    if s == [] then None
    else match vm.number(s[0]) case None => None case Some(k) => if 0 <= k < |s| - 1 then Some(k) else None
  }

  function Verified(s: Option<seq<Item>>): Option<seq<Item>> {
    if s.Some? && s.value != [] && Truthy(s.value[0]) then Some(s.value[1..]) else None
  }

  predicate IsStackOp(code: Byte) {
    || code in {OP_2DROP, OP_2DUP, OP_2ROT, OP_2SWAP, OP_DROP, OP_DUP, OP_NIP, OP_OVER}
    || code in {OP_PICK, OP_ROLL, OP_ROT, OP_SWAP, OP_TUCK}
  }

  /** Effect of a pure stack opcode on the main stack. */
  function StackOp(vm: Vm, code: Byte, s: seq<Item>): Option<seq<Item>> {
    if code == OP_2DROP then (if |s| < 2 then None else Some(s[2..]))
    else if code == OP_2DUP then (if |s| < 2 then None else Some([s[0], s[1]] + s))
    else if code == OP_2ROT then (if |s| < 6 then None else Some([s[4], s[5], s[0], s[1], s[2], s[3]] + s[6..]))
    else if code == OP_2SWAP then (if |s| < 4 then None else Some([s[2], s[3], s[0], s[1]] + s[4..]))
    else if code == OP_DROP then (if |s| < 1 then None else Some(s[1..]))
    else if code == OP_DUP then (if |s| < 1 then None else Some([s[0]] + s))
    else if code == OP_NIP then (if |s| < 2 then None else Some([s[0]] + s[2..]))
    else if code == OP_OVER then (if |s| < 2 then None else Some([s[1]] + s))
    else if code == OP_PICK then
      (match Depth(vm, s) case None => None case Some(k) => Some([s[1 + k]] + s[1..]))
    else if code == OP_ROLL then
      (match Depth(vm, s) case None => None case Some(k) => Some([s[1 + k]] + s[1..1 + k] + s[2 + k..]))
    else if code == OP_ROT then (if |s| < 3 then None else Some([s[2], s[0], s[1]] + s[3..]))
    else if code == OP_SWAP then (if |s| < 2 then None else Some([s[1], s[0]] + s[2..]))
    else if code == OP_TUCK then (if |s| < 2 then None else Some([s[0], s[1], s[0]] + s[2..]))
    else None
  }

  predicate IsValueOp(code: Byte) {
    || code in UNARY_OPS || code in BINARY_OPS
    || code in {OP_VERIFY, OP_EQUAL, OP_EQUALVERIFY, OP_NUMEQUALVERIFY, OP_WITHIN}
  }

  /** Effect of an opcode that inspects items. */
  function ValueOp(vm: Vm, code: Byte, s: seq<Item>): Option<seq<Item>> {
    if code in UNARY_OPS then Unary(vm, code, s)
    else if code in BINARY_OPS then Binary(vm, code, s)
    else if code == OP_VERIFY then Verified(Some(s))
    else if code == OP_EQUAL then Equal(s)
    else if code == OP_EQUALVERIFY then Verified(Equal(s))
    else if code == OP_NUMEQUALVERIFY then Verified(Binary(vm, OP_NUMEQUAL, s))
    else if code == OP_WITHIN then Within(vm, s)
    else None
  }

  function Equal(s: seq<Item>): Option<seq<Item>> {
    if |s| < 2 then None else Some([Bool(s[0] == s[1])] + s[2..])
  }

  function Within(vm: Vm, s: seq<Item>): Option<seq<Item>> {
    if |s| < 3 then None
    else
      match (vm.number(s[2]), vm.number(s[1]), vm.number(s[0]))
      case (Some(x), Some(lo), Some(hi)) => Some([Bool(lo <= x < hi)] + s[3..])
      case _ => None
  }

  function OnMain(c: Core, r: Option<seq<Item>>): Outcome<Core> {
    match r case None => Fail case Some(s) => Next(c.(main := s))
  }

  function Signature(r: Option<(bool, Core)>, verify: bool): Outcome<Core> {
    match r
    case None => Fail
    case Some((b, c)) =>
      if !verify then Next(c.(main := [Bool(b)] + c.main)) else if b then Next(c) else Fail
  }

  function ExecOp(vm: Vm, code: Byte, d: nat, c: Core): Outcome<Core> {
    if IsStackOp(code) then OnMain(c, StackOp(vm, code, c.main))
    else if IsValueOp(code) then OnMain(c, ValueOp(vm, code, c.main))
    else if code == OP_TOALTSTACK then
      (if c.main == [] then Fail else Next(Core(c.main[1..], [c.main[0]] + c.alt)))
    else if code == OP_FROMALTSTACK then
      (if c.alt == [] then Fail else Next(Core([c.alt[0]] + c.main, c.alt[1..])))
    else if code == OP_CHECKSIG then Signature(vm.checkSig(c), false)
    else if code == OP_CHECKSIGVERIFY then Signature(vm.checkSig(c), true)
    else if code == OP_CHECKMULTISIG then Signature(vm.checkMultiSig(c), false)
    else if code == OP_CHECKMULTISIGVERIFY then Signature(vm.checkMultiSig(c), true)
    else vm.other(Op(code), d, c)
  }

  function Exec(vm: Vm, i: Instr, d: nat, c: Core): Outcome<Core> {
    match i
    case Push(x) => Next(c.(main := [x] + c.main))
    case Data(name) => if name in vm.data then Next(c.(main := [vm.data[name]] + c.main)) else vm.other(i, d, c)
    case Op(code) => ExecOp(vm, code, d, c)
    case Raw(_) => vm.other(i, d, c)
    case Opaque(_) => vm.other(i, d, c)
  }

  function Condition(c: Core): Option<(bool, Core)> {
    if c.main == [] then None else Some((Truthy(c.main[0]), c.(main := c.main[1..])))
  }

  function MachineOf(vm: Vm): Machine<Core> {
    Machine((e, d, c) => Exec(vm, Meaning(vm, e), d, c), Condition)
  }

  // ----- the machine is one on which hoisting is sound -----

  lemma MeaningOfKey(vm: Vm, a: string, b: string)
    requires Key(a) == Key(b)
    ensures Meaning(vm, a) == Meaning(vm, b)
  {
    hide DecodePush;
    KeyDeterminesBytes(a, b);
    PureHexIsParsable(a);
    PureHexIsParsable(b);
  }

  lemma SafeMeaning(vm: Vm, e: string, labels: set<string>)
    requires IsSafeEncoding(e, labels) && labels <= vm.data.Keys
    ensures !Meaning(vm, e).Opaque? && Meaning(vm, e) != Op(OP_RETURN) && Meaning(vm, e) != Op(OP_CODESEPARATOR)
  {
    hide DecodePush;
    PureHexIsParsable(e);
    SingleOpcodeBytes(e, OP_RETURN);
    SingleOpcodeBytes(e, OP_CODESEPARATOR);
    if HexToBytes(e).Ok? {
      var bytes := HexToBytes(e).value;
      if |bytes| == 1 {
        assert bytes == [bytes[0]];
      }
    }
  }

  lemma ExecIgnoresDepth(vm: Vm, i: Instr, d: nat, d': nat, c: Core)
    requires Sane(vm) && !i.Opaque? && i != Op(OP_RETURN) && i != Op(OP_CODESEPARATOR)
    ensures Exec(vm, i, d, c) == Exec(vm, i, d', c)
  {
    hide StackOp, ValueOp, Signature;
    if i.Op? && !IsStackOp(i.code) && !IsValueOp(i.code) {
      assert vm.other(i, d, c) == vm.other(i, d', c);
    }
  }
}
