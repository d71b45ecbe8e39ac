/** The local rewrite rules: windows of two or three adjacent instructions, written as text. */
module PeepholeRules {
  import opened Wrappers
  import opened Hex
  import opened ScriptCodec
  import opened CondMachine
  import opened IfTree
  import opened ScriptVm
  import ScriptSplit

  // ----- reading instruction text -----

  function HexByteAt(s: string, i: nat): Byte
    requires AllDigits(s) && 2 * i + 1 < |s|
  {
    ScriptSplit.ReadHexByte(s, i)
  }

  predicate IsOp(s: string, op: Byte) {
    |s| == 2 && IsStrictHex(s) && HexByteAt(s, 0) == op
  }

  predicate IsOneOf(s: string, ops: set<Byte>) {
    |s| == 2 && IsStrictHex(s) && HexByteAt(s, 0) in ops
  }

  function OpHex(op: Byte): string {
    ByteToHex(op)
  }

  /** Comments, placeholders and anything else that is not bare hex. */
  predicate IsInert(s: string) {
    s == "" || s[0] == '#' || !IsStrictHex(s)
  }

  const CONTROL_BYTES: set<Byte> := {OP_IF, OP_NOTIF, OP_ELSE, OP_ENDIF, OP_VERIFY, OP_RETURN, OP_CODESEPARATOR}

  /** Decided by the first byte alone. */
  predicate IsControlFlow(s: string) {
    IsStrictHex(s) && HexByteAt(s, 0) in CONTROL_BYTES
  }

  const CANONICAL_BOOL_PRODUCERS: set<Byte> :=
    {OP_0, OP_1, OP_NOT, OP_0NOTEQUAL, OP_EQUAL, OP_NUMEQUAL, OP_NUMNOTEQUAL, OP_LESSTHAN, OP_GREATERTHAN,
     OP_LESSTHANOREQUAL, OP_GREATERTHANOREQUAL, OP_BOOLAND, OP_BOOLOR, OP_WITHIN, OP_CHECKSIG, OP_CHECKMULTISIG}

  predicate ProducesCanonicalBool(s: string) {
    IsOneOf(s, CANONICAL_BOOL_PRODUCERS)
  }

  predicate IsOneByteConstant(op: Byte) {
    op == 0x00 || op == 0x4f || 0x51 <= op <= 0x60
  }

  /** The size of an instruction that is exactly one structurally valid push. */
  function WellFormedPushSize(s: string): Option<nat> {
    if !IsStrictHex(s) then None
    else
      var bytes := |s| / 2;
      var opcode := HexByteAt(s, 0);
      if IsOneByteConstant(opcode) then (if bytes == 1 then Some(1) else None)
      else if 0x01 <= opcode <= 0x4b then (if bytes == opcode + 1 as nat then Some(bytes) else None)
      else if opcode == 0x4c then
        (if bytes >= 2 && HexByteAt(s, 1) as int == bytes - 2 then Some(bytes) else None)
      else if opcode == 0x4d then
        (if bytes >= 3 && Word(HexByteAt(s, 1), HexByteAt(s, 2), 0, 0) == bytes - 3 then Some(bytes) else None)
      else if opcode == 0x4e then
        (if bytes >= 5 && Word(HexByteAt(s, 1), HexByteAt(s, 2), HexByteAt(s, 3), HexByteAt(s, 4)) == bytes - 5
         then Some(bytes) else None)
      else None
  }

  /** The payload of one complete constant push, as lower-case hex. */
  function DecodedPushPayload(s: string): Option<string> {
    if WellFormedPushSize(s).None? then None
    else
      var opcode := HexByteAt(s, 0);
      if opcode == 0x00 then Some("")
      else if opcode == 0x4f then Some("81")
      else if 0x51 <= opcode <= 0x60 then Some(ByteToHex(opcode - 0x50))
      else
        var prefix := if opcode == 0x4c then 2 else if opcode == 0x4d then 3 else if opcode == 0x4e then 5 else 1;
        Some(LowerAll(s[2 * prefix..]))
  }

  datatype LocalOptions = LocalOptions(placeholders: map<string, nat>, policy: Policy)

  function KnownPlaceholderPushSize(s: string, options: LocalOptions): Option<nat> {
    if !IsKnownPlaceholder(s, options.placeholders.Keys) then None
    else
      var payload := options.placeholders[s[1..|s| - 1]];
      if payload > MAX_PAYLOAD then None else Some(payload + PrefixSize(payload))
  }

  predicate IsProfitableDuplicatePush(first: string, second: string, options: LocalOptions) {
    && first == second
    && match DecodePushHex(first, false)
       case Ok(d) =>
         (match SerializedPushSize(d.payload, options.policy) case None => false case Some(size) => size > 1)
       case Err(_) =>
         (match KnownPlaceholderPushSize(first, options)
          case None => false
          case Some(size) =>
            if options.policy == Legacy then size > 1 else options.placeholders[first[1..|first| - 1]] > 1)
  }

  /** Lower bound on the stack depth after the straight-line code emitted so far; 0 when nothing is known. */
  function ProvenDepth(emitted: seq<string>): nat {
    if emitted == [] then 0
    else
      var depth := ProvenDepth(emitted[..|emitted| - 1]);
      NextDepth(depth, emitted[|emitted| - 1])
  }

  function NextDepth(depth: nat, instruction: string): nat {
    if IsInert(instruction) || IsControlFlow(instruction) then 0
    else if WellFormedPushSize(instruction).Some? then depth + 1
    else if IsOp(instruction, OP_DUP) then (if depth == 0 then 0 else depth + 1)
    else if IsOp(instruction, OP_DROP) then (if depth > 0 then depth - 1 else depth)
    else if IsOp(instruction, OP_SWAP) then (if depth < 2 then 0 else depth)
    else 0
  }

  method HasProvenStackDepth(emitted: seq<string>, requiredDepth: nat) returns (proven: bool)
    ensures proven == (ProvenDepth(emitted) >= requiredDepth)
  {
    var depth := 0;
    for i := 0 to |emitted|
      invariant depth == ProvenDepth(emitted[..i])
    {
      assert emitted[..i + 1][..i] == emitted[..i];
      if IsInert(emitted[i]) || IsControlFlow(emitted[i]) {
        depth := 0;
      } else if WellFormedPushSize(emitted[i]).Some? {
        depth := depth + 1;
      } else if IsOp(emitted[i], OP_DUP) {
        depth := if depth == 0 then 0 else depth + 1;
      } else if IsOp(emitted[i], OP_DROP) {
        if depth > 0 {
          depth := depth - 1;
        }
      } else if IsOp(emitted[i], OP_SWAP) {
        if depth < 2 {
          depth := 0;
        }
      } else {
        depth := 0;
      }
    }
    assert emitted[..|emitted|] == emitted;
    return depth >= requiredDepth;
  }

  // ----- windows of three -----

  /** One instruction of a replacement, and which of the consumed instructions it inherits its origin from. */
  datatype Replacement = Replacement(encoding: string, offset: nat)

  function TripleCandidate(first: string, second: string, third: string): Option<seq<Replacement>> {
    var payload1 := DecodedPushPayload(first);
    var payload2 := DecodedPushPayload(second);
    if payload1.Some? && payload2.Some? && IsOp(third, OP_EQUAL) then
      Some([Replacement(OpHex(if payload1 == payload2 then OP_1 else OP_0), 2)])
    else if payload1.Some? && IsOp(second, OP_DUP) && IsOp(third, OP_EQUAL) then
      Some([Replacement(OpHex(OP_1), 2)])
    else if payload1.Some? && IsOp(second, OP_DUP) && IsOp(third, OP_DROP) then
      Some([Replacement(first, 0)])
    else if payload1.Some? && IsOp(second, OP_DUP) && IsOp(third, OP_2DROP) then
      Some([])
    else if ProducesCanonicalBool(first) && IsOp(second, OP_NOT) && IsOp(third, OP_NOT) then
      Some([Replacement(first, 0)])
    else if ProducesCanonicalBool(first) && IsOp(second, OP_1) && IsOneOf(third, {OP_EQUAL, OP_NUMEQUAL}) then
      Some([Replacement(first, 0)])
    else if ProducesCanonicalBool(first) && IsOp(second, OP_0) && IsOneOf(third, {OP_EQUAL, OP_NUMEQUAL}) then
      Some([Replacement(first, 0), Replacement(OpHex(OP_NOT), 2)])
    else if ProducesCanonicalBool(first) && IsOp(second, OP_0) && IsOp(third, OP_NUMNOTEQUAL) then
      Some([Replacement(first, 0)])
    else if ProducesCanonicalBool(first) && IsOp(second, OP_1) && IsOp(third, OP_NUMNOTEQUAL) then
      Some([Replacement(first, 0), Replacement(OpHex(OP_NOT), 2)])
    else None
  }

  function ReplacementDigits(rs: seq<Replacement>): nat {
    if rs == [] then 0 else |rs[0].encoding| + ReplacementDigits(rs[1..])
  }

  predicate IsStrictlySmaller(first: string, second: string, third: string, rs: seq<Replacement>) {
    && IsStrictHex(first) && IsStrictHex(second) && IsStrictHex(third)
    && (forall i :: 0 <= i < |rs| ==> IsStrictHex(rs[i].encoding))
    && ReplacementDigits(rs) < |first| + |second| + |third|
  }

  function TryRewriteTriple(first: string, second: string, third: string): Option<seq<Replacement>> {
    match TripleCandidate(first, second, third)
    case None => None
    case Some(rs) => if IsStrictlySmaller(first, second, third, rs) then Some(rs) else None
  }

  // ----- windows of two -----

  datatype PairRewrite = KeepBoth | DeletePair | ReplacePair(replacement: Byte)

  function FusedVerifyOpcode(producer: string): Option<Byte> {
    if IsOp(producer, OP_EQUAL) then Some(OP_EQUALVERIFY)
    else if IsOp(producer, OP_NUMEQUAL) then Some(OP_NUMEQUALVERIFY)
    else if IsOp(producer, OP_CHECKSIG) then Some(OP_CHECKSIGVERIFY)
    else if IsOp(producer, OP_CHECKMULTISIG) then Some(OP_CHECKMULTISIGVERIFY)
    else None
  }

  predicate AfterCanonicalBool(emitted: seq<string>) {
    emitted != [] && ProducesCanonicalBool(emitted[|emitted| - 1])
  }

  function TryRewritePair(cur: string, nxt: string, emitted: seq<string>, allowTrueVerify: bool): PairRewrite {
    if IsOp(cur, OP_NOT) && (IsOp(nxt, OP_IF) || IsOp(nxt, OP_NOTIF)) && AfterCanonicalBool(emitted) then
      ReplacePair(if IsOp(nxt, OP_IF) then OP_NOTIF else OP_IF)
    else if IsOp(nxt, OP_VERIFY) && allowTrueVerify && IsOp(cur, OP_1) then DeletePair
    else if IsOp(nxt, OP_VERIFY) && FusedVerifyOpcode(cur).Some? then ReplacePair(FusedVerifyOpcode(cur).value)
    else if IsControlFlow(nxt) then KeepBoth
    else RewriteStraightPair(cur, nxt, emitted)
  }

  /** The rules that may not cross control flow. */
  function RewriteStraightPair(cur: string, nxt: string, emitted: seq<string>): PairRewrite {
    if IsOp(cur, OP_1) && IsOp(nxt, OP_ADD) then ReplacePair(OP_1ADD)
    else if IsOp(cur, OP_1) && IsOp(nxt, OP_SUB) then ReplacePair(OP_1SUB)
    else if IsOp(cur, OP_1NEGATE) && IsOp(nxt, OP_ADD) then ReplacePair(OP_1SUB)
    else if IsOp(cur, OP_1NEGATE) && IsOp(nxt, OP_SUB) then ReplacePair(OP_1ADD)
    else if IsOp(cur, OP_SWAP) && IsOp(nxt, OP_DROP) then ReplacePair(OP_NIP)
    else if IsOp(cur, OP_OVER) && IsOp(nxt, OP_OVER) then ReplacePair(OP_2DUP)
    else if IsOp(cur, OP_0) && IsOp(nxt, OP_PICK) then ReplacePair(OP_DUP)
    else if IsOp(cur, OP_1) && IsOp(nxt, OP_PICK) then ReplacePair(OP_OVER)
    else if IsOp(cur, OP_1) && IsOp(nxt, OP_ROLL) then ReplacePair(OP_SWAP)
    else if IsOp(cur, OP_2) && IsOp(nxt, OP_ROLL) then ReplacePair(OP_ROT)
    else if WellFormedPushSize(cur).Some? && IsOp(nxt, OP_DROP) then DeletePair
    else if IsOp(cur, OP_DUP) && IsOp(nxt, OP_DROP) && ProvenDepth(emitted) >= 1 then DeletePair
    else if IsOp(cur, OP_SWAP) && IsOp(nxt, OP_SWAP) && ProvenDepth(emitted) >= 2 then DeletePair
    else if IsOp(cur, OP_NOT) && IsOp(nxt, OP_NOT) && AfterCanonicalBool(emitted) then ReplacePair(OP_0NOTEQUAL)
    else if IsOp(cur, OP_DROP) && IsOp(nxt, OP_DROP) then ReplacePair(OP_2DROP)
    else if IsOp(cur, OP_0) && IsOp(nxt, OP_EQUAL) && AfterCanonicalBool(emitted) then ReplacePair(OP_NOT)
    else if IsOp(cur, OP_0) && IsOp(nxt, OP_NUMEQUAL) && AfterCanonicalBool(emitted) then ReplacePair(OP_NOT)
    else KeepBoth
  }

  // ----- one round -----

  datatype Rules = Rules(options: LocalOptions, allowTrueVerify: bool)

  /** What the scan does at one position: how much input it consumes and what it emits for it. */
  datatype Move = Move(consumed: nat, emits: seq<Replacement>, rewrites: bool)

  function KeepOne(cur: string): Move {
    Move(1, [Replacement(cur, 0)], false)
  }

  function PairMove(rewrite: PairRewrite, cur: string): Move {
    match rewrite
    case KeepBoth => KeepOne(cur)
    case DeletePair => Move(2, [], true)
    case ReplacePair(op) => Move(2, [Replacement(OpHex(op), 1)], true)
  }

  function NextMove(v: seq<string>, end: nat, i: nat, emitted: seq<string>, rules: Rules): (m: Move)
    requires i < end <= |v|
    ensures 1 <= m.consumed && i + m.consumed <= end
  {
    var cur := v[i];
    var triple :=
      if i + 2 < end && !IsInert(cur) && !IsInert(v[i + 1]) && !IsInert(v[i + 2]) &&
         !IsControlFlow(cur) && !IsControlFlow(v[i + 1]) && !IsControlFlow(v[i + 2])
      then TryRewriteTriple(cur, v[i + 1], v[i + 2]) else None;
    if triple.Some? then Move(3, triple.value, true)
    else if i + 1 < end && IsProfitableDuplicatePush(cur, v[i + 1], rules.options) then
      Move(2, [Replacement(cur, 0), Replacement(OpHex(OP_DUP), 1)], true)
    else if IsInert(cur) || IsControlFlow(cur) then KeepOne(cur)
    else if i + 1 < end && !IsInert(v[i + 1]) then
      PairMove(TryRewritePair(cur, v[i + 1], emitted, rules.allowTrueVerify), cur)
    else KeepOne(cur)
  }

  /** One emitted instruction and the input position it inherits. */
  datatype Emitted = Emitted(encoding: string, oldPC: nat)

  function Texts(out: seq<Emitted>): (r: seq<string>)
    ensures |r| == |out|
  {
    seq(|out|, k requires 0 <= k < |out| => out[k].encoding)
  }

  function Place(rs: seq<Replacement>, i: nat): (r: seq<Emitted>)
    ensures |r| == |rs|
  {
    seq(|rs|, k requires 0 <= k < |rs| => Emitted(rs[k].encoding, i + rs[k].offset))
  }

  datatype Scan = Scan(out: seq<Emitted>, changed: bool)

  /** The scan of the executable prefix from position i on. */
  function ScanFrom(v: seq<string>, end: nat, i: nat, s: Scan, rules: Rules): Scan
    requires i <= end <= |v|
    decreases end - i
  {
    if i == end then s
    else
      var m := NextMove(v, end, i, Texts(s.out), rules);
      ScanFrom(v, end, i + m.consumed, Scan(s.out + Place(m.emits, i), s.changed || m.rewrites), rules)
  }

  function Suffix(v: seq<string>, end: nat): seq<Emitted>
    requires end <= |v|
  {
    seq(|v| - end, k requires 0 <= k < |v| - end => Emitted(v[end + k], end + k))
  }

  /** One round over the whole vector: the scanned prefix, then everything from end on untouched. */
  function RoundScan(v: seq<string>, end: nat, rules: Rules): Scan
    requires end <= |v|
  {
    var s := ScanFrom(v, end, 0, Scan([], false), rules);
    Scan(s.out + Suffix(v, end), s.changed)
  }

  /** OP_RETURN ends executable code; without typed metadata the last one in the text is taken. */
  function PrefixLength(v: seq<string>): (n: nat)
    ensures n <= |v|
  {
    if v == [] then 0
    else if IsOp(v[|v| - 1], OP_RETURN) then |v|
    else
      var n := PrefixLength(v[..|v| - 1]);
      if n > 0 && IsOp(v[n - 1], OP_RETURN) then n else |v|
  }
}
