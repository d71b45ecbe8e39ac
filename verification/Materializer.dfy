/** The linker of canonical templates: encode every typed instruction, bind placeholders, and pad the executable part
    to its alignment with pushes. */
module Materializer {
  import opened Wrappers
  import opened Arithmetic
  import opened Hex
  import opened ScriptCodec
  import opened BytecodeIr
  import ScriptSplit

  datatype MaterialError =
    | UnsupportedArtifactFormat
    | DuplicateInstructionId
    | InvalidOpcode
    | PayloadTooLarge
    | InvalidPlaceholderLabel
    | MissingBinding
    | PayloadSizeMismatch
    | RawSuffixOutsideImmutableSuffix
    | InvalidRawSuffix
    | LegacyBarrier
    | PreexistingPadding
    | InvalidRegionOrder
    | InvalidAlignment
    | MissingOpReturn
    | ExecutableAfterFinalReturn
    | PaddingFailed

  type Bindings = map<string, seq<Byte>>

  datatype Artifact = Artifact(canonicalFormat: bool, code: seq<Instruction>, alignment: Option<nat>)

  datatype Atom = Atom(source: Option<nat>, region: Region, encodedHex: string)

  datatype Materialized =
    Materialized(atoms: seq<Atom>, executableBytes: nat, paddingBytes: nat, suffixBytes: nat, finalHex: string)

  const INVALID_OPCODE: nat := 0xff

  // ----- one instruction -----

  function EncodeOpcode(code: nat): Option<string> {
    if code >= INVALID_OPCODE || 0x01 <= code <= 0x4e then None else Some(BytesToHex([code]))
  }

  function EncodePayload(payload: seq<Byte>): Result<string, MaterialError> {
    match EncodeBytes(payload, Canonical)
    case None => Err(PayloadTooLarge)
    case Some(bytes) => Ok(BytesToHex(bytes))
  }

  function EncodeInstruction(i: Instruction, bindings: Bindings): (r: Result<string, MaterialError>)
    ensures r != Err(PaddingFailed)
  {
    match i.body
    case OpcodeBody(code) =>
      (match EncodeOpcode(code) case None => Err(InvalidOpcode) case Some(hex) => Ok(hex))
    case PushDataBody(payload) => EncodePayload(payload)
    case PlaceholderBody(name, expectedSize) =>
      if name == "" then Err(InvalidPlaceholderLabel)
      else if name !in bindings then Err(MissingBinding)
      else if expectedSize.Some? && |bindings[name]| != expectedSize.value then Err(PayloadSizeMismatch)
      else EncodePayload(bindings[name])
    case RawSuffixBody(raw) =>
      if i.region != ImmutableSuffix then Err(RawSuffixOutsideImmutableSuffix)
      else (match HexToBytes(raw) case Err(_) => Err(InvalidRawSuffix) case Ok(bytes) => Ok(BytesToHex(bytes)))
    case BarrierBody(_) => Err(LegacyBarrier)
  }

  /** What an instruction must satisfy to be linked. */
  predicate Encodable(i: Instruction, bindings: Bindings) {
    match i.body
    case OpcodeBody(code) => code < INVALID_OPCODE && !(0x01 <= code <= 0x4e)
    case PushDataBody(payload) => |payload| <= MAX_PAYLOAD
    case PlaceholderBody(name, expectedSize) =>
      && name != "" && name in bindings && |bindings[name]| <= MAX_PAYLOAD
      && (expectedSize.Some? ==> |bindings[name]| == expectedSize.value)
    case RawSuffixBody(raw) => i.region == ImmutableSuffix && HexToBytes(raw).Ok?
    case BarrierBody(_) => false
  }

  /** What an error reported for an instruction says about it. */
  predicate Blames(error: MaterialError, i: Instruction, bindings: Bindings) {
    match error
    case InvalidOpcode => i.body.OpcodeBody? && (i.body.code >= INVALID_OPCODE || 0x01 <= i.body.code <= 0x4e)
    case PayloadTooLarge =>
      Bound(i.body, bindings).PushDataBody? && |Bound(i.body, bindings).payload| > MAX_PAYLOAD
    case InvalidPlaceholderLabel => i.body.PlaceholderBody? && i.body.name == ""
    case MissingBinding => i.body.PlaceholderBody? && i.body.name !in bindings
    case PayloadSizeMismatch =>
      && i.body.PlaceholderBody? && i.body.name in bindings && i.body.expectedSize.Some?
      && |bindings[i.body.name]| != i.body.expectedSize.value
    case RawSuffixOutsideImmutableSuffix => i.body.RawSuffixBody? && i.region != ImmutableSuffix
    case InvalidRawSuffix => i.body.RawSuffixBody? && HexToBytes(i.body.raw).Err?
    case LegacyBarrier => i.body.BarrierBody?
    case _ => false
  }

  /** An instruction encodes exactly when it satisfies that, and otherwise the error names a fault it has. */
  lemma EncodesExactly(i: Instruction, bindings: Bindings)
    ensures EncodeInstruction(i, bindings).Ok? <==> Encodable(i, bindings)
    ensures EncodeInstruction(i, bindings).Err? ==> Blames(EncodeInstruction(i, bindings).error, i, bindings)
  {
    hide HexToBytes, EncodeBytes;
    if i.body.PushDataBody? {
      EncodeFailsOnlyOnSize(i.body.payload, Canonical);
    } else if i.body.PlaceholderBody? && i.body.name in bindings {
      EncodeFailsOnlyOnSize(bindings[i.body.name], Canonical);
    }
  }

  /** The instruction with its placeholder bound. */
  function Bound(body: Body, bindings: Bindings): Body {
    if body.PlaceholderBody? && body.name in bindings then PushDataBody(bindings[body.name]) else body
  }

  lemma EncodedPayloadReads(payload: seq<Byte>)
    requires EncodePayload(payload).Ok?
    ensures var hex := EncodePayload(payload).value;
            && ScriptSplit.IsInstructionText(hex)
            && ScriptSplit.BodyOf(HexToBytes(hex).value) == PushDataBody(payload)
  {
    hide DecodeStructural, EncodeBytes, HexToBytes;
    EncodeFailsOnlyOnSize(payload, Canonical);
    EncodeDecode(payload, Canonical, []);
    var bytes := EncodeBytes(payload, Canonical).value;
    EncodedIsNotEmpty(payload);
    PrintParse(bytes);
    assert bytes + [] == bytes;
  }

  lemma EncodedIsNotEmpty(payload: seq<Byte>)
    requires EncodeBytes(payload, Canonical).Some?
    ensures EncodeBytes(payload, Canonical).value != []
  {
  }

  lemma EncodedOpcodeReads(code: nat)
    requires EncodeOpcode(code).Some?
    ensures var hex := EncodeOpcode(code).value;
            && ScriptSplit.IsInstructionText(hex)
            && ScriptSplit.BodyOf(HexToBytes(hex).value) == AsRead(OpcodeBody(code))
  {
    hide HexToBytes;
    PrintParse([code]);
  }

  /** Raw data is linked byte for byte. */
  lemma RawSuffixReads(i: Instruction, bindings: Bindings)
    requires EncodeInstruction(i, bindings).Ok? && i.body.RawSuffixBody?
    ensures i.region == ImmutableSuffix && HexToBytes(EncodeInstruction(i, bindings).value) == HexToBytes(i.body.raw)
  {
    SomeBytes(i.body.raw);
    PrintParse(HexToBytes(i.body.raw).value);
  }

  lemma SomeBytes(raw: string)
    requires HexToBytes(raw).Ok?
    ensures HexToBytes(raw).value != []
  {
    ParsePairsChars(StripPrefix(raw));
  }

  /** Every encoded instruction but raw data is one complete instruction that reads back as what it was. */
  lemma EncodedReads(i: Instruction, bindings: Bindings)
    requires EncodeInstruction(i, bindings).Ok? && !i.body.RawSuffixBody?
    ensures var hex := EncodeInstruction(i, bindings).value;
            && ScriptSplit.IsInstructionText(hex)
            && ScriptSplit.BodyOf(HexToBytes(hex).value) == AsRead(Bound(i.body, bindings))
  {
    hide EncodePayload, EncodeOpcode, ScriptSplit.IsInstructionText, ScriptSplit.BodyOf;
    match i.body
    case OpcodeBody(code) => EncodedOpcodeReads(code);
    case PushDataBody(payload) => EncodedPayloadReads(payload);
    case PlaceholderBody(name, _) => EncodedPayloadReads(bindings[name]);
  }

  // ----- padding -----

  const MAXIMUM_DIRECT_PUSH: nat := 76

  function Chunk(remaining: nat): nat {
    if remaining < MAXIMUM_DIRECT_PUSH then remaining else MAXIMUM_DIRECT_PUSH
  }

  function PaddingPayload(size: nat): seq<Byte>
    requires size > 0
  {
    seq(size - 1, _ => 0xff)
  }

  function PaddingAtoms(bytes: nat): seq<Atom> {
    if bytes == 0 then []
    else
      [Atom(None, Padding, BytesToHex(EncodeBytes(PaddingPayload(Chunk(bytes)), Canonical).value))]
      + PaddingAtoms(bytes - Chunk(bytes))
  }

  function AtomBytes(atoms: seq<Atom>): nat {
    if atoms == [] then 0 else |atoms[0].encodedHex| / 2 + AtomBytes(atoms[1..])
  }

  /** Every chunk is a minimal push of exactly its size. */
  lemma ChunkFits(size: nat)
    requires 0 < size <= MAXIMUM_DIRECT_PUSH
    ensures var e := EncodeBytes(PaddingPayload(size), Canonical);
            e.Some? && e.value == [size - 1] + PaddingPayload(size) && |e.value| == size
  {
  }

  predicate IsPurePush(atom: Atom) {
    atom.source == None && atom.region == Padding && ScriptSplit.IsInstructionText(atom.encodedHex) &&
    ScriptSplit.BodyOf(HexToBytes(atom.encodedHex).value).PushDataBody?
  }

  lemma {:induction false} PaddingIsExact(bytes: nat)
    ensures AtomBytes(PaddingAtoms(bytes)) == bytes
    ensures forall k :: 0 <= k < |PaddingAtoms(bytes)| ==> IsPurePush(PaddingAtoms(bytes)[k])
  {
    hide IsPurePush;
    if bytes > 0 {
      var payload := PaddingPayload(Chunk(bytes));
      ChunkFits(Chunk(bytes));
      PaddingPush(payload, PaddingAtoms(bytes)[0]);
      PaddingIsExact(bytes - Chunk(bytes));
    }
  }

  lemma PaddingPush(payload: seq<Byte>, atom: Atom)
    requires EncodeBytes(payload, Canonical).Some?
    requires atom == Atom(None, Padding, BytesToHex(EncodeBytes(payload, Canonical).value))
    ensures IsPurePush(atom)
  {
    hide EncodeBytes, ScriptSplit.BodyOf, ScriptSplit.IsInstructionText;
    EncodedPayloadReads(payload);
  }

  /** makePadding never fails, whatever the length. */
  method MakePadding(paddingBytes: nat) returns (atoms: Option<seq<Atom>>)
    ensures atoms == Some(PaddingAtoms(paddingBytes))
  {
    hide EncodeBytes;
    var made: seq<Atom> := [];
    var remaining: nat := paddingBytes;
    while remaining != 0
      invariant made + PaddingAtoms(remaining) == PaddingAtoms(paddingBytes)
    {
      var encodedBytes := Chunk(remaining);
      var encoded := EncodeChunk(encodedBytes);
      if encoded.None? || |encoded.value| / 2 != encodedBytes {
        assert false;
        return None;
      }
      made := made + [Atom(None, Padding, encoded.value)];
      remaining := remaining - encodedBytes;
    }
    assert made + PaddingAtoms(0) == made;
    return Some(made);
  }

  method EncodeChunk(size: nat) returns (encoded: Option<string>)
    requires 0 < size <= MAXIMUM_DIRECT_PUSH
    ensures encoded == Some(BytesToHex(EncodeBytes(PaddingPayload(size), Canonical).value)) &&
              |encoded.value| / 2 == size
  {
    ChunkFits(size);
    hide EncodeBytes, HexToBytes, Normalize;
    encoded := EncodePush(PaddingPayload(size), Canonical);
    EncodedPushText(PaddingPayload(size), encoded);
  }

  lemma EncodedPushText(payload: seq<Byte>, encoded: Option<string>)
    requires encoded.Some? <==> |payload| <= MAX_PAYLOAD
    requires encoded.Some? ==> HexToBytes(encoded.value) == Ok(EncodeBytes(payload, Canonical).value)
    requires encoded.Some? ==> Normalize(encoded.value) == encoded.value
    ensures |payload| <= MAX_PAYLOAD ==>
              encoded == Some(BytesToHex(EncodeBytes(payload, Canonical).value))
  {
    if encoded.Some? {
      ParsePrint(encoded.value);
    }
  }

  // ----- a whole template -----

  predicate Suffixed(i: Instruction) {
    i.region == ImmutableSuffix
  }

  /** How many instructions come before the immutable suffix. */
  function ExecutableCount(code: seq<Instruction>): (n: nat)
    ensures n <= |code|
    ensures forall i :: 0 <= i < n ==> !Suffixed(code[i])
    ensures n < |code| ==> Suffixed(code[n])
  {
    if code == [] || Suffixed(code[0]) then 0 else 1 + ExecutableCount(code[1..])
  }

  predicate EndsInReturn(code: seq<Instruction>, n: nat)
    requires n <= |code|
  {
    n > 0 && IsReturn(code[n - 1])
  }

  /** The part of Materializable that concerns regions, encodings and the final OP_RETURN. */
  ghost predicate RegionsFit(t: Artifact, bindings: Bindings) {
    var n := ExecutableCount(t.code);
    && (forall i :: 0 <= i < n ==> t.code[i].region == Executable)
    && (forall i :: n <= i < |t.code| ==> t.code[i].region == ImmutableSuffix)
    && (forall i :: 0 <= i < |t.code| ==> Encodable(t.code[i], bindings))
    && (t.alignment.Some? ==> t.alignment.value > 0)
    && (t.alignment.Some? || n < |t.code| ==> EndsInReturn(t.code, n))
  }

  /** Exactly the templates that materialize. */
  ghost predicate Materializable(t: Artifact, bindings: Bindings) {
    t.canonicalFormat && UniqueIds(t.code) && RegionsFit(t, bindings)
  }

  lemma AllEncode(code: seq<Instruction>, bindings: Bindings)
    ensures (forall i :: 0 <= i < |code| ==> Encodable(code[i], bindings)) <==>
            (forall i :: 0 <= i < |code| ==> EncodeInstruction(code[i], bindings).Ok?)
  {
    hide EncodeInstruction, Encodable;
    forall i | 0 <= i < |code| ensures EncodeInstruction(code[i], bindings).Ok? <==> Encodable(code[i], bindings) {
      EncodesExactly(code[i], bindings);
    }
  }

  function AtomOf(code: seq<Instruction>, index: nat, bindings: Bindings): Atom
    requires index < |code|
  {
    Atom(Some(index), code[index].region,
         match EncodeInstruction(code[index], bindings) case Err(_) => "" case Ok(hex) => hex)
  }

  function AtomsOf(code: seq<Instruction>, lo: nat, hi: nat, bindings: Bindings): (r: seq<Atom>)
    requires lo <= hi <= |code|
    ensures |r| == hi - lo
  {
    seq(hi - lo, k requires 0 <= k < hi - lo => AtomOf(code, lo + k, bindings))
  }

  function Texts(atoms: seq<Atom>): (r: seq<string>)
    ensures |r| == |atoms|
  {
    seq(|atoms|, k requires 0 <= k < |atoms| => atoms[k].encodedHex)
  }

  function PaddingFor(executableBytes: nat, alignment: Option<nat>): nat {
    if alignment.None? || alignment.value == 0 || executableBytes % alignment.value == 0 then 0
    else alignment.value - executableBytes % alignment.value
  }

  /** What a template links to. */
  function Linked(t: Artifact, bindings: Bindings): Materialized {
    var n := ExecutableCount(t.code);
    var executable := AtomsOf(t.code, 0, n, bindings);
    var suffix := AtomsOf(t.code, n, |t.code|, bindings);
    var padding := PaddingFor(AtomBytes(executable), t.alignment);
    var atoms := executable + PaddingAtoms(padding) + suffix;
    Materialized(atoms, AtomBytes(executable), padding, AtomBytes(suffix), ScriptSplit.Concat(Texts(atoms)))
  }

  lemma {:induction false} AtomBytesConcat(a: seq<Atom>, b: seq<Atom>)
    ensures AtomBytes(a + b) == AtomBytes(a) + AtomBytes(b)
  {
    if a == [] {
      assert a + b == b;
    } else {
      assert (a + b)[1..] == a[1..] + b;
      AtomBytesConcat(a[1..], b);
    }
  }

  lemma PaddingAligns(executableBytes: nat, alignment: nat)
    requires alignment > 0
    ensures var p := PaddingFor(executableBytes, Some(alignment));
            p < alignment && (executableBytes + p) % alignment == 0
  {
    var q, r := executableBytes / alignment, executableBytes % alignment;
    if r != 0 {
      assert executableBytes + (alignment - r) == (q + 1) * alignment + 0;
      QuotientIs(executableBytes + (alignment - r), alignment, q + 1, 0);
    }
  }

  /** The three runs of atoms in the result. */
  lemma LinkedShape(t: Artifact, bindings: Bindings)
      returns (n: nat, executable: seq<Atom>, padding: seq<Atom>, suffix: seq<Atom>)
    ensures n == ExecutableCount(t.code) && executable == AtomsOf(t.code, 0, n, bindings)
    ensures suffix == AtomsOf(t.code, n, |t.code|, bindings)
    ensures var m := Linked(t, bindings);
            && m.atoms == executable + padding + suffix && padding == PaddingAtoms(m.paddingBytes)
            && m.executableBytes == AtomBytes(executable) && m.suffixBytes == AtomBytes(suffix)
            && m.paddingBytes == PaddingFor(m.executableBytes, t.alignment) == AtomBytes(padding)
            && m.finalHex == ScriptSplit.Concat(Texts(m.atoms))
    ensures forall k :: 0 <= k < |padding| ==> IsPurePush(padding[k])
  {
    hide PaddingAtoms, AtomBytes, AtomsOf, Texts, PaddingFor;
    n := ExecutableCount(t.code);
    executable, suffix := AtomsOf(t.code, 0, n, bindings), AtomsOf(t.code, n, |t.code|, bindings);
    padding := PaddingAtoms(PaddingFor(AtomBytes(executable), t.alignment));
    PaddingIsExact(PaddingFor(AtomBytes(executable), t.alignment));
  }

  /** The linked executable part, padding included, has the length of the atoms, fills whole alignment blocks, and
      wastes less than one block. */
  lemma LinkedIsAligned(t: Artifact, bindings: Bindings)
    requires t.alignment.Some? ==> t.alignment.value > 0
    ensures var m := Linked(t, bindings);
            && AtomBytes(m.atoms) == m.executableBytes + m.paddingBytes + m.suffixBytes
            && (t.alignment.Some? ==>
                  m.paddingBytes < t.alignment.value && (m.executableBytes + m.paddingBytes) % t.alignment.value == 0)
            && (t.alignment.None? ==> m.paddingBytes == 0)
  {
    hide AtomsOf, PaddingFor, AtomBytes, Linked, PaddingAtoms, IsPurePush, ScriptSplit.Concat, Texts;
    var n, executable, padding, suffix := LinkedShape(t, bindings);
    AtomBytesConcat(executable, padding);
    AtomBytesConcat(executable + padding, suffix);
    if t.alignment.Some? {
      PaddingAligns(AtomBytes(executable), t.alignment.value);
    } else {
      NoAlignment(AtomBytes(executable));
    }
  }

  lemma NoAlignment(executableBytes: nat)
    ensures PaddingFor(executableBytes, None) == 0
  {
  }

  /** Every template instruction is linked exactly once and in order, and nothing else but padding is. */
  lemma LinkedSources(t: Artifact, bindings: Bindings)
    ensures var m := Linked(t, bindings);
            var n := ExecutableCount(t.code);
            var p := |PaddingAtoms(m.paddingBytes)|;
            && |m.atoms| == |t.code| + p
            && (forall k :: 0 <= k < n ==> m.atoms[k].source == Some(k))
            && (forall k :: n <= k < n + p ==> m.atoms[k].source == None)
            && (forall k :: n <= k < |t.code| ==> m.atoms[k + p].source == Some(k))
  {
    var n, executable, padding, suffix := LinkedShape(t, bindings);
    hide Linked, PaddingAtoms, AtomBytes, PaddingFor, EncodeInstruction;
    var atoms := Linked(t, bindings).atoms;
    forall k | n <= k < n + |padding| ensures atoms[k].source == None {
      assert IsPurePush(padding[k - n]);
    }
    forall k | n <= k < |t.code| ensures atoms[k + |padding|].source == Some(k) {
      assert atoms[k + |padding|] == suffix[k - n] == AtomOf(t.code, n + (k - n), bindings);
    }
  }

  /** Reading back: the executable text with its padding splits into one piece per instruction and per padding push;
      the instructions read as the template's opcodes and bound payloads in order, the padding as pushes. */
  lemma LinkedReadsBack(t: Artifact, bindings: Bindings)
    requires Materializable(t, bindings) && ExecutableCount(t.code) > 0
    ensures var m := Linked(t, bindings);
            var n := ExecutableCount(t.code);
            var p := |PaddingAtoms(m.paddingBytes)|;
            && n + p <= |m.atoms|
            && ScriptSplit.SplitText(ScriptSplit.Concat(Texts(m.atoms[..n + p]))) == Ok(Texts(m.atoms[..n + p]))
            && (forall k :: 0 <= k < n ==> ReadsAs(m.atoms[k], AsRead(Bound(t.code[k].body, bindings))))
            && (forall k :: n <= k < n + p ==> IsPurePush(m.atoms[k]))
  {
    var n, executable, padding, suffix := LinkedShape(t, bindings);
    hide Linked, PaddingAtoms, AtomBytes, PaddingFor, EncodeInstruction, AsRead, Bound, ScriptSplit.SplitText;
    hide ScriptSplit.IsInstructionText, ScriptSplit.BodyOf, HexToBytes;
    var atoms := Linked(t, bindings).atoms;
    AllEncode(t.code, bindings);
    forall k | 0 <= k < n ensures ReadsAs(atoms[k], AsRead(Bound(t.code[k].body, bindings))) {
      assert atoms[k] == AtomOf(t.code, k, bindings);
      OnlySuffixIsRaw(t.code[k], bindings);
      EncodedReads(t.code[k], bindings);
    }
    forall k | n <= k < n + |padding| ensures IsPurePush(atoms[k]) {
      assert atoms[k] == padding[k - n];
    }
    ScriptSplit.SplitOfJoin(Texts(atoms[..n + |padding|]));
  }

  lemma OnlySuffixIsRaw(i: Instruction, bindings: Bindings)
    requires Encodable(i, bindings) && i.region != ImmutableSuffix
    ensures !i.body.RawSuffixBody?
  {
  }

  /** What is linked behind OP_RETURN: raw data byte for byte, everything else as the bound instruction; and every atom
      keeps its region. */
  lemma LinkedSuffixReads(t: Artifact, bindings: Bindings, k: nat)
    requires Materializable(t, bindings) && ExecutableCount(t.code) <= k < |t.code|
    ensures var m := Linked(t, bindings);
            var at := k + |PaddingAtoms(m.paddingBytes)|;
            && at < |m.atoms| && m.atoms[at].region == ImmutableSuffix
            && (if t.code[k].body.RawSuffixBody?
                then HexToBytes(m.atoms[at].encodedHex) == HexToBytes(t.code[k].body.raw)
                else ReadsAs(m.atoms[at], AsRead(Bound(t.code[k].body, bindings))))
  {
    var n, executable, padding, suffix := LinkedShape(t, bindings);
    hide Linked, PaddingAtoms, AtomBytes, PaddingFor, EncodeInstruction, AsRead, Bound, ReadsAs, HexToBytes, Encodable;
    AllEncode(t.code, bindings);
    var atom := Linked(t, bindings).atoms[k + |padding|];
    assert atom == suffix[k - n] == AtomOf(t.code, n + (k - n), bindings);
    if t.code[k].body.RawSuffixBody? {
      RawSuffixReads(t.code[k], bindings);
    } else {
      EncodedReads(t.code[k], bindings);
      ReadsIt(atom, t.code[k], bindings);
    }
  }

  lemma ReadsIt(atom: Atom, i: Instruction, bindings: Bindings)
    requires ScriptSplit.IsInstructionText(atom.encodedHex)
    requires ScriptSplit.BodyOf(HexToBytes(atom.encodedHex).value) == AsRead(Bound(i.body, bindings))
    ensures ReadsAs(atom, AsRead(Bound(i.body, bindings)))
  {
  }

  /** The text of the atom is one instruction with this body. */
  predicate ReadsAs(atom: Atom, body: Body) {
    ScriptSplit.IsInstructionText(atom.encodedHex) && ScriptSplit.BodyOf(HexToBytes(atom.encodedHex).value) == body
  }

  /** Rebinding names that only the suffix uses changes neither the executable part nor the padding. */
  lemma SuffixNeverMovesPadding(t: Artifact, before: Bindings, after: Bindings)
    requires forall i :: 0 <= i < ExecutableCount(t.code) && t.code[i].body.PlaceholderBody? ==>
               var name := t.code[i].body.name;
               (name in before <==> name in after) && (name in before ==> before[name] == after[name])
    ensures var m, k := Linked(t, before), Linked(t, after);
            var p := ExecutableCount(t.code) + |PaddingAtoms(m.paddingBytes)|;
            && m.executableBytes == k.executableBytes && m.paddingBytes == k.paddingBytes
            && p <= |m.atoms| && p <= |k.atoms| && m.atoms[..p] == k.atoms[..p]
  {
    var n := ExecutableCount(t.code);
    assert AtomsOf(t.code, 0, n, before) == AtomsOf(t.code, 0, n, after);
    var front := AtomsOf(t.code, 0, n, before) + PaddingAtoms(Linked(t, before).paddingBytes);
    assert Linked(t, before).atoms[..|front|] == front;
    assert Linked(t, after).atoms[..|front|] == front;
  }

  // ----- the loops -----

  datatype EncodedRegions = EncodedRegions(executable: seq<Atom>, suffix: seq<Atom>, executableBytes: nat,
                                           suffixBytes: nat)

  lemma {:induction false} ExecutableCountIs(code: seq<Instruction>, n: nat)
    requires n <= |code| && (forall i :: 0 <= i < n ==> !Suffixed(code[i])) && (n < |code| ==> Suffixed(code[n]))
    ensures ExecutableCount(code) == n
    decreases n
  {
    if n > 0 {
      ExecutableCountIs(code[1..], n - 1);
    }
  }

  /** What an error reported for a template says about it. */
  ghost predicate Explains(error: MaterialError, t: Artifact, bindings: Bindings) {
    var n := ExecutableCount(t.code);
    match error
    case UnsupportedArtifactFormat => !t.canonicalFormat
    case DuplicateInstructionId => !UniqueIds(t.code)
    case PreexistingPadding => exists i :: 0 <= i < |t.code| && t.code[i].region == Padding
    case InvalidRegionOrder => exists i :: n < i < |t.code| && t.code[i].region == Executable
    case InvalidAlignment => t.alignment == Some(0)
    case MissingOpReturn => (t.alignment.Some? || n < |t.code|) && forall i :: 0 <= i < n ==> !IsReturn(t.code[i])
    case ExecutableAfterFinalReturn =>
      && (t.alignment.Some? || n < |t.code|) && (exists i :: 0 <= i < n && IsReturn(t.code[i]))
      && !IsReturn(t.code[n - 1])
    case PaddingFailed => false
    case _ => exists i :: 0 <= i < |t.code| && Blames(error, t.code[i], bindings)
  }

  lemma EncodingError(t: Artifact, bindings: Bindings, index: nat, error: MaterialError)
    requires index < |t.code| && EncodeInstruction(t.code[index], bindings) == Err(error)
    ensures Explains(error, t, bindings) && !Encodable(t.code[index], bindings)
  {
    hide EncodeInstruction, Encodable;
    EncodesExactly(t.code[index], bindings);
  }

  lemma {:induction false} AtomBytesSnoc(a: seq<Atom>, last: Atom)
    ensures AtomBytes(a + [last]) == AtomBytes(a) + |last.encodedHex| / 2
  {
    AtomBytesConcat(a, [last]);
    assert [last][1..] == [];
  }

  /** The executable pass: stops at nothing but an error, remembering the last OP_RETURN and the last instruction. */
  method EncodeExecutable(t: Artifact, bindings: Bindings)
      returns (r: Result<seq<Atom>, MaterialError>, bytes: nat, sawSuffix: bool, finalReturn: Option<nat>,
               final: Option<nat>)
    ensures var n := ExecutableCount(t.code);
            && r != Err(PaddingFailed)
            && (r.Ok? <==> ExecutableFits(t.code, n, bindings) && SuffixFits(t.code, n, |t.code|))
            && (r.Ok? ==>
                  && r.value == AtomsOf(t.code, 0, n, bindings) && bytes == AtomBytes(r.value)
                  && (sawSuffix <==> n < |t.code|)
                  && (final == if n == 0 then None else Some(n - 1))
                  && (finalReturn.Some? && finalReturn == final <==> EndsInReturn(t.code, n))
                  && (finalReturn.Some? <==> exists i :: 0 <= i < n && IsReturn(t.code[i])))
            && (r.Err? ==> Explains(r.error, t, bindings))
  {
    hide EncodeInstruction, AtomBytes, IsReturn, AtomsOf, ExecutableFits, SuffixFits;
    bytes, sawSuffix, finalReturn, final := 0, false, None, None;
    var atoms: seq<Atom> := [];
    var count := 0;
    NothingEncoded(t.code, bindings, 0);
    for index := 0 to |t.code|
      invariant count <= index && (sawSuffix <==> count < index) && (!sawSuffix ==> count == index)
      invariant ExecutableFits(t.code, count, bindings) && SuffixFits(t.code, count, index)
      invariant atoms == AtomsOf(t.code, 0, count, bindings) && bytes == AtomBytes(atoms)
      invariant final == if count == 0 then None else Some(count - 1)
      invariant finalReturn.Some? ==> finalReturn.value < count
      invariant finalReturn.Some? && finalReturn == final <==> EndsInReturn(t.code, count)
      invariant finalReturn.Some? <==> exists i :: 0 <= i < count && IsReturn(t.code[i])
    {
      var instruction := t.code[index];
      if instruction.region == Padding {
        PaddingIsNoRegion(t.code, index, bindings);
        return Err(PreexistingPadding), bytes, sawSuffix, finalReturn, final;
      }
      if instruction.region == ImmutableSuffix {
        sawSuffix := true;
        SuffixStep(t.code, count, index);
      } else if sawSuffix {
        LateExecutable(t.code, count, index, bindings);
        return Err(InvalidRegionOrder), bytes, sawSuffix, finalReturn, final;
      } else {
        final := Some(index);
        var encoded := EncodeInstruction(instruction, bindings);
        if encoded.Err? {
          EncodingError(t, bindings, index, encoded.error);
          FailedEncoding(t.code, index, bindings);
          return Err(encoded.error), bytes, sawSuffix, finalReturn, final;
        }
        var atom := Atom(Some(index), instruction.region, encoded.value);
        AtomBytesSnoc(atoms, atom);
        AtomsStep(t.code, 0, index, bindings);
        FitsStep(t.code, index, bindings);
        bytes := bytes + |encoded.value| / 2;
        atoms := atoms + [atom];
        count := index + 1;
        if IsReturn(instruction) {
          finalReturn := Some(index);
        }
      }
    }
    WholeCode(t.code, count, bindings);
    r := Ok(atoms);
  }

  predicate ExecutableFits(code: seq<Instruction>, n: nat, bindings: Bindings)
    requires n <= |code|
  {
    forall i :: 0 <= i < n ==> code[i].region == Executable && EncodeInstruction(code[i], bindings).Ok?
  }

  predicate SuffixFits(code: seq<Instruction>, lo: nat, hi: nat)
    requires lo <= hi <= |code|
  {
    forall i :: lo <= i < hi ==> code[i].region == ImmutableSuffix
  }

  lemma NothingEncoded(code: seq<Instruction>, bindings: Bindings, at: nat)
    requires at <= |code|
    ensures AtomBytes([]) == 0 && AtomsOf(code, at, at, bindings) == []
    ensures ExecutableFits(code, 0, bindings) && SuffixFits(code, at, at)
  {
  }

  lemma FitsStep(code: seq<Instruction>, index: nat, bindings: Bindings)
    requires index < |code| && ExecutableFits(code, index, bindings)
    requires code[index].region == Executable && EncodeInstruction(code[index], bindings).Ok?
    ensures ExecutableFits(code, index + 1, bindings) && SuffixFits(code, index + 1, index + 1)
  {
    hide EncodeInstruction;
  }

  lemma SuffixStep(code: seq<Instruction>, lo: nat, index: nat)
    requires lo <= index < |code| && SuffixFits(code, lo, index) && code[index].region == ImmutableSuffix
    ensures SuffixFits(code, lo, index + 1)
  {
  }

  lemma AtomsStep(code: seq<Instruction>, lo: nat, index: nat, bindings: Bindings)
    requires lo <= index < |code|
    ensures AtomsOf(code, lo, index + 1, bindings) ==
              AtomsOf(code, lo, index, bindings) + [AtomOf(code, index, bindings)]
  {
    hide EncodeInstruction;
    assert lo + (index - lo) == index;
  }

  lemma LateExecutable(code: seq<Instruction>, count: nat, index: nat, bindings: Bindings)
    requires count < index < |code| && SuffixFits(code, count, index)
    requires code[index].region == Executable && ExecutableFits(code, count, bindings)
    ensures !SuffixFits(code, ExecutableCount(code), |code|) && ExecutableCount(code) == count
  {
    hide EncodeInstruction;
    ExecutableCountIs(code, count);
  }

  lemma FailedEncoding(code: seq<Instruction>, index: nat, bindings: Bindings)
    requires index < |code| && ExecutableFits(code, index, bindings) && code[index].region == Executable
    requires EncodeInstruction(code[index], bindings).Err?
    ensures !ExecutableFits(code, ExecutableCount(code), bindings)
  {
    hide EncodeInstruction;
    BeforeSuffix(code, index);
  }

  lemma WholeCode(code: seq<Instruction>, count: nat, bindings: Bindings)
    requires count <= |code| && SuffixFits(code, count, |code|) && ExecutableFits(code, count, bindings)
    ensures ExecutableCount(code) == count
  {
    hide EncodeInstruction;
    ExecutableCountIs(code, count);
  }

  lemma PaddingIsNoRegion(code: seq<Instruction>, index: nat, bindings: Bindings)
    requires index < |code| && code[index].region == Padding
    ensures !(ExecutableFits(code, ExecutableCount(code), bindings) && SuffixFits(code, ExecutableCount(code), |code|))
  {
    hide EncodeInstruction;
  }

  lemma {:induction false} BeforeSuffix(code: seq<Instruction>, index: nat)
    requires index < |code| && forall i :: 0 <= i <= index ==> code[i].region == Executable
    ensures index < ExecutableCount(code)
    decreases index
  {
    if index > 0 {
      BeforeSuffix(code[1..], index - 1);
    }
  }

  /** materializeRegions: executable part, the rules about its end, then the suffix. */
  method MaterializeRegions(t: Artifact, bindings: Bindings) returns (r: Result<EncodedRegions, MaterialError>)
    ensures r != Err(PaddingFailed) && (r.Ok? <==> RegionsFit(t, bindings))
    ensures r.Err? ==> Explains(r.error, t, bindings)
    ensures r.Ok? ==>
              var n := ExecutableCount(t.code);
              && r.value.executable == AtomsOf(t.code, 0, n, bindings)
              && r.value.suffix == AtomsOf(t.code, n, |t.code|, bindings)
              && r.value.executableBytes == AtomBytes(r.value.executable)
              && r.value.suffixBytes == AtomBytes(r.value.suffix)
  {
    hide EncodeInstruction, AtomBytes, AtomsOf, Explains, RegionsFit, ExecutableFits, SuffixFits, EndsInReturn;
    var executable, bytes, sawSuffix, finalReturn, final := EncodeExecutable(t, bindings);
    if executable.Err? {
      FitsInParts(t, bindings);
      return Err(executable.error);
    }
    ReturnErrors(t, bindings);
    FitsInParts(t, bindings);
    if t.alignment.Some? && t.alignment.value == 0 {
      return Err(InvalidAlignment);
    }
    if t.alignment.Some? || sawSuffix {
      if finalReturn.None? {
        return Err(MissingOpReturn);
      }
      if finalReturn != final {
        return Err(ExecutableAfterFinalReturn);
      }
    }
    var suffix, suffixBytes := EncodeSuffix(t, bindings, |executable.value|);
    if suffix.Err? {
      return Err(suffix.error);
    }
    return Ok(EncodedRegions(executable.value, suffix.value, bytes, suffixBytes));
  }

  lemma FitsInParts(t: Artifact, bindings: Bindings)
    ensures var n := ExecutableCount(t.code);
            RegionsFit(t, bindings) <==>
              && ExecutableFits(t.code, n, bindings) && SuffixFits(t.code, n, |t.code|)
              && (forall i :: n <= i < |t.code| ==> EncodeInstruction(t.code[i], bindings).Ok?)
              && (t.alignment.Some? ==> t.alignment.value > 0)
              && (t.alignment.Some? || n < |t.code| ==> EndsInReturn(t.code, n))
  {
    hide EncodeInstruction, Encodable, EndsInReturn;
    AllEncode(t.code, bindings);
  }

  lemma ReturnErrors(t: Artifact, bindings: Bindings)
    ensures !Explains(PaddingFailed, t, bindings)
    ensures t.alignment == Some(0) ==> Explains(InvalidAlignment, t, bindings)
    ensures var n := ExecutableCount(t.code);
            var found := exists i :: 0 <= i < n && IsReturn(t.code[i]);
            t.alignment.Some? || n < |t.code| ==>
              && (!found ==> Explains(MissingOpReturn, t, bindings) && !EndsInReturn(t.code, n))
              && (found && !EndsInReturn(t.code, n) ==> Explains(ExecutableAfterFinalReturn, t, bindings))
  {
    hide IsReturn;
  }

  /** The suffix pass, from the first suffix instruction on. */
  method EncodeSuffix(t: Artifact, bindings: Bindings, start: nat)
      returns (r: Result<seq<Atom>, MaterialError>, bytes: nat)
    requires start <= |t.code|
    ensures r.Ok? <==> forall i :: start <= i < |t.code| ==> EncodeInstruction(t.code[i], bindings).Ok?
    ensures r.Ok? ==> r.value == AtomsOf(t.code, start, |t.code|, bindings) && bytes == AtomBytes(r.value)
    ensures r.Err? ==> Explains(r.error, t, bindings)
  {
    hide EncodeInstruction, AtomBytes, AtomsOf, Explains;
    var suffix: seq<Atom> := [];
    bytes := 0;
    NothingEncoded(t.code, bindings, start);
    for index := start to |t.code|
      invariant suffix == AtomsOf(t.code, start, index, bindings) && bytes == AtomBytes(suffix)
      invariant forall i :: start <= i < index ==> EncodeInstruction(t.code[i], bindings).Ok?
    {
      var encoded := EncodeInstruction(t.code[index], bindings);
      if encoded.Err? {
        EncodingError(t, bindings, index, encoded.error);
        return Err(encoded.error), bytes;
      }
      var atom := Atom(Some(index), t.code[index].region, encoded.value);
      AtomBytesSnoc(suffix, atom);
      AtomsStep(t.code, start, index, bindings);
      bytes := bytes + |encoded.value| / 2;
      suffix := suffix + [atom];
    }
    r := Ok(suffix);
  }

  method CheckIds(code: seq<Instruction>) returns (ok: bool)
    ensures ok <==> UniqueIds(code)
  {
    hide UniqueIds;
    var seen: set<nat> := {};
    NoIds(code);
    for i := 0 to |code|
      invariant UniqueIds(code[..i]) && forall x: nat :: x in seen <==> x in Ids(code[..i])
    {
      NextIdIsNew(code, i, seen);
      if code[i].id in seen {
        UniquePrefix(code, i + 1);
        return false;
      }
      seen := seen + {code[i].id};
    }
    assert code[..|code|] == code;
    return true;
  }

  lemma NoIds(code: seq<Instruction>)
    ensures UniqueIds(code[..0]) && Ids(code[..0]) == []
  {
  }

  lemma UniquePrefix(code: seq<Instruction>, i: nat)
    requires i <= |code|
    ensures UniqueIds(code) ==> UniqueIds(code[..i])
  {
    assert forall k :: 0 <= k < i ==> code[..i][k] == code[k];
  }

  /** materialize: succeeds exactly on the templates that link, with what they link to; an error names a fault the
      template has, and a failure to pad is never among them. */
  method Materialize(t: Artifact, bindings: Bindings) returns (r: Result<Materialized, MaterialError>)
    ensures r.Ok? <==> Materializable(t, bindings)
    ensures r.Ok? ==> r.value == Linked(t, bindings)
    ensures r.Err? ==> Explains(r.error, t, bindings)
  {
    hide EncodeInstruction, Encodable, AtomBytes, EndsInReturn, UniqueIds, PaddingAtoms, AtomsOf;
    if !t.canonicalFormat {
      return Err(UnsupportedArtifactFormat);
    }
    var unique := CheckIds(t.code);
    if !unique {
      return Err(DuplicateInstructionId);
    }
    var regions := MaterializeRegions(t, bindings);
    if regions.Err? {
      return Err(regions.error);
    }
    var e := regions.value;
    var paddingBytes := 0;
    if t.alignment.Some? {
      var remainder := e.executableBytes % t.alignment.value;
      paddingBytes := if remainder == 0 then 0 else t.alignment.value - remainder;
    }
    var padding := MakePadding(paddingBytes);
    if padding.None? {
      assert false;
      return Err(PaddingFailed);
    }
    var atoms := e.executable + padding.value + e.suffix;
    var finalHex := JoinTexts(atoms);
    return Ok(Materialized(atoms, e.executableBytes, paddingBytes, e.suffixBytes, finalHex));
  }

  method JoinTexts(atoms: seq<Atom>) returns (hex: string)
    ensures hex == ScriptSplit.Concat(Texts(atoms))
  {
    hex := "";
    for k := 0 to |atoms|
      invariant hex == ScriptSplit.Concat(Texts(atoms[..k]))
    {
      ScriptSplit.ConcatSnoc(Texts(atoms[..k]), atoms[k].encodedHex);
      assert Texts(atoms[..k + 1]) == Texts(atoms[..k]) + [atoms[k].encodedHex];
      hex := hex + atoms[k].encodedHex;
    }
    assert atoms[..|atoms|] == atoms;
  }
}
