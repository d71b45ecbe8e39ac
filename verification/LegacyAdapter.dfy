/** The bridge between instruction text and typed instructions: reading one atom, importing a whole script, and writing
    typed instructions back with their original spelling. */
module LegacyAdapter {
  import opened Wrappers
  import opened Hex
  import opened ScriptCodec
  import opened BytecodeIr
  import IfTree
  import ScriptSplit

  /** One atom of executable text. Whatever is not exactly one instruction becomes a barrier. */
  function ParseAtom(atom: string): Body {
    if ScriptSplit.IsPlaceholder(atom) then PlaceholderBody(atom[1..|atom| - 1], None)
    else
      match DecodePushHex(atom, false)
      case Ok(d) => PushDataBody(d.payload)
      case Err(error) =>
        match HexToBytes(atom)
        case Ok(bytes) => if |bytes| == 1 && error == NotPush then OpcodeBody(bytes[0]) else BarrierBody(atom)
        case Err(_) => BarrierBody(atom)
  }

  function Synthesize(body: Body): string {
    match body
    case OpcodeBody(code) => if code > 0xff then "" else BytesToHex([code])
    case PushDataBody(payload) =>
      (match EncodeBytes(payload, Legacy) case None => "" case Some(bytes) => BytesToHex(bytes))
    case PlaceholderBody(name, _) => "<" + name + ">"
    case RawSuffixBody(raw) => raw
    case BarrierBody(raw) => raw
  }

  /** The text an instruction was imported from, or failing that a spelling of its body. */
  function Serialize(i: Instruction): string {
    match i.legacyEncoding
    case Some(text) => text
    case None => Synthesize(i.body)
  }

  function Export(code: seq<Instruction>): (r: seq<string>)
    ensures |r| == |code|
  {
    seq(|code|, k requires 0 <= k < |code| => Serialize(code[k]))
  }

  predicate IsReturnText(s: string) {
    HexToBytes(s) == Ok([IfTree.OP_RETURN])
  }

  /** Where immutable data starts: behind the last OP_RETURN in the text. */
  function SuffixBoundary(texts: seq<string>): Option<nat> {
    if texts == [] then None
    else if IsReturnText(texts[|texts| - 1]) then Some(|texts|)
    else SuffixBoundary(texts[..|texts| - 1])
  }

  lemma {:induction false} NoReturnInSuffix(texts: seq<string>, k: nat)
    requires k < |texts| && (SuffixBoundary(texts).Some? ==> k >= SuffixBoundary(texts).value)
    ensures !IsReturnText(texts[k])
  {
    hide IsReturnText;
    if k < |texts| - 1 && !IsReturnText(texts[|texts| - 1]) {
      NoReturnInSuffix(texts[..|texts| - 1], k);
    }
  }

  lemma {:induction false} SuffixFollowsReturn(texts: seq<string>)
    requires SuffixBoundary(texts).Some?
    ensures 1 <= SuffixBoundary(texts).value <= |texts| && IsReturnText(texts[SuffixBoundary(texts).value - 1])
  {
    hide IsReturnText;
    if !IsReturnText(texts[|texts| - 1]) {
      SuffixFollowsReturn(texts[..|texts| - 1]);
    }
  }

  /** The boundary is found from what stands before and behind it. */
  lemma {:induction false} SuffixBoundaryIs(texts: seq<string>, e: nat)
    requires 1 <= e <= |texts| && IsReturnText(texts[e - 1])
    requires forall k :: e <= k < |texts| ==> !IsReturnText(texts[k])
    ensures SuffixBoundary(texts) == Some(e)
  {
    hide IsReturnText;
    if e < |texts| {
      SuffixBoundaryIs(texts[..|texts| - 1], e);
    }
  }

  function ImportAtom(atom: string, index: nat, inSuffix: bool): Instruction {
    Instruction(
      index,
      if inSuffix && !ScriptSplit.IsPlaceholder(atom) then RawSuffixBody(atom) else ParseAtom(atom),
      if inSuffix then ImmutableSuffix else Executable,
      [index],
      Some(atom))
  }

  function Import(texts: seq<string>): (r: seq<Instruction>)
    ensures |r| == |texts|
  {
    var boundary := SuffixBoundary(texts);
    seq(|texts|, k requires 0 <= k < |texts| => ImportAtom(texts[k], k, boundary.Some? && k >= boundary.value))
  }

  // ----- the loops -----

  method FindImmutableSuffixBoundary(texts: seq<string>) returns (boundary: Option<nat>)
    ensures boundary == SuffixBoundary(texts)
  {
    hide IsReturnText;
    var index := |texts|;
    assert texts[..index] == texts;
    while index > 0
      invariant 0 <= index <= |texts| && SuffixBoundary(texts) == SuffixBoundary(texts[..index])
    {
      assert texts[..index][..index - 1] == texts[..index - 1];
      if IsReturnText(texts[index - 1]) {
        return Some(index);
      }
      index := index - 1;
    }
    return None;
  }

  method ImportScript(texts: seq<string>) returns (code: seq<Instruction>)
    ensures code == Import(texts)
  {
    hide ImportAtom;
    var boundary := FindImmutableSuffixBoundary(texts);
    code := [];
    for index := 0 to |texts|
      invariant code == Import(texts)[..index]
    {
      code := code + [ImportAtom(texts[index], index, boundary.Some? && index >= boundary.value)];
    }
  }

  method ExportPreserving(code: seq<Instruction>) returns (texts: seq<string>)
    ensures texts == Export(code)
  {
    hide Serialize;
    texts := [];
    for k := 0 to |code|
      invariant texts == Export(code)[..k]
    {
      texts := texts + [Serialize(code[k])];
    }
  }

  // ----- reading back -----

  /** Text survives import and export letter for letter. */
  lemma ExportOfImport(texts: seq<string>)
    ensures Export(Import(texts)) == texts
  {
    hide ParseAtom;
  }

  /** Some text in front of k is OP_RETURN, and none from k on. */
  predicate BehindLastReturn(texts: seq<string>, k: nat) {
    && (exists j :: 0 <= j < k && j < |texts| && IsReturnText(texts[j]))
    && (forall j :: k <= j < |texts| ==> !IsReturnText(texts[j]))
  }

  lemma BoundaryIsLastReturn(texts: seq<string>, k: nat)
    requires k < |texts|
    ensures SuffixBoundary(texts).Some? && SuffixBoundary(texts).value <= k <==> BehindLastReturn(texts, k)
  {
    hide IsReturnText, SuffixBoundary;
    if SuffixBoundary(texts).Some? {
      SuffixFollowsReturn(texts);
      if SuffixBoundary(texts).value <= k {
        forall j | k <= j < |texts| ensures !IsReturnText(texts[j]) {
          NoReturnInSuffix(texts, j);
        }
      }
    } else {
      forall j | 0 <= j < |texts| ensures !IsReturnText(texts[j]) {
        NoReturnInSuffix(texts, j);
      }
    }
  }

  /** What import makes of each atom: behind the last OP_RETURN raw immutable data, except that placeholders stay
      placeholders; everything else executable code read on its own. Each atom keeps its text and is its own origin. */
  lemma ImportMarksSuffix(texts: seq<string>, k: nat)
    requires k < |texts|
    ensures var i := Import(texts)[k];
            && i.region == (if BehindLastReturn(texts, k) then ImmutableSuffix else Executable)
            && i.body == (if BehindLastReturn(texts, k) && !ScriptSplit.IsPlaceholder(texts[k])
                          then RawSuffixBody(texts[k]) else ParseAtom(texts[k]))
            && i.id == k && i.origins == [k] && i.legacyEncoding == Some(texts[k])
    ensures UniqueIds(Import(texts))
  {
    hide BehindLastReturn, SuffixBoundary, ParseAtom, ScriptSplit.IsPlaceholder;
    BoundaryIsLastReturn(texts, k);
  }

  /** Reading one atom agrees with the splitter: an atom that is exactly one piece is that piece, anything else is a
      barrier. */
  lemma AtomIsOnePiece(atom: string)
    ensures ParseAtom(atom).BarrierBody? <==>
            !(ScriptSplit.SplitText(atom).Ok? && |ScriptSplit.SplitText(atom).value| == 1)
    ensures ParseAtom(atom).BarrierBody? ==> ParseAtom(atom) == BarrierBody(atom)
    ensures !ParseAtom(atom).BarrierBody? && !ScriptSplit.IsPlaceholder(atom) ==>
              && HexToBytes(atom).Ok? && HexToBytes(atom).value != []
              && ParseAtom(atom) == ScriptSplit.BodyOf(HexToBytes(atom).value)
  {
    if !ScriptSplit.IsPlaceholder(atom) && HexToBytes(atom).Ok? {
      var bytes := HexToBytes(atom).value;
      ParsePairsChars(StripPrefix(atom));
      hide HexToBytes, ScriptSplit.IsPlaceholder;
      OnePiece(bytes);
      if ScriptSplit.SplitBytes(bytes, 0).Ok? {
        ScriptSplit.SplitConcat(bytes, 0);
        ScriptSplit.CutTextConcat(StripPrefix(atom), ScriptSplit.SplitBytes(bytes, 0).value);
      }
    }
  }

  lemma OnePiece(bytes: seq<Byte>)
    requires bytes != []
    ensures (ScriptSplit.SplitBytes(bytes, 0).Ok? && |ScriptSplit.SplitBytes(bytes, 0).value| == 1) <==>
            DecodePush(bytes, false).Ok? || (|bytes| == 1 && DecodePush(bytes, false) == Err(NotPush))
    ensures DecodePush(bytes, false).Ok? ==>
              ScriptSplit.BodyOf(bytes) == PushDataBody(DecodePush(bytes, false).value.payload)
    ensures |bytes| == 1 && DecodePush(bytes, false) == Err(NotPush) ==>
              ScriptSplit.BodyOf(bytes) == OpcodeBody(bytes[0])
  {
    hide DecodeStructural;
    if ScriptSplit.HeadSize(bytes).Ok? {
      var n := ScriptSplit.HeadSize(bytes).value;
      ScriptSplit.HeadSizeBounds(bytes);
      if n == |bytes| {
        assert bytes[n..] == [];
        assert ScriptSplit.SplitBytes([], n) == Ok([]);
      } else {
        assert bytes[n..] != [];
      }
    }
  }

  /** A placeholder label that can be written between brackets and found again. */
  predicate IsLabel(name: string) {
    name != [] && forall i :: 0 <= i < |name| ==> name[i] != '<' && name[i] != '>'
  }

  lemma OpcodeReads(code: Byte)
    requires !(0x01 <= code <= 0x4e)
    ensures ParseAtom(BytesToHex([code])) == AsRead(OpcodeBody(code))
  {
    PrintParse([code]);
    HexIsNoPlaceholder(BytesToHex([code]));
    hide HexToBytes, ScriptSplit.IsPlaceholder;
    assert [code] != [];
  }

  lemma PushReads(payload: seq<Byte>)
    requires |payload| <= MAX_PAYLOAD
    ensures ParseAtom(Synthesize(PushDataBody(payload))) == PushDataBody(payload)
    ensures var bytes := HexToBytes(Synthesize(PushDataBody(payload)));
            bytes.Ok? && bytes.value != [] && bytes.value[0] <= 0x4e
  {
    hide DecodeStructural, HexToBytes, ScriptSplit.IsPlaceholder, EncodeBytes, BytesToHex;
    EncodeFailsOnlyOnSize(payload, Legacy);
    EncodeDecode(payload, Legacy, []);
    var bytes := EncodeBytes(payload, Legacy).value;
    PlainPushIsNotEmpty(payload);
    PrintParse(bytes);
    assert bytes + [] == bytes;
    HexIsNoPlaceholder(BytesToHex(bytes));
  }

  lemma PlainPushIsNotEmpty(payload: seq<Byte>)
    requires |payload| <= MAX_PAYLOAD
    ensures EncodeBytes(payload, Legacy).Some? && EncodeBytes(payload, Legacy).value != []
    ensures EncodeBytes(payload, Legacy).value[0] <= 0x4e
  {
    PrefixShape(|payload|);
  }

  lemma LabelReads(name: string)
    requires IsLabel(name)
    ensures ParseAtom("<" + name + ">") == PlaceholderBody(name, None)
  {
    var s := "<" + name + ">";
    assert s[1..|s| - 1] == name;
    assert forall i :: 1 <= i <= |name| ==> s[i] == name[i - 1];
  }

  /** Every instruction that has a spelling reads back as itself, up to opcodes that push constants; data is spelled as
      a plain push, never as a constant opcode. */
  lemma SynthesizedReads(body: Body)
    requires match body
             case OpcodeBody(code) => code <= 0xff && !(0x01 <= code <= 0x4e)
             case PushDataBody(payload) => |payload| <= MAX_PAYLOAD
             case PlaceholderBody(name, size) => IsLabel(name) && size.None?
             case _ => false
    ensures ParseAtom(Synthesize(body)) == AsRead(body)
    ensures body.PushDataBody? ==>
              var bytes := HexToBytes(Synthesize(body));
              bytes.Ok? && bytes.value != [] && bytes.value[0] <= 0x4e
  {
    hide ParseAtom;
    match body
    case OpcodeBody(code) => OpcodeReads(code);
    case PushDataBody(payload) => PushReads(payload);
    case PlaceholderBody(name, _) => LabelReads(name);
  }

  lemma PlaceholderIsNotHex(s: string)
    requires ScriptSplit.IsPlaceholder(s)
    ensures HexToBytes(s).Err?
  {
    assert StripPrefix(s) == s && DigitValue(s[0]) < 0;
  }

  lemma HexIsNoPlaceholder(s: string)
    requires HexToBytes(s).Ok?
    ensures !ScriptSplit.IsPlaceholder(s)
  {
    hide HexToBytes, ScriptSplit.IsPlaceholder;
    if ScriptSplit.IsPlaceholder(s) {
      PlaceholderIsNotHex(s);
      assert false;
    }
  }

  /** The typed reading of an atom is OP_RETURN exactly when its text is. */
  lemma ParsedReturn(atom: string)
    ensures ParseAtom(atom) == OpcodeBody(IfTree.OP_RETURN) <==> IsReturnText(atom)
  {
    hide HexToBytes, ScriptSplit.IsPlaceholder;
    if IsReturnText(atom) {
      HexIsNoPlaceholder(atom);
      assert DecodeStructural([IfTree.OP_RETURN]) == Err(NotPush);
    }
    if HexToBytes(atom).Ok? && |HexToBytes(atom).value| == 1 {
      var bytes := HexToBytes(atom).value;
      assert bytes == [bytes[0]];
    }
  }

  // ----- artifacts that mirror their text -----

  /** The typed body of an executable instruction is OP_RETURN exactly when its text is. */
  predicate ReturnsAreTyped(code: seq<Instruction>) {
    forall i :: 0 <= i < |code| && code[i].region == Executable ==>
      (IsReturn(code[i]) <==> IsReturnText(Serialize(code[i])))
  }

  predicate NoSizes(code: seq<Instruction>) {
    forall i :: 0 <= i < |code| && code[i].body.PlaceholderBody? ==> code[i].body.expectedSize.None?
  }

  lemma ImportedReturnText(texts: seq<string>, k: nat)
    requires k < |texts|
    ensures Import(texts)[k].body == OpcodeBody(IfTree.OP_RETURN) <==> IsReturnText(texts[k])
  {
    hide IsReturnText, ParseAtom, SuffixBoundary;
    ParsedReturn(texts[k]);
    if SuffixBoundary(texts).Some? && k >= SuffixBoundary(texts).value {
      NoReturnInSuffix(texts, k);
    }
  }

  lemma ImportedReturns(texts: seq<string>)
    ensures ReturnsAreTyped(Import(texts)) && NoSizes(Import(texts))
  {
    hide IsReturnText;
    forall k | 0 <= k < |texts| ensures IsReturn(Import(texts)[k]) <==> IsReturnText(texts[k]) {
      ImportedReturnText(texts, k);
    }
  }

  /** Typed executable code that was never text satisfies it as well. */
  lemma SynthesizedReturns(code: seq<Instruction>)
    requires forall i :: 0 <= i < |code| ==>
               code[i].legacyEncoding.None? && !code[i].body.RawSuffixBody? && !code[i].body.BarrierBody?
    ensures ReturnsAreTyped(code)
  {
    hide IsReturnText, Synthesize;
    forall i | 0 <= i < |code| ensures IsReturn(code[i]) <==> IsReturnText(Serialize(code[i])) {
      SynthesizedReturn(code[i].body);
    }
  }

  lemma SynthesizedReturn(body: Body)
    requires !body.RawSuffixBody? && !body.BarrierBody?
    ensures body == OpcodeBody(IfTree.OP_RETURN) <==> IsReturnText(Synthesize(body))
  {
    match body
    case OpcodeBody(code) =>
      if code <= 0xff {
        PrintParse([code]);
      }
    case PushDataBody(payload) =>
      if EncodeBytes(payload, Legacy).Some? {
        var bytes := EncodeBytes(payload, Legacy).value;
        PlainPushIsNotEmpty(payload);
        hide HexToBytes;
        PrintParse(bytes);
        assert bytes[0] != IfTree.OP_RETURN;
      }
    case PlaceholderBody(name, _) =>
      var s := Synthesize(body);
      assert StripPrefix(s) == s && DigitValue(s[0]) < 0;
  }
}
