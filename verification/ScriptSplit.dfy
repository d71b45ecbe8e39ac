/** Cutting a run of script bytes into instructions: the strict typed splitter of the legacy adapter and the
    lenient splitter of the instruction utilities, which were written independently of each other. */
module ScriptSplit {
  import opened Wrappers
  import opened Hex
  import opened ScriptCodec
  import opened BytecodeIr

  datatype Piece = Piece(id: nat, body: Body, encoding: string)

  datatype SplitError = SplitError(error: CodecError, offset: nat)

  /** A whole-instruction deployment placeholder: angle brackets at the two ends and nowhere else. */
  predicate IsPlaceholder(atom: string) {
    && |atom| > 2 && atom[0] == '<' && atom[|atom| - 1] == '>'
    && (forall i :: 1 <= i < |atom| ==> atom[i] != '<')
    && (forall i :: 0 <= i < |atom| - 1 ==> atom[i] != '>')
  }

  // ----- one instruction -----

  /** Bytes taken by the first instruction, or why there is none. */
  function HeadSize(bytes: seq<Byte>): Result<nat, CodecError> {
    match DecodeStructural(bytes)
    case Ok(d) => Ok(d.encodedSize)
    case Err(e) => if e == NotPush then Ok(1) else Err(e)
  }

  function LenientHead(bytes: seq<Byte>): (n: nat)
    requires bytes != []
    ensures 1 <= n <= |bytes|
  {
    var op := bytes[0];
    if 0x01 <= op <= 0x4b && 1 + op as nat <= |bytes| then 1 + op
    else if op == 0x4c && 2 <= |bytes| && 2 + bytes[1] as nat <= |bytes| then 2 + bytes[1]
    else if op == 0x4d && 3 <= |bytes| && 3 + Word(bytes[1], bytes[2], 0, 0) <= |bytes| then
      3 + Word(bytes[1], bytes[2], 0, 0)
    else if op == 0x4e && 5 <= |bytes| && 5 + Word(bytes[1], bytes[2], bytes[3], bytes[4]) <= |bytes| then
      5 + Word(bytes[1], bytes[2], bytes[3], bytes[4])
    else 1
  }

  /** One instruction and nothing else: a complete push, or a single opcode byte that starts no push. */
  predicate IsCompleteAtom(bytes: seq<Byte>) {
    bytes != [] && HeadSize(bytes) == Ok(|bytes|)
  }

  function BodyOf(part: seq<Byte>): Body
    requires part != []
  {
    match DecodeStructural(part)
    case Ok(d) => PushDataBody(d.payload)
    case Err(_) => OpcodeBody(part[0])
  }

  lemma HeadSizeBounds(bytes: seq<Byte>)
    requires bytes != [] && HeadSize(bytes).Ok?
    ensures 1 <= HeadSize(bytes).value <= |bytes|
  {
    if DecodeStructural(bytes).Ok? {
      DecodeIsLocal(bytes, []);
    }
  }

  // ----- whole scripts -----

  function SplitBytes(bytes: seq<Byte>, offset: nat): Result<seq<seq<Byte>>, SplitError>
    decreases |bytes|
  {
    if bytes == [] then Ok([])
    else
      match HeadSize(bytes)
      case Err(e) => Err(SplitError(e, offset))
      case Ok(n) =>
        HeadSizeBounds(bytes);
        match SplitBytes(bytes[n..], offset + n)
        case Err(e) => Err(e)
        case Ok(rest) => Ok([bytes[..n]] + rest)
  }

  function LenientSplit(bytes: seq<Byte>): seq<seq<Byte>>
    decreases |bytes|
  {
    if bytes == [] then []
    else [bytes[..LenientHead(bytes)]] + LenientSplit(bytes[LenientHead(bytes)..])
  }

  function Concat<T>(parts: seq<seq<T>>): seq<T> {
    if parts == [] then [] else parts[0] + Concat(parts[1..])
  }

  lemma {:induction false} SplitConcat(bytes: seq<Byte>, offset: nat)
    requires SplitBytes(bytes, offset).Ok?
    ensures Concat(SplitBytes(bytes, offset).value) == bytes
    decreases |bytes|
  {
    hide HeadSize;
    if bytes != [] {
      HeadSizeBounds(bytes);
      var n := HeadSize(bytes).value;
      SplitConcat(bytes[n..], offset + n);
      assert bytes == bytes[..n] + bytes[n..];
      assert SplitBytes(bytes, offset).value[1..] == SplitBytes(bytes[n..], offset + n).value;
    }
  }

  /** An error names the first place where no instruction starts: everything before it splits, and nothing can be read
      there. */
  lemma {:induction false} SplitFailsThere(bytes: seq<Byte>, offset: nat)
    requires SplitBytes(bytes, offset).Err?
    ensures var at := SplitBytes(bytes, offset).error.offset - offset;
            && 0 <= at < |bytes| && SplitBytes(bytes[..at], offset).Ok?
            && HeadSize(bytes[at..]) == Err(SplitBytes(bytes, offset).error.error)
    decreases |bytes|
  {
    hide HeadSize;
    if HeadSize(bytes).Ok? {
      var n := HeadSize(bytes).value;
      HeadSizeBounds(bytes);
      SplitFailsThere(bytes[n..], offset + n);
      var at := SplitBytes(bytes, offset).error.offset - offset;
      assert bytes[n..][at - n..] == bytes[at..];
      assert bytes[n..][..at - n] == bytes[..at][n..];
      HeadOfPrefix(bytes, at);
    } else {
      assert bytes[0..] == bytes && bytes[..0] == [];
    }
  }

  /** An instruction that ends before the cut is read the same in front of it. */
  lemma HeadOfPrefix(bytes: seq<Byte>, at: nat)
    requires bytes != [] && HeadSize(bytes).Ok? && HeadSize(bytes).value <= at <= |bytes|
    ensures HeadSize(bytes[..at]) == HeadSize(bytes)
  {
    HeadSizeBounds(bytes);
  }

  /** Every piece of a successful split is one complete instruction. */
  lemma {:induction false} PiecesAreComplete(bytes: seq<Byte>, offset: nat, k: nat)
    requires SplitBytes(bytes, offset).Ok? && k < |SplitBytes(bytes, offset).value|
    ensures IsCompleteAtom(SplitBytes(bytes, offset).value[k])
    decreases |bytes|
  {
    HeadSizeBounds(bytes);
    HeadIsComplete(bytes);
    var n := HeadSize(bytes).value;
    if k > 0 {
      PiecesAreComplete(bytes[n..], offset + n, k - 1);
    }
  }

  lemma HeadIsComplete(bytes: seq<Byte>)
    requires bytes != [] && HeadSize(bytes).Ok?
    ensures HeadSize(bytes).value <= |bytes| && IsCompleteAtom(bytes[..HeadSize(bytes).value])
  {
    HeadSizeBounds(bytes);
    var n := HeadSize(bytes).value;
    assert bytes[..n] + [] == bytes[..n];
    if DecodeStructural(bytes).Ok? {
      DecodeIsLocal(bytes, []);
    } else {
      assert bytes[..1] == [bytes[0]] + [];
      NotPushIsLocal(bytes, []);
    }
  }

  lemma HeadOfConcat(atom: seq<Byte>, rest: seq<Byte>)
    requires IsCompleteAtom(atom)
    ensures HeadSize(atom + rest) == Ok(|atom|)
  {
    assert atom[..|atom|] == atom;
    if DecodeStructural(atom).Ok? {
      DecodeIsLocal(atom, rest);
    } else {
      assert atom + rest == [atom[0]] + rest;
      NotPushIsLocal(atom, rest);
    }
  }

  lemma AtomIsNotEmpty(atom: seq<Byte>)
    requires IsCompleteAtom(atom)
    ensures atom != []
  {
  }

  /** Unique decodability: a concatenation of complete instructions splits back into exactly those instructions. */
  lemma {:induction false} UniqueDecoding(atoms: seq<seq<Byte>>, offset: nat)
    requires forall k :: 0 <= k < |atoms| ==> IsCompleteAtom(atoms[k])
    ensures SplitBytes(Concat(atoms), offset) == Ok(atoms)
  {
    hide HeadSize, IsCompleteAtom;
    if atoms != [] {
      var rest := Concat(atoms[1..]);
      UniqueDecoding(atoms[1..], offset + |atoms[0]|);
      AtomIsNotEmpty(atoms[0]);
      HeadOfConcat(atoms[0], rest);
      var bytes := Concat(atoms);
      assert bytes[..|atoms[0]|] == atoms[0] && bytes[|atoms[0]|..] == rest;
      assert [atoms[0]] + atoms[1..] == atoms;
    }
  }

  lemma HeadsAgree(bytes: seq<Byte>)
    requires bytes != [] && HeadSize(bytes).Ok?
    ensures LenientHead(bytes) == HeadSize(bytes).value
  {
  }

  /** Wherever the strict splitter succeeds the lenient one finds the same instruction boundaries. */
  lemma {:induction false} SplittersAgree(bytes: seq<Byte>, offset: nat)
    requires SplitBytes(bytes, offset).Ok?
    ensures LenientSplit(bytes) == SplitBytes(bytes, offset).value
    decreases |bytes|
  {
    hide HeadSize, LenientHead;
    if bytes != [] {
      HeadsAgree(bytes);
      HeadSizeBounds(bytes);
      var n := HeadSize(bytes).value;
      SplittersAgree(bytes[n..], offset + n);
    }
  }

  // ----- the text the splitters return -----

  /** The text of each part, cut from the text of the whole. */
  function CutText(h: string, parts: seq<seq<Byte>>): seq<string>
    requires |h| == 2 * |Concat(parts)|
  {
    if parts == [] then [] else [h[..2 * |parts[0]|]] + CutText(h[2 * |parts[0]|..], parts[1..])
  }

  lemma {:induction false} CutTextConcat(h: string, parts: seq<seq<Byte>>)
    requires |h| == 2 * |Concat(parts)|
    ensures |CutText(h, parts)| == |parts| && Concat(CutText(h, parts)) == h
  {
    if parts == [] {
    } else {
      var n := 2 * |parts[0]|;
      CutTextConcat(h[n..], parts[1..]);
      assert CutText(h, parts)[1..] == CutText(h[n..], parts[1..]);
      assert h == h[..n] + h[n..];
    }
  }

  lemma {:induction false} ConcatSnoc<T>(parts: seq<seq<T>>, last: seq<T>)
    ensures Concat(parts + [last]) == Concat(parts) + last
  {
    if parts == [] {
      assert Concat([last]) == last + Concat([]);
    } else {
      ConcatSnoc(parts[1..], last);
      assert (parts + [last])[1..] == parts[1..] + [last];
    }
  }

  lemma {:induction false} CutTextSnoc(h: string, parts: seq<seq<Byte>>, last: seq<Byte>)
    requires |h| == 2 * |Concat(parts)| + 2 * |last|
    ensures 2 * |Concat(parts)| <= |h| == 2 * |Concat(parts + [last])|
    ensures CutText(h, parts + [last]) ==
            CutText(h[..2 * |Concat(parts)|], parts) + [h[2 * |Concat(parts)|..]]
  {
    ConcatSnoc(parts, last);
    if parts == [] {
      assert Concat([last]) == last + Concat([]);
      assert h[..0] == "" && h[0..] == h && [last][1..] == [];
      assert h[..2 * |last|] == h;
    } else {
      var n, m := 2 * |parts[0]|, 2 * |Concat(parts)|;
      assert (parts + [last])[1..] == parts[1..] + [last];
      assert m == n + 2 * |Concat(parts[1..])|;
      CutTextSnoc(h[n..], parts[1..], last);
      CutHead(h, parts + [last], n);
      CutHead(h[..m], parts, n);
      hide CutText, Concat;
      assert h[n..][..m - n] == h[..m][n..];
      assert h[n..][m - n..] == h[m..];
      assert h[..m][..n] == h[..n];
    }
  }

  lemma CutHead(h: string, parts: seq<seq<Byte>>, n: nat)
    requires parts != [] && |h| == 2 * |Concat(parts)| && n == 2 * |parts[0]|
    ensures n <= |h| && |h[n..]| == 2 * |Concat(parts[1..])|
    ensures CutText(h, parts) == [h[..n]] + CutText(h[n..], parts[1..])
  {
  }

  /** The pieces the strict splitter returns for a fragment, without their numbering. */
  function SplitText(fragment: string): Result<seq<string>, SplitError> {
    if IsPlaceholder(fragment) then Ok([fragment])
    else
      match HexToBytes(fragment)
      case Err(e) => Err(SplitError(e, 0))
      case Ok(bytes) =>
        match SplitBytes(bytes, 0)
        case Err(e) => Err(e)
        case Ok(parts) =>
          SplitConcat(bytes, 0);
          ParsePairsChars(StripPrefix(fragment));
          Ok(CutText(StripPrefix(fragment), parts))
  }

  predicate NumberedPieces(pieces: seq<Piece>, texts: seq<string>, firstId: nat) {
    && |pieces| == |texts|
    && (forall k :: 0 <= k < |pieces| ==> pieces[k].id == firstId + k && pieces[k].encoding == texts[k])
  }

  predicate DecodedPieces(pieces: seq<Piece>, parts: seq<seq<Byte>>) {
    && |pieces| == |parts|
    && (forall k :: 0 <= k < |parts| ==> parts[k] != [] && pieces[k].body == BodyOf(parts[k]))
  }

  /** splitScriptFragment: one pass over the bytes, all or nothing. */
  method SplitScriptFragment(fragment: string, firstId: nat) returns (r: Result<seq<Piece>, SplitError>)
    ensures r.Ok? <==> SplitText(fragment).Ok?
    ensures r.Ok? ==> NumberedPieces(r.value, SplitText(fragment).value, firstId)
    ensures r.Err? ==> r.error == SplitText(fragment).error
    ensures r.Ok? && IsPlaceholder(fragment) ==>
              r.value == [Piece(firstId, PlaceholderBody(fragment[1..|fragment| - 1], None), fragment)]
    ensures r.Ok? && !IsPlaceholder(fragment) ==>
              DecodedPieces(r.value, SplitBytes(HexToBytes(fragment).value, 0).value)
  {
    if IsPlaceholder(fragment) {
      return Ok([Piece(firstId, PlaceholderBody(fragment[1..|fragment| - 1], None), fragment)]);
    }
    var parsed := ParseHex(fragment);
    if parsed.Err? {
      return Err(SplitError(parsed.error, 0));
    }
    ParsePairsChars(StripPrefix(fragment));
    var pieces := SplitParsed(StripPrefix(fragment), parsed.value, firstId);
    return pieces;
  }

  method SplitParsed(rawHex: string, bytes: seq<Byte>, firstId: nat) returns (r: Result<seq<Piece>, SplitError>)
    requires |rawHex| == 2 * |bytes|
    ensures SplitBytes(bytes, 0).Err? ==> r == Err(SplitBytes(bytes, 0).error)
    ensures SplitBytes(bytes, 0).Ok? ==>
              && r.Ok?
              && Concat(SplitBytes(bytes, 0).value) == bytes
              && NumberedPieces(r.value, CutText(rawHex, SplitBytes(bytes, 0).value), firstId)
              && DecodedPieces(r.value, SplitBytes(bytes, 0).value)
  {
    hide SplitSoFar, HeadSize, BodyOf, SplitBytes, CutText, Concat, NumberedPieces, DecodedPieces;
    var pieces: seq<Piece> := [];
    ghost var parts: seq<seq<Byte>> := [];
    var offset := 0;
    StartOfSplit(rawHex, bytes, firstId);
    while offset < |bytes|
      invariant offset <= |bytes| && SplitSoFar(rawHex, bytes, firstId, pieces, parts, offset)
    {
      var head := ReadHead(bytes[offset..]);
      if head.Err? {
        FailedHead(rawHex, bytes, firstId, pieces, parts, offset);
        return Err(SplitError(head.error, offset));
      }
      var consumed, body := head.value.0, head.value.1;
      var next := offset + consumed;
      StrictStep(rawHex, bytes, firstId, pieces, parts, offset, consumed, body);
      pieces := pieces + [Piece(firstId + |pieces|, body, rawHex[2 * offset..2 * next])];
      parts := parts + [bytes[offset..next]];
      offset := next;
    }
    EndOfSplit(rawHex, bytes, firstId, pieces, parts, offset);
    return Ok(pieces);
  }

  /** Everything before offset is cut, and the rest decides the outcome. */
  ghost predicate SplitSoFar(rawHex: string, bytes: seq<Byte>, firstId: nat, pieces: seq<Piece>, parts: seq<seq<Byte>>,
                             offset: nat)
    requires |rawHex| == 2 * |bytes| && offset <= |bytes|
  {
    && Concat(parts) == bytes[..offset]
    && SplitBytes(bytes, 0) == Prepend(parts, SplitBytes(bytes[offset..], offset))
    && NumberedPieces(pieces, CutText(rawHex[..2 * offset], parts), firstId) && DecodedPieces(pieces, parts)
  }

  lemma StartOfSplit(rawHex: string, bytes: seq<Byte>, firstId: nat)
    requires |rawHex| == 2 * |bytes|
    ensures SplitSoFar(rawHex, bytes, firstId, [], [], 0)
  {
    assert bytes[0..] == bytes && rawHex[..0] == "";
    PrependNothing(SplitBytes(bytes, 0));
  }

  lemma EndOfSplit(rawHex: string, bytes: seq<Byte>, firstId: nat, pieces: seq<Piece>, parts: seq<seq<Byte>>,
                   offset: nat)
    requires |rawHex| == 2 * |bytes| && offset == |bytes| && SplitSoFar(rawHex, bytes, firstId, pieces, parts, offset)
    ensures SplitBytes(bytes, 0) == Ok(parts) && Concat(parts) == bytes
    ensures NumberedPieces(pieces, CutText(rawHex, parts), firstId) && DecodedPieces(pieces, parts)
  {
    assert bytes[offset..] == [] && bytes[..offset] == bytes && rawHex[..2 * offset] == rawHex;
    assert parts + [] == parts;
  }

  lemma FailedHead(rawHex: string, bytes: seq<Byte>, firstId: nat, pieces: seq<Piece>, parts: seq<seq<Byte>>,
                   offset: nat)
    requires |rawHex| == 2 * |bytes| && offset < |bytes| && SplitSoFar(rawHex, bytes, firstId, pieces, parts, offset)
    requires HeadSize(bytes[offset..]).Err?
    ensures SplitBytes(bytes, 0) == Err(SplitError(HeadSize(bytes[offset..]).error, offset))
  {
    hide HeadSize, CutText, NumberedPieces, DecodedPieces;
  }

  /** Size and body of the next instruction. */
  method ReadHead(remaining: seq<Byte>) returns (r: Result<(nat, Body), CodecError>)
    requires remaining != []
    ensures r.Ok? ==> HeadSize(remaining) == Ok(r.value.0) && BodyOf(remaining) == r.value.1
    ensures r.Err? ==> HeadSize(remaining) == Err(r.error)
  {
    hide DecodeStructural;
    var decoded := DecodePushPrefix(remaining, false);
    if decoded.Err? && decoded.error != NotPush {
      return Err(decoded.error);
    }
    var consumed := if decoded.Ok? then decoded.value.encodedSize else 1;
    var body := if decoded.Ok? then PushDataBody(decoded.value.payload) else OpcodeBody(remaining[0]);
    return Ok((consumed, body));
  }

  function Prepend(parts: seq<seq<Byte>>, r: Result<seq<seq<Byte>>, SplitError>): Result<seq<seq<Byte>>, SplitError> {
    match r case Err(e) => Err(e) case Ok(rest) => Ok(parts + rest)
  }

  lemma PrependNothing(r: Result<seq<seq<Byte>>, SplitError>)
    ensures Prepend([], r) == r
  {
    if r.Ok? {
      assert [] + r.value == r.value;
    }
  }

  lemma SplitHead(remaining: seq<Byte>, offset: nat, consumed: nat)
    requires remaining != [] && HeadSize(remaining) == Ok(consumed) && consumed <= |remaining|
    ensures SplitBytes(remaining, offset) ==
              Prepend([remaining[..consumed]], SplitBytes(remaining[consumed..], offset + consumed))
  {
    hide HeadSize;
    HeadSizeBounds(remaining);
  }

  lemma CutStep(rawHex: string, bytes: seq<Byte>, parts: seq<seq<Byte>>, offset: nat, consumed: nat, body: Body)
    requires |rawHex| == 2 * |bytes| && offset < |bytes| && Concat(parts) == bytes[..offset]
    requires HeadSize(bytes[offset..]) == Ok(consumed)
    requires body == BodyOf(bytes[offset..])
    ensures offset + consumed <= |bytes| && bytes[offset..][..consumed] != []
    ensures body == BodyOf(bytes[offset..][..consumed])
    ensures Concat(parts + [bytes[offset..][..consumed]]) == bytes[..offset + consumed]
    ensures Prepend(parts, SplitBytes(bytes[offset..], offset)) ==
            Prepend(parts + [bytes[offset..][..consumed]], SplitBytes(bytes[offset + consumed..], offset + consumed))
    ensures CutText(rawHex[..2 * (offset + consumed)], parts + [bytes[offset..][..consumed]]) ==
            CutText(rawHex[..2 * offset], parts) + [rawHex[2 * offset..2 * (offset + consumed)]]
  {
    hide HeadSize, BodyOf, CutText, Concat, SplitBytes;
    var remaining := bytes[offset..];
    HeadSizeBounds(remaining);
    var part := remaining[..consumed];
    BodyOfHead(remaining);
    SplitHead(remaining, offset, consumed);
    ConcatSnoc(parts, part);
    CutTextSnoc(rawHex[..2 * (offset + consumed)], parts, part);
    assert rawHex[..2 * (offset + consumed)][..2 * offset] == rawHex[..2 * offset];
    assert rawHex[..2 * (offset + consumed)][2 * offset..] == rawHex[2 * offset..2 * (offset + consumed)];
    assert remaining[consumed..] == bytes[offset + consumed..];
    assert bytes[..offset] + part == bytes[..offset + consumed];
    var rest := SplitBytes(bytes[offset + consumed..], offset + consumed);
    if rest.Ok? {
      assert parts + ([part] + rest.value) == (parts + [part]) + rest.value;
    }
  }

  lemma AppendPiece(pieces: seq<Piece>, texts: seq<string>, parts: seq<seq<Byte>>, firstId: nat, piece: Piece,
                    part: seq<Byte>)
    requires NumberedPieces(pieces, texts, firstId) && DecodedPieces(pieces, parts)
    requires piece.id == firstId + |pieces| && part != [] && piece.body == BodyOf(part)
    ensures NumberedPieces(pieces + [piece], texts + [piece.encoding], firstId)
    ensures DecodedPieces(pieces + [piece], parts + [part])
  {
    hide BodyOf;
  }

  lemma StrictStep(rawHex: string, bytes: seq<Byte>, firstId: nat, pieces: seq<Piece>, parts: seq<seq<Byte>>,
                   offset: nat, consumed: nat, body: Body)
    requires |rawHex| == 2 * |bytes| && offset < |bytes| && SplitSoFar(rawHex, bytes, firstId, pieces, parts, offset)
    requires HeadSize(bytes[offset..]) == Ok(consumed) && body == BodyOf(bytes[offset..])
    ensures 0 < consumed && offset + consumed <= |bytes|
    ensures var next := offset + consumed;
            SplitSoFar(rawHex, bytes, firstId, pieces + [Piece(firstId + |pieces|, body, rawHex[2 * offset..2 * next])],
                       parts + [bytes[offset..next]], next)
  {
    hide HeadSize, BodyOf, SplitBytes, CutText, Concat, NumberedPieces, DecodedPieces, Prepend;
    HeadSizeBounds(bytes[offset..]);
    CutStep(rawHex, bytes, parts, offset, consumed, body);
    var next := offset + consumed;
    assert bytes[offset..][..consumed] == bytes[offset..next];
    AppendPiece(pieces, CutText(rawHex[..2 * offset], parts), parts, firstId,
                Piece(firstId + |pieces|, body, rawHex[2 * offset..2 * next]), bytes[offset..next]);
  }

  lemma BodyOfHead(remaining: seq<Byte>)
    requires remaining != [] && HeadSize(remaining).Ok?
    ensures 1 <= HeadSize(remaining).value <= |remaining|
    ensures BodyOf(remaining[..HeadSize(remaining).value]) == BodyOf(remaining)
  {
    HeadSizeBounds(remaining);
    var part := remaining[..HeadSize(remaining).value];
    assert part + [] == part;
    if DecodeStructural(remaining).Ok? {
      DecodeIsLocal(remaining, []);
    } else {
      NotPushIsLocal(remaining, []);
      assert part == [remaining[0]] + [];
    }
  }

  function ReadHexByte(hex: string, i: nat): Byte
    requires AllDigits(hex) && 2 * i + 1 < |hex|
  {
    16 * DigitValue(hex[2 * i]) + DigitValue(hex[2 * i + 1])
  }

  /** The lenient splitter's result as text. */
  function LenientText(hex: string): seq<string> {
    if !IsStrictHex(hex) then []
    else
      ParsePairsChars(hex);
      LenientConcat(ParsePairs(hex).value);
      CutText(hex, LenientSplit(ParsePairs(hex).value))
  }

  lemma {:induction false} LenientConcat(bytes: seq<Byte>)
    ensures Concat(LenientSplit(bytes)) == bytes
    decreases |bytes|
  {
    if bytes != [] {
      var n := LenientHead(bytes);
      LenientConcat(bytes[n..]);
      assert LenientSplit(bytes)[1..] == LenientSplit(bytes[n..]);
      assert bytes == bytes[..n] + bytes[n..];
    }
  }

  /** The size of the instruction at byte i, read digit by digit from the text as the lenient splitter does. */
  method InstructionSizeAt(hex: string, i: nat) returns (n: nat)
    requires IsStrictHex(hex) && i < |hex| / 2
    ensures ParsePairs(hex).Some? && i < |ParsePairs(hex).value|
    ensures n == LenientHead(ParsePairs(hex).value[i..])
  {
    ParsePairsChars(hex);
    ghost var rest := ParsePairs(hex).value[i..];
    var totalBytes := |hex| / 2;
    var op := ReadHexByte(hex, i);
    assert op == rest[0];
    if 0x01 <= op <= 0x4b {
      if i + 1 + op <= totalBytes {
        return 1 + op;
      }
    }
    if 0x4c <= op <= 0x4e {
      var lenBytes := if op == 0x4c then 1 else if op == 0x4d then 2 else 4;
      if i + 1 + lenBytes <= totalBytes {
        var dataLen: nat;
        if lenBytes == 1 {
          dataLen := ReadHexByte(hex, i + 1);
        } else if lenBytes == 2 {
          dataLen := Word(ReadHexByte(hex, i + 1), ReadHexByte(hex, i + 2), 0, 0);
        } else {
          dataLen := Word(ReadHexByte(hex, i + 1), ReadHexByte(hex, i + 2),
                          ReadHexByte(hex, i + 3), ReadHexByte(hex, i + 4));
        }
        if i + 1 + lenBytes + dataLen <= totalBytes {
          return 1 + lenBytes + dataLen;
        }
      }
    }
    return 1;
  }

  /** splitHexScriptIntoInstructions. */
  method SplitHexScriptIntoInstructions(hex: string) returns (instructions: seq<string>)
    ensures instructions == LenientText(hex)
  {
    if IsStrictHex(hex) {
      ParsePairsChars(hex);
      LenientConcat(ParsePairs(hex).value);
      instructions := SplitStrictHex(hex, ParsePairs(hex).value);
    } else {
      instructions := [];
    }
  }

  method SplitStrictHex(hex: string, ghost bytes: seq<Byte>) returns (instructions: seq<string>)
    requires IsStrictHex(hex) && ParsePairs(hex) == Some(bytes) && |hex| == 2 * |bytes|
    ensures Concat(LenientSplit(bytes)) == bytes && instructions == CutText(hex, LenientSplit(bytes))
  {
    instructions := [];
    hide LenientSplit, Concat, CutText, LenientHead, LenientSoFar, ParsePairs, IsStrictHex;
    ghost var parts: seq<seq<Byte>> := [];
    var i := 0;
    LenientStart(hex, bytes);
    while i < |hex| / 2
      invariant i <= |bytes| && LenientSoFar(hex, bytes, instructions, parts, i)
    {
      var n := InstructionSizeAt(hex, i);
      LenientStep(hex, bytes, instructions, parts, i, n);
      instructions := instructions + [hex[2 * i..2 * (i + n)]];
      parts := parts + [bytes[i..i + n]];
      i := i + n;
    }
    LenientEnd(hex, bytes, instructions, parts, i);
  }

  ghost predicate LenientSoFar(hex: string, bytes: seq<Byte>, instructions: seq<string>, parts: seq<seq<Byte>>, i: nat)
    requires |hex| == 2 * |bytes| && i <= |bytes|
  {
    && Concat(parts) == bytes[..i] && LenientSplit(bytes) == parts + LenientSplit(bytes[i..])
    && instructions == CutText(hex[..2 * i], parts)
  }

  lemma LenientStart(hex: string, bytes: seq<Byte>)
    requires |hex| == 2 * |bytes|
    ensures LenientSoFar(hex, bytes, [], [], 0)
  {
    assert bytes[0..] == bytes && hex[..0] == "" && [] + LenientSplit(bytes) == LenientSplit(bytes);
  }

  lemma LenientEnd(hex: string, bytes: seq<Byte>, instructions: seq<string>, parts: seq<seq<Byte>>, i: nat)
    requires |hex| == 2 * |bytes| && i == |bytes| && LenientSoFar(hex, bytes, instructions, parts, i)
    ensures LenientSplit(bytes) == parts && Concat(parts) == bytes && instructions == CutText(hex, parts)
  {
    assert bytes[i..] == [] && bytes[..i] == bytes && hex[..2 * i] == hex;
    assert parts + [] == parts;
  }

  lemma LenientStep(hex: string, bytes: seq<Byte>, instructions: seq<string>, parts: seq<seq<Byte>>, i: nat, n: nat)
    requires |hex| == 2 * |bytes| && i < |bytes| && n == LenientHead(bytes[i..])
    requires LenientSoFar(hex, bytes, instructions, parts, i)
    ensures 0 < n && i + n <= |bytes|
    ensures LenientSoFar(hex, bytes, instructions + [hex[2 * i..2 * (i + n)]], parts + [bytes[i..i + n]], i + n)
  {
    hide LenientSplit, Concat, CutText, LenientHead;
    LenientCut(hex, bytes, parts, i, n);
    assert bytes[i..][..n] == bytes[i..i + n];
  }

  lemma LenientCut(hex: string, bytes: seq<Byte>, parts: seq<seq<Byte>>, i: nat, n: nat)
    requires |hex| == 2 * |bytes| && i < |bytes| && n == LenientHead(bytes[i..]) && Concat(parts) == bytes[..i]
    ensures i + n <= |bytes| && Concat(parts + [bytes[i..][..n]]) == bytes[..i + n]
    ensures parts + LenientSplit(bytes[i..]) == (parts + [bytes[i..][..n]]) + LenientSplit(bytes[i + n..])
    ensures CutText(hex[..2 * (i + n)], parts + [bytes[i..][..n]]) ==
            CutText(hex[..2 * i], parts) + [hex[2 * i..2 * (i + n)]]
  {
    var part := bytes[i..][..n];
    LenientStepAt(bytes[i..]);
    hide LenientSplit, LenientHead, CutText;
    ConcatSnoc(parts, part);
    CutTextSnoc(hex[..2 * (i + n)], parts, part);
    assert hex[..2 * (i + n)][..2 * i] == hex[..2 * i];
    assert hex[..2 * (i + n)][2 * i..] == hex[2 * i..2 * (i + n)];
    assert bytes[i..][n..] == bytes[i + n..];
    assert bytes[..i] + part == bytes[..i + n];
    assert parts + ([part] + LenientSplit(bytes[i + n..])) == (parts + [part]) + LenientSplit(bytes[i + n..]);
  }

  lemma LenientStepAt(bytes: seq<Byte>)
    requires bytes != []
    ensures var n := LenientHead(bytes); LenientSplit(bytes) == [bytes[..n]] + LenientSplit(bytes[n..])
  {
    hide LenientHead;
  }

  /** When the strict splitter succeeds on a fragment, the lenient one returns the same pieces if and only if the
      fragment is bare hex: a 0x prefix or a placeholder is understood by the strict splitter alone. */
  lemma SplitTextsAgree(fragment: string)
    requires SplitText(fragment).Ok?
    ensures LenientText(fragment) == SplitText(fragment).value <==> IsStrictHex(fragment)
  {
    if IsStrictHex(fragment) {
      BareHexText(fragment);
      ParsePairsChars(fragment);
      SplittersAgree(HexToBytes(fragment).value, 0);
    } else if !IsPlaceholder(fragment) {
      var bytes := HexToBytes(fragment).value;
      SplitConcat(bytes, 0);
      ParsePairsChars(StripPrefix(fragment));
      CutTextConcat(StripPrefix(fragment), SplitBytes(bytes, 0).value);
    }
  }

  /** A prefixed fragment and a placeholder that only the strict splitter understands. */
  lemma SplittersDisagree()
    ensures SplitText("0x51").Ok? && LenientText("0x51") != SplitText("0x51").value
    ensures SplitText("<a>").Ok? && LenientText("<a>") != SplitText("<a>").value
  {
    OneByteHex(0x51);
    PrintParse([0x51]);
    assert ByteToHex(0x51) == "51";
    assert StripPrefix("0x51") == "51" == StripPrefix("51");
    hide ParsePairs, LenientText;
    assert HexToBytes("0x51") == HexToBytes("51") == Ok([0x51]);
    assert SplitBytes([0x51][1..], 1) == Ok([]);
    assert SplitBytes([0x51], 0).Ok?;
    assert DigitValue("0x51"[1]) < 0 && DigitValue("<a>"[0]) < 0;
    SplitTextsAgree("0x51");
    SplitTextsAgree("<a>");
  }

  predicate IsInstructionText(atom: string) {
    IsStrictHex(atom) && HexToBytes(atom).Ok? && IsCompleteAtom(HexToBytes(atom).value)
  }

  /** Strict splitting of joined text gives back the joined instructions, letter for letter. */
  lemma SplitOfJoin(atoms: seq<string>)
    requires atoms != []
    requires forall k :: 0 <= k < |atoms| ==> IsInstructionText(atoms[k])
    ensures SplitText(Concat(atoms)) == Ok(atoms)
  {
    var parts := seq(|atoms|, k requires 0 <= k < |atoms| => HexToBytes(atoms[k]).value);
    JoinedBytes(atoms, parts);
    UniqueDecoding(parts, 0);
    forall k | 0 <= k < |atoms| ensures |atoms[k]| == 2 * |parts[k]| {
      BareHexText(atoms[k]);
      ParsePairsChars(atoms[k]);
    }
    CutJoin(atoms, parts);
    SplitOfSpelling(Concat(atoms), Concat(parts), parts);
  }

  lemma SplitOfSpelling(h: string, bytes: seq<Byte>, parts: seq<seq<Byte>>)
    requires Spells(h, bytes) && h != [] && SplitBytes(bytes, 0) == Ok(parts) && Concat(parts) == bytes
    ensures SplitText(h) == Ok(CutText(h, parts))
  {
    BareHexText(h);
  }

  lemma BareHexText(h: string)
    requires IsStrictHex(h)
    ensures StripPrefix(h) == h && !IsPlaceholder(h)
  {
    assert DigitValue(h[0]) >= 0 && DigitValue(h[1]) >= 0;
  }

  predicate Spells(h: string, bytes: seq<Byte>) {
    AllDigits(h) && |h| == 2 * |bytes| && ParsePairs(h) == Some(bytes)
  }

  lemma {:induction false} JoinedBytes(atoms: seq<string>, parts: seq<seq<Byte>>)
    requires |atoms| == |parts|
    requires forall k :: 0 <= k < |atoms| ==> IsStrictHex(atoms[k]) && HexToBytes(atoms[k]) == Ok(parts[k])
    ensures Spells(Concat(atoms), Concat(parts))
    ensures atoms != [] ==> Concat(atoms) != []
  {
    if atoms != [] {
      var tail, tailParts := atoms[1..], parts[1..];
      forall k | 0 <= k < |tail| ensures IsStrictHex(tail[k]) && HexToBytes(tail[k]) == Ok(tailParts[k]) {
        assert tail[k] == atoms[k + 1];
      }
      JoinedBytes(tail, tailParts);
      JoinStep(atoms[0], parts[0], Concat(tail), Concat(tailParts));
    }
  }

  lemma JoinStep(a: string, part: seq<Byte>, rest: string, restBytes: seq<Byte>)
    requires IsStrictHex(a) && HexToBytes(a) == Ok(part) && Spells(rest, restBytes)
    ensures Spells(a + rest, part + restBytes) && a + rest != []
  {
    BareHexText(a);
    ParsePairsChars(a);
    ParsePairsConcat(a, rest);
  }

  lemma {:induction false} ParsePairsConcat(a: string, b: string)
    requires |a| % 2 == 0 && |b| % 2 == 0 && ParsePairs(a).Some? && ParsePairs(b).Some?
    ensures ParsePairs(a + b) == Some(ParsePairs(a).value + ParsePairs(b).value)
  {
    hide DigitValue;
    if a == [] {
      assert a + b == b;
      assert ParsePairs(a).value + ParsePairs(b).value == ParsePairs(b).value;
    } else {
      ParsePairsConcat(a[2..], b);
      assert (a + b)[2..] == a[2..] + b;
      assert (a + b)[0] == a[0] && (a + b)[1] == a[1];
      var head: seq<Byte> := [16 * DigitValue(a[0]) + DigitValue(a[1])];
      assert ParsePairs(a).value == head + ParsePairs(a[2..]).value;
      assert head + (ParsePairs(a[2..]).value + ParsePairs(b).value) == ParsePairs(a).value + ParsePairs(b).value;
    }
  }

  lemma {:induction false} CutJoin(atoms: seq<string>, parts: seq<seq<Byte>>)
    requires |atoms| == |parts|
    requires forall k :: 0 <= k < |atoms| ==> |atoms[k]| == 2 * |parts[k]|
    requires |Concat(atoms)| == 2 * |Concat(parts)|
    ensures CutText(Concat(atoms), parts) == atoms
  {
    if atoms != [] {
      var n := |atoms[0]|;
      assert Concat(atoms)[..n] == atoms[0] && Concat(atoms)[n..] == Concat(atoms[1..]);
      CutJoin(atoms[1..], parts[1..]);
    }
  }
}
