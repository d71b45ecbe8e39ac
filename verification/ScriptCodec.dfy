/** The codec for constant pushes: prefix encoder, structural and canonical decoders. */
module ScriptCodec {
  import opened Wrappers
  import opened Hex

  const MAX_PAYLOAD: nat := 0xffff_ffff

  datatype Policy = Legacy | Canonical

  datatype PushForm = Op0 | SmallInteger | Direct | PushData1 | PushData2 | PushData4

  datatype DecodedPush = DecodedPush(payload: seq<Byte>, form: PushForm, encodedSize: nat)

  function LittleEndian(value: nat, count: nat): (r: seq<Byte>)
    ensures |r| == count
  {
    if count == 0 then [] else [value % 256] + LittleEndian(value / 256, count - 1)
  }

  function Word(b0: nat, b1: nat, b2: nat, b3: nat): nat {
    b0 + 0x100 * b1 + 0x1_0000 * b2 + 0x100_0000 * b3
  }

  /** Length prefix of a push, before any small-integer shortcut. */
  function PushPrefix(size: nat): Option<seq<Byte>> {
    if size < 76 then Some([size])
    else if size <= 0xff then Some([0x4c, size])
    else if size <= 0xffff then Some([0x4d] + LittleEndian(size, 2))
    else if size <= MAX_PAYLOAD then Some([0x4e] + LittleEndian(size, 4))
    else None
  }

  function PrefixSize(size: nat): nat {
    if size < 76 then 1 else if size <= 0xff then 2 else if size <= 0xffff then 3 else 5
  }

  function EncodeBytes(payload: seq<Byte>, policy: Policy): Option<seq<Byte>> {
    if |payload| > MAX_PAYLOAD then None
    else if policy == Canonical && |payload| == 1 && 0x01 <= payload[0] <= 0x10 then Some([0x50 + payload[0]])
    else if policy == Canonical && payload == [0x81] then Some([0x4f])
    else Some(PushPrefix(|payload|).value + payload)
  }

  function DecodeStructural(e: seq<Byte>): Result<DecodedPush, CodecError> {
    if e == [] then Err(EmptyInput)
    else
      var opcode := e[0];
      if opcode == 0x00 then Ok(DecodedPush([], Op0, 1))
      else if 0x01 <= opcode <= 0x4b then Take(e, 1, opcode, Direct)
      else if opcode == 0x4c then
        if |e| < 2 then Err(TruncatedLength) else Take(e, 2, e[1], PushData1)
      else if opcode == 0x4d then
        if |e| < 3 then Err(TruncatedLength) else Take(e, 3, Word(e[1], e[2], 0, 0), PushData2)
      else if opcode == 0x4e then
        if |e| < 5 then Err(TruncatedLength)
        else Take(e, 5, Word(e[1], e[2], e[3], e[4]), PushData4)
      else if opcode == 0x4f then Ok(DecodedPush([0x81], SmallInteger, 1))
      else if 0x51 <= opcode <= 0x60 then Ok(DecodedPush([opcode - 0x50], SmallInteger, 1))
      else Err(NotPush)
  }

  function Take(e: seq<Byte>, header: nat, size: nat, form: PushForm): Result<DecodedPush, CodecError>
    requires header <= |e|
  {
    if |e| - header < size then Err(TruncatedPayload)
    else Ok(DecodedPush(e[header..header + size], form, header + size))
  }

  function DecodePushPrefix(e: seq<Byte>, requireCanonical: bool): Result<DecodedPush, CodecError> {
    var d := DecodeStructural(e);
    if d.Ok? && requireCanonical &&
       !(d.value.encodedSize <= |e| && EncodeBytes(d.value.payload, Canonical) == Some(e[..d.value.encodedSize]))
    then Err(NonMinimalPush)
    else d
  }

  function DecodePush(e: seq<Byte>, requireCanonical: bool): Result<DecodedPush, CodecError> {
    var d := DecodePushPrefix(e, requireCanonical);
    if d.Ok? && d.value.encodedSize != |e| then Err(TrailingBytes) else d
  }

  function DecodePushHex(s: string, requireCanonical: bool): Result<DecodedPush, CodecError> {
    match HexToBytes(s)
    case Err(error) => Err(error)
    case Ok(bytes) => DecodePush(bytes, requireCanonical)
  }

  function SerializedPushSize(payload: seq<Byte>, policy: Policy): Option<nat> {
    match EncodeBytes(payload, policy)
    case None => None
    case Some(bytes) => Some(|bytes|)
  }

  // ----- what the encoders and decoders promise each other -----

  lemma PrefixShape(size: nat)
    requires size <= MAX_PAYLOAD
    ensures PushPrefix(size).Some? && |PushPrefix(size).value| == PrefixSize(size)
  {
  }

  lemma LittleEndianTwo(size: nat)
    requires size <= 0xffff
    ensures LittleEndian(size, 2) == [size % 256, size / 256]
  {
    assert LittleEndian(size, 2) == [size % 256] + LittleEndian(size / 256, 1);
    assert LittleEndian(size / 256, 1) == [size / 256 % 256] + LittleEndian(size / 256 / 256, 0);
  }

  lemma LittleEndianFour(size: nat)
    requires size <= MAX_PAYLOAD
    ensures var b := LittleEndian(size, 4);
            Word(b[0], b[1], b[2], b[3]) == size
  {
    var s1 := size / 256;
    var s2 := s1 / 256;
    var s3 := s2 / 256;
    assert LittleEndian(size, 4) == [size % 256] + LittleEndian(s1, 3);
    assert LittleEndian(s1, 3) == [s1 % 256] + LittleEndian(s2, 2);
    assert LittleEndian(s2, 2) == [s2 % 256] + LittleEndian(s3, 1);
    assert LittleEndian(s3, 1) == [s3 % 256] + LittleEndian(s3 / 256, 0);
    assert s3 < 256;
  }

  lemma PlainRoundTrip(payload: seq<Byte>, rest: seq<Byte>)
    requires |payload| <= MAX_PAYLOAD
    ensures var enc := PushPrefix(|payload|).value + payload;
            var d := DecodeStructural(enc + rest);
            d.Ok? && d.value.payload == payload && d.value.encodedSize == |enc|
  {
    var n := |payload|;
    var prefix := PushPrefix(n).value;
    var enc := prefix + payload;
    var e := enc + rest;
    PrefixShape(n);
    assert e[|prefix|..|prefix| + n] == payload;
    if 0xff < n <= 0xffff {
      LittleEndianTwo(n);
      assert e[1] == n % 256 && e[2] == n / 256;
    } else if n > 0xffff {
      LittleEndianFour(n);
      assert e[1..5] == LittleEndian(n, 4);
    }
  }

  /** Both encoders invert: the push followed by any bytes decodes to its payload and consumes exactly itself;
      the canonical encoder's output also passes the canonical decoder. */
  lemma EncodeDecode(payload: seq<Byte>, policy: Policy, rest: seq<Byte>)
    requires |payload| <= MAX_PAYLOAD
    ensures var enc := EncodeBytes(payload, policy);
            && enc.Some?
            && var d := DecodePushPrefix(enc.value + rest, policy == Canonical);
            && d.Ok? && d.value.payload == payload && d.value.encodedSize == |enc.value|
    ensures DecodePush(EncodeBytes(payload, policy).value, policy == Canonical).Ok?
    ensures DecodePush(EncodeBytes(payload, policy).value, policy == Canonical).value.payload == payload
  {
    var enc := EncodeBytes(payload, policy).value;
    PlainRoundTrip(payload, rest);
    PlainRoundTrip(payload, []);
    assert (enc + rest)[..|enc|] == enc;
    assert enc + [] == enc;
    assert enc[..|enc|] == enc;
    if |payload| == 1 {
      assert payload == [payload[0]];
    }
  }

  /** The encoder fails exactly on payloads of 2^32 bytes or more. */
  lemma EncodeFailsOnlyOnSize(payload: seq<Byte>, policy: Policy)
    ensures EncodeBytes(payload, policy).None? <==> |payload| >= 0x1_0000_0000
  {
  }

  /** A decoded push never depends on what follows it. */
  lemma DecodeIsLocal(e: seq<Byte>, rest: seq<Byte>)
    requires DecodeStructural(e).Ok?
    ensures var n := DecodeStructural(e).value.encodedSize;
            1 <= n <= |e| && DecodeStructural(e[..n] + rest) == DecodeStructural(e)
  {
    var d := DecodeStructural(e).value;
    var n := d.encodedSize;
    var f := e[..n] + rest;
    assert f[0] == e[0];
    if 0x01 <= e[0] <= 0x4b {
      assert f[1..n] == e[1..n];
    } else if e[0] == 0x4c {
      assert f[1] == e[1] && f[2..n] == e[2..n];
    } else if e[0] == 0x4d {
      assert f[1] == e[1] && f[2] == e[2] && f[3..n] == e[3..n];
    } else if e[0] == 0x4e {
      assert f[1] == e[1] && f[2] == e[2] && f[3] == e[3] && f[4] == e[4] && f[5..n] == e[5..n];
    }
  }

  lemma NotPushIsLocal(e: seq<Byte>, rest: seq<Byte>)
    requires DecodeStructural(e) == Err(NotPush)
    ensures DecodeStructural([e[0]] + rest) == Err(NotPush)
  {
  }

  lemma PlainPushIsShortest(e: seq<Byte>, header: nat)
    requires DecodePush(e, false).Ok? && e[0] != 0x4f && !(0x51 <= e[0] <= 0x60)
    requires header == if e[0] <= 0x4b then 1 else if e[0] == 0x4c then 2 else if e[0] == 0x4d then 3 else 5
    ensures header <= |e| && e[header..] == DecodePush(e, false).value.payload && |e| - header <= MAX_PAYLOAD
    ensures PrefixSize(|e| - header) <= header
    ensures PrefixSize(|e| - header) == header ==> PushPrefix(|e| - header) == Some(e[..header])
  {
    PlainPushParts(e, header);
    hide DecodePush;
    var n := |e| - header;
    if e[0] == 0x4d {
      if n > 0xff {
        LittleEndianTwo(n);
      }
      assert e[..3] == [0x4d] + [e[1], e[2]];
    } else if e[0] == 0x4e {
      LittleEndianFourIs(e[1], e[2], e[3], e[4]);
      assert e[..5] == [0x4e] + [e[1], e[2], e[3], e[4]];
    } else {
      assert e[..header] == if header == 1 then [e[0]] else [e[0], e[1]];
    }
  }

  /** Header and payload of a push that is not a small integer. */
  lemma PlainPushParts(e: seq<Byte>, header: nat)
    requires DecodePush(e, false).Ok? && e[0] != 0x4f && !(0x51 <= e[0] <= 0x60)
    requires header == if e[0] <= 0x4b then 1 else if e[0] == 0x4c then 2 else if e[0] == 0x4d then 3 else 5
    ensures header <= |e| && e[header..] == DecodePush(e, false).value.payload && e[0] <= 0x4e
    ensures |e| - header == if e[0] <= 0x4b then e[0]
                            else if e[0] == 0x4c then e[1]
                            else if e[0] == 0x4d then Word(e[1], e[2], 0, 0)
                            else Word(e[1], e[2], e[3], e[4])
  {
    assert e[header..|e|] == e[header..];
  }

  /** The canonical encoding is the one shortest of all structurally valid encodings of a payload. */
  lemma CanonicalIsShortest(e: seq<Byte>)
    requires DecodePush(e, false).Ok?
    ensures var canonical := EncodeBytes(DecodePush(e, false).value.payload, Canonical);
            && canonical.Some?
            && |canonical.value| <= |e|
            && (|canonical.value| == |e| ==> canonical.value == e)
  {
    if e[0] == 0x4f || 0x51 <= e[0] <= 0x60 {
      assert e == [e[0]];
    } else {
      var header := if e[0] <= 0x4b then 1 else if e[0] == 0x4c then 2 else if e[0] == 0x4d then 3 else 5;
      PlainPushIsShortest(e, header);
      PrefixShape(|e| - header);
      assert e == e[..header] + e[header..];
    }
  }

  lemma LittleEndianFourIs(a: Byte, b: Byte, c: Byte, d: Byte)
    ensures LittleEndian(Word(a, b, c, d), 4) == [a, b, c, d]
  {
    var size := Word(a, b, c, d);
    var s1 := Word(b, c, d, 0);
    var s2 := Word(c, d, 0, 0);
    assert size / 256 == s1 && size % 256 == a;
    assert s1 / 256 == s2 && s1 % 256 == b;
    assert s2 / 256 == d && s2 % 256 == c;
    assert LittleEndian(size, 4) == [a] + LittleEndian(s1, 3);
    assert LittleEndian(s1, 3) == [b] + LittleEndian(s2, 2);
    assert LittleEndian(s2, 2) == [c] + LittleEndian(d, 1);
    assert LittleEndian(d, 1) == [d] + LittleEndian(0, 0);
  }

  /** The canonical decoder accepts an encoding iff it is the canonical encoding of what it denotes. */
  lemma CanonicalAccepts(e: seq<Byte>)
    ensures DecodePush(e, true).Ok? <==>
              exists payload :: |payload| <= MAX_PAYLOAD && EncodeBytes(payload, Canonical) == Some(e)
  {
    if DecodePush(e, true).Ok? {
      var payload := DecodePush(e, true).value.payload;
      assert e[..|e|] == e;
      assert EncodeBytes(payload, Canonical) == Some(e);
    }
    if payload :| |payload| <= MAX_PAYLOAD && EncodeBytes(payload, Canonical) == Some(e) {
      EncodeDecode(payload, Canonical, []);
    }
  }

  lemma EncodedText(payload: seq<Byte>, policy: Policy)
    requires |payload| <= MAX_PAYLOAD
    ensures var text := BytesToHex(EncodeBytes(payload, policy).value);
            HexToBytes(text) == Ok(EncodeBytes(payload, policy).value) && Normalize(text) == text
  {
    EncodeDecode(payload, policy, []);
    PrintParse(EncodeBytes(payload, policy).value);
  }

  /** The small-integer shortcuts of the canonical encoder. */
  method EncodeSmall(payload: seq<Byte>) returns (r: Option<string>)
    ensures r.Some? ==>
              EncodeBytes(payload, Canonical).Some? && r.value == BytesToHex(EncodeBytes(payload, Canonical).value)
    ensures r.None? ==> EncodeBytes(payload, Canonical) == EncodeBytes(payload, Legacy)
  {
    if payload == [] {
      OneByteHex(0x00);
      return Some("00");
    }
    if |payload| == 1 {
      var value := payload[0];
      if 0x01 <= value <= 0x10 {
        OneByteHex(0x50 + value);
        return Some(ByteToHex(0x50 + value));
      }
      if value == 0x81 {
        assert payload == [0x81];
        OneByteHex(0x4f);
        return Some("4f");
      }
    }
    return None;
  }

  /** encodePush of the source: the hex text of the push, built byte by byte. */
  method EncodePush(payload: seq<Byte>, policy: Policy) returns (r: Option<string>)
    ensures r.Some? <==> |payload| <= MAX_PAYLOAD
    ensures r.Some? ==> HexToBytes(r.value) == Ok(EncodeBytes(payload, policy).value)
    ensures r.Some? ==> Normalize(r.value) == r.value
  {
    if |payload| > MAX_PAYLOAD {
      return None;
    }
    EncodedText(payload, policy);
    if policy == Canonical {
      r := EncodeSmall(payload);
      if r.Some? {
        return;
      }
    }
    var prefix := PushPrefix(|payload|).value;
    var text := PrintHex(prefix);
    assert prefix + payload[..0] == prefix;
    for i := 0 to |payload|
      invariant text == BytesToHex(prefix + payload[..i])
    {
      BytesToHexConcat(prefix + payload[..i], [payload[i]]);
      assert prefix + payload[..i] + [payload[i]] == prefix + payload[..i + 1];
      OneByteHex(payload[i]);
      text := text + ByteToHex(payload[i]);
    }
    assert payload[..|payload|] == payload;
    return Some(text);
  }
}
