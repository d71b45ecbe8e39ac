/** Hex text of script bytes: parsing, printing and the normalised form used to compare encodings. */
module Hex {
  import opened Wrappers

  type Byte = b: int | 0 <= b < 256 witness 0

  datatype CodecError =
    | EmptyInput
    | InvalidHex
    | OddHexLength
    | NotPush
    | TruncatedLength
    | TruncatedPayload
    | TrailingBytes
    | NonMinimalPush

  const DIGITS: string := "0123456789abcdef"

  function DigitValue(c: char): (v: int)
    ensures -1 <= v < 16
  {
    if '0' <= c <= '9' then c as int - '0' as int
    else if 'a' <= c <= 'f' then 10 + c as int - 'a' as int
    else if 'A' <= c <= 'F' then 10 + c as int - 'A' as int
    else -1
  }

  predicate AllDigits(s: string) {
    forall i :: 0 <= i < |s| ==> DigitValue(s[i]) >= 0
  }

  /** A non-empty, even run of hex digits without the optional 0x. */
  predicate IsStrictHex(s: string) {
    s != [] && |s| % 2 == 0 && AllDigits(s)
  }

  function ToLower(c: char): char {
    if 'A' <= c <= 'Z' then (c as int + 32) as char else c
  }

  function LowerAll(s: string): string {
    seq(|s|, i requires 0 <= i < |s| => ToLower(s[i]))
  }

  function StripPrefix(s: string): string {
    if |s| >= 2 && s[0] == '0' && (s[1] == 'x' || s[1] == 'X') then s[2..] else s
  }

  function Normalize(s: string): string {
    LowerAll(StripPrefix(s))
  }

  predicate IsPureHex(s: string) {
    IsStrictHex(Normalize(s))
  }

  /** The name under which two encodings are the same instruction. */
  function Key(s: string): string {
    if IsPureHex(s) then Normalize(s) else s
  }

  function ParsePairs(h: string): Option<seq<Byte>>
    requires |h| % 2 == 0
  {
    if h == [] then Some([])
    else if DigitValue(h[0]) < 0 || DigitValue(h[1]) < 0 then None
    else
      match ParsePairs(h[2..])
      case None => None
      case Some(rest) => Some([(16 * DigitValue(h[0]) + DigitValue(h[1])) as Byte] + rest)
  }

  function HexToBytes(s: string): Result<seq<Byte>, CodecError> {
    var h := StripPrefix(s);
    if h == [] then Err(EmptyInput)
    else if |h| % 2 != 0 then Err(OddHexLength)
    else
      match ParsePairs(h)
      case None => Err(InvalidHex)
      case Some(bytes) => Ok(bytes)
  }

  function ByteToHex(b: Byte): string {
    [DIGITS[b / 16], DIGITS[b % 16]]
  }

  function BytesToHex(bytes: seq<Byte>): (s: string)
    ensures |s| == 2 * |bytes|
  {
    if bytes == [] then "" else ByteToHex(bytes[0]) + BytesToHex(bytes[1..])
  }

  predicate IsSingleOpcode(s: string, op: Byte) {
    IsPureHex(s) && Normalize(s) == ByteToHex(op)
  }

  // ----- parsing -----

  lemma {:induction false} ParsePairsChars(h: string)
    requires |h| % 2 == 0
    ensures ParsePairs(h).Some? <==> AllDigits(h)
    ensures ParsePairs(h).Some? ==> |ParsePairs(h).value| == |h| / 2
    ensures ParsePairs(h).Some? ==>
              forall i :: 0 <= i < |h| / 2 ==>
                ParsePairs(h).value[i] == 16 * DigitValue(h[2 * i]) + DigitValue(h[2 * i + 1])
  {
    if h == [] {
    } else {
      var t := h[2..];
      ParsePairsChars(t);
      assert forall i :: 0 <= i < |t| ==> t[i] == h[i + 2];
      if AllDigits(h) {
        assert AllDigits(t);
      }
      if ParsePairs(h).Some? {
        forall i | 0 <= i < |h| ensures DigitValue(h[i]) >= 0 {
          if i >= 2 {
            assert h[i] == t[i - 2];
          }
        }
        forall i | 0 <= i < |h| / 2
          ensures ParsePairs(h).value[i] == 16 * DigitValue(h[2 * i]) + DigitValue(h[2 * i + 1])
        {
          if i > 0 {
            assert ParsePairs(h).value[i] == ParsePairs(t).value[i - 1];
          }
        }
      }
    }
  }

  lemma LowerDigit(c: char)
    ensures DigitValue(ToLower(c)) == DigitValue(c)
    ensures DigitValue(c) >= 0 ==> ToLower(c) == DIGITS[DigitValue(c)]
    ensures ToLower(ToLower(c)) == ToLower(c)
  {
  }

  lemma LowerDigits(s: string)
    ensures AllDigits(LowerAll(s)) <==> AllDigits(s)
    ensures LowerAll(LowerAll(s)) == LowerAll(s)
  {
    forall i | 0 <= i < |s|
      ensures DigitValue(LowerAll(s)[i]) == DigitValue(s[i])
      ensures LowerAll(LowerAll(s))[i] == LowerAll(s)[i]
    {
      LowerDigit(s[i]);
    }
    if AllDigits(LowerAll(s)) {
      forall i | 0 <= i < |s| ensures DigitValue(s[i]) >= 0 {
        assert DigitValue(LowerAll(s)[i]) >= 0;
      }
    }
  }

  /** The two tests for "is script hex" in the source agree: normalising, and parsing to bytes. */
  lemma PureHexIsParsable(s: string)
    ensures IsPureHex(s) <==> HexToBytes(s).Ok?
  {
    var h := StripPrefix(s);
    LowerDigits(h);
    assert |LowerAll(h)| == |h|;
    if |h| % 2 == 0 {
      ParsePairsChars(h);
    }
  }

  lemma NormalizeIsStable(s: string)
    requires IsPureHex(s)
    ensures Normalize(Normalize(s)) == Normalize(s) && IsPureHex(Normalize(s))
  {
    var n := Normalize(s);
    assert |n| >= 2;
    assert DigitValue(n[1]) >= 0;
    assert StripPrefix(n) == n;
    LowerDigits(StripPrefix(s));
  }

  /** Normalising an encoding does not change the bytes it denotes. */
  lemma NormalizeKeepsBytes(s: string)
    requires IsPureHex(s)
    ensures HexToBytes(Normalize(s)) == HexToBytes(s)
  {
    var h, n := StripPrefix(s), Normalize(s);
    NormalizeIsStable(s);
    assert DigitValue(n[1]) >= 0;
    assert StripPrefix(n) == n;
    LowerDigits(h);
    ParsePairsChars(h);
    ParsePairsChars(n);
    var a, b := ParsePairs(h).value, ParsePairs(n).value;
    forall i | 0 <= i < |h| / 2 ensures a[i] == b[i] {
      LowerDigit(h[2 * i]);
      LowerDigit(h[2 * i + 1]);
    }
    assert a == b;
  }

  lemma KeyIsStable(s: string)
    ensures Key(Key(s)) == Key(s)
    ensures IsPureHex(Key(s)) <==> IsPureHex(s)
  {
    if IsPureHex(s) {
      NormalizeIsStable(s);
    }
  }

  lemma {:induction false} BytesToHexChars(bytes: seq<Byte>)
    ensures forall i :: 0 <= i < |bytes| ==>
              BytesToHex(bytes)[2 * i] == DIGITS[bytes[i] / 16] && BytesToHex(bytes)[2 * i + 1] == DIGITS[bytes[i] % 16]
  {
    if bytes != [] {
      BytesToHexChars(bytes[1..]);
      forall i | 0 <= i < |bytes|
        ensures BytesToHex(bytes)[2 * i] == DIGITS[bytes[i] / 16] &&
                  BytesToHex(bytes)[2 * i + 1] == DIGITS[bytes[i] % 16]
      {
        if i > 0 {
          assert bytes[i] == bytes[1..][i - 1];
          assert BytesToHex(bytes)[2 * i] == BytesToHex(bytes[1..])[2 * (i - 1)];
          assert BytesToHex(bytes)[2 * i + 1] == BytesToHex(bytes[1..])[2 * (i - 1) + 1];
        }
      }
    }
  }

  lemma DigitRoundTrip(d: int)
    requires 0 <= d < 16
    ensures DigitValue(DIGITS[d]) == d && ToLower(DIGITS[d]) == DIGITS[d]
  {
  }

  /** Printing and parsing are inverse on every non-empty byte string. */
  lemma PrintParse(bytes: seq<Byte>)
    requires bytes != []
    ensures HexToBytes(BytesToHex(bytes)) == Ok(bytes)
    ensures IsStrictHex(BytesToHex(bytes)) && Normalize(BytesToHex(bytes)) == BytesToHex(bytes)
  {
    var h := BytesToHex(bytes);
    BytesToHexChars(bytes);
    forall i | 0 <= i < |h| ensures DigitValue(h[i]) >= 0 && ToLower(h[i]) == h[i] {
      var k := i / 2;
      assert h[2 * k] == DIGITS[bytes[k] / 16] && h[2 * k + 1] == DIGITS[bytes[k] % 16];
      DigitRoundTrip(bytes[k] / 16);
      DigitRoundTrip(bytes[k] % 16);
    }
    assert DigitValue(h[1]) >= 0;
    assert StripPrefix(h) == h;
    assert LowerAll(h) == h;
    ParsePairsChars(h);
    var p := ParsePairs(h).value;
    forall i | 0 <= i < |bytes| ensures p[i] == bytes[i] {
      DigitRoundTrip(bytes[i] / 16);
      DigitRoundTrip(bytes[i] % 16);
    }
    assert p == bytes;
  }

  lemma PairPrint(high: char, low: char, b: Byte)
    requires DigitValue(high) >= 0 && DigitValue(low) >= 0
    requires b == 16 * DigitValue(high) + DigitValue(low)
    ensures ByteToHex(b) == [ToLower(high), ToLower(low)]
  {
    hide DigitValue, ToLower;
    LowerDigit(high);
    LowerDigit(low);
    ByteDigits(DigitValue(high), DigitValue(low), b);
  }

  lemma ByteDigits(high: int, low: int, b: Byte)
    requires 0 <= high < 16 && 0 <= low < 16 && b == 16 * high + low
    ensures ByteToHex(b) == [DIGITS[high], DIGITS[low]]
  {
    SixteenFold(high, low);
    hide DIGITS;
  }

  lemma SixteenFold(high: int, low: int)
    requires 0 <= high < 16 && 0 <= low < 16
    ensures (16 * high + low) / 16 == high && (16 * high + low) % 16 == low
  {
  }

  lemma {:induction false} ParsePairsPrint(h: string)
    requires |h| % 2 == 0 && ParsePairs(h).Some?
    ensures BytesToHex(ParsePairs(h).value) == LowerAll(h)
  {
    if h == [] {
    } else {
      var bytes := ParsePairs(h).value;
      ParsePairsPrint(h[2..]);
      PairPrint(h[0], h[1], bytes[0]);
      assert bytes[1..] == ParsePairs(h[2..]).value;
      assert LowerAll(h) == [ToLower(h[0]), ToLower(h[1])] + LowerAll(h[2..]);
    }
  }

  /** Parsing then printing gives the normalised text. */
  lemma ParsePrint(s: string)
    requires HexToBytes(s).Ok?
    ensures BytesToHex(HexToBytes(s).value) == Normalize(s)
  {
    ParsePairsPrint(StripPrefix(s));
  }

  lemma SingleOpcodeBytes(s: string, op: Byte)
    ensures IsSingleOpcode(s, op) <==> HexToBytes(s) == Ok([op])
  {
    PureHexIsParsable(s);
    OneByteHex(op);
    if IsSingleOpcode(s, op) {
      NormalizeKeepsBytes(s);
      PrintParse([op]);
    }
    if HexToBytes(s) == Ok([op]) {
      ParsePrint(s);
    }
  }

  /** Encodings with one key denote the same bytes. */
  lemma KeyDeterminesBytes(a: string, b: string)
    requires Key(a) == Key(b)
    ensures IsPureHex(a) <==> IsPureHex(b)
    ensures HexToBytes(a) == HexToBytes(b)
  {
    KeyIsStable(a);
    KeyIsStable(b);
    if IsPureHex(a) {
      NormalizeKeepsBytes(a);
      NormalizeKeepsBytes(b);
    }
  }

  lemma OneByteHex(b: Byte)
    ensures BytesToHex([b]) == ByteToHex(b)
  {
    assert BytesToHex([b]) == ByteToHex(b) + BytesToHex([]);
  }

  lemma {:induction false} BytesToHexConcat(a: seq<Byte>, b: seq<Byte>)
    ensures BytesToHex(a + b) == BytesToHex(a) + BytesToHex(b)
  {
    if a == [] {
      assert a + b == b;
    } else {
      assert (a + b)[1..] == a[1..] + b;
      BytesToHexConcat(a[1..], b);
    }
  }

  // ----- the loops of the source -----

  method ParseHex(hex: string) returns (r: Result<seq<Byte>, CodecError>)
    ensures r == HexToBytes(hex)
  {
    var h := StripPrefix(hex);
    if h == [] {
      return Err(EmptyInput);
    }
    if |h| % 2 != 0 {
      return Err(OddHexLength);
    }
    ParsePairsChars(h);
    var bytes: seq<Byte> := [];
    var i := 0;
    while i < |h|
      invariant 0 <= i <= |h| && i % 2 == 0 && |bytes| == i / 2
      invariant forall k :: 0 <= k < i ==> DigitValue(h[k]) >= 0
      invariant forall k :: 0 <= k < i / 2 ==> bytes[k] == 16 * DigitValue(h[2 * k]) + DigitValue(h[2 * k + 1])
    {
      var high, low := DigitValue(h[i]), DigitValue(h[i + 1]);
      if high < 0 || low < 0 {
        return Err(InvalidHex);
      }
      bytes := bytes + [16 * high + low];
      i := i + 2;
    }
    assert AllDigits(h);
    assert bytes == ParsePairs(h).value;
    return Ok(bytes);
  }

  method PrintHex(bytes: seq<Byte>) returns (s: string)
    ensures s == BytesToHex(bytes)
  {
    s := "";
    for i := 0 to |bytes|
      invariant s == BytesToHex(bytes[..i])
    {
      BytesToHexConcat(bytes[..i], [bytes[i]]);
      assert bytes[..i] + [bytes[i]] == bytes[..i + 1];
      OneByteHex(bytes[i]);
      s := s + ByteToHex(bytes[i]);
    }
    assert bytes[..|bytes|] == bytes;
  }
}
