/** The compile-time layout pass: padding after the final OP_RETURN up to 64 bytes, the position map it reports, and
    its agreement with the linker of canonical templates. */
module FinalizeLayout {
  import opened Wrappers
  import opened Hex
  import opened ScriptCodec
  import opened BytecodeIr
  import opened LegacyAdapter
  import ArtifactRewriter
  import Materializer
  import Permutations
  import ScriptSplit

  const ALIGNMENT: nat := 64

  /** Instruction text with the typed instructions it mirrors. */
  datatype Layout = Layout(texts: seq<string>, code: seq<Instruction>)

  predicate Mirrored(l: Layout) {
    |l.texts| == |l.code|
  }

  function PaddingEnd(code: seq<Instruction>): (n: nat)
    ensures ExecutableEnd(code) <= n <= |code|
  {
    ExecutableEnd(code) + RunOf(code, Padding, ExecutableEnd(code))
  }

  predicate OrderedRegions(code: seq<Instruction>) {
    forall i :: PaddingEnd(code) <= i < |code| ==> code[i].region == ImmutableSuffix
  }

  predicate IsIgnored(text: string) {
    text == "" || text[0] == '#'
  }

  /** Bytes of one instruction; text that is not bare hex has no known size here. */
  function InstructionBytes(text: string): Option<nat> {
    if IsIgnored(text) then Some(0) else if IsPureHex(text) then Some(|Normalize(text)| / 2) else None
  }

  function CountBytes(texts: seq<string>): Option<nat> {
    if texts == [] then Some(0)
    else
      match (CountBytes(texts[..|texts| - 1]), InstructionBytes(texts[|texts| - 1]))
      case (Some(a), Some(b)) => Some(a + b)
      case _ => None
  }

  function BytesToAlign(length: nat, alignment: nat): nat
    requires alignment > 0
  {
    if length % alignment == 0 then 0 else alignment - length % alignment
  }

  function Filler(n: nat): string {
    if n == 0 then "" else Filler(n - 1) + "ff"
  }

  /** One push filling exactly the given bytes; nothing beyond a direct push. */
  function PadText(bytes: nat): string {
    if bytes == 0 || bytes > 76 then "" else if bytes == 1 then "00" else ByteToHex(bytes - 1) + Filler(bytes - 1)
  }

  /** When the pass lays the code out at all. */
  predicate Applies(l: Layout)
    requires Mirrored(l)
  {
    && OrderedRegions(l.code) && ExecutableEnd(l.code) > 0
    && IsReturn(l.code[ExecutableEnd(l.code) - 1])
    && CountBytes(l.texts[..ExecutableEnd(l.code)]).Some?
  }

  function PadOf(l: Layout): string
    requires Mirrored(l) && Applies(l)
  {
    PadText(BytesToAlign(CountBytes(l.texts[..ExecutableEnd(l.code)]).value, ALIGNMENT))
  }

  function PadList(l: Layout): seq<string>
    requires Mirrored(l) && Applies(l)
  {
    if PadOf(l) == "" then [] else [PadOf(l)]
  }

  function FinalTexts(l: Layout): seq<string>
    requires Mirrored(l)
  {
    if !Applies(l) then l.texts
    else l.texts[..ExecutableEnd(l.code)] + PadList(l) + l.texts[PaddingEnd(l.code)..]
  }

  /** Old padding merges into the new padding, if there is any. */
  function NewPosition(i: nat, e: nat, p: nat, padCount: nat): Option<nat>
    requires e <= p
  {
    if i < e then Some(i)
    else if i < p then (if padCount == 0 then None else Some(e))
    else Some(e + padCount + (i - p))
  }

  /** Where each old position goes. */
  function Remap(l: Layout): (r: seq<Option<nat>>)
    requires Mirrored(l) && Applies(l)
    ensures |r| == |l.texts|
  {
    seq(|l.texts|, i requires 0 <= i < |l.texts| =>
      NewPosition(i, ExecutableEnd(l.code), PaddingEnd(l.code), |PadList(l)|))
  }

  // ----- the loops -----

  method MakePushPadding(paddingBytes: nat) returns (text: string)
    ensures text == PadText(paddingBytes)
  {
    if paddingBytes == 0 {
      return "";
    }
    if paddingBytes == 1 {
      return "00";
    }
    var dataBytes := paddingBytes - 1;
    if dataBytes > 75 {
      return "";
    }
    text := ByteToHex(dataBytes);
    for i := 0 to dataBytes
      invariant text == ByteToHex(dataBytes) + Filler(i)
    {
      assert text + "ff" == ByteToHex(dataBytes) + (Filler(i) + "ff");
      text := text + "ff";
    }
  }

  method CountAll(texts: seq<string>) returns (total: Option<nat>)
    ensures total == CountBytes(texts)
  {
    hide InstructionBytes;
    var sum := 0;
    for i := 0 to |texts|
      invariant CountBytes(texts[..i]) == Some(sum)
    {
      assert texts[..i + 1][..i] == texts[..i];
      var bytes := InstructionBytes(texts[i]);
      if bytes.None? {
        CountFails(texts, i + 1);
        return None;
      }
      sum := sum + bytes.value;
    }
    assert texts[..|texts|] == texts;
    return Some(sum);
  }

  lemma {:induction false} CountFails(texts: seq<string>, i: nat)
    requires i <= |texts| && CountBytes(texts[..i]).None?
    ensures CountBytes(texts).None?
    decreases |texts| - i
  {
    hide InstructionBytes;
    if i < |texts| {
      assert texts[..i + 1][..i] == texts[..i];
      CountFails(texts, i + 1);
    } else {
      assert texts[..i] == texts;
    }
  }

  method EndOfRun(code: seq<Instruction>, region: Region, from: nat) returns (end: nat)
    requires from <= |code|
    ensures end == from + RunOf(code, region, from)
  {
    end := from;
    while end < |code| && code[end].region == region
      invariant from <= end <= |code| && end + RunOf(code, region, end) == from + RunOf(code, region, from)
    {
      end := end + 1;
    }
  }

  /** The region scan: where the executable part and the padding end, or None when the regions are out of order. */
  method ScanRegions(code: seq<Instruction>) returns (r: Option<(nat, nat)>)
    ensures r.Some? <==> OrderedRegions(code)
    ensures r.Some? ==> r.value == (ExecutableEnd(code), PaddingEnd(code))
  {
    var e := EndOfRun(code, Executable, 0);
    var p := EndOfRun(code, Padding, e);
    hide RunOf;
    for i := p to |code|
      invariant forall j :: p <= j < i ==> code[j].region == ImmutableSuffix
    {
      if code[i].region != ImmutableSuffix {
        return None;
      }
    }
    return Some((e, p));
  }

  method Finalize(l: Layout) returns (texts: seq<string>, remap: Option<seq<Option<nat>>>)
    requires Mirrored(l)
    ensures texts == FinalTexts(l)
    ensures remap == if Applies(l) then Some(Remap(l)) else None
  {
    hide CountBytes, PadText, RunOf, IsReturn;
    var regions := ScanRegions(l.code);
    if regions.None? {
      return l.texts, None;
    }
    var e, p := regions.value.0, regions.value.1;
    if e == 0 || !IsReturn(l.code[e - 1]) {
      return l.texts, None;
    }
    var codeBytes := CountAll(l.texts[..e]);
    if codeBytes.None? {
      return l.texts, None;
    }
    var pad := MakePushPadding(BytesToAlign(codeBytes.value, ALIGNMENT));
    var padCount := if pad == "" then 0 else 1;
    var map0 := BuildRemap(|l.texts|, e, p, padCount);
    texts := l.texts[..e] + (if pad == "" then [] else [pad]) + l.texts[p..];
    SameRemap(l, map0, e, p, padCount);
    return texts, Some(map0);
  }

  lemma SameRemap(l: Layout, r: seq<Option<nat>>, e: nat, p: nat, padCount: nat)
    requires Mirrored(l) && Applies(l) && padCount == |PadList(l)|
    requires e == ExecutableEnd(l.code) && p == PaddingEnd(l.code)
    requires |r| == |l.texts| && forall i: nat :: i < |r| ==> r[i] == NewPosition(i, e, p, padCount)
    ensures r == Remap(l)
  {
    hide PadList, Applies, RunOf, NewPosition;
  }

  method BuildRemap(size: nat, e: nat, p: nat, padCount: nat) returns (r: seq<Option<nat>>)
    requires e <= p <= size
    ensures |r| == size && forall i: nat :: i < size ==> r[i] == NewPosition(i, e, p, padCount)
  {
    r := seq(size, _ => None);
    for i := 0 to e
      invariant |r| == size
      invariant forall j :: 0 <= j < i ==> r[j] == Some(j)
      invariant forall j :: i <= j < size ==> r[j] == None
    {
      r := r[i := Some(i)];
    }
    if padCount != 0 {
      for i := e to p
        invariant |r| == size && forall j :: 0 <= j < e ==> r[j] == Some(j)
        invariant forall j :: e <= j < i ==> r[j] == Some(e)
        invariant forall j :: i <= j < size ==> r[j] == None
      {
        r := r[i := Some(e)];
      }
    }
    for i := p to size
      invariant |r| == size && forall j :: 0 <= j < e ==> r[j] == Some(j)
      invariant forall j :: e <= j < p ==> r[j] == if padCount == 0 then None else Some(e)
      invariant forall j :: p <= j < i ==> r[j] == Some(e + padCount + (j - p))
    {
      r := r[i := Some(e + padCount + (i - p))];
    }
  }

  // ----- properties -----

  /** The position map keeps every code and suffix atom with its text and sends old padding into the new padding, or
      nowhere when there is none. */
  lemma RemapKeepsAtoms(l: Layout)
    requires Mirrored(l) && Applies(l)
    ensures var e, p := ExecutableEnd(l.code), PaddingEnd(l.code);
            && (forall i :: 0 <= i < |l.texts| && Remap(l)[i].Some? ==> Remap(l)[i].value < |FinalTexts(l)|)
            && (forall i :: 0 <= i < |l.texts| && !(e <= i < p) ==>
                  Remap(l)[i].Some? && FinalTexts(l)[Remap(l)[i].value] == l.texts[i])
            && (forall i :: e <= i < p ==>
                  if PadOf(l) == "" then Remap(l)[i].None?
                  else Remap(l)[i].Some? && FinalTexts(l)[Remap(l)[i].value] == PadOf(l))
  {
    hide CountBytes, PadText, RunOf, OrderedRegions;
  }

  /** The bytes of code, instruction by instruction. */
  function BytesOf(texts: seq<string>): seq<Byte> {
    if texts == [] then []
    else
      var last := texts[|texts| - 1];
      BytesOf(texts[..|texts| - 1]) + if !IsIgnored(last) && HexToBytes(last).Ok? then HexToBytes(last).value else []
  }

  lemma {:induction false} BytesOfConcat(a: seq<string>, b: seq<string>)
    ensures BytesOf(a + b) == BytesOf(a) + BytesOf(b)
    decreases |b|
  {
    hide HexToBytes, IsIgnored;
    if b == [] {
      assert a + b == a;
    } else {
      assert (a + b)[..|a + b| - 1] == a + b[..|b| - 1];
      BytesOfConcat(a, b[..|b| - 1]);
    }
  }

  lemma SizeOfText(text: string)
    requires !IsIgnored(text)
    ensures InstructionBytes(text).Some? <==> HexToBytes(text).Ok?
    ensures HexToBytes(text).Ok? ==> InstructionBytes(text) == Some(|HexToBytes(text).value|)
  {
    PureHexIsParsable(text);
    if HexToBytes(text).Ok? {
      ParsePairsChars(StripPrefix(text));
    }
  }

  /** The byte count is known exactly when every instruction is ignored or reads as bytes, and then it is their
      number. */
  lemma {:induction false} CountIsSize(texts: seq<string>)
    ensures CountBytes(texts).Some? <==>
            forall k :: 0 <= k < |texts| ==> IsIgnored(texts[k]) || HexToBytes(texts[k]).Ok?
    ensures CountBytes(texts).Some? ==> CountBytes(texts).value == |BytesOf(texts)|
    decreases |texts|
  {
    hide HexToBytes, InstructionBytes, IsIgnored;
    if texts != [] {
      var n := |texts| - 1;
      CountIsSize(texts[..n]);
      if IsIgnored(texts[n]) {
        IgnoredSize(texts[n]);
      } else {
        SizeOfText(texts[n]);
      }
      assert forall k :: 0 <= k < n ==> texts[..n][k] == texts[k];
    }
  }

  lemma IgnoredSize(text: string)
    requires IsIgnored(text)
    ensures InstructionBytes(text) == Some(0)
  {
  }

  lemma PadSize(bytes: nat)
    requires 0 < bytes < ALIGNMENT
    ensures PadText(bytes) != "" && BytesOf([PadText(bytes)]) == [bytes - 1] + seq(bytes - 1, _ => 0xff)
  {
    hide HexToBytes;
    var payload: seq<Byte> := seq(bytes - 1, _ => 0xff);
    OneByteHex(bytes - 1);
    FillerBytes(bytes - 1);
    BytesToHexConcat([bytes - 1], payload);
    assert bytes == 1 ==> payload == [] && ByteToHex(0) == "00";
    assert PadText(bytes) == BytesToHex([bytes - 1] + payload);
    PrintParse([bytes - 1] + payload);
    BytesToHexChars([bytes - 1] + payload);
    assert [PadText(bytes)][..0] == [];
  }

  /** Code and padding fill whole blocks, with less than one block of padding. */
  lemma PadFills(code: seq<string>)
    requires CountBytes(code).Some?
    ensures var pad := PadText(BytesToAlign(CountBytes(code).value, ALIGNMENT));
            var all := BytesOf(code + if pad == "" then [] else [pad]);
            && |all| % ALIGNMENT == 0 && |BytesOf(code)| <= |all| < |BytesOf(code)| + ALIGNMENT
            && all[..|BytesOf(code)|] == BytesOf(code)
  {
    hide PadText, BytesOf, CountBytes;
    var bytes := BytesToAlign(CountBytes(code).value, ALIGNMENT);
    CountIsSize(code);
    if bytes == 0 {
      NoPad();
      assert code + [] == code;
    } else {
      PadSize(bytes);
      BytesOfConcat(code, [PadText(bytes)]);
    }
  }

  /** The same without an artifact. */
  lemma TextLayoutFillsBlocks(texts: seq<string>)
    requires TextApplies(texts)
    ensures var code, suffix := texts[..SuffixBoundary(texts).value], texts[SuffixBoundary(texts).value..];
            exists head ::
              && FinalText(texts) == head + suffix && code <= head
              && |BytesOf(head)| % ALIGNMENT == 0 && |BytesOf(head)| < |BytesOf(code)| + ALIGNMENT
  {
    hide PadText, BytesOf, CountBytes, SuffixBoundary;
    var code := texts[..SuffixBoundary(texts).value];
    PadFills(code);
    var pad := PadText(BytesToAlign(CodeBytes(texts), ALIGNMENT));
    assert FinalText(texts) == (code + if pad == "" then [] else [pad]) + texts[SuffixBoundary(texts).value..];
  }

  /** What a layout leaves in front of the suffix fills whole blocks, and what follows is the suffix as it was. */
  lemma LayoutFillsBlocks(l: Layout)
    requires Mirrored(l) && Applies(l)
    ensures var code := l.texts[..ExecutableEnd(l.code)];
            var suffix := l.texts[PaddingEnd(l.code)..];
            exists head ::
              && FinalTexts(l) == head + suffix && code <= head
              && |BytesOf(head)| % ALIGNMENT == 0 && |BytesOf(head)| < |BytesOf(code)| + ALIGNMENT
  {
    hide PadText, BytesOf, CountBytes, OrderedRegions, RunOf;
    var code := l.texts[..ExecutableEnd(l.code)];
    PadFills(code);
    assert FinalTexts(l) == (code + PadList(l)) + l.texts[PaddingEnd(l.code)..];
  }

  /** The typed artifact can always follow the layout: old padding merges only with old padding. */
  lemma LayoutIsRewritable(l: Layout)
    requires Mirrored(l) && Applies(l) && UniqueIds(l.code) && ArtifactRewriter.ConsistentSizes(l.code)
    requires ArtifactRewriter.Room(ArtifactRewriter.Recorded(Ids(l.code))) >= 1
    requires ArtifactRewriter.Room(ArtifactRewriter.Recorded(ArtifactRewriter.AllOrigins(l.code))) >= 1
    ensures ArtifactRewriter.Acceptable(l.code, ArtifactRewriter.Reverse(Remap(l), |FinalTexts(l)|))
  {
    var m := ArtifactRewriter.Reverse(Remap(l), |FinalTexts(l)|);
    var e, p := ExecutableEnd(l.code), PaddingEnd(l.code);
    assert |FinalTexts(l)| == e + |PadList(l)| + (|l.texts| - p);
    hide CountBytes, PadText, UniqueIds, ArtifactRewriter.ConsistentSizes, ArtifactRewriter.Recorded,
      ArtifactRewriter.Room;
    hide PadList, RunOf, FinalTexts, ArtifactRewriter.Synthetic, Applies, NewPosition, ArtifactRewriter.SourcesFit;
    forall q: nat | q < |m| ensures ArtifactRewriter.SourcesFit(l.code, m[q]) {
      MergedSourcesFit(l, q, m[q]);
    }
    forall i, j, x: nat | 0 <= i < j < |m| && x in m[i] ensures x !in m[j] {
      assert Remap(l)[x] == Some(i);
    }
    forall q: nat | q < |m| && q != e ensures m[q] != [] {
      var from := if q < e then q else p + (q - e) - |PadList(l)|;
      NewPositionOf(q, e, p, |PadList(l)|, from);
      assert Remap(l)[from] == Some(q);
      assert from in m[q];
    }
    SyntheticOnlyAt(m, e);
  }

  lemma NewPositionOf(q: nat, e: nat, p: nat, k: nat, from: nat)
    requires e <= p && k <= 1 && q != e && (q < e ==> from == q) && (q > e ==> from == p + (q - e) - k)
    ensures NewPosition(from, e, p, k) == Some(q)
  {
  }

  /** Only old padding is ever merged. */
  lemma MergedSourcesFit(l: Layout, q: nat, s: seq<nat>)
    requires Mirrored(l) && Applies(l) && s == ArtifactRewriter.SourcesOf(Remap(l), q)
    ensures ArtifactRewriter.SourcesFit(l.code, s)
  {
    var e, p := ExecutableEnd(l.code), PaddingEnd(l.code);
    assert forall i :: e <= i < p ==> l.code[i].region == Padding;
    hide PadList, RunOf, Applies;
    forall k | 0 <= k < |s| ensures s[k] < |l.code| && l.code[s[k]].region == l.code[s[0]].region {
      assert s[k] in s && s[0] in s;
      assert NewPosition(s[k], e, p, |PadList(l)|) == NewPosition(s[0], e, p, |PadList(l)|) == Some(q);
    }
  }

  lemma {:induction false} SyntheticOnlyAt(m: seq<seq<nat>>, e: nat)
    requires forall q :: 0 <= q < |m| && q != e ==> m[q] != []
    ensures ArtifactRewriter.Synthetic(m) <= 1
    ensures e >= |m| ==> ArtifactRewriter.Synthetic(m) == 0
  {
    if m != [] {
      SyntheticOnlyAt(m[..|m| - 1], e);
    }
  }

  lemma {:induction false} FillerBytes(n: nat)
    ensures Filler(n) == BytesToHex(seq(n, _ => 0xff))
  {
    if n > 0 {
      FillerBytes(n - 1);
      var before: seq<Byte> := seq(n - 1, _ => 0xff);
      BytesToHexConcat(before, [0xff]);
      OneByteHex(0xff);
      assert before + [0xff] == seq(n, _ => 0xff);
    }
  }

  /** The pass and the linker write the same padding. */
  lemma SamePadding(bytes: nat)
    requires bytes < ALIGNMENT
    ensures Materializer.Texts(Materializer.PaddingAtoms(bytes)) ==
            if PadText(bytes) == "" then [] else [PadText(bytes)]
  {
    if bytes > 0 {
      Materializer.ChunkFits(bytes);
      var payload := Materializer.PaddingPayload(bytes);
      assert Materializer.PaddingAtoms(bytes - Materializer.Chunk(bytes)) == [];
      BytesToHexConcat([bytes - 1], payload);
      OneByteHex(bytes - 1);
      FillerBytes(bytes - 1);
      assert payload == seq(bytes - 1, _ => 0xff);
      assert PadText(bytes) == BytesToHex([bytes - 1] + payload);
    }
  }

  // ----- the artifact that follows -----

  function Sources(l: Layout): seq<seq<nat>>
    requires Mirrored(l) && Applies(l)
  {
    ArtifactRewriter.Reverse(Remap(l), |FinalTexts(l)|)
  }

  /** The rewritten artifact with its new padding marked. */
  function MarkPadding(l: Layout, code: seq<Instruction>): seq<Instruction>
    requires Mirrored(l) && Applies(l) && |code| == |FinalTexts(l)|
  {
    if PadList(l) == [] then code
    else
      var e, pad := ExecutableEnd(l.code), PadOf(l);
      code[e := code[e].(region := Padding, body := ParseAtom(pad), legacyEncoding := Some(pad))]
  }

  ghost predicate Relaid(l: Layout, next: Layout)
    requires Mirrored(l) && Applies(l)
  {
    next.texts == FinalTexts(l) && exists code :: FollowsLayout(l, code) && next.code == MarkPadding(l, code)
  }

  ghost predicate FollowsLayout(l: Layout, code: seq<Instruction>)
    requires Mirrored(l) && Applies(l)
  {
    |code| == |FinalTexts(l)| && UniqueIds(code) && ArtifactRewriter.Written(l.code, FinalTexts(l), Sources(l), code)
  }

  /** The pass on text and artifact: both are laid out, or neither is touched. */
  method FinalizeArtifact(l: Layout) returns (next: Layout)
    requires Mirrored(l) && ArtifactRewriter.IdsFit(l.code)
    ensures !Applies(l) || !ArtifactRewriter.Acceptable(l.code, Sources(l)) ==> next == l
    ensures Applies(l) && ArtifactRewriter.Acceptable(l.code, Sources(l)) ==> Relaid(l, next)
  {
    hide CountBytes, PadText, RunOf, OrderedRegions, ArtifactRewriter.Acceptable, ArtifactRewriter.Written, UniqueIds;
    hide ArtifactRewriter.IdsFit, Remap, ArtifactRewriter.Reverse;
    var finalized, remap := Finalize(l);
    if remap.None? {
      return l;
    }
    RemapKeepsAtoms(l);
    var newToOld := ArtifactRewriter.ReverseMapping(remap.value, |finalized|);
    var artifact := ArtifactRewriter.Rewrite(l.code, finalized, newToOld);
    if artifact.Err? {
      return l;
    }
    var code := artifact.value;
    assert FollowsLayout(l, code);
    if PadList(l) != [] {
      var e := EndOfRun(l.code, Executable, 0);
      var pad := finalized[e];
      code := code[e := code[e].(region := Padding, body := ParseAtom(pad), legacyEncoding := Some(pad))];
    }
    return Layout(finalized, code);
  }

  lemma FinalShape(l: Layout)
    requires Mirrored(l) && Applies(l)
    ensures var e, p, k := ExecutableEnd(l.code), PaddingEnd(l.code), |PadList(l)|;
            && 0 < e <= p <= |l.code| && k <= 1 && |FinalTexts(l)| == e + k + (|l.code| - p)
            && (forall i :: 0 <= i < e ==> FinalTexts(l)[i] == l.texts[i])
  {
    hide CountBytes, PadText, RunOf;
  }

  /** The padding mark touches neither identities nor origins, nor anything but the padding. */
  lemma MarkedPadding(l: Layout, code: seq<Instruction>)
    requires Mirrored(l) && Applies(l) && |code| == |FinalTexts(l)|
    ensures var e, k := ExecutableEnd(l.code), |PadList(l)|;
            var marked := MarkPadding(l, code);
            && |marked| == |code|
            && (forall i :: 0 <= i < |code| ==> marked[i].id == code[i].id && marked[i].origins == code[i].origins)
            && (forall i :: 0 <= i < |code| && !(e <= i < e + k) ==> marked[i] == code[i])
            && (forall i :: e <= i < e + k ==> marked[i].region == Padding && marked[i].body == ParseAtom(PadOf(l)))
  {
    FinalShape(l);
    hide CountBytes, PadText, RunOf, Applies, FinalTexts;
  }

  /** Where an output outside the padding comes from. */
  lemma KeptSource(l: Layout, i: nat)
    requires Mirrored(l) && Applies(l) && i < |FinalTexts(l)|
    ensures var e, p, k := ExecutableEnd(l.code), PaddingEnd(l.code), |PadList(l)|;
            && (i < e ==> forall x: nat :: x in Sources(l)[i] <==> x == i)
            && (i >= e + k ==> p + (i - e - k) in Sources(l)[i])
  {
    FinalShape(l);
    var e, p, k := ExecutableEnd(l.code), PaddingEnd(l.code), |PadList(l)|;
    hide RunOf, Applies, FinalTexts, PadList;
    if i >= e + k {
      assert Remap(l)[p + (i - e - k)] == Some(i);
    } else if i < e {
      assert Remap(l)[i] == Some(i);
    }
  }

  lemma OldRegions(l: Layout, x: nat)
    requires Mirrored(l) && Applies(l) && x < |l.code|
    ensures x < ExecutableEnd(l.code) ==> l.code[x].region == Executable
    ensures x >= PaddingEnd(l.code) ==> l.code[x].region == ImmutableSuffix
  {
    hide CountBytes;
  }

  lemma MovedRegion(l: Layout, code: seq<Instruction>, i: nat, x: nat)
    requires Mirrored(l) && Applies(l) && FollowsLayout(l, code) && i < |code| && x in Sources(l)[i]
    ensures x < |l.code| && code[i].region == l.code[x].region
  {
    hide RunOf, ArtifactRewriter.Written, UniqueIds, FinalTexts, Applies, Sources;
    ArtifactRewriter.OutputRegion(l.code, FinalTexts(l), Sources(l), code, i, x);
  }

  /** Regions after the rewrite. */
  lemma RewrittenRegion(l: Layout, code: seq<Instruction>, i: nat)
    requires Mirrored(l) && Applies(l) && FollowsLayout(l, code) && i < |code|
    ensures i < ExecutableEnd(l.code) ==> code[i].region == Executable
    ensures i >= ExecutableEnd(l.code) + |PadList(l)| ==> code[i].region == ImmutableSuffix
  {
    hide RunOf, ArtifactRewriter.Written, UniqueIds, FinalTexts, Applies, Sources, PadList, ExecutableEnd, PaddingEnd;
    FinalShape(l);
    KeptSource(l, i);
    var e, k := ExecutableEnd(l.code), |PadList(l)|;
    if i < e {
      KeptCode(l, code, i);
    } else if i >= e + k {
      KeptSuffix(l, code, i, PaddingEnd(l.code) + (i - e - k));
    }
  }

  lemma KeptCode(l: Layout, code: seq<Instruction>, i: nat)
    requires Mirrored(l) && Applies(l) && FollowsLayout(l, code) && i < |code| && i < ExecutableEnd(l.code)
    requires i in Sources(l)[i]
    ensures code[i].region == Executable
  {
    hide RunOf, ArtifactRewriter.Written, UniqueIds, FinalTexts, Applies, Sources, PadList, ExecutableEnd, PaddingEnd;
    MovedRegion(l, code, i, i);
    OldRegions(l, i);
  }

  lemma KeptSuffix(l: Layout, code: seq<Instruction>, i: nat, x: nat)
    requires Mirrored(l) && Applies(l) && FollowsLayout(l, code) && i < |code| && PaddingEnd(l.code) <= x
    requires x in Sources(l)[i]
    ensures code[i].region == ImmutableSuffix
  {
    hide RunOf, ArtifactRewriter.Written, UniqueIds, FinalTexts, Applies, Sources, PadList, ExecutableEnd, PaddingEnd;
    MovedRegion(l, code, i, x);
    OldRegions(l, x);
  }

  lemma OldReturn(l: Layout)
    requires Mirrored(l) && Applies(l)
    ensures 0 < ExecutableEnd(l.code) <= |l.code| && IsReturn(l.code[ExecutableEnd(l.code) - 1])
  {
    hide CountBytes, RunOf, OrderedRegions;
  }

  /** The final OP_RETURN is only moved, so it stays typed when it is written as it is typed. */
  lemma ReturnStaysTyped(l: Layout, code: seq<Instruction>)
    requires Mirrored(l) && Applies(l) && FollowsLayout(l, code) && ExecutableEnd(l.code) <= |code|
    requires Serialize(l.code[ExecutableEnd(l.code) - 1]) == l.texts[ExecutableEnd(l.code) - 1]
    ensures IsReturn(code[ExecutableEnd(l.code) - 1])
  {
    hide RunOf, ArtifactRewriter.Written, UniqueIds, Serialize, FinalTexts, Applies, Sources, PadList, ExecutableEnd;
    hide IsReturn, PaddingEnd;
    FinalShape(l);
    OldReturn(l);
    KeptSource(l, ExecutableEnd(l.code) - 1);
    ReturnMoves(l, code, ExecutableEnd(l.code) - 1);
  }

  lemma ReturnMoves(l: Layout, code: seq<Instruction>, i: nat)
    requires Mirrored(l) && Applies(l) && FollowsLayout(l, code) && i < |code| && i < |l.code| && IsReturn(l.code[i])
    requires Serialize(l.code[i]) == l.texts[i] == FinalTexts(l)[i]
    requires forall x: nat :: x in Sources(l)[i] <==> x == i
    ensures IsReturn(code[i])
  {
    hide RunOf, ArtifactRewriter.Written, UniqueIds, Serialize, FinalTexts, Applies, Sources;
    ArtifactRewriter.OutputBody(l.code, FinalTexts(l), Sources(l), code, i, i);
  }

  lemma RewrittenCode(l: Layout, next: Layout) returns (code: seq<Instruction>)
    requires Mirrored(l) && Applies(l) && Relaid(l, next)
    ensures FollowsLayout(l, code) && next.texts == FinalTexts(l) && next.code == MarkPadding(l, code)
  {
    hide MarkPadding, Applies, FinalTexts, ArtifactRewriter.Written;
    code :| FollowsLayout(l, code) && next.code == MarkPadding(l, code);
  }

  /** Regions of a laid-out artifact, and its final OP_RETURN. */
  lemma RelaidRegions(l: Layout, next: Layout)
    requires Mirrored(l) && Applies(l) && Relaid(l, next)
    ensures var e, k := ExecutableEnd(l.code), |PadList(l)|;
            && Mirrored(next) && 0 < e && |next.code| == e + k + (|l.code| - PaddingEnd(l.code))
            && (forall i :: 0 <= i < e ==> next.code[i].region == Executable)
            && (forall i :: e <= i < e + k ==> next.code[i].region == Padding)
            && (forall i :: e + k <= i < |next.code| ==> next.code[i].region == ImmutableSuffix)
            && (Serialize(l.code[e - 1]) == l.texts[e - 1] ==> IsReturn(next.code[e - 1]))
  {
    FinalShape(l);
    hide Relaid, RunOf, MarkPadding, Applies, FinalTexts, PadList, Serialize, ParseAtom, UniqueIds;
    hide ArtifactRewriter.Written, IsReturn, PadOf;
    var code := RewrittenCode(l, next);
    forall i | 0 <= i < |code|
      ensures i < ExecutableEnd(l.code) ==> code[i].region == Executable
      ensures i >= ExecutableEnd(l.code) + |PadList(l)| ==> code[i].region == ImmutableSuffix
    {
      RewrittenRegion(l, code, i);
    }
    MarkedPadding(l, code);
    if Serialize(l.code[ExecutableEnd(l.code) - 1]) == l.texts[ExecutableEnd(l.code) - 1] {
      ReturnStaysTyped(l, code);
    }
  }

  /** Laying out a second time changes nothing, on any artifact the first layout leaves behind; it applies again when
      the artifact mirrored its text. */
  lemma LayoutIsIdempotent(l: Layout, next: Layout)
    requires Mirrored(l) && Applies(l) && Relaid(l, next)
    ensures Mirrored(next) && FinalTexts(next) == next.texts
    ensures Applies(next) ==> forall i :: 0 <= i < |next.texts| ==> Remap(next)[i] == Some(i)
    ensures Export(l.code) == l.texts ==> Applies(next)
  {
    hide CountBytes, PadText, Relaid, Serialize;
    RelaidRegions(l, next);
    var e, p, k := ExecutableEnd(l.code), PaddingEnd(l.code), |PadList(l)|;
    assert Export(l.code)[e - 1] == Serialize(l.code[e - 1]);
    assert next.texts == FinalTexts(l) by { RelaidTexts(l, next); }
    RunIs(next.code, Executable, 0, e);
    RunIs(next.code, Padding, e, k);
    hide RunOf;
    assert next.texts[..e] == l.texts[..e];
    if Applies(next) {
      assert PadList(next) == PadList(l);
      assert next.texts == next.texts[..e] + PadList(l) + next.texts[e + k..];
    }
  }

  lemma RelaidTexts(l: Layout, next: Layout)
    requires Mirrored(l) && Applies(l) && Relaid(l, next)
    ensures next.texts == FinalTexts(l)
  {
  }

  lemma PadIsNoPlaceholder(bytes: nat)
    ensures !ScriptSplit.IsPlaceholder(PadText(bytes))
  {
    if 2 <= bytes <= 76 {
      var n := bytes - 1;
      OneByteHex(n);
      BytesToHexChars([n]);
      assert PadText(bytes)[0] == ByteToHex(n)[0];
    }
  }

  lemma PadBody(l: Layout)
    requires Mirrored(l) && Applies(l)
    ensures !ParseAtom(PadOf(l)).PlaceholderBody?
  {
    PadIsNoPlaceholder(BytesToAlign(CountBytes(l.texts[..ExecutableEnd(l.code)]).value, ALIGNMENT));
    hide CountBytes, PadText, RunOf, ScriptSplit.IsPlaceholder;
  }

  lemma RelaidIsConsistent(l: Layout, next: Layout)
    requires Mirrored(l) && Applies(l) && Relaid(l, next)
    ensures UniqueIds(next.code) && ArtifactRewriter.ConsistentSizes(next.code)
  {
    hide Relaid, Applies, RunOf, ArtifactRewriter.Written, FinalTexts, MarkPadding, ParseAtom, PadOf, Sources, PadList;
    var code := RewrittenCode(l, next);
    PadBody(l);
    ArtifactRewriter.RewriteKeepsSizes(l.code, FinalTexts(l), Sources(l), code);
    MarkedPadding(l, code);
    hide FollowsLayout;
    assert forall i :: 0 <= i < |code| ==> next.code[i].body == code[i].body || !next.code[i].body.PlaceholderBody?;
  }

  lemma SecondSources(next: Layout)
    requires Mirrored(next) && Applies(next) && FinalTexts(next) == next.texts
    requires forall i :: 0 <= i < |next.texts| ==> Remap(next)[i] == Some(i)
    ensures |Sources(next)| == |next.code| && forall i :: 0 <= i < |next.code| ==> Sources(next)[i] == [i]
  {
    hide FinalTexts, Applies, Remap;
    forall i | 0 <= i < |next.code| ensures Sources(next)[i] == [i] {
      ArtifactRewriter.OneSource(Remap(next), i, i);
    }
  }

  lemma SecondArtifact(next: Layout, again: Layout)
    requires Mirrored(next) && Applies(next) && FinalTexts(next) == next.texts && Relaid(next, again)
    requires |Sources(next)| == |next.code| && forall i :: 0 <= i < |next.code| ==> Sources(next)[i] == [i]
    ensures again.texts == next.texts && |again.code| == |next.code|
    ensures forall i :: 0 <= i < |next.code| ==>
              && again.code[i].id == next.code[i].id && again.code[i].region == next.code[i].region
              && Permutations.Elements(again.code[i].origins) == ArtifactRewriter.Effective(next.code[i])
  {
    hide Relaid, RunOf, FinalTexts, Sources, Applies, MarkPadding, PadList, ArtifactRewriter.Effective;
    var code := RewrittenCode(next, again);
    assert |code| == |next.code|;
    hide FollowsLayout, ParseAtom, PadOf;
    PaddingIsMarked(next);
    MarkedPadding(next, code);
    forall i | 0 <= i < |code|
      ensures code[i].id == next.code[i].id && code[i].region == next.code[i].region
      ensures Permutations.Elements(code[i].origins) == ArtifactRewriter.Effective(next.code[i])
    {
      KeptAlone(next, code, i);
    }
  }

  /** A layout that changes no text finds its padding already marked. */
  lemma PaddingIsMarked(next: Layout)
    requires Mirrored(next) && Applies(next) && FinalTexts(next) == next.texts
    ensures var e, k := ExecutableEnd(next.code), |PadList(next)|;
            forall i :: e <= i < e + k ==> i < |next.code| && next.code[i].region == Padding
  {
    FinalShape(next);
  }

  lemma KeptAlone(next: Layout, code: seq<Instruction>, i: nat)
    requires Mirrored(next) && Applies(next) && FinalTexts(next) == next.texts && FollowsLayout(next, code)
    requires i < |code| && |Sources(next)| == |next.code| && Sources(next)[i] == [i]
    ensures code[i].id == next.code[i].id && code[i].region == next.code[i].region
    ensures Permutations.Elements(code[i].origins) == ArtifactRewriter.Effective(next.code[i])
  {
    hide RunOf, FinalTexts, Sources, Applies, Import, Serialize, ArtifactRewriter.KeepsBody, ArtifactRewriter.Effective;
    assert ArtifactRewriter.WrittenAs(next.code, [i], next.texts[i], Import(next.texts)[i].body, Serialize, code[i]);
    OnlyOrigin(next.code, i);
  }

  lemma OnlyOrigin(code: seq<Instruction>, i: nat)
    requires i < |code|
    ensures ArtifactRewriter.OriginsOf(code, [i]) == ArtifactRewriter.Effective(code[i])
  {
    assert [i][1..] == [];
  }

  /** Nor does the artifact change in anything but spelling: the second layout is accepted, every instruction keeps its
      identity and region, and carries the origins it had. */
  lemma SecondLayoutKeepsArtifact(l: Layout, next: Layout, again: Layout)
    requires Mirrored(l) && Applies(l) && Relaid(l, next) && Mirrored(next) && Applies(next)
    ensures ArtifactRewriter.Acceptable(next.code, Sources(next))
    ensures Relaid(next, again) ==>
              && again.texts == next.texts && |again.code| == |next.code|
              && forall i :: 0 <= i < |next.code| ==>
                   && again.code[i].id == next.code[i].id && again.code[i].region == next.code[i].region
                   && Permutations.Elements(again.code[i].origins) == ArtifactRewriter.Effective(next.code[i])
  {
    hide CountBytes, PadText, RunOf, Relaid, ArtifactRewriter.Acceptable, MarkPadding, FinalTexts, PadOf, Applies;
    LayoutIsIdempotent(l, next);
    RelaidIsConsistent(l, next);
    SecondSources(next);
    ArtifactRewriter.OneSourceEach(next.code, Sources(next));
    if Relaid(next, again) {
      SecondArtifact(next, again);
    }
  }

  // ----- without a typed artifact -----

  predicate TextApplies(texts: seq<string>) {
    && SuffixBoundary(texts).Some? && 1 <= SuffixBoundary(texts).value <= |texts|
    && CountBytes(texts[..SuffixBoundary(texts).value]).Some?
  }

  /** Bytes of code up to the last OP_RETURN in the text. */
  function CodeBytes(texts: seq<string>): nat
    requires TextApplies(texts)
  {
    CountBytes(texts[..SuffixBoundary(texts).value]).value
  }

  /** Only the text says where the code ends, and everything behind is kept: old padding is not told from data. */
  function FinalText(texts: seq<string>): seq<string> {
    if !TextApplies(texts) then texts
    else
      var e, pad := SuffixBoundary(texts).value, PadText(BytesToAlign(CodeBytes(texts), ALIGNMENT));
      texts[..e] + (if pad == "" then [] else [pad]) + texts[e..]
  }

  method FinalizeText(texts: seq<string>) returns (finalized: seq<string>)
    ensures finalized == FinalText(texts)
  {
    hide SuffixBoundary, CountBytes, PadText;
    var boundary := FindImmutableSuffixBoundary(texts);
    if boundary.None? {
      return texts;
    }
    SuffixFollowsReturn(texts);
    var codeBytes := CountAll(texts[..boundary.value]);
    if codeBytes.None? {
      return texts;
    }
    var pad := MakePushPadding(BytesToAlign(codeBytes.value, ALIGNMENT));
    return texts[..boundary.value] + (if pad == "" then [] else [pad]) + texts[boundary.value..];
  }

  lemma PadIsNoReturn(bytes: nat)
    requires 0 < bytes < ALIGNMENT
    ensures PadText(bytes) != "" && !IsReturnText(PadText(bytes))
  {
    if bytes == 1 {
      OneByteHex(0);
      PrintParse([0]);
      assert ByteToHex(0) == "00";
    } else {
      var n := bytes - 1;
      OneByteHex(n);
      FillerBytes(n);
      var payload: seq<Byte> := seq(n, _ => 0xff);
      BytesToHexConcat([n], payload);
      PrintParse([n] + payload);
    }
  }

  /** Without an artifact a second layout changes nothing if and only if the code needed no padding; otherwise it pads
      once more. */
  lemma TextLayoutRepeats(texts: seq<string>)
    requires TextApplies(texts)
    ensures FinalText(FinalText(texts)) == FinalText(texts) <==> CodeBytes(texts) % ALIGNMENT == 0
  {
    hide SuffixBoundary, CountBytes, PadText, IsReturnText;
    var e := SuffixBoundary(texts).value;
    var bytes := BytesToAlign(CodeBytes(texts), ALIGNMENT);
    if bytes == 0 {
      assert PadText(0) == "" by { NoPad(); }
      assert texts[..e] + [] + texts[e..] == texts;
    } else {
      PadIsNoReturn(bytes);
      SuffixFollowsReturn(texts);
      var w := texts[..e] + [PadText(bytes)] + texts[e..];
      forall k | e <= k < |w| ensures !IsReturnText(w[k]) {
        if k > e {
          assert w[k] == texts[k - 1];
          NoReturnInSuffix(texts, k - 1);
        }
      }
      SuffixBoundaryIs(w, e);
      assert w[..e] == texts[..e];
      assert |FinalText(w)| == |w| + 1;
    }
  }

  lemma NoPad()
    ensures PadText(0) == ""
  {
  }

  /** A lone OP_RETURN is padded again by every further layout. */
  lemma TextLayoutGrows()
    ensures TextApplies(["6a"]) && FinalText(FinalText(["6a"])) != FinalText(["6a"])
  {
    OneByteHex(0x6a);
    PrintParse([0x6a]);
    assert ByteToHex(0x6a) == "6a";
    SuffixBoundaryIs(["6a"], 1);
    ScriptSplit.BareHexText("6a");
    hide SuffixBoundary, PadText, FinalText, HexToBytes;
    assert ["6a"][..1] == ["6a"];
    assert ["6a"][..0] == [];
    HexSize("6a");
    assert CountBytes(["6a"]) == Some(1);
    TextLayoutRepeats(["6a"]);
  }

  lemma {:induction false} SameCount(texts: seq<string>, atoms: seq<Materializer.Atom>)
    requires texts == Materializer.Texts(atoms)
    requires forall k :: 0 <= k < |texts| ==> ScriptSplit.IsInstructionText(texts[k])
    ensures CountBytes(texts) == Some(Materializer.AtomBytes(atoms))
  {
    hide ScriptSplit.IsInstructionText, InstructionBytes, Materializer.AtomBytes;
    if texts != [] {
      var n := |texts| - 1;
      assert texts[..n] == Materializer.Texts(atoms[..n]);
      SameCount(texts[..n], atoms[..n]);
      Materializer.AtomBytesSnoc(atoms[..n], atoms[n]);
      assert atoms[..n] + [atoms[n]] == atoms;
      HexSize(texts[n]);
    } else {
      assert atoms == [] && Materializer.AtomBytes([]) == 0 by { Materializer.NothingEncoded([], map[], 0); }
    }
  }

  lemma HexSize(text: string)
    requires ScriptSplit.IsInstructionText(text)
    ensures InstructionBytes(text) == Some(|text| / 2)
  {
    ScriptSplit.BareHexText(text);
    PureHexIsParsable(text);
    assert DigitValue(text[0]) >= 0;
  }

  /** Canonically written text is the text of the linked atoms. */
  lemma WrittenAtoms(l: Layout, bindings: Materializer.Bindings, lo: nat, hi: nat)
    requires Mirrored(l) && lo <= hi <= |l.code|
    requires forall i :: 0 <= i < |l.texts| ==> Ok(l.texts[i]) == Materializer.EncodeInstruction(l.code[i], bindings)
    ensures Materializer.Texts(Materializer.AtomsOf(l.code, lo, hi, bindings)) == l.texts[lo..hi]
  {
    hide Materializer.EncodeInstruction;
    var atoms := Materializer.AtomsOf(l.code, lo, hi, bindings);
    forall k | 0 <= k < hi - lo ensures atoms[k].encodedHex == l.texts[lo..hi][k] {
      assert atoms[k] == Materializer.AtomOf(l.code, lo + k, bindings);
      assert l.texts[lo..hi][k] == l.texts[lo + k];
    }
  }

  lemma TextsConcat(a: seq<Materializer.Atom>, b: seq<Materializer.Atom>)
    ensures Materializer.Texts(a + b) == Materializer.Texts(a) + Materializer.Texts(b)
  {
  }

  /** The two readings of where the executable part ends. */
  lemma SameEnds(code: seq<Instruction>, n: nat)
    requires n <= |code| && (forall i :: 0 <= i < n ==> code[i].region == Executable)
    requires forall i :: n <= i < |code| ==> code[i].region == ImmutableSuffix
    ensures ExecutableEnd(code) == n && PaddingEnd(code) == n && OrderedRegions(code)
  {
    RunIs(code, Executable, 0, n);
    RunIs(code, Padding, n, 0);
  }

  /** On a canonically written artifact without padding, the layout pass and the linker produce the same script. */
  lemma LayoutEnginesAgree(l: Layout, t: Materializer.Artifact, bindings: Materializer.Bindings)
    requires Mirrored(l) && l.code == t.code && t.alignment == Some(ALIGNMENT)
    requires Materializer.Materializable(t, bindings)
    requires forall i :: 0 <= i < |l.texts| ==> Ok(l.texts[i]) == Materializer.EncodeInstruction(l.code[i], bindings)
    ensures Applies(l)
    ensures ScriptSplit.Concat(FinalTexts(l)) == Materializer.Linked(t, bindings).finalHex
  {
    hide CountBytes, PadText, RunOf, OrderedRegions, ScriptSplit.IsInstructionText, UniqueIds, IsReturn;
    hide Materializer.Linked, Materializer.EncodeInstruction, Materializer.PaddingAtoms, Materializer.AtomBytes;
    hide Materializer.Texts, Materializer.AtomsOf, ScriptSplit.BodyOf;
    var n, executable, padding, suffix := Materializer.LinkedShape(t, bindings);
    SameEnds(l.code, n);
    WrittenAtoms(l, bindings, 0, n);
    WrittenAtoms(l, bindings, n, |l.code|);
    assert l.texts[0..n] == l.texts[..n] && l.texts[n..|l.code|] == l.texts[n..];
    forall k | 0 <= k < n ensures ScriptSplit.IsInstructionText(l.texts[..n][k]) {
      Materializer.EncodedReads(l.code[k], bindings);
    }
    SameCount(l.texts[..n], executable);
    Materializer.LinkedIsAligned(t, bindings);
    SamePadding(Materializer.Linked(t, bindings).paddingBytes);
    TextsConcat(executable, padding);
    TextsConcat(executable + padding, suffix);
  }
}
