/** Rounds of the peephole scan: what they do to provenance, to size and to the number of rounds still possible. */
module PeepholeRounds {
  import opened Wrappers
  import opened Hex
  import opened ScriptCodec
  import opened CondMachine
  import opened IfTree
  import opened ScriptVm
  import opened PeepholeRules
  import opened PeepholeMeaning
  import opened PeepholeSound

  // ----- provenance -----

  /** Emitted instructions inherit from the consumed window, in order, each from a different instruction. */
  predicate OrderedEmits(m: Move) {
    && (forall k :: 0 <= k < |m.emits| ==> m.emits[k].offset < m.consumed)
    && (forall k, l :: 0 <= k < l < |m.emits| ==> m.emits[k].offset < m.emits[l].offset)
  }

  predicate OrderedOut(out: seq<Emitted>, i: nat) {
    && (forall k :: 0 <= k < |out| ==> out[k].oldPC < i)
    && (forall k, l :: 0 <= k < l < |out| ==> out[k].oldPC < out[l].oldPC)
  }

  lemma MoveIsOrdered(v: seq<string>, end: nat, i: nat, emitted: seq<string>, rules: Rules)
    requires i < end <= |v|
    ensures OrderedEmits(NextMove(v, end, i, emitted, rules))
  {
    hide IsInert, IsControlFlow, IsProfitableDuplicatePush, TryRewritePair, DecodedPushPayload, IsOp, IsOneOf,
      ProducesCanonicalBool, IsStrictlySmaller;
  }

  lemma {:induction false} ScanIsOrdered(v: seq<string>, end: nat, i: nat, s: Scan, rules: Rules)
    requires i <= end <= |v| && OrderedOut(s.out, i)
    ensures OrderedOut(ScanFrom(v, end, i, s, rules).out, end)
    decreases end - i
  {
    hide NextMove;
    if i < end {
      var m := NextMove(v, end, i, Texts(s.out), rules);
      MoveIsOrdered(v, end, i, Texts(s.out), rules);
      ScanIsOrdered(v, end, i + m.consumed, Scan(s.out + Place(m.emits, i), s.changed || m.rewrites), rules);
    }
  }

  /** oldToNew as the scan fills it in: the position of the one output instruction inheriting from pc, if any. */
  function PlacesOf(out: seq<Emitted>, n: nat): (r: seq<Option<nat>>)
    ensures |r| == n
  {
    if out == [] then seq(n, _ => None)
    else
      var before := PlacesOf(out[..|out| - 1], n);
      var last := out[|out| - 1];
      if last.oldPC < n then before[last.oldPC := Some(|out| - 1)] else before
  }

  lemma {:induction false} PlacesAreInverse(out: seq<Emitted>, n: nat, pc: nat)
    requires OrderedOut(out, n) && pc < n
    ensures forall k :: 0 <= k < |out| ==> PlacesOf(out, n)[out[k].oldPC] == Some(k)
    ensures PlacesOf(out, n)[pc].Some? ==>
              PlacesOf(out, n)[pc].value < |out| && out[PlacesOf(out, n)[pc].value].oldPC == pc
  {
    if out != [] {
      var init := out[..|out| - 1];
      PlacesAreInverse(init, n, pc);
      forall k | 0 <= k < |out| ensures PlacesOf(out, n)[out[k].oldPC] == Some(k) {
        if k < |init| {
          assert init[k] == out[k];
        }
      }
    }
  }

  lemma OrderedRemap(out: seq<Emitted>, n: nat, p: nat, q: nat)
    requires OrderedOut(out, n) && p < q < n
    ensures var oldToNew := PlacesOf(out, n);
            oldToNew[p].Some? && oldToNew[q].Some? ==> oldToNew[p].value < oldToNew[q].value
  {
    hide PlacesOf;
    PlacesAreInverse(out, n, p);
    PlacesAreInverse(out, n, q);
    var oldToNew := PlacesOf(out, n);
    if oldToNew[p].Some? && oldToNew[q].Some? {
      var i, j := oldToNew[p].value, oldToNew[q].value;
      assert out[i].oldPC == p && out[j].oldPC == q;
    }
  }

  lemma RoundIsOrdered(v: seq<string>, end: nat, rules: Rules)
    requires end <= |v|
    ensures OrderedOut(RoundScan(v, end, rules).out, |v|)
  {
    hide ScanFrom;
    ScanIsOrdered(v, end, 0, Scan([], false), rules);
  }

  /** Kept input positions go to increasing output positions, and every output position has exactly one source. */
  lemma RemapIsMonotoneAndOnto(v: seq<string>, end: nat, rules: Rules)
    requires end <= |v|
    ensures var out := RoundScan(v, end, rules).out;
            var oldToNew := PlacesOf(out, |v|);
            && (forall p, q :: 0 <= p < q < |v| && oldToNew[p].Some? && oldToNew[q].Some? ==>
                  oldToNew[p].value < oldToNew[q].value)
            && (forall k :: 0 <= k < |out| ==> out[k].oldPC < |v| && oldToNew[out[k].oldPC] == Some(k))
            && (forall p :: 0 <= p < |v| && oldToNew[p].Some? ==>
                oldToNew[p].value < |out| && out[oldToNew[p].value].oldPC == p)
  {
    hide RoundScan, PlacesOf;
    RoundIsOrdered(v, end, rules);
    var out := RoundScan(v, end, rules).out;
    var oldToNew := PlacesOf(out, |v|);
    forall p: nat, q: nat | p < q < |v| && oldToNew[p].Some? && oldToNew[q].Some?
      ensures oldToNew[p].value < oldToNew[q].value
    {
      OrderedRemap(out, |v|, p, q);
    }
    forall k | 0 <= k < |out| ensures out[k].oldPC < |v| && oldToNew[out[k].oldPC] == Some(k) {
      PlacesAreInverse(out, |v|, out[k].oldPC);
    }
    forall p: nat | p < |v| && oldToNew[p].Some?
      ensures oldToNew[p].value < |out| && out[oldToNew[p].value].oldPC == p
    {
      PlacesAreInverse(out, |v|, p);
    }
  }

  // ----- the measure -----

  /** A push or a known placeholder: what the duplicate rule turns into DUP. */
  predicate IsPushLike(s: string, options: LocalOptions) {
    DecodePushHex(s, false).Ok? || IsKnownPlaceholder(s, options.placeholders.Keys)
  }

  function Pushes(v: seq<string>, options: LocalOptions): nat {
    if v == [] then 0 else (if IsPushLike(v[0], options) then 1 else 0) + Pushes(v[1..], options)
  }

  /** Bytes an instruction takes in the script, counting a known placeholder at its bound size. */
  function ByteSize(s: string, options: LocalOptions): nat {
    match HexToBytes(s)
    case Ok(bytes) => |bytes|
    case Err(_) => match KnownPlaceholderPushSize(s, options) case None => 0 case Some(n) => n
  }

  function TotalBytes(v: seq<string>, options: LocalOptions): nat {
    if v == [] then 0 else ByteSize(v[0], options) + TotalBytes(v[1..], options)
  }

  lemma {:induction false} PushesConcat(a: seq<string>, b: seq<string>, options: LocalOptions)
    ensures Pushes(a + b, options) == Pushes(a, options) + Pushes(b, options)
    ensures TotalBytes(a + b, options) == TotalBytes(a, options) + TotalBytes(b, options)
  {
    hide IsPushLike, ByteSize;
    if a == [] {
      assert a + b == b;
    } else {
      assert (a + b)[1..] == a[1..] + b;
      PushesConcat(a[1..], b, options);
    }
  }

  lemma Singles(a: string, options: LocalOptions)
    ensures Pushes([a], options) == if IsPushLike(a, options) then 1 else 0
    ensures TotalBytes([a], options) == ByteSize(a, options)
  {
    hide IsPushLike, ByteSize;
    assert [a][1..] == [];
  }

  lemma Pairs(a: string, b: string, options: LocalOptions)
    ensures Pushes([a, b], options) == Pushes([a], options) + Pushes([b], options)
    ensures TotalBytes([a, b], options) == ByteSize(a, options) + ByteSize(b, options)
  {
    hide IsPushLike, ByteSize;
    assert [a, b] == [a] + [b];
    PushesConcat([a], [b], options);
    Singles(a, options);
    Singles(b, options);
  }

  lemma OpSize(op: Byte, options: LocalOptions)
    ensures ByteSize(OpHex(op), options) == 1
    ensures op == OP_DUP ==> !IsPushLike(OpHex(op), options)
  {
    OpHexIsOp(op);
    OpBytes(OpHex(op), op);
  }

  lemma HexSize(s: string, options: LocalOptions)
    requires IsStrictHex(s)
    ensures ByteSize(s, options) == |s| / 2 >= 1
  {
    StrictHexBytes(s);
  }

  /** A move never adds instructions or bytes; one that rewrites removes an instruction, or keeps the number and
      removes a push. */
  predicate Improves(before: seq<string>, after: seq<string>, rewrites: bool, options: LocalOptions) {
    && TotalBytes(after, options) <= TotalBytes(before, options)
    && (if rewrites then
          |after| < |before| || (|after| == |before| && Pushes(after, options) < Pushes(before, options))
        else after == before)
  }

  lemma DuplicateImproves(a: string, options: LocalOptions)
    requires IsProfitableDuplicatePush(a, a, options)
    ensures Improves([a, a], [a, OpHex(OP_DUP)], true, options)
  {
    Pairs(a, a, options);
    Pairs(a, OpHex(OP_DUP), options);
    OpSize(OP_DUP, options);
    Singles(a, options);
    Singles(OpHex(OP_DUP), options);
    hide TotalBytes, Pushes;
    if DecodePushHex(a, false).Err? {
      PlaceholderIsNotHex(a, options.placeholders.Keys);
    }
  }

  /** An accepted duplicate saves a byte exactly when the push is written in more than one byte; the one-byte pushes
      accepted are the constants -1 and 1 to 16 under the legacy policy, which costs them as written with a prefix. */
  lemma DuplicateSaves(a: string, options: LocalOptions)
    requires DecodePushHex(a, false).Ok?
    ensures IsProfitableDuplicatePush(a, a, options) ==>
              (TotalBytes([a, OpHex(OP_DUP)], options) < TotalBytes([a, a], options) <==> ByteSize(a, options) > 1)
    ensures IsProfitableDuplicatePush(a, a, options) && ByteSize(a, options) <= 1 <==>
            options.policy == Legacy && |HexToBytes(a).value| == 1 && HexToBytes(a).value != [0x00]
  {
    hide TotalBytes, HexToBytes;
    Pairs(a, a, options);
    Pairs(a, OpHex(OP_DUP), options);
    OpSize(OP_DUP, options);
    var bytes := HexToBytes(a).value;
    var payload := DecodePushHex(a, false).value.payload;
    if |payload| <= MAX_PAYLOAD {
      PrefixShape(|payload|);
    }
    if |bytes| == 1 {
      assert bytes == [bytes[0]];
    }
  }

  /** When a repeated push is replaced: under the legacy policy whenever it pushes anything, under the canonical policy
      whenever no encoding pushes it in one byte. */
  lemma DuplicateAccepted(a: string, options: LocalOptions)
    requires DecodePushHex(a, false).Ok? && |DecodePushHex(a, false).value.payload| <= MAX_PAYLOAD
    ensures var payload := DecodePushHex(a, false).value.payload;
            IsProfitableDuplicatePush(a, a, options) <==>
            if options.policy == Legacy then payload != []
            else
              forall e: seq<Byte> ::
                DecodePush(e, false).Ok? && DecodePush(e, false).value.payload == payload ==> |e| > 1
  {
    hide HexToBytes, DecodePush;
    var payload := DecodePushHex(a, false).value.payload;
    PrefixShape(|payload|);
    EncodeFailsOnlyOnSize(payload, Canonical);
    EncodeDecode(payload, Canonical, []);
    var enc := EncodeBytes(payload, Canonical).value;
    assert enc + [] == enc;
    DecodesWhole(enc, payload);
    forall e: seq<Byte> | DecodePush(e, false).Ok? && DecodePush(e, false).value.payload == payload
      ensures |enc| <= |e|
    {
      CanonicalIsShortest(e);
    }
  }

  lemma DecodesWhole(enc: seq<Byte>, payload: seq<Byte>)
    requires EncodeBytes(payload, Canonical) == Some(enc)
    ensures DecodePush(enc, false).Ok? && DecodePush(enc, false).value.payload == payload && enc != []
  {
    EncodeDecode(payload, Canonical, []);
    assert enc + [] == enc;
  }

  /** A repeated placeholder of known size is replaced whenever it pushes anything, or under the canonical policy more
      than a byte. */
  lemma DuplicatePlaceholderAccepted(a: string, options: LocalOptions)
    requires IsKnownPlaceholder(a, options.placeholders.Keys) && options.placeholders[a[1..|a| - 1]] <= MAX_PAYLOAD
    ensures IsProfitableDuplicatePush(a, a, options) <==>
            options.placeholders[a[1..|a| - 1]] > if options.policy == Legacy then 0 else 1
  {
    PlaceholderIsNotHex(a, options.placeholders.Keys);
  }

  /** The repeated push 51 under the legacy policy is replaced by 51 76, which is no shorter. */
  lemma DuplicateKeepsLength()
    ensures var options := LocalOptions(map[], Legacy);
            && IsProfitableDuplicatePush("51", "51", options)
            && TotalBytes(["51", OpHex(OP_DUP)], options) == TotalBytes(["51", "51"], options)
  {
    var options := LocalOptions(map[], Legacy);
    OneByteHex(0x51);
    PrintParse([0x51]);
    assert ByteToHex(0x51) == "51";
    assert HexToBytes("51") == Ok([0x51]);
    hide HexToBytes, TotalBytes;
    assert DecodePushHex("51", false) == Ok(DecodedPush([0x01], SmallInteger, 1));
    DuplicateSaves("51", options);
    DuplicateImproves("51", options);
  }

  lemma {:induction false} DigitsAreBytes(rs: seq<Replacement>, options: LocalOptions)
    requires forall k :: 0 <= k < |rs| ==> IsStrictHex(rs[k].encoding)
    ensures 2 * TotalBytes(Encs(rs), options) == ReplacementDigits(rs)
  {
    hide ByteSize;
    if rs != [] {
      HexSize(rs[0].encoding, options);
      assert Encs(rs)[1..] == Encs(rs[1..]);
      DigitsAreBytes(rs[1..], options);
    }
  }

  lemma TripleImproves(a: string, b: string, e: string, rs: seq<Replacement>, options: LocalOptions)
    requires TryRewriteTriple(a, b, e) == Some(rs)
    ensures Improves([a, b, e], Encs(rs), true, options)
  {
    hide DecodedPushPayload, ProducesCanonicalBool, IsOp, IsOneOf, IsStrictHex, ByteSize, Pushes, TotalBytes;
    assert |rs| <= 2;
    HexSize(a, options);
    HexSize(b, options);
    HexSize(e, options);
    DigitsAreBytes(rs, options);
    assert [a, b, e] == [a] + [b, e];
    PushesConcat([a], [b, e], options);
    Pairs(b, e, options);
    Singles(a, options);
    EvenHex(a);
    EvenHex(b);
    EvenHex(e);
  }

  lemma EvenHex(s: string)
    requires IsStrictHex(s)
    ensures |s| == 2 * (|s| / 2)
  {
  }

  lemma PairImproves(cur: string, nxt: string, r: PairRewrite, options: LocalOptions)
    requires IsStrictHex(cur) && IsStrictHex(nxt) && !r.KeepBoth?
    ensures Improves([cur, nxt], PairText(r), true, options)
  {
    Pairs(cur, nxt, options);
    HexSize(cur, options);
    HexSize(nxt, options);
    hide Pushes, IsStrictHex, ByteSize;
    if r.ReplacePair? {
      OpSize(r.replacement, options);
      Singles(OpHex(r.replacement), options);
    }
  }

  lemma MoveImproves(v: seq<string>, end: nat, i: nat, emitted: seq<string>, rules: Rules)
    requires i < end <= |v|
    ensures var m := NextMove(v, end, i, emitted, rules);
            Improves(v[i..i + m.consumed], Encs(m.emits), m.rewrites, rules.options)
  {
    hide IsOp, IsControlFlow, TryRewritePair, TripleCandidate, IsProfitableDuplicatePush, IsStrictlySmaller, Improves,
      IsStrictHex;
    var m := NextMove(v, end, i, emitted, rules);
    if m == KeepOne(v[i]) {
      assert Encs(m.emits) == [v[i]] == v[i..i + 1];
      Unmoved([v[i]], rules.options);
    } else if m.consumed == 3 {
      assert v[i..i + 3] == [v[i], v[i + 1], v[i + 2]];
      TripleImproves(v[i], v[i + 1], v[i + 2], m.emits, rules.options);
    } else {
      assert v[i..i + 2] == [v[i], v[i + 1]];
      if IsProfitableDuplicatePush(v[i], v[i + 1], rules.options) && m.emits != [] && m.emits[0].offset == 0 {
        assert Encs(m.emits) == [v[i], OpHex(OP_DUP)];
        assert v[i] == v[i + 1] by { SameText(v[i], v[i + 1], rules.options); }
        DuplicateImproves(v[i], rules.options);
      } else {
        var r := TryRewritePair(v[i], v[i + 1], emitted, rules.allowTrueVerify);
        assert Encs(m.emits) == PairText(r);
        PairImproves(v[i], v[i + 1], r, rules.options);
      }
    }
  }

  lemma SameText(a: string, b: string, options: LocalOptions)
    requires IsProfitableDuplicatePush(a, b, options)
    ensures a == b
  {
  }

  lemma Unmoved(a: seq<string>, options: LocalOptions)
    ensures Improves(a, a, false, options)
  {
  }

  lemma ImprovesConcat(a: seq<string>, a': seq<string>, ra: bool, b: seq<string>, b': seq<string>, rb: bool,
                       options: LocalOptions)
    requires Improves(a, a', ra, options) && Improves(b, b', rb, options)
    ensures Improves(a + b, a' + b', ra || rb, options)
  {
    hide Pushes, TotalBytes;
    PushesConcat(a, b, options);
    PushesConcat(a', b', options);
  }

  lemma {:induction false} ScanImproves(v: seq<string>, end: nat, i: nat, s: Scan, rules: Rules)
    requires i <= end <= |v| && Improves(v[..i], Texts(s.out), s.changed, rules.options)
    ensures var r := ScanFrom(v, end, i, s, rules);
            Improves(v[..end], Texts(r.out), r.changed, rules.options)
    decreases end - i
  {
    hide NextMove, Improves;
    if i < end {
      var m := NextMove(v, end, i, Texts(s.out), rules);
      MoveImproves(v, end, i, Texts(s.out), rules);
      PlacedTexts(s.out, m.emits, i);
      ImprovesConcat(v[..i], Texts(s.out), s.changed, v[i..i + m.consumed], Encs(m.emits), m.rewrites, rules.options);
      assert v[..i + m.consumed] == v[..i] + v[i..i + m.consumed];
      ScanImproves(v, end, i + m.consumed, Scan(s.out + Place(m.emits, i), s.changed || m.rewrites), rules);
    }
  }

  /** A round that reports a change strictly decreases (instructions, pushes) lexicographically, one that does not
      returns its input, and neither adds bytes to the script. */
  lemma RoundImproves(v: seq<string>, end: nat, rules: Rules)
    requires end <= |v|
    ensures var r := RoundScan(v, end, rules);
            Improves(v, Texts(r.out), r.changed, rules.options)
  {
    hide ScanFrom, Improves;
    assert v[..0] == [] && Texts([]) == [];
    Unmoved([], rules.options);
    ScanImproves(v, end, 0, Scan([], false), rules);
    Unmoved(v[end..], rules.options);
    var s := ScanFrom(v, end, 0, Scan([], false), rules);
    ImprovesConcat(v[..end], Texts(s.out), s.changed, v[end..], v[end..], false, rules.options);
    assert v == v[..end] + v[end..];
    assert Texts(RoundScan(v, end, rules).out) == Texts(s.out) + v[end..];
  }

  // ----- any number of rounds -----

  /** A round reads and rewrites nothing past the executable end. */
  lemma {:induction false} ScanIsLocal(v: seq<string>, end: nat, i: nat, s: Scan, rules: Rules)
    requires i <= end <= |v|
    ensures ScanFrom(v, end, i, s, rules) == ScanFrom(v[..end], end, i, s, rules)
    decreases end - i
  {
    hide NextMove;
    if i < end {
      var m := NextMove(v, end, i, Texts(s.out), rules);
      MoveIsLocal(v, end, i, Texts(s.out), rules);
      ScanIsLocal(v, end, i + m.consumed, Scan(s.out + Place(m.emits, i), s.changed || m.rewrites), rules);
    }
  }

  lemma MoveIsLocal(v: seq<string>, end: nat, i: nat, emitted: seq<string>, rules: Rules)
    requires i < end <= |v|
    ensures NextMove(v, end, i, emitted, rules) == NextMove(v[..end], end, i, emitted, rules)
  {
    hide IsInert, IsControlFlow, IsProfitableDuplicatePush, TryRewritePair, TryRewriteTriple;
  }

  /** One round over executable code: its new text, and whether it changed anything. */
  function Round(p: seq<string>, rules: Rules): (r: (seq<string>, bool)) {
    var s := ScanFrom(p, |p|, 0, Scan([], false), rules);
    (Texts(s.out), s.changed)
  }

  /** A round over a whole script is a round over its executable prefix, with the rest left in place. */
  lemma RoundOfPrefix(v: seq<string>, end: nat, rules: Rules)
    requires end <= |v|
    ensures var s := RoundScan(v, end, rules);
            Texts(s.out) == Round(v[..end], rules).0 + v[end..] && s.changed == Round(v[..end], rules).1
  {
    hide ScanFrom;
    ScanIsLocal(v, end, 0, Scan([], false), rules);
  }

  lemma RoundAlone(p: seq<string>, rules: Rules)
    ensures Improves(p, Round(p, rules).0, Round(p, rules).1, rules.options)
  {
    hide RoundScan, Improves, Round;
    RoundImproves(p, |p|, rules);
    RoundOfPrefix(p, |p|, rules);
    assert p[..|p|] == p && p[|p|..] == [];
    assert Round(p, rules).0 + [] == Round(p, rules).0;
  }

  /** Two texts that end the machine alike from a status. */
  ghost predicate SameBehaviour(vm: Vm, p: seq<string>, q: seq<string>, st: Status<Core>) {
    Run(MachineOf(vm), q, st) == Run(MachineOf(vm), p, st)
  }

  lemma RoundBehaves(vm: Vm, p: seq<string>, rules: Rules, st: Status<Core>)
    requires Sane(vm) && KnowsPlaceholders(rules, vm)
    ensures SameBehaviour(vm, p, Round(p, rules).0, st)
  {
    hide ScanFrom, Run;
    RoundSound(vm, p, |p|, rules, st);
    assert p[..|p|] == p;
  }

  /** At most k rounds, stopping at the first that changes nothing. */
  function Rounds(p: seq<string>, rules: Rules, k: nat): seq<string>
    decreases k
  {
    if k == 0 || !Round(p, rules).1 then p else Rounds(Round(p, rules).0, rules, k - 1)
  }

  lemma {:induction false} RoundsBehave(vm: Vm, p: seq<string>, rules: Rules, k: nat, st: Status<Core>)
    requires Sane(vm) && KnowsPlaceholders(rules, vm)
    ensures SameBehaviour(vm, p, Rounds(p, rules, k), st)
    decreases k
  {
    hide Round, Run;
    if k > 0 && Round(p, rules).1 {
      RoundBehaves(vm, p, rules, st);
      RoundsBehave(vm, Round(p, rules).0, rules, k - 1, st);
    }
  }

  lemma RoundDecreases(p: seq<string>, rules: Rules)
    requires Round(p, rules).1
    ensures var q := Round(p, rules).0;
            |q| < |p| || (|q| == |p| && Pushes(q, rules.options) < Pushes(p, rules.options))
  {
    hide Round;
    RoundAlone(p, rules);
  }

  /** The loop without its cap: it stops because every changing round decreases the measure. */
  function Settle(p: seq<string>, rules: Rules): seq<string>
    decreases |p|, Pushes(p, rules.options)
  {
    if !Round(p, rules).1 then p
    else
      RoundDecreases(p, rules);
      Settle(Round(p, rules).0, rules)
  }

  /** The uncapped loop ends in text no further round changes, with the behaviour of the input and no more bytes. */
  lemma {:induction false} SettleIsFixed(vm: Vm, p: seq<string>, rules: Rules, st: Status<Core>)
    requires Sane(vm) && KnowsPlaceholders(rules, vm)
    ensures var q := Settle(p, rules);
            && Round(q, rules) == (q, false)
            && SameBehaviour(vm, p, q, st)
            && TotalBytes(q, rules.options) <= TotalBytes(p, rules.options)
    decreases |p|, Pushes(p, rules.options)
  {
    hide Round, Run;
    RoundAlone(p, rules);
    if Round(p, rules).1 {
      RoundDecreases(p, rules);
      RoundBehaves(vm, p, rules, st);
      SettleIsFixed(vm, Round(p, rules).0, rules, st);
    }
  }

  /** The cap matters only for scripts that need more rounds than it allows. */
  lemma {:induction false} CappedOrSettled(p: seq<string>, rules: Rules, k: nat)
    ensures Round(Rounds(p, rules, k), rules).1 || Rounds(p, rules, k) == Settle(p, rules)
    decreases k
  {
    hide Round, Pushes;
    if k > 0 && Round(p, rules).1 {
      RoundDecreases(p, rules);
      CappedOrSettled(Round(p, rules).0, rules, k - 1);
    }
  }
}
