/** Where optimizable code ends, read from a typed artifact or, without one, from the text; and why a rewrite of that
    code moves the end to the end of the new code. */
module PeepholeBoundary {
  import opened Wrappers
  import opened Hex
  import opened BytecodeIr
  import opened LegacyAdapter
  import opened ScriptVm
  import opened PeepholeRules
  import opened PeepholeMeaning
  import opened PeepholeSound
  import opened PeepholeRounds
  import opened IfTree

  // ----- the two readings -----

  predicate ExecutableFirst(code: seq<Instruction>) {
    forall i :: ExecutableEnd(code) <= i < |code| ==> code[i].region != Executable
  }

  /** Behind the last OP_RETURN among the first n instructions. */
  function ReturnEnd(code: seq<Instruction>, n: nat): (r: Option<nat>)
    requires n <= |code|
    ensures r.Some? ==> 1 <= r.value <= n && IsReturn(code[r.value - 1])
    ensures forall i :: (if r.Some? then r.value else 0) <= i < n ==> !IsReturn(code[i])
  {
    if n == 0 then None else if IsReturn(code[n - 1]) then Some(n) else ReturnEnd(code, n - 1)
  }

  /** The typed reading: regions and bodies alone count, and regions out of order leave nothing to optimize. */
  function TypedPrefixLength(code: seq<Instruction>): (n: nat)
    ensures n <= |code|
  {
    if !ExecutableFirst(code) then 0
    else match ReturnEnd(code, ExecutableEnd(code)) case Some(n) => n case None => ExecutableEnd(code)
  }

  function Boundary(v: seq<string>, artifact: Option<seq<Instruction>>): (n: nat)
    ensures n <= |v|
  {
    match artifact
    case Some(code) => if |code| != |v| then 0 else TypedPrefixLength(code)
    case None => PrefixLength(v)
  }

  // ----- the loops -----

  /** Scan back for the last OP_RETURN in the text. */
  method TextEnd(v: seq<string>) returns (end: nat)
    ensures end == PrefixLength(v)
  {
    hide IsOp;
    var i := |v|;
    while i > 0
      invariant 0 <= i <= |v| && forall k :: i <= k < |v| ==> !IsOp(v[k], OP_RETURN)
    {
      if IsOp(v[i - 1], OP_RETURN) {
        PrefixIs(v, i);
        return i;
      }
      i := i - 1;
    }
    assert forall k :: 0 <= k < |v| ==> !IsOp(v[k], OP_RETURN);
    PrefixIs(v, |v|);
    return |v|;
  }

  method OptimizablePrefixLength(v: seq<string>, artifact: Option<seq<Instruction>>) returns (end: nat)
    ensures end == Boundary(v, artifact)
  {
    hide IsReturn, PrefixLength;
    if artifact.None? {
      end := TextEnd(v);
      return;
    }
    var code := artifact.value;
    if |code| != |v| {
      return 0;
    }
    var executableEnd := 0;
    var finalReturnEnd: Option<nat> := None;
    var leftExecutableRegion := false;
    for i := 0 to |code|
      invariant executableEnd <= i && (leftExecutableRegion <==> executableEnd < i)
      invariant forall k :: 0 <= k < executableEnd ==> code[k].region == Executable
      invariant forall k :: executableEnd <= k < i ==> code[k].region != Executable
      invariant finalReturnEnd == ReturnEnd(code, executableEnd)
    {
      if code[i].region != Executable {
        leftExecutableRegion := true;
      } else {
        if leftExecutableRegion {
          RunIs(code, Executable, 0, executableEnd);
          assert !ExecutableFirst(code);
          return 0;
        }
        executableEnd := i + 1;
        if IsReturn(code[i]) {
          finalReturnEnd := Some(i + 1);
        }
      }
    }
    RunIs(code, Executable, 0, executableEnd);
    return match finalReturnEnd case Some(n) => n case None => executableEnd;
  }

  // ----- replacing optimizable code -----

  /** Code q may stand for code p: a final OP_RETURN stays final, and no OP_RETURN is made up. */
  predicate Continues(p: seq<string>, q: seq<string>) {
    && (p != [] && IsReturnText(p[|p| - 1]) ==> q != [] && q[|q| - 1] == p[|p| - 1])
    && (forall k :: 0 <= k < |q| && IsReturnText(q[k]) ==> q[k] in p)
  }

  lemma ReturnOpIsReturn(s: string)
    ensures IsOp(s, OP_RETURN) ==> IsReturnText(s)
    ensures IsReturnText(s) && IsStrictHex(s) ==> IsOp(s, OP_RETURN)
  {
    if IsOp(s, OP_RETURN) {
      OpBytes(s, OP_RETURN);
    }
    if IsReturnText(s) && IsStrictHex(s) {
      StrictHexBytes(s);
    }
  }

  lemma ReturnIsNotReplaced(cur: string, nxt: string, rules: Rules)
    requires IsReturnText(nxt)
    ensures IsInert(nxt) || IsControlFlow(nxt)
    ensures !IsProfitableDuplicatePush(cur, nxt, rules.options)
    ensures forall emitted :: !IsInert(nxt) ==> TryRewritePair(cur, nxt, emitted, rules.allowTrueVerify) == KeepBoth
  {
    hide ProvenDepth, WellFormedPushSize, HexToBytes;
    ReturnOpIsReturn(nxt);
    if IsKnownPlaceholderText(nxt, rules.options) {
      LegacyAdapter.PlaceholderIsNotHex(nxt);
    }
  }

  predicate IsKnownPlaceholderText(s: string, options: LocalOptions) {
    IsKnownPlaceholder(s, options.placeholders.Keys)
  }

  lemma ReturnIsLastOfMove(v: seq<string>, end: nat, i: nat, emitted: seq<string>, rules: Rules)
    requires i < end <= |v|
    requires IsReturnText(v[i + NextMove(v, end, i, emitted, rules).consumed - 1])
    ensures NextMove(v, end, i, emitted, rules) == KeepOne(v[i])
  {
    hide IsReturnText, IsInert, IsControlFlow, TryRewriteTriple, TryRewritePair, IsProfitableDuplicatePush;
    if i + 1 < end && IsReturnText(v[i + 1]) {
      ReturnIsNotReplaced(v[i], v[i + 1], rules);
    }
    if i + 2 < end && IsReturnText(v[i + 2]) {
      ReturnIsNotReplaced(v[i + 1], v[i + 2], rules);
    }
    if IsReturnText(v[i]) {
      ReturnIsNotReplaced(v[i], v[i], rules);
      if i + 1 < end && v[i] == v[i + 1] {
        ReturnIsNotReplaced(v[i], v[i + 1], rules);
      }
    }
  }

  lemma WrittenOpIsNoReturn(op: Byte)
    requires op != OP_RETURN
    ensures !IsReturnText(OpHex(op))
  {
    OpHexIsOp(op);
    OpBytes(OpHex(op), op);
  }

  /** Whatever a move emits was in its window or is one of the rules' opcodes, none of which is OP_RETURN. */
  lemma EmitsNoReturn(v: seq<string>, end: nat, i: nat, emitted: seq<string>, rules: Rules, k: nat)
    requires i < end <= |v| && k < |NextMove(v, end, i, emitted, rules).emits|
    requires IsReturnText(NextMove(v, end, i, emitted, rules).emits[k].encoding)
    ensures NextMove(v, end, i, emitted, rules).emits[k].encoding == v[i]
  {
    hide IsControlFlow, IsInert, ProvenDepth, AfterCanonicalBool, DecodedPushPayload, IsStrictlySmaller,
      IsProfitableDuplicatePush, ProducesCanonicalBool, IsOneOf, WellFormedPushSize, IsOp, OpHex, IsReturnText;
    var e := NextMove(v, end, i, emitted, rules).emits[k].encoding;
    forall op: Byte ensures e == OpHex(op) && op != OP_RETURN ==> !IsReturnText(e) {
      if op != OP_RETURN {
        WrittenOpIsNoReturn(op);
      }
    }
  }

  lemma {:induction false} ScanReturns(p: seq<string>, i: nat, s: Scan, rules: Rules)
    requires i <= |p|
    requires i > 0 && IsReturnText(p[i - 1]) ==> s.out != [] && Texts(s.out)[|s.out| - 1] == p[i - 1]
    requires forall k :: 0 <= k < |s.out| && IsReturnText(Texts(s.out)[k]) ==> Texts(s.out)[k] in p
    ensures Continues(p, Texts(ScanFrom(p, |p|, i, s, rules).out))
    decreases |p| - i
  {
    hide IsReturnText, NextMove;
    if i < |p| {
      var m := NextMove(p, |p|, i, Texts(s.out), rules);
      var out := s.out + Place(m.emits, i);
      var j := i + m.consumed;
      if IsReturnText(p[j - 1]) {
        ReturnIsLastOfMove(p, |p|, i, Texts(s.out), rules);
        assert Texts(out)[|out| - 1] == m.emits[0].encoding;
      }
      PlacedTexts(s.out, m.emits, i);
      forall k | 0 <= k < |out| && IsReturnText(Texts(out)[k]) ensures Texts(out)[k] in p {
        if k < |s.out| {
          assert Texts(out)[k] == Texts(s.out)[k];
        } else {
          EmitsNoReturn(p, |p|, i, Texts(s.out), rules, k - |s.out|);
        }
      }
      ScanReturns(p, j, Scan(out, s.changed || m.rewrites), rules);
    }
  }

  /** A round keeps a final OP_RETURN final. */
  lemma RoundContinues(p: seq<string>, rules: Rules)
    ensures Continues(p, Round(p, rules).0)
  {
    hide IsReturnText;
    ScanReturns(p, 0, Scan([], false), rules);
  }

  // ----- the boundary moves with the code -----

  lemma {:induction false} PrefixFacts(v: seq<string>)
    ensures var n := PrefixLength(v);
            && (forall k :: n <= k < |v| ==> !IsOp(v[k], OP_RETURN))
            && (n < |v| ==> n > 0 && IsOp(v[n - 1], OP_RETURN))
            && ((exists k :: 0 <= k < |v| && IsOp(v[k], OP_RETURN)) ==> n > 0 && IsOp(v[n - 1], OP_RETURN))
  {
    hide IsOp;
    if v != [] {
      var init := v[..|v| - 1];
      PrefixFacts(init);
      forall k | PrefixLength(v) <= k < |v| ensures !IsOp(v[k], OP_RETURN) {
        if k < |init| {
          assert init[k] == v[k];
        }
      }
      if k :| 0 <= k < |v| && IsOp(v[k], OP_RETURN) {
        if k < |init| {
          assert init[k] == v[k];
        }
      }
    }
  }

  /** The prefix is found again from where it ends and what follows it. */
  lemma PrefixIs(v: seq<string>, n: nat)
    requires n <= |v|
    requires forall k :: n <= k < |v| ==> !IsOp(v[k], OP_RETURN)
    requires (n > 0 && IsOp(v[n - 1], OP_RETURN)) ||
             (n == |v| && forall k :: 0 <= k < n ==> !IsOp(v[k], OP_RETURN))
    ensures PrefixLength(v) == n
  {
    hide IsOp;
    PrefixFacts(v);
  }

  predicate ReturnFree(v: seq<string>) {
    forall k :: 0 <= k < |v| ==> !IsOp(v[k], OP_RETURN)
  }

  /** Without an artifact: new code in place of the old prefix is the new prefix. */
  lemma TextBoundaryMoves(p: seq<string>, rest: seq<string>, q: seq<string>)
    requires PrefixLength(p + rest) == |p| && Continues(p, q)
    ensures PrefixLength(q + rest) == |q|
  {
    hide IsOp, PrefixLength, IsReturnText;
    var v := p + rest;
    PrefixFacts(v);
    if p != [] && IsOp(p[|p| - 1], OP_RETURN) {
      ReturnOpIsReturn(p[|p| - 1]);
      assert rest == v[|p|..];
      ReturnEndsPrefix(q, rest);
    } else {
      hide Continues;
      assert p != [] ==> v[|p| - 1] == p[|p| - 1];
      assert rest == [] && v == p;
      NoReturnStaysNone(p, q);
      assert q + rest == q;
      PrefixIs(q, |q|);
    }
  }

  lemma ReturnEndsPrefix(q: seq<string>, rest: seq<string>)
    requires q != [] && IsOp(q[|q| - 1], OP_RETURN) && ReturnFree(rest)
    ensures PrefixLength(q + rest) == |q|
  {
    hide IsOp, PrefixLength;
    PrefixIs(q + rest, |q|);
  }

  lemma NoReturnStaysNone(p: seq<string>, q: seq<string>)
    requires Continues(p, q) && ReturnFree(p)
    ensures ReturnFree(q)
  {
    hide IsOp, IsReturnText;
    forall k | 0 <= k < |q| ensures !IsOp(q[k], OP_RETURN) {
      ReturnOpIsReturn(q[k]);
      assert q[k] in p ==> !IsOp(q[k], OP_RETURN);
    }
  }

  /** Instructions written like the text, with the region they had: b is a with its first end instructions replaced by
      q. */
  ghost predicate Replaced(a: seq<Instruction>, end: nat, q: seq<string>, b: seq<Instruction>)
    requires end <= |a|
  {
    && |q| <= end && |b| == |q| + (|a| - end)
    && (forall k :: 0 <= k < |q| ==> b[k].region == Executable && Serialize(b[k]) == q[k])
    && (forall j :: end <= j < |a| ==>
          b[|q| + (j - end)].region == a[j].region && Serialize(b[|q| + (j - end)]) == Serialize(a[j]))
  }

  lemma ReplacedAfter(a: seq<Instruction>, end: nat, q: seq<string>, b: seq<Instruction>, k: nat)
    requires end <= |a| && Replaced(a, end, q, b) && |q| <= k < |b|
    ensures end + (k - |q|) < |a| && b[k].region == a[end + (k - |q|)].region
    ensures Serialize(b[k]) == Serialize(a[end + (k - |q|)])
  {
    hide Serialize;
    assert k == |q| + ((end + (k - |q|)) - end);
  }

  lemma ReplacedRegions(a: seq<Instruction>, end: nat, q: seq<string>, b: seq<Instruction>)
    requires end <= ExecutableEnd(a) && Replaced(a, end, q, b) && ExecutableFirst(a)
    ensures ExecutableEnd(b) == |q| + (ExecutableEnd(a) - end) && ExecutableFirst(b)
  {
    hide Serialize, RunOf;
    var n := |q| + (ExecutableEnd(a) - end);
    forall k | 0 <= k < |b| ensures b[k].region == Executable <==> k < n {
      if k >= |q| {
        ReplacedAfter(a, end, q, b, k);
      }
    }
    RunIs(b, Executable, 0, n);
  }

  lemma NothingReplaced(a: seq<Instruction>, b: seq<Instruction>)
    requires !ExecutableFirst(a) && Replaced(a, 0, [], b)
    ensures !ExecutableFirst(b)
  {
    hide Serialize, RunOf;
    forall k | 0 <= k < |b| ensures b[k].region == a[k].region {
      ReplacedAfter(a, 0, [], b, k);
    }
    RunIs(b, Executable, 0, ExecutableEnd(a));
    var i :| ExecutableEnd(a) <= i < |a| && a[i].region == Executable;
    assert b[i].region == Executable;
  }

  /** With an artifact: when it follows the code, the typed reading finds the new code as well. */
  lemma TypedBoundaryMoves(a: seq<Instruction>, b: seq<Instruction>, q: seq<string>)
    requires ReturnsAreTyped(a) && ReturnsAreTyped(b)
    requires Replaced(a, TypedPrefixLength(a), q, b) && Continues(Export(a)[..TypedPrefixLength(a)], q)
    ensures TypedPrefixLength(b) == |q|
  {
    hide IsReturnText, Serialize, RunOf, ReturnEnd, Replaced, Continues, ExecutableFirst, IsReturn;
    if ExecutableFirst(a) {
      ReplacedRegions(a, TypedPrefixLength(a), q, b);
      LastReturnMoves(a, b, q);
    } else {
      assert q == [] by { ReplacedIsShorter(a, 0, q, b); }
      NothingReplaced(a, b);
    }
  }

  lemma ReplacedIsShorter(a: seq<Instruction>, end: nat, q: seq<string>, b: seq<Instruction>)
    requires end <= |a| && Replaced(a, end, q, b)
    ensures |q| <= end && |b| == |q| + (|a| - end)
  {
  }

  lemma NoReturnAfter(a: seq<Instruction>, end: nat, q: seq<string>, b: seq<Instruction>)
    requires end <= ExecutableEnd(a) && Replaced(a, end, q, b) && ReturnsAreTyped(a) && ReturnsAreTyped(b)
    requires forall i :: end <= i < ExecutableEnd(a) ==> !IsReturn(a[i])
    requires ExecutableEnd(b) == |q| + (ExecutableEnd(a) - end)
    ensures forall k :: |q| <= k < ExecutableEnd(b) ==> !IsReturn(b[k])
  {
    hide IsReturnText, Serialize, IsReturn;
    var aEnd, bEnd := ExecutableEnd(a), ExecutableEnd(b);
    assert forall i :: 0 <= i < aEnd ==> a[i].region == Executable;
    assert forall i :: 0 <= i < bEnd ==> b[i].region == Executable;
    hide RunOf;
    forall k | |q| <= k < bEnd ensures !IsReturn(b[k]) {
      ReplacedAfter(a, end, q, b, k);
    }
  }

  lemma LastReturnMoves(a: seq<Instruction>, b: seq<Instruction>, q: seq<string>)
    requires ReturnsAreTyped(a) && ReturnsAreTyped(b) && ExecutableFirst(a) && ExecutableFirst(b)
    requires Replaced(a, TypedPrefixLength(a), q, b) && Continues(Export(a)[..TypedPrefixLength(a)], q)
    requires ExecutableEnd(b) == |q| + (ExecutableEnd(a) - TypedPrefixLength(a))
    ensures TypedPrefixLength(b) == |q|
  {
    hide IsReturnText, Serialize, IsReturn, ExecutableFirst;
    var end := TypedPrefixLength(a);
    var p := Export(a)[..end];
    NoReturnAfter(a, end, q, b);
    assert forall i :: 0 <= i < end ==> a[i].region == Executable;
    hide RunOf;
    if ReturnEnd(a, ExecutableEnd(a)).Some? {
      assert p[|p| - 1] == Serialize(a[end - 1]);
      assert Serialize(b[|q| - 1]) == q[|q| - 1];
    } else {
      forall j | 0 <= j < |p| ensures !IsReturnText(p[j]) {
        assert p[j] == Serialize(a[j]);
      }
      forall k | 0 <= k < |q| ensures !IsReturn(b[k]) {
        assert Serialize(b[k]) == q[k];
        assert q[k] in p ==> !IsReturnText(q[k]);
      }
    }
  }
}
