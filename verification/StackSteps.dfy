/** Stack shuffling steps: their text, their cost, and what they do to a pair of stacks. */
module StackSteps {
  import opened Wrappers
  import opened Hex
  import opened ScriptCodec
  import opened CondMachine
  import opened IfTree
  import opened ScriptVm
  import opened PeepholeRules

  // ----- numbers in scripts -----

  /** The shortest script number denoting k. */
  function NumberBytes(k: nat): (x: Item)
    ensures k > 0 ==> x != []
  {
    if k == 0 then []
    else if k < 0x80 then [k]
    else if k < 0x100 then [k, 0]
    else [k % 0x100] + NumberBytes(k / 0x100)
  }

  function Magnitude(x: Item): nat {
    if x == [] then 0 else x[0] + 0x100 * Magnitude(x[1..])
  }

  /** Little-endian magnitude with the sign in the top bit of the last byte. */
  function ReadNumber(x: Item): int {
    if x == [] then 0
    else
      var last := |x| - 1;
      if x[last] < 0x80 then Magnitude(x) else 0 - Magnitude(x[last := x[last] - 0x80])
  }

  /** Text of the shortest instruction pushing a number that is not negative. */
  function NumberText(k: nat): string {
    if k == 0 then "0x" + OpHex(OP_0)
    else if k <= 16 then "0x" + OpHex(0x50 + k)
    else
      match EncodeBytes(NumberBytes(k), Legacy)
      case None => "0x"
      case Some(bytes) => "0x" + BytesToHex(bytes)
  }

  /** Reading back the shortest form of a number that is not negative. */
  lemma {:induction false} NumberRoundTrip(k: nat)
    ensures ReadNumber(NumberBytes(k)) == k && Magnitude(NumberBytes(k)) == k
    ensures k > 0 ==> NumberBytes(k)[|NumberBytes(k)| - 1] < 0x80
  {
    if k >= 0x100 {
      NumberRoundTrip(k / 0x100);
      assert NumberBytes(k)[1..] == NumberBytes(k / 0x100);
    } else if 0x80 <= k {
      assert NumberBytes(k)[1..] == [0];
      assert Magnitude([0]) == 0;
    } else if k > 0 {
      assert NumberBytes(k)[1..] == [];
    }
  }

  /** No script number for k is shorter. */
  lemma {:induction false} NumberIsShortest(x: Item, k: nat)
    requires ReadNumber(x) == k
    ensures |NumberBytes(k)| <= |x|
  {
    if k > 0 {
      assert x != [] && x[|x| - 1] < 0x80;
      MagnitudeIsShortest(x, k);
    }
  }

  lemma {:induction false} MagnitudeIsShortest(x: Item, k: nat)
    requires x != [] && x[|x| - 1] < 0x80 && Magnitude(x) == k
    ensures |NumberBytes(k)| <= |x|
  {
    if |x| == 1 {
      assert Magnitude(x[1..]) == 0;
    } else {
      var rest := Magnitude(x[1..]);
      assert k == x[0] + 0x100 * rest;
      assert k / 0x100 == rest;
      MagnitudeIsShortest(x[1..], rest);
    }
  }

  /** The text pushing a number is the canonical push of its shortest form. */
  lemma NumberTextIsCanonical(k: nat)
    requires |NumberBytes(k)| <= MAX_PAYLOAD
    ensures EncodeBytes(NumberBytes(k), Canonical).Some?
    ensures HexToBytes(NumberText(k)) == Ok(EncodeBytes(NumberBytes(k), Canonical).value)
  {
    var bytes := if k == 0 then [0] else if k <= 16 then [0x50 + k] else EncodeBytes(NumberBytes(k), Legacy).value;
    NumberIsNoConstant(k);
    if k <= 16 {
      OneByteHex(bytes[0]);
    }
    assert NumberText(k) == "0x" + BytesToHex(bytes);
    hide HexToBytes, EncodeBytes, NumberBytes;
    PrefixedHex(bytes);
  }

  lemma NumberIsNoConstant(k: nat)
    requires |NumberBytes(k)| <= MAX_PAYLOAD
    ensures k > 16 ==> EncodeBytes(NumberBytes(k), Canonical) == EncodeBytes(NumberBytes(k), Legacy)
    ensures k <= 16 ==> EncodeBytes(NumberBytes(k), Canonical) == Some(if k == 0 then [0] else [0x50 + k])
    ensures EncodeBytes(NumberBytes(k), Legacy).Some? && EncodeBytes(NumberBytes(k), Legacy).value != []
  {
    PrefixShape(|NumberBytes(k)|);
    assert PushPrefix(0).value + [] == [0];
    if k > 16 {
      NumberRoundTrip(k);
    }
  }

  lemma PrefixedHex(bytes: seq<Byte>)
    requires bytes != []
    ensures HexToBytes("0x" + BytesToHex(bytes)) == Ok(bytes)
    ensures EncodedByteSize("0x" + BytesToHex(bytes)) == |bytes|
  {
    var h := BytesToHex(bytes);
    PrintParse(bytes);
    assert StripPrefix("0x" + h) == h;
    assert DigitValue(h[1]) >= 0;
    assert StripPrefix(h) == h;
  }

  // ----- steps -----

  datatype StackOp =
    | Swap | Rot | TwoSwap | TwoRot | Roll
    | Dup | Over | Pick | Drop | Nip | Tuck | ToAltStack | FromAltStack

  datatype Step = Step(op: StackOp, depth: nat)

  function Encoded(step: Step): seq<string> {
    match step.op
    case Swap => [OpHex(OP_SWAP)]
    case Rot => [OpHex(OP_ROT)]
    case TwoSwap => [OpHex(OP_2SWAP)]
    case TwoRot => [OpHex(OP_2ROT)]
    case Roll =>
      if step.depth == 0 then []
      else if step.depth == 1 then [OpHex(OP_SWAP)]
      else if step.depth == 2 then [OpHex(OP_ROT)]
      else [NumberText(step.depth), OpHex(OP_ROLL)]
    case Dup => [OpHex(OP_DUP)]
    case Over => [OpHex(OP_OVER)]
    case Pick =>
      if step.depth == 0 then [OpHex(OP_DUP)]
      else if step.depth == 1 then [OpHex(OP_OVER)]
      else [NumberText(step.depth), OpHex(OP_PICK)]
    case Drop => [OpHex(OP_DROP)]
    case Nip => [OpHex(OP_NIP)]
    case Tuck => [OpHex(OP_TUCK)]
    case ToAltStack => [OpHex(OP_TOALTSTACK)]
    case FromAltStack => [OpHex(OP_FROMALTSTACK)]
  }

  function EncodedAll(steps: seq<Step>): seq<string> {
    if steps == [] then [] else Encoded(steps[0]) + EncodedAll(steps[1..])
  }

  function EncodedByteSize(text: string): nat {
    |StripPrefix(text)| / 2
  }

  function TextBytes(es: seq<string>): nat {
    if es == [] then 0 else EncodedByteSize(es[0]) + TextBytes(es[1..])
  }

  function StepBytes(step: Step): nat {
    TextBytes(Encoded(step))
  }

  function InstructionCount(step: Step): nat {
    if step.op == Roll then (if step.depth == 0 then 0 else if step.depth <= 2 then 1 else 2)
    else if step.op == Pick then (if step.depth <= 1 then 1 else 2)
    else 1
  }

  function TouchedDepth(step: Step): nat {
    match step.op
    case Swap | Over | Nip | Tuck => 1
    case Rot => 2
    case TwoSwap => 3
    case TwoRot => 5
    case Roll | Pick => step.depth
    case _ => 0
  }

  // ----- cost -----

  datatype Cost = Cost(bytes: nat, instructions: nat, depth: nat)

  const ZERO: Cost := Cost(0, 0, 0)

  predicate Less(a: Cost, b: Cost) {
    || a.bytes < b.bytes
    || (a.bytes == b.bytes && a.instructions < b.instructions)
    || (a.bytes == b.bytes && a.instructions == b.instructions && a.depth < b.depth)
  }

  function Max(a: nat, b: nat): nat {
    if a < b then b else a
  }

  function Extend(c: Cost, step: Step): Cost {
    Cost(c.bytes + StepBytes(step), c.instructions + InstructionCount(step), Max(c.depth, TouchedDepth(step)))
  }

  /** Cost of a run of steps after a prefix that cost c. */
  function CostFrom(c: Cost, steps: seq<Step>): Cost
    decreases |steps|
  {
    if steps == [] then c else CostFrom(Extend(c, steps[0]), steps[1..])
  }

  function CostOf(steps: seq<Step>): Cost {
    CostFrom(ZERO, steps)
  }

  // ----- the cost is that of the emitted text -----

  /** A step counts as many instructions as it is written in. */
  lemma CountIsText(step: Step)
    ensures InstructionCount(step) == |Encoded(step)|
  {
    hide NumberText, OpHex;
  }

  lemma {:induction false} BytesOfTexts(a: seq<string>, b: seq<string>)
    ensures TextBytes(a + b) == TextBytes(a) + TextBytes(b)
  {
    hide EncodedByteSize;
    if a == [] {
      assert a + b == b;
    } else {
      assert (a + b)[1..] == a[1..] + b;
      BytesOfTexts(a[1..], b);
    }
  }

  function Deepest(steps: seq<Step>): nat {
    if steps == [] then 0 else Max(TouchedDepth(steps[0]), Deepest(steps[1..]))
  }

  /** Bytes and instructions of a run of steps are those of its text, and its depth is the deepest any step touches. */
  lemma {:induction false} CostIsText(c: Cost, steps: seq<Step>)
    ensures CostFrom(c, steps) ==
            Cost(c.bytes + TextBytes(EncodedAll(steps)), c.instructions + |EncodedAll(steps)|,
                 Max(c.depth, Deepest(steps)))
    decreases |steps|
  {
    hide Encoded, TextBytes, InstructionCount, TouchedDepth;
    if steps == [] {
      NoBytes();
    } else {
      CountIsText(steps[0]);
      CostIsText(Extend(c, steps[0]), steps[1..]);
      BytesOfTexts(Encoded(steps[0]), EncodedAll(steps[1..]));
      assert StepBytes(steps[0]) == TextBytes(Encoded(steps[0]));
    }
  }

  lemma NoBytes()
    ensures TextBytes([]) == 0
  {
  }

  lemma {:induction false} DeepestIs(steps: seq<Step>)
    ensures forall i :: 0 <= i < |steps| ==> TouchedDepth(steps[i]) <= Deepest(steps)
    ensures Deepest(steps) > 0 ==> exists i :: 0 <= i < |steps| && TouchedDepth(steps[i]) == Deepest(steps)
  {
    hide TouchedDepth;
    if steps != [] {
      DeepestIs(steps[1..]);
      assert forall i :: 1 <= i < |steps| ==> steps[i] == steps[1..][i - 1];
      if Deepest(steps) > TouchedDepth(steps[0]) {
        var i :| 0 <= i < |steps[1..]| && TouchedDepth(steps[1..][i]) == Deepest(steps[1..]);
        assert steps[i + 1] == steps[1..][i];
      }
    }
  }

  /** What it means in text that one run of steps costs no more than another: fewer bytes, or as many bytes in fewer
      instructions, or as many of both reaching no deeper. */
  lemma CheaperText(a: seq<Step>, b: seq<Step>)
    ensures !Less(CostOf(b), CostOf(a)) <==>
            var s, t := EncodedAll(a), EncodedAll(b);
            || TextBytes(s) < TextBytes(t)
            || (TextBytes(s) == TextBytes(t) && |s| < |t|)
            || (TextBytes(s) == TextBytes(t) && |s| == |t| && Deepest(a) <= Deepest(b))
  {
    hide TextBytes, EncodedAll, Deepest, CostFrom;
    CostIsText(ZERO, a);
    CostIsText(ZERO, b);
  }

  datatype Plan = Plan(steps: seq<Step>, serializedBytes: nat, emittedInstructions: nat, maximumTouchedDepth: nat)

  predicate IsPlan(p: Plan) {
    CostOf(p.steps) == Cost(p.serializedBytes, p.emittedInstructions, p.maximumTouchedDepth)
  }

  method MakePlan(steps: seq<Step>) returns (p: Plan)
    ensures p.steps == steps && IsPlan(p)
  {
    hide CostFrom, StepBytes, InstructionCount, TouchedDepth;
    var bytes: nat, instructions: nat, depth: nat := 0, 0, 0;
    assert steps[0..] == steps;
    for i := 0 to |steps|
      invariant 0 <= bytes && 0 <= instructions
      invariant CostFrom(Cost(bytes, instructions, depth), steps[i..]) == CostOf(steps)
    {
      CostStep(Cost(bytes, instructions, depth), steps, i);
      bytes := bytes + StepBytes(steps[i]);
      instructions := instructions + InstructionCount(steps[i]);
      depth := Max(depth, TouchedDepth(steps[i]));
    }
    CostDone(Cost(bytes, instructions, depth), steps);
    p := Plan(steps, bytes, instructions, depth);
  }

  lemma CostStep(c: Cost, steps: seq<Step>, i: nat)
    requires i < |steps|
    ensures CostFrom(c, steps[i..]) == CostFrom(Extend(c, steps[i]), steps[i + 1..])
  {
    assert steps[i..][1..] == steps[i + 1..];
  }

  lemma CostDone(c: Cost, steps: seq<Step>)
    ensures CostFrom(c, steps[|steps|..]) == c
  {
  }

  /** Extending keeps the order, though only weakly: the maximum can hide a difference in depth. */
  lemma ExtendIsMonotone(a: Cost, b: Cost, step: Step)
    requires !Less(b, a)
    ensures !Less(Extend(b, step), Extend(a, step))
  {
    hide StepBytes, InstructionCount, TouchedDepth;
  }

  lemma {:induction false} CostIsMonotone(a: Cost, b: Cost, steps: seq<Step>)
    requires !Less(b, a)
    ensures !Less(CostFrom(b, steps), CostFrom(a, steps))
    ensures CostFrom(a, steps).bytes - a.bytes == CostFrom(b, steps).bytes - b.bytes >= 0
    decreases |steps|
  {
    hide StepBytes;
    if steps != [] {
      ExtendIsMonotone(a, b, steps[0]);
      CostIsMonotone(Extend(a, steps[0]), Extend(b, steps[0]), steps[1..]);
    }
  }

  // ----- effect -----

  datatype Stacks<T> = Stacks(main: seq<T>, alt: seq<T>)

  function RollUp<T>(s: seq<T>, depth: nat): Option<seq<T>> {
    if depth < |s| then Some([s[depth]] + s[..depth] + s[depth + 1..]) else None
  }

  function Shuffle<T>(s: seq<T>, step: Step): (r: Option<seq<T>>)
    ensures r.Some? ==> |r.value| == |s|
  {
    match step.op
    case Swap => if |s| < 2 then None else Some([s[1], s[0]] + s[2..])
    case Rot => RollUp(s, 2)
    case TwoSwap => if |s| < 4 then None else Some(s[2..4] + s[..2] + s[4..])
    case TwoRot => if |s| < 6 then None else Some(s[4..6] + s[..4] + s[6..])
    case Roll => RollUp(s, step.depth)
    case _ => None
  }

  predicate IsMove(step: Step) {
    step.op.Swap? || step.op.Rot? || step.op.TwoSwap? || step.op.TwoRot? || step.op.Roll?
  }

  function Act<T>(s: Stacks<T>, step: Step): Option<Stacks<T>> {
    var m := s.main;
    match step.op
    case Swap | Rot | TwoSwap | TwoRot | Roll =>
      (match Shuffle(m, step) case None => None case Some(n) => Some(s.(main := n)))
    case Dup => if |m| < 1 then None else Some(s.(main := [m[0]] + m))
    case Over => if |m| < 2 then None else Some(s.(main := [m[1]] + m))
    case Pick => if |m| <= step.depth then None else Some(s.(main := [m[step.depth]] + m))
    case Drop => if |m| < 1 then None else Some(s.(main := m[1..]))
    case Nip => if |m| < 2 then None else Some(s.(main := [m[0]] + m[2..]))
    case Tuck => if |m| < 2 then None else Some(s.(main := [m[0], m[1], m[0]] + m[2..]))
    case ToAltStack => if |m| < 1 then None else Some(Stacks(m[1..], [m[0]] + s.alt))
    case FromAltStack => if |s.alt| < 1 then None else Some(Stacks([s.alt[0]] + m, s.alt[1..]))
  }

  /** The touched depth of a step is the deepest main slot it needs: the step works exactly on stacks that reach it.
      Only the return from the altstack needs no main slot, but one there. */
  lemma TouchedIsNeeded<T>(s: Stacks<T>, step: Step)
    ensures !step.op.FromAltStack? ==> (Act(s, step).Some? <==> TouchedDepth(step) < |s.main|)
    ensures step.op.FromAltStack? ==> TouchedDepth(step) == 0 && (Act(s, step).Some? <==> s.alt != [])
  {
  }

  function ActAll<T>(s: Stacks<T>, steps: seq<Step>): Option<Stacks<T>>
    decreases |steps|
  {
    if steps == [] then Some(s)
    else match Act(s, steps[0]) case None => None case Some(t) => ActAll(t, steps[1..])
  }

  lemma {:induction false} ActConcat<T>(s: Stacks<T>, a: seq<Step>, b: seq<Step>)
    ensures ActAll(s, a + b) == match ActAll(s, a) case None => None case Some(t) => ActAll(t, b)
    decreases |a|
  {
    hide Act;
    if a == [] {
      assert a + b == b;
    } else {
      assert (a + b)[1..] == a[1..] + b;
      match Act(s, a[0]) {
        case None =>
        case Some(t) => ActConcat(t, a[1..], b);
      }
    }
  }

  // ----- steps act the same on slot numbers and on what the slots hold -----

  predicate Names<T>(slots: seq<nat>, items: seq<T>) {
    forall i :: 0 <= i < |slots| ==> slots[i] < |items|
  }

  function Select<T>(items: seq<T>, slots: seq<nat>): (r: seq<T>)
    requires Names(slots, items)
    ensures |r| == |slots|
  {
    seq(|slots|, i requires 0 <= i < |slots| => items[slots[i]])
  }

  ghost predicate Mirrors<T>(items: seq<T>, slots: seq<nat>, below: seq<T>, s: seq<T>) {
    && Names(slots, items) && |s| == |slots| + |below|
    && (forall i :: 0 <= i < |slots| ==> s[i] == items[slots[i]])
    && (forall i :: 0 <= i < |below| ==> s[|slots| + i] == below[i])
  }

  lemma MirrorsIs<T>(items: seq<T>, slots: seq<nat>, below: seq<T>, s: seq<T>)
    ensures Mirrors(items, slots, below, s) <==> Names(slots, items) && s == Select(items, slots) + below
  {
    if Mirrors(items, slots, below, s) {
      forall k | 0 <= k < |s| ensures s[k] == (Select(items, slots) + below)[k] {
        if k >= |slots| {
          assert s[|slots| + (k - |slots|)] == below[k - |slots|];
        }
      }
    }
  }

  lemma RollMirrors<T>(items: seq<T>, slots: seq<nat>, below: seq<T>, s: seq<T>, depth: nat)
    requires Mirrors(items, slots, below, s) && depth < |slots|
    ensures Mirrors(items, RollUp(slots, depth).value, below, RollUp(s, depth).value)
  {
    var n, r := RollUp(slots, depth).value, RollUp(s, depth).value;
    forall i | 0 <= i < |n| ensures n[i] < |items| && r[i] == items[n[i]] {
      var from := if i == 0 then depth else if i <= depth then i - 1 else i;
      assert n[i] == slots[from] && r[i] == s[from];
    }
    forall i | 0 <= i < |below| ensures r[|n| + i] == below[i] {
      assert r[|n| + i] == s[|slots| + i];
    }
  }

  lemma ShuffleMirrors<T>(items: seq<T>, slots: seq<nat>, below: seq<T>, s: seq<T>, step: Step)
    requires Mirrors(items, slots, below, s) && Shuffle(slots, step).Some?
    ensures Shuffle(s, step).Some? && Mirrors(items, Shuffle(slots, step).value, below, Shuffle(s, step).value)
  {
    if step.op.Rot? || step.op.Roll? {
      RollMirrors(items, slots, below, s, if step.op.Rot? then 2 else step.depth);
    }
  }

  lemma CopyMirrors<T>(items: seq<T>, slots: seq<nat>, below: seq<T>, s: seq<T>, depth: nat)
    requires Mirrors(items, slots, below, s) && depth < |slots|
    ensures Mirrors(items, [slots[depth]] + slots, below, [s[depth]] + s)
  {
    forall i | 0 <= i < |below| ensures ([s[depth]] + s)[1 + |slots| + i] == below[i] {
      assert s[|slots| + i] == below[i];
    }
  }

  lemma PopMirrors<T>(items: seq<T>, slots: seq<nat>, below: seq<T>, s: seq<T>)
    requires Mirrors(items, slots, below, s) && slots != []
    ensures Mirrors(items, slots[1..], below, s[1..])
  {
  }

  lemma PushMirrors<T>(items: seq<T>, slots: seq<nat>, below: seq<T>, s: seq<T>, slot: nat)
    requires Mirrors(items, slots, below, s) && slot < |items|
    ensures Mirrors(items, [slot] + slots, below, [items[slot]] + s)
  {
    forall i | 0 <= i < |below| ensures ([items[slot]] + s)[1 + |slots| + i] == below[i] {
      assert s[|slots| + i] == below[i];
    }
  }

  lemma SizesMirror<T>(items: seq<T>, slots: seq<nat>, below: seq<T>, s: seq<T>)
    requires Mirrors(items, slots, below, s)
    ensures |slots| <= |s| && forall i :: 0 <= i < |slots| ==> slots[i] < |items| && s[i] == items[slots[i]]
  {
  }

  lemma NipMirrors<T>(items: seq<T>, slots: seq<nat>, below: seq<T>, s: seq<T>)
    requires Mirrors(items, slots, below, s) && |slots| >= 2
    ensures Mirrors(items, [slots[0]] + slots[2..], below, [s[0]] + s[2..])
  {
    var n, r := [slots[0]] + slots[2..], [s[0]] + s[2..];
    forall i | 0 <= i < |below| ensures r[|n| + i] == below[i] {
      assert r[|n| + i] == s[|slots| + i];
    }
  }

  lemma TuckMirrors<T>(items: seq<T>, slots: seq<nat>, below: seq<T>, s: seq<T>)
    requires Mirrors(items, slots, below, s) && |slots| >= 2
    ensures Mirrors(items, [slots[0], slots[1], slots[0]] + slots[2..], below, [s[0], s[1], s[0]] + s[2..])
  {
    var n, r := [slots[0], slots[1], slots[0]] + slots[2..], [s[0], s[1], s[0]] + s[2..];
    forall i | 0 <= i < |below| ensures r[|n| + i] == below[i] {
      assert r[|n| + i] == s[|slots| + i];
    }
  }

  lemma ActMirrors<T>(items: seq<T>, slots: Stacks<nat>, below: Stacks<T>, s: Stacks<T>, step: Step)
    requires Mirrors(items, slots.main, below.main, s.main) && Mirrors(items, slots.alt, below.alt, s.alt)
    requires Act(slots, step).Some?
    ensures Act(s, step).Some?
    ensures Mirrors(items, Act(slots, step).value.main, below.main, Act(s, step).value.main)
    ensures Mirrors(items, Act(slots, step).value.alt, below.alt, Act(s, step).value.alt)
  {
    SizesMirror(items, slots.main, below.main, s.main);
    SizesMirror(items, slots.alt, below.alt, s.alt);
    hide Shuffle, Mirrors;
    var a, m := slots.main, s.main;
    match step.op {
      case Swap | Rot | TwoSwap | TwoRot | Roll => ShuffleMirrors(items, a, below.main, m, step);
      case Dup => CopyMirrors(items, a, below.main, m, 0);
      case Over => CopyMirrors(items, a, below.main, m, 1);
      case Pick => CopyMirrors(items, a, below.main, m, step.depth);
      case Drop => PopMirrors(items, a, below.main, m);
      case Nip => NipMirrors(items, a, below.main, m);
      case Tuck => TuckMirrors(items, a, below.main, m);
      case ToAltStack =>
        PopMirrors(items, a, below.main, m);
        PushMirrors(items, slots.alt, below.alt, s.alt, a[0]);
      case FromAltStack =>
        PopMirrors(items, slots.alt, below.alt, s.alt);
        PushMirrors(items, a, below.main, m, slots.alt[0]);
    }
  }

  /** A run found on slot numbers does the same on any items, above any other content of both stacks. */
  lemma {:induction false} ActAllMirrors<T>(items: seq<T>, slots: Stacks<nat>, below: Stacks<T>, s: Stacks<T>,
                                            steps: seq<Step>)
    requires Mirrors(items, slots.main, below.main, s.main) && Mirrors(items, slots.alt, below.alt, s.alt)
    requires ActAll(slots, steps).Some?
    ensures ActAll(s, steps).Some?
    ensures Mirrors(items, ActAll(slots, steps).value.main, below.main, ActAll(s, steps).value.main)
    ensures Mirrors(items, ActAll(slots, steps).value.alt, below.alt, ActAll(s, steps).value.alt)
    decreases |steps|
  {
    hide Act, Mirrors;
    if steps != [] {
      ActMirrors(items, slots, below, s, steps[0]);
      ActAllMirrors(items, Act(slots, steps[0]).value, below, Act(s, steps[0]).value, steps[1..]);
    }
  }

  lemma {:induction false} ActAllSelect<T>(items: seq<T>, slots: Stacks<nat>, below: Stacks<T>, steps: seq<Step>)
    requires Names(slots.main, items) && Names(slots.alt, items) && ActAll(slots, steps).Some?
    ensures var t := ActAll(slots, steps).value;
            && Names(t.main, items) && Names(t.alt, items)
            && ActAll(Stacks(Select(items, slots.main) + below.main, Select(items, slots.alt) + below.alt), steps)
               == Some(Stacks(Select(items, t.main) + below.main, Select(items, t.alt) + below.alt))
  {
    hide Act, Mirrors;
    var s := Stacks(Select(items, slots.main) + below.main, Select(items, slots.alt) + below.alt);
    MirrorsIs(items, slots.main, below.main, s.main);
    MirrorsIs(items, slots.alt, below.alt, s.alt);
    ActAllMirrors(items, slots, below, s, steps);
    var t, r := ActAll(slots, steps).value, ActAll(s, steps).value;
    MirrorsIs(items, t.main, below.main, r.main);
    MirrorsIs(items, t.alt, below.alt, r.alt);
  }

  // ----- reversed lists -----

  function Reversed<T>(s: seq<T>): seq<T> {
    if s == [] then [] else Reversed(s[1..]) + [s[0]]
  }

  lemma {:induction false} ReversedSnoc<T>(s: seq<T>, x: T)
    ensures Reversed(s + [x]) == [x] + Reversed(s)
  {
    if s != [] {
      assert (s + [x])[1..] == s[1..] + [x];
      ReversedSnoc(s[1..], x);
    }
  }

  lemma {:induction false} ReversedIndex<T>(s: seq<T>)
    ensures |Reversed(s)| == |s| && forall i :: 0 <= i < |s| ==> Reversed(s)[i] == s[|s| - 1 - i]
  {
    if s != [] {
      ReversedIndex(s[1..]);
    }
  }
}
