/** Overwriting one stack slot with a copy of another: the states the search walks through, the steps it tries, and
    why trying only those loses nothing. */
module CopySteps {
  import opened Wrappers
  import opened ScriptVm
  import opened Permutations
  import opened StackSteps
  import opened CheapestSearch
  import opened MoveTable

  /** alt holds only what the plan itself has put aside. */
  datatype CopyState = CopyState(stacks: Stacks<nat>, copied: bool, deleted: bool)

  function Window(source: nat, target: nat): nat {
    Max(source, target) + 1
  }

  function Initial(source: nat, target: nat): CopyState {
    CopyState(Stacks(Identity(Window(source, target)), []), false, false)
  }

  function Goal(source: nat, target: nat): CopyState {
    CopyState(Stacks(Identity(Window(source, target))[target := source], []), true, true)
  }

  predicate IsCopy(step: Step) {
    step.op.Dup? || step.op.Over? || step.op.Pick? || step.op.Tuck?
  }

  predicate IsDelete(step: Step) {
    step.op.Drop? || step.op.Nip?
  }

  /** One step; a second copy or a second deletion is refused. */
  function CopyAct(c: CopyState, step: Step): Option<CopyState> {
    if (IsCopy(step) && c.copied) || (IsDelete(step) && c.deleted) then None
    else
      match Act(c.stacks, step)
      case None => None
      case Some(t) => Some(CopyState(t, c.copied || IsCopy(step), c.deleted || IsDelete(step)))
  }

  function CopyActAll(c: CopyState, steps: seq<Step>): Option<CopyState>
    decreases |steps|
  {
    if steps == [] then Some(c)
    else match CopyAct(c, steps[0]) case None => None case Some(d) => CopyActAll(d, steps[1..])
  }

  /** One copy, one deletion, the temporary altstack empty again, and slot target holding what slot source held. */
  predicate Solves(source: nat, target: nat, steps: seq<Step>) {
    CopyActAll(Initial(source, target), steps) == Some(Goal(source, target))
  }

  lemma {:induction false} CopyConcat(c: CopyState, a: seq<Step>, b: seq<Step>)
    ensures CopyActAll(c, a + b) == match CopyActAll(c, a) case None => None case Some(d) => CopyActAll(d, b)
    decreases |a|
  {
    hide CopyAct;
    if a == [] {
      assert a + b == b;
    } else {
      assert (a + b)[1..] == a[1..] + b;
      match CopyAct(c, a[0]) {
        case None =>
        case Some(d) => CopyConcat(d, a[1..], b);
      }
    }
  }

  // ----- a solution is exact on any stacks -----

  lemma {:induction false} WithoutFlags(c: CopyState, steps: seq<Step>)
    requires CopyActAll(c, steps).Some?
    ensures ActAll(c.stacks, steps) == Some(CopyActAll(c, steps).value.stacks)
    decreases |steps|
  {
    hide Act;
    if steps != [] {
      WithoutFlags(CopyAct(c, steps[0]).value, steps[1..]);
    }
  }

  /** On any main stack that has both slots and above any altstack, a solution overwrites slot target with a copy of
      slot source and changes nothing else. */
  lemma SolutionIsExact<T>(source: nat, target: nat, steps: seq<Step>, main: seq<T>, alt: seq<T>)
    requires Solves(source, target, steps) && source < |main| && target < |main|
    ensures ActAll(Stacks(main, alt), steps) == Some(Stacks(main[target := main[source]], alt))
  {
    hide Act;
    var w := Window(source, target);
    var items, below := main[..w], Stacks(main[w..], alt);
    var start, goal := Initial(source, target), Goal(source, target);
    WithoutFlags(start, steps);
    ActAllSelect(items, start.stacks, below, steps);
    assert Select(items, start.stacks.main) + below.main == main;
    assert Select(items, goal.stacks.main) + below.main == main[target := main[source]];
    assert Select(items, []) + alt == alt;
  }

  // ----- the steps the search tries -----

  function PickOps(from: nat, main: seq<nat>, token: nat): seq<Step>
    decreases if from < |main| then |main| - from else 0
  {
    if from >= |main| then []
    else (if main[from] == token then [Step(Pick, from)] else []) + PickOps(from + 1, main, token)
  }

  function CopyOps(main: seq<nat>, source: nat): seq<Step> {
    (if |main| >= 1 && main[0] == source then [Step(Dup, 0)] else [])
    + (if |main| >= 2 && main[0] == source then [Step(Tuck, 1)] else [])
    + (if |main| >= 2 && main[1] == source then [Step(Over, 1)] else [])
    + PickOps(2, main, source)
  }

  function DeleteOps(main: seq<nat>, target: nat): seq<Step> {
    (if |main| >= 1 && main[0] == target then [Step(Drop, 0)] else [])
    + (if |main| >= 2 && main[1] == target then [Step(Nip, 1)] else [])
  }

  function AltOps(s: Stacks<nat>): seq<Step> {
    (if s.main != [] then [Step(ToAltStack, 0)] else []) + (if s.alt != [] then [Step(FromAltStack, 0)] else [])
  }

  /** Copies of the source token, deletions of the target token, every move, and the altstack. */
  function AllowedSteps(c: CopyState, source: nat, target: nat): seq<Step> {
    (if c.copied then [] else CopyOps(c.stacks.main, source))
    + (if c.deleted then [] else DeleteOps(c.stacks.main, target))
    + MoveOps(|c.stacks.main|) + AltOps(c.stacks)
  }

  predicate IsAllowed(c: CopyState, source: nat, target: nat, step: Step) {
    var m := c.stacks.main;
    match step.op
    case Dup => !c.copied && step.depth == 0 && |m| >= 1 && m[0] == source
    case Tuck => !c.copied && step.depth == 1 && |m| >= 2 && m[0] == source
    case Over => !c.copied && step.depth == 1 && |m| >= 2 && m[1] == source
    case Pick => !c.copied && 2 <= step.depth < |m| && m[step.depth] == source
    case Drop => !c.deleted && step.depth == 0 && |m| >= 1 && m[0] == target
    case Nip => !c.deleted && step.depth == 1 && |m| >= 2 && m[1] == target
    case ToAltStack => step.depth == 0 && m != []
    case FromAltStack => step.depth == 0 && c.stacks.alt != []
    case _ => IsListed(|m|, step)
  }

  lemma {:induction false} PickOpsAre(from: nat, main: seq<nat>, token: nat, step: Step)
    ensures step in PickOps(from, main, token) <==>
            step.op.Pick? && from <= step.depth < |main| && main[step.depth] == token
    decreases if from < |main| then |main| - from else 0
  {
    if from < |main| {
      PickOpsAre(from + 1, main, token, step);
    }
  }

  lemma AllowedAre(c: CopyState, source: nat, target: nat, step: Step)
    ensures step in AllowedSteps(c, source, target) <==> IsAllowed(c, source, target, step)
  {
    hide MoveOps, CopyOps, DeleteOps, AltOps, IsListed;
    CopyOpsAre(c.stacks.main, source, step);
    DeleteOpsAre(c.stacks.main, target, step);
    AltOpsAre(c.stacks, step);
    MoveOpsAre(|c.stacks.main|, step);
    ListedIsPlainMove(|c.stacks.main|, step);
  }

  lemma ListedIsPlainMove(n: nat, step: Step)
    ensures IsListed(n, step) ==> IsMove(step)
  {
  }

  lemma CopyOpsAre(m: seq<nat>, source: nat, step: Step)
    ensures step in CopyOps(m, source) <==>
            || (step == Step(Dup, 0) && |m| >= 1 && m[0] == source)
            || (step == Step(Tuck, 1) && |m| >= 2 && m[0] == source)
            || (step == Step(Over, 1) && |m| >= 2 && m[1] == source)
            || (step.op.Pick? && 2 <= step.depth < |m| && m[step.depth] == source)
  {
    PickOpsAre(2, m, source, step);
    hide PickOps;
  }

  lemma DeleteOpsAre(m: seq<nat>, target: nat, step: Step)
    ensures step in DeleteOps(m, target) <==>
            || (step == Step(Drop, 0) && |m| >= 1 && m[0] == target)
            || (step == Step(Nip, 1) && |m| >= 2 && m[1] == target)
  {
  }

  lemma AltOpsAre(s: Stacks<nat>, step: Step)
    ensures step in AltOps(s) <==>
            (step == Step(ToAltStack, 0) && s.main != []) || (step == Step(FromAltStack, 0) && s.alt != [])
  {
  }

  lemma AllowedApplies(c: CopyState, source: nat, target: nat, step: Step)
    requires IsAllowed(c, source, target, step)
    ensures CopyAct(c, step).Some? && StepBytes(step) >= 1
  {
    hide Shuffle, StepBytes;
    if IsMove(step) {
      ListedIsMove(|c.stacks.main|, step);
    } else {
      SingleBytes(step);
    }
  }

  lemma SingleBytes(step: Step)
    ensures Bytes([step]) == StepBytes(step)
    ensures !IsMove(step) ==> StepBytes(step) >= 1
    ensures step.op in {Swap, Dup, Over, Drop, Nip, Tuck, ToAltStack, FromAltStack} ==> StepBytes(step) == 1
  {
    assert [step][1..] == [];
    var es := Encoded(step);
    if es != [] {
      var rest := es[1..];
      assert rest == if |es| == 1 then [] else [es[1]];
      assert rest != [] ==> rest[1..] == [];
      assert TextBytes(rest) == if |es| == 1 then 0 else EncodedByteSize(es[1]);
    }
  }

  function Bytes(steps: seq<Step>): nat {
    if steps == [] then 0 else StepBytes(steps[0]) + Bytes(steps[1..])
  }

  // ----- trying only those steps loses nothing -----

  function Content(c: CopyState): multiset<nat> {
    multiset(c.stacks.main) + multiset(c.stacks.alt)
  }

  lemma FirstTwo(m: seq<nat>)
    requires |m| >= 2
    ensures multiset(m) == multiset{m[0]} + multiset{m[1]} + multiset(m[2..])
    ensures multiset([m[0]] + m[2..]) == multiset{m[0]} + multiset(m[2..])
    ensures multiset([m[0], m[1], m[0]] + m[2..]) == multiset{m[0]} + multiset{m[1]} + multiset{m[0]} + multiset(m[2..])
  {
    assert m == [m[0], m[1]] + m[2..];
  }

  lemma OneMore(x: nat, m: seq<nat>)
    ensures multiset([x] + m) == multiset{x} + multiset(m)
  {
  }

  /** The main stack after a copy. */
  lemma CopiedMain(c: CopyState, step: Step)
    requires CopyAct(c, step).Some? && IsCopy(step)
    ensures multiset(CopyAct(c, step).value.stacks.main) == multiset{Copied(c, step)} + multiset(c.stacks.main)
    ensures CopyAct(c, step).value.stacks.alt == c.stacks.alt
  {
    hide Shuffle;
    var m := c.stacks.main;
    if step.op.Tuck? {
      FirstTwo(m);
      assert CopyAct(c, step).value.stacks.main == [m[0], m[1], m[0]] + m[2..];
    } else {
      OneMore(Copied(c, step), m);
      assert CopyAct(c, step).value.stacks.main == [Copied(c, step)] + m;
    }
  }

  lemma CopyContent(c: CopyState, step: Step)
    requires CopyAct(c, step).Some? && IsCopy(step)
    ensures Content(CopyAct(c, step).value) == Content(c) + multiset{Copied(c, step)}
  {
    hide Act, CopyAct, Copied;
    CopiedMain(c, step);
    var d := CopyAct(c, step).value.stacks;
    Reordered(multiset(c.stacks.main), multiset(d.alt), multiset{Copied(c, step)}, multiset(d.main));
  }

  lemma Reordered(kept: multiset<nat>, alt: multiset<nat>, gone: multiset<nat>, whole: multiset<nat>)
    requires whole == gone + kept
    ensures (kept + alt) + gone == whole + alt
  {
  }

  /** The main stack after a deletion, and what is missing from it. */
  lemma DeletedMain(c: CopyState, step: Step)
    requires CopyAct(c, step).Some? && IsDelete(step)
    ensures var kept := CopyAct(c, step).value.stacks.main;
            multiset(c.stacks.main) == multiset{Deleted(c, step)} + multiset(kept)
    ensures CopyAct(c, step).value.stacks.alt == c.stacks.alt
  {
    hide Shuffle;
    var m := c.stacks.main;
    if step.op.Drop? {
      OneMore(m[0], m[1..]);
      assert m == [m[0]] + m[1..];
      assert CopyAct(c, step).value.stacks.main == m[1..];
    } else {
      FirstTwo(m);
      assert CopyAct(c, step).value.stacks.main == [m[0]] + m[2..];
    }
  }

  lemma DeleteContent(c: CopyState, step: Step)
    requires CopyAct(c, step).Some? && IsDelete(step)
    ensures Content(CopyAct(c, step).value) + multiset{Deleted(c, step)} == Content(c)
  {
    hide Act, CopyAct, Deleted;
    DeletedMain(c, step);
    var d := CopyAct(c, step).value.stacks;
    Reordered(multiset(d.main), multiset(d.alt), multiset{Deleted(c, step)}, multiset(c.stacks.main));
  }

  lemma AltContent(c: CopyState, step: Step)
    requires CopyAct(c, step).Some? && (step.op.ToAltStack? || step.op.FromAltStack?)
    ensures Content(CopyAct(c, step).value) == Content(c)
  {
    hide Shuffle;
    var m, a := c.stacks.main, c.stacks.alt;
    if step.op.ToAltStack? {
      assert m == [m[0]] + m[1..];
      assert multiset([m[0]] + a) == multiset{m[0]} + multiset(a);
    } else {
      assert a == [a[0]] + a[1..];
      assert multiset([a[0]] + m) == multiset{a[0]} + multiset(m);
    }
  }

  /** What one step does to the multiset of tokens. */
  lemma ContentStep(c: CopyState, step: Step)
    requires CopyAct(c, step).Some?
    ensures IsCopy(step) ==> Content(CopyAct(c, step).value) == Content(c) + multiset{Copied(c, step)}
    ensures IsDelete(step) ==> Content(CopyAct(c, step).value) + multiset{Deleted(c, step)} == Content(c)
    ensures !IsCopy(step) && !IsDelete(step) ==> Content(CopyAct(c, step).value) == Content(c)
  {
    if IsMove(step) {
      ShuffleKeepsItems(c.stacks.main, step);
    } else {
      hide Act, Copied, Deleted, Content;
      if IsCopy(step) {
        CopyContent(c, step);
      } else if IsDelete(step) {
        DeleteContent(c, step);
      } else {
        AltContent(c, step);
      }
    }
  }

  function Copied(c: CopyState, step: Step): nat
    requires IsCopy(step) && CopyAct(c, step).Some?
  {
    c.stacks.main[if step.op.Over? then 1 else if step.op.Pick? then step.depth else 0]
  }

  function Deleted(c: CopyState, step: Step): nat
    requires IsDelete(step) && CopyAct(c, step).Some?
  {
    c.stacks.main[if step.op.Nip? then 1 else 0]
  }

  /** From here on, a token can gain at most the copy still due and lose at most the deletion still due. */
  lemma {:induction false} CountsAhead(c: CopyState, steps: seq<Step>, token: nat)
    requires CopyActAll(c, steps).Some?
    ensures var d := CopyActAll(c, steps).value;
            && Content(d)[token] <= Content(c)[token] + (if c.copied then 0 else 1)
            && Content(c)[token] <= Content(d)[token] + (if c.deleted then 0 else 1)
    decreases |steps|
  {
    if steps != [] {
      ContentStep(c, steps[0]);
      hide Act, Content, Copied, Deleted;
      CountsAhead(CopyAct(c, steps[0]).value, steps[1..], token);
    }
  }

  /** So far only the source token was copied and only the target token deleted. */
  ghost predicate OnTrack(c: CopyState, source: nat, target: nat) {
    && Content(c)[source] == (if c.copied then 2 else 1)
    && Content(c)[target] == (if c.deleted then 0 else 1)
  }

  lemma GoalCounts(source: nat, target: nat)
    requires source != target
    ensures Content(Goal(source, target))[source] == 2 && Content(Goal(source, target))[target] == 0
    ensures OnTrack(Initial(source, target), source, target)
  {
    var p := Identity(Window(source, target));
    CountOf(p, source);
    CountOf(p, target);
    assert p[source] == source && p[target] == target;
    ReplaceCount(p, target, source);
  }

  lemma ReplaceCount(p: seq<nat>, i: nat, x: nat)
    requires i < |p|
    ensures multiset(p[i := x]) == multiset(p) - multiset{p[i]} + multiset{x}
  {
  }

  /** A step that leads on to the goal copies only the source and deletes only the target. */
  lemma StepStaysOnTrack(c: CopyState, source: nat, target: nat, step: Step, rest: seq<Step>)
    requires source != target && OnTrack(c, source, target) && CopyAct(c, step).Some?
    requires CopyActAll(CopyAct(c, step).value, rest) == Some(Goal(source, target))
    ensures OnTrack(CopyAct(c, step).value, source, target)
    ensures IsCopy(step) ==> Copied(c, step) == source
    ensures IsDelete(step) ==> Deleted(c, step) == target
  {
    var d := CopyAct(c, step).value;
    ContentStep(c, step);
    GoalCounts(source, target);
    hide Act, Content, Copied, Deleted;
    CountsAhead(d, rest, source);
    CountsAhead(d, rest, target);
  }

  lemma SameCost(a: Step, b: Step)
    requires Encoded(a) == Encoded(b) && InstructionCount(a) == InstructionCount(b) &&
               TouchedDepth(a) == TouchedDepth(b)
    ensures forall cost: Cost :: Extend(cost, a) == Extend(cost, b)
  {
  }

  /** Any step on the way to the goal is free or has the effect and cost of one the search tries. */
  lemma CanonicalStep(c: CopyState, source: nat, target: nat, step: Step) returns (op: Option<Step>)
    requires CopyAct(c, step).Some?
    requires IsCopy(step) ==> Copied(c, step) == source
    requires IsDelete(step) ==> Deleted(c, step) == target
    ensures op.None? ==> CopyAct(c, step) == Some(c) && forall cost: Cost :: Extend(cost, step) == cost
    ensures op.Some? ==> IsAllowed(c, source, target, op.value) && CopyAct(c, op.value) == CopyAct(c, step)
    ensures op.Some? ==> forall cost: Cost :: Extend(cost, op.value) == Extend(cost, step)
  {
    hide Shuffle, NumberText, Extend, StepBytes, IsListed;
    if IsMove(step) {
      op := CanonicalMove(c.stacks.main, step);
      if op.Some? {
        ListedMove(|c.stacks.main|, op.value);
      }
    } else {
      op := Some(NamedStep(step));
      SameCost(op.value, step);
    }
  }

  lemma ListedMove(n: nat, op: Step)
    requires IsListed(n, op)
    ensures IsMove(op)
  {
  }

  /** A step written the way the search writes it. */
  function NamedStep(step: Step): Step {
    match step.op
    case Dup | Drop | ToAltStack | FromAltStack => Step(step.op, 0)
    case Over | Nip | Tuck => Step(step.op, 1)
    case Pick => PickStep(step.depth)
    case _ => step
  }

  // ----- the states form a finite graph -----

  ghost function Words(length: nat, tokens: nat): set<seq<nat>> {
    if length == 0 then {[]}
    else {[]} + set x, s | x in Elements(Identity(tokens)) && s in Words(length - 1, tokens) :: [x] + s
  }

  lemma {:induction false} WordsAre(length: nat, tokens: nat, s: seq<nat>)
    ensures s in Words(length, tokens) <==> |s| <= length && forall i :: 0 <= i < |s| ==> s[i] < tokens
    decreases length
  {
    if length > 0 {
      if s in Words(length, tokens) && s != [] {
        var x, t :| x in Elements(Identity(tokens)) && t in Words(length - 1, tokens) && s == [x] + t;
        WordsAre(length - 1, tokens, t);
        assert x in Identity(tokens);
      }
      if s != [] && |s| <= length && forall i :: 0 <= i < |s| ==> s[i] < tokens {
        WordsAre(length - 1, tokens, s[1..]);
        assert Identity(tokens)[s[0]] == s[0];
        assert s == [s[0]] + s[1..];
      }
    }
  }

  predicate Below(s: seq<nat>, bound: nat) {
    forall i :: 0 <= i < |s| ==> s[i] < bound
  }

  predicate IsState(c: CopyState, w: nat) {
    && Below(c.stacks.main, w) && Below(c.stacks.alt, w)
    && |c.stacks.main| + |c.stacks.alt| + (if c.deleted then 1 else 0) == w + (if c.copied then 1 else 0)
  }

  ghost function States(w: nat): set<CopyState> {
    set m, a, x, y | m in Words(w + 1, w) && a in Words(w + 1, w) && x in {true, false} && y in {true, false} &&
                     IsState(CopyState(Stacks(m, a), x, y), w)
      :: CopyState(Stacks(m, a), x, y)
  }

  lemma StatesAre(w: nat, c: CopyState)
    ensures c in States(w) <==> IsState(c, w)
  {
    if IsState(c, w) {
      WordsAre(w + 1, w, c.stacks.main);
      WordsAre(w + 1, w, c.stacks.alt);
      assert c == CopyState(Stacks(c.stacks.main, c.stacks.alt), c.copied, c.deleted);
    }
  }

  lemma ShuffleKeepsBelow(s: seq<nat>, step: Step, bound: nat)
    requires Below(s, bound) && Shuffle(s, step).Some?
    ensures Below(Shuffle(s, step).value, bound)
  {
    var r := Shuffle(s, step).value;
    ShuffleKeepsItems(s, step);
    forall i | 0 <= i < |r| ensures r[i] < bound {
      assert r[i] in multiset(r);
      assert r[i] in multiset(s);
    }
  }

  lemma ActKeepsState(c: CopyState, step: Step, w: nat)
    requires IsState(c, w) && CopyAct(c, step).Some?
    ensures IsState(CopyAct(c, step).value, w)
  {
    if IsMove(step) {
      ShuffleKeepsBelow(c.stacks.main, step, w);
    }
  }

  /** The text key under which the search files a state tells all states apart. */
  function CopyKey(c: CopyState): seq<nat> {
    [if c.copied then 1 else 0, if c.deleted then 1 else 0, |c.stacks.main|]
    + seq(|c.stacks.main|, i requires 0 <= i < |c.stacks.main| => c.stacks.main[i] + 1)
    + [|c.stacks.alt|]
    + seq(|c.stacks.alt|, i requires 0 <= i < |c.stacks.alt| => c.stacks.alt[i] + 1)
  }

  lemma CopyKeyIsInjective(a: CopyState, b: CopyState)
    requires CopyKey(a) == CopyKey(b)
    ensures a == b
  {
    var p, q := CopyKey(a), CopyKey(b);
    assert p[0] == q[0] && p[1] == q[1] && p[2] == q[2];
    var n := |a.stacks.main|;
    forall i | 0 <= i < n ensures a.stacks.main[i] == b.stacks.main[i] {
      assert p[3 + i] == q[3 + i];
    }
    assert a.stacks.main == b.stacks.main;
    assert p[3 + n] == |a.stacks.alt| && q[3 + n] == |b.stacks.alt|;
    forall i | 0 <= i < |a.stacks.alt| ensures a.stacks.alt[i] == b.stacks.alt[i] {
      assert p[4 + n + i] == q[4 + n + i];
    }
    assert a.stacks.alt == b.stacks.alt;
  }

  // ----- the sequence emitted without the planner -----

  function PickByteCost(depth: nat): nat {
    if depth <= 1 then 1 else EncodedByteSize(NumberText(depth)) + 1
  }

  function LegacyByteCost(source: nat, target: nat): nat
    requires source != target
  {
    if target < source then 2 * target + 1 + PickByteCost(source - target - 1)
    else if source == 0 && target == 1 then 2
    else PickByteCost(source) + 3 * target + 3
  }

  function Repeat(steps: seq<Step>, n: nat): seq<Step> {
    if n == 0 then [] else steps + Repeat(steps, n - 1)
  }

  function PickStep(depth: nat): Step {
    if depth == 0 then Step(Dup, 0) else if depth == 1 then Step(Over, 1) else Step(Pick, depth)
  }

  /** A solution within the byte cost of the sequence it replaces. */
  function PlainSteps(source: nat, target: nat): seq<Step>
    requires source != target
  {
    if target < source then
      Repeat([Step(ToAltStack, 0)], target) + [Step(Drop, 0), PickStep(source - target - 1)]
      + Repeat([Step(FromAltStack, 0)], target)
    else if source == 0 && target == 1 then [Step(Nip, 1), Step(Dup, 0)]
    else
      [PickStep(source)] + Repeat([Step(Swap, 1), Step(ToAltStack, 0)], target) + [Step(Nip, 1)]
      + Repeat([Step(FromAltStack, 0)], target)
  }

  lemma StackSplit<T>(m: seq<T>, k: nat)
    requires 0 < k <= |m|
    ensures Reversed(m[..k]) == Reversed(m[1..][..k - 1]) + [m[0]] && m[1..][k - 1..] == m[k..]
  {
    assert m[..k][1..] == m[1..][..k - 1];
  }

  lemma {:induction false} PutAside(c: CopyState, k: nat)
    requires k <= |c.stacks.main|
    ensures CopyActAll(c, Repeat([Step(ToAltStack, 0)], k)) ==
            Some(c.(stacks := Stacks(c.stacks.main[k..], Reversed(c.stacks.main[..k]) + c.stacks.alt)))
    decreases k
  {
    var m := c.stacks.main;
    if k > 0 {
      StackSplit(m, k);
      var d := c.(stacks := Stacks(m[1..], [m[0]] + c.stacks.alt));
      assert CopyAct(c, Step(ToAltStack, 0)) == Some(d);
      assert Repeat([Step(ToAltStack, 0)], k)[1..] == Repeat([Step(ToAltStack, 0)], k - 1);
      PutAside(d, k - 1);
      assert Reversed(m[..k]) + c.stacks.alt == Reversed(m[1..][..k - 1]) + d.stacks.alt;
    } else {
      assert Reversed(m[..0]) + c.stacks.alt == c.stacks.alt;
    }
  }

  /** As PutAside, but below the copy on top. */
  lemma {:induction false} PutAsideBelow(c: CopyState, k: nat)
    requires k + 1 <= |c.stacks.main|
    ensures CopyActAll(c, Repeat([Step(Swap, 1), Step(ToAltStack, 0)], k)) ==
            Some(c.(stacks := Stacks([c.stacks.main[0]] + c.stacks.main[k + 1..],
                                     Reversed(c.stacks.main[1..k + 1]) + c.stacks.alt)))
    decreases k
  {
    var m := c.stacks.main;
    var pair := [Step(Swap, 1), Step(ToAltStack, 0)];
    if k > 0 {
      var d := c.(stacks := Stacks([m[0]] + m[2..], [m[1]] + c.stacks.alt));
      SwapThenPutAside(c, Repeat(pair, k - 1));
      PutAsideBelow(d, k - 1);
      BelowSplit(m, k, c.stacks.alt);
    } else {
      assert [m[0]] + m[1..] == m && m[1..1] == [];
      NothingReversed(c.stacks.alt);
    }
  }

  lemma BelowSplit(m: seq<nat>, k: nat, alt: seq<nat>)
    requires 0 < k && k + 1 <= |m|
    ensures var rest := [m[0]] + m[2..];
            && rest[0] == m[0] && rest[k..] == m[k + 1..]
            && Reversed(m[1..k + 1]) + alt == Reversed(rest[1..k]) + ([m[1]] + alt)
  {
    var tail := m[1..];
    StackSplit(tail, k);
    assert tail[..k] == m[1..k + 1] && tail[1..][..k - 1] == ([m[0]] + m[2..])[1..k];
  }

  lemma SwapThenPutAside(c: CopyState, rest: seq<Step>)
    requires |c.stacks.main| >= 2
    ensures var m := c.stacks.main;
            CopyActAll(c, [Step(Swap, 1), Step(ToAltStack, 0)] + rest) ==
            CopyActAll(c.(stacks := Stacks([m[0]] + m[2..], [m[1]] + c.stacks.alt)), rest)
  {
    var m := c.stacks.main;
    var swapped := c.(stacks := Stacks([m[1], m[0]] + m[2..], c.stacks.alt));
    assert ([m[1], m[0]] + m[2..])[1..] == [m[0]] + m[2..];
    assert CopyAct(c, Step(Swap, 1)) == Some(swapped);
    assert CopyAct(swapped, Step(ToAltStack, 0)) == Some(c.(stacks := Stacks([m[0]] + m[2..], [m[1]] + c.stacks.alt)));
    hide CopyAct;
    var steps := [Step(Swap, 1), Step(ToAltStack, 0)] + rest;
    assert steps[1..] == [Step(ToAltStack, 0)] + rest && steps[1..][1..] == rest;
  }

  lemma NothingReversed<T>(s: seq<T>)
    ensures Reversed<T>([]) + s == s
  {
  }

  lemma {:induction false} BringBack(c: CopyState, top: seq<nat>, below: seq<nat>)
    requires c.stacks.alt == Reversed(top) + below
    ensures CopyActAll(c, Repeat([Step(FromAltStack, 0)], |top|)) ==
              Some(c.(stacks := Stacks(top + c.stacks.main, below)))
    decreases |top|
  {
    hide Reversed, CopyAct;
    var m := c.stacks.main;
    if top != [] {
      var init, last := top[..|top| - 1], top[|top| - 1];
      assert top == init + [last];
      ReversedSnoc(init, last);
      var d := c.(stacks := Stacks([last] + m, Reversed(init) + below));
      assert c.stacks.alt[1..] == Reversed(init) + below;
      TakeBack(c);
      assert Repeat([Step(FromAltStack, 0)], |top|)[1..] == Repeat([Step(FromAltStack, 0)], |init|);
      BringBack(d, init, below);
      assert init + ([last] + m) == top + m;
    } else {
      assert top + m == m;
      NothingReversed(below);
    }
  }

  lemma TakeBack(c: CopyState)
    requires c.stacks.alt != []
    ensures CopyAct(c, Step(FromAltStack, 0)) ==
            Some(c.(stacks := Stacks([c.stacks.alt[0]] + c.stacks.main, c.stacks.alt[1..])))
  {
  }

  lemma PickStepActs(c: CopyState, depth: nat)
    requires !c.copied && depth < |c.stacks.main|
    ensures CopyAct(c, PickStep(depth)) ==
            Some(CopyState(Stacks([c.stacks.main[depth]] + c.stacks.main, c.stacks.alt), true, c.deleted))
  {
  }

  lemma ShallowTarget(source: nat, target: nat)
    requires target < source
    ensures Solves(source, target, PlainSteps(source, target))
  {
    hide CopyAct, CopyActAll, Repeat;
    var c := Initial(source, target);
    var m := c.stacks.main;
    var middle := [Step(Drop, 0), PickStep(source - target - 1)];
    PutAside(c, target);
    var aside := c.(stacks := Stacks(m[target..], Reversed(m[..target])));
    assert Reversed(m[..target]) + [] == Reversed(m[..target]);
    var dropped := CopyState(Stacks(m[target + 1..], aside.stacks.alt), false, true);
    DropThenPick(aside, source - target - 1);
    assert m[target..][1..] == m[target + 1..];
    var picked := CopyState(Stacks([source] + m[target + 1..], aside.stacks.alt), true, true);
    assert Reversed(m[..target]) + [] == picked.stacks.alt;
    BringBack(picked, m[..target], []);
    assert m[..target] + picked.stacks.main == Goal(source, target).stacks.main;
    CopyConcat(c, Repeat([Step(ToAltStack, 0)], target), middle);
    CopyConcat(c, Repeat([Step(ToAltStack, 0)], target) + middle, Repeat([Step(FromAltStack, 0)], target));
  }

  lemma DropThenPick(c: CopyState, depth: nat)
    requires !c.copied && !c.deleted && depth + 1 < |c.stacks.main|
    ensures CopyActAll(c, [Step(Drop, 0), PickStep(depth)]) ==
            Some(CopyState(Stacks([c.stacks.main[depth + 1]] + c.stacks.main[1..], c.stacks.alt), true, true))
  {
    var d := CopyState(Stacks(c.stacks.main[1..], c.stacks.alt), false, true);
    assert CopyAct(c, Step(Drop, 0)) == Some(d);
    PickStepActs(d, depth);
    hide CopyAct, CopyActAll, PickStep;
    OneStep(c, Step(Drop, 0));
    OneStep(d, PickStep(depth));
    CopyConcat(c, [Step(Drop, 0)], [PickStep(depth)]);
    assert [Step(Drop, 0)] + [PickStep(depth)] == [Step(Drop, 0), PickStep(depth)];
  }

  lemma OneStep(c: CopyState, step: Step)
    ensures CopyActAll(c, [step]) == CopyAct(c, step)
  {
    hide CopyAct;
    match CopyAct(c, step) {
      case None =>
      case Some(d) => assert CopyActAll(d, [step][1..]) == Some(d);
    }
  }

  lemma DeepTarget(source: nat, target: nat)
    requires source < target && !(source == 0 && target == 1)
    ensures Solves(source, target, PlainSteps(source, target))
  {
    hide CopyActAll, Repeat, PickStep;
    var c := Initial(source, target);
    var m := c.stacks.main;
    var aside := Repeat([Step(Swap, 1), Step(ToAltStack, 0)], target);
    var back := Repeat([Step(FromAltStack, 0)], target);
    PickStepActs(c, source);
    OneStep(c, PickStep(source));
    var picked := CopyState(Stacks([source] + m, []), true, false);
    PutAsideBelow(picked, target);
    assert picked.stacks.main[1..target + 1] == m[..target];
    assert Reversed(m[..target]) + [] == Reversed(m[..target]);
    var moved := CopyState(Stacks([source, target], Reversed(m[..target])), true, false);
    assert [picked.stacks.main[0]] + picked.stacks.main[target + 1..] == [source, target];
    OneStep(moved, Step(Nip, 1));
    var clean := CopyState(Stacks([source], Reversed(m[..target])), true, true);
    assert [source] + moved.stacks.main[2..] == [source];
    assert CopyAct(moved, Step(Nip, 1)) == Some(clean);
    assert clean.stacks.alt == Reversed(m[..target]) + [];
    BringBack(clean, m[..target], []);
    assert m[..target] + [source] == Goal(source, target).stacks.main;
    CopyConcat(c, [PickStep(source)], aside);
    CopyConcat(c, [PickStep(source)] + aside, [Step(Nip, 1)]);
    CopyConcat(c, [PickStep(source)] + aside + [Step(Nip, 1)], back);
  }

  lemma PlainStepsSolve(source: nat, target: nat)
    requires source != target
    ensures Solves(source, target, PlainSteps(source, target))
  {
    hide CopyActAll, Repeat, PickStep;
    if target < source {
      ShallowTarget(source, target);
    } else if source == 0 && target == 1 {
      var c := Initial(0, 1);
      assert c.stacks.main == [0, 1];
      var d := CopyState(Stacks([0], []), false, true);
      assert [0] + c.stacks.main[2..] == [0];
      assert CopyAct(c, Step(Nip, 1)) == Some(d);
      assert Goal(0, 1).stacks.main == [0, 0];
      assert [0] + d.stacks.main == [0, 0];
      assert CopyAct(d, Step(Dup, 0)) == Some(Goal(0, 1));
      OneStep(c, Step(Nip, 1));
      OneStep(d, Step(Dup, 0));
      CopyConcat(c, [Step(Nip, 1)], [Step(Dup, 0)]);
      assert [Step(Nip, 1)] + [Step(Dup, 0)] == PlainSteps(0, 1);
    } else {
      DeepTarget(source, target);
    }
  }

  lemma {:induction false} BytesOfCost(c: Cost, steps: seq<Step>)
    ensures CostFrom(c, steps).bytes == c.bytes + Bytes(steps)
    decreases |steps|
  {
    hide StepBytes;
    if steps != [] {
      BytesOfCost(Extend(c, steps[0]), steps[1..]);
    }
  }

  lemma {:induction false} BytesConcat(a: seq<Step>, b: seq<Step>)
    ensures Bytes(a + b) == Bytes(a) + Bytes(b)
  {
    hide StepBytes;
    if a == [] {
      assert a + b == b;
    } else {
      assert (a + b)[1..] == a[1..] + b;
      BytesConcat(a[1..], b);
    }
  }

  lemma {:induction false} BytesRepeat(steps: seq<Step>, n: nat)
    ensures Bytes(Repeat(steps, n)) == n * Bytes(steps)
  {
    hide StepBytes, Bytes;
    if n == 0 {
      NoBytes();
    } else {
      BytesRepeat(steps, n - 1);
      BytesConcat(steps, Repeat(steps, n - 1));
    }
  }

  lemma NoBytes()
    ensures Bytes([]) == 0
  {
  }

  lemma PickStepBytes(depth: nat)
    ensures StepBytes(PickStep(depth)) == PickByteCost(depth)
  {
    if depth >= 2 {
      var es := Encoded(PickStep(depth));
      assert es[1..] == [es[1]] && es[1..][1..] == [];
      assert TextBytes(es[1..]) == 1;
    }
  }

  lemma PlainStepsCost(source: nat, target: nat)
    requires source != target
    ensures CostOf(PlainSteps(source, target)).bytes <= LegacyByteCost(source, target)
  {
    hide StepBytes, Bytes, Repeat, PickStep, PickByteCost, CostFrom;
    BytesOfCost(ZERO, PlainSteps(source, target));
    SingleBytes(Step(ToAltStack, 0));
    SingleBytes(Step(FromAltStack, 0));
    SingleBytes(Step(Drop, 0));
    SingleBytes(Step(Nip, 1));
    SingleBytes(Step(Dup, 0));
    SingleBytes(Step(Swap, 1));
    BytesRepeat([Step(FromAltStack, 0)], target);
    var back := Repeat([Step(FromAltStack, 0)], target);
    if target < source {
      var pick := PickStep(source - target - 1);
      SingleBytes(pick);
      PickStepBytes(source - target - 1);
      var aside := Repeat([Step(ToAltStack, 0)], target);
      BytesRepeat([Step(ToAltStack, 0)], target);
      BytesConcat([Step(Drop, 0)], [pick]);
      assert [Step(Drop, 0)] + [pick] == [Step(Drop, 0), pick];
      BytesConcat(aside, [Step(Drop, 0), pick]);
      BytesConcat(aside + [Step(Drop, 0), pick], back);
    } else if source == 0 && target == 1 {
      BytesConcat([Step(Nip, 1)], [Step(Dup, 0)]);
      assert [Step(Nip, 1)] + [Step(Dup, 0)] == PlainSteps(0, 1);
    } else {
      var pick := PickStep(source);
      SingleBytes(pick);
      PickStepBytes(source);
      var pair := [Step(Swap, 1), Step(ToAltStack, 0)];
      var aside := Repeat(pair, target);
      BytesConcat([Step(Swap, 1)], [Step(ToAltStack, 0)]);
      assert [Step(Swap, 1)] + [Step(ToAltStack, 0)] == pair;
      BytesRepeat(pair, target);
      BytesConcat([pick], aside);
      BytesConcat([pick] + aside, [Step(Nip, 1)]);
      BytesConcat([pick] + aside + [Step(Nip, 1)], back);
    }
  }
}
