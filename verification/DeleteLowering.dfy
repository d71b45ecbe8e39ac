/** Lowering of Delete: the compile-time stacks are edited while the code that does the same at run time is emitted. */
module DeleteLowering {
  import opened Wrappers
  import opened CondMachine
  import opened ScriptVm
  import opened PeepholeRules
  import opened Permutations
  import opened Sorting
  import opened StackSteps
  import opened StackOnVm

  // ----- emitted code -----

  datatype Piece = One(step: Step) | TwoDrop

  function Effect(p: Piece): seq<Step> {
    match p
    case One(step) => [step]
    case TwoDrop => [Step(Drop, 0), Step(Drop, 0)]
  }

  function StepsOf(code: seq<Piece>): seq<Step> {
    if code == [] then [] else Effect(code[0]) + StepsOf(code[1..])
  }

  function PieceText(p: Piece): seq<string> {
    match p
    case One(step) => Encoded(step)
    case TwoDrop => [OpHex(OP_2DROP)]
  }

  function CodeText(code: seq<Piece>): seq<string> {
    if code == [] then [] else PieceText(code[0]) + CodeText(code[1..])
  }

  /** rollDropHex: the shortest code that removes the item at a depth. */
  function RollDrop(depth: nat): seq<Piece> {
    if depth == 0 then [One(Step(Drop, 0))]
    else if depth == 1 then [One(Step(Nip, 1))]
    else [One(Step(Roll, depth)), One(Step(Drop, 0))]
  }

  lemma {:induction false} StepsOfConcat(a: seq<Piece>, b: seq<Piece>)
    ensures StepsOf(a + b) == StepsOf(a) + StepsOf(b)
  {
    if a == [] {
      assert a + b == b;
    } else {
      assert (a + b)[1..] == a[1..] + b;
      StepsOfConcat(a[1..], b);
    }
  }

  lemma RunOneStep<T>(s: Stacks<T>, step: Step)
    ensures ActAll(s, [step]) == Act(s, step)
  {
    hide Act;
    assert [step][1..] == [];
    match Act(s, step) {
      case None =>
      case Some(t) => assert ActAll(t, []) == Some(t);
    }
  }

  lemma RunTwoSteps<T>(s: Stacks<T>, a: Step, b: Step)
    requires Act(s, a).Some?
    ensures ActAll(s, [a, b]) == Act(Act(s, a).value, b)
  {
    hide Act;
    assert [a, b][1..] == [b];
    RunOneStep(Act(s, a).value, b);
  }

  /** No depth in the code exceeds the bound. */
  predicate Shallow(code: seq<Piece>, bound: nat) {
    forall i :: 0 <= i < |code| && code[i].One? ==> code[i].step.depth <= bound
  }

  // ----- survivors -----

  /** The slots that stay, in their order. */
  function Keep(s: seq<nat>, gone: set<nat>): (r: seq<nat>)
    ensures forall x :: x in r <==> x in s && x !in gone
  {
    if s == [] then [] else (if s[0] in gone then [] else [s[0]]) + Keep(s[1..], gone)
  }

  function Positions(s: seq<nat>, gone: set<nat>): set<nat> {
    set p | p in Elements(Identity(|s|)) && s[p] in gone
  }

  lemma PositionsAre(s: seq<nat>, gone: set<nat>, p: nat)
    ensures p in Positions(s, gone) <==> p < |s| && s[p] in gone
  {
    if p < |s| {
      assert Identity(|s|)[p] == p;
    }
  }

  lemma {:induction false} KeepConcat(a: seq<nat>, b: seq<nat>, gone: set<nat>)
    ensures Keep(a + b, gone) == Keep(a, gone) + Keep(b, gone)
  {
    if a == [] {
      assert a + b == b;
    } else {
      assert (a + b)[1..] == a[1..] + b;
      KeepConcat(a[1..], b, gone);
    }
  }

  lemma {:induction false} KeepAll(s: seq<nat>, gone: set<nat>)
    requires forall i :: 0 <= i < |s| ==> s[i] !in gone
    ensures Keep(s, gone) == s
  {
    if s != [] {
      KeepAll(s[1..], gone);
    }
  }

  lemma {:induction false} KeepIsDistinct(s: seq<nat>, gone: set<nat>)
    requires Distinct(s)
    ensures Distinct(Keep(s, gone))
  {
    if s != [] {
      KeepIsDistinct(s[1..], gone);
    }
  }

  lemma NothingLeftToRemove(s: seq<nat>, gone: set<nat>)
    requires Positions(s, gone) == {}
    ensures Keep(s, gone) == s
  {
    forall i | 0 <= i < |s| ensures s[i] !in gone {
      PositionsAre(s, gone, i);
    }
    KeepAll(s, gone);
  }

  /** Positions above a removed one move down. */
  function Shift(p: nat, q: nat): nat {
    if q > p then q - 1 else q
  }

  function ShiftSet(p: nat, positions: set<nat>): set<nat> {
    set q | q in positions :: Shift(p, q)
  }

  function ShiftAll(p: nat, items: seq<nat>): (r: seq<nat>)
    ensures |r| == |items|
  {
    seq(|items|, i requires 0 <= i < |items| => Shift(p, items[i]))
  }

  lemma RemoveDoomed(s: seq<nat>, gone: set<nat>, p: nat)
    requires p < |s| && s[p] in gone
    ensures Keep(Remove(s, p), gone) == Keep(s, gone)
  {
    hide Keep;
    KeepConcat(s[..p], s[p..], gone);
    KeepConcat(s[..p], s[p + 1..], gone);
    assert s[..p] + s[p..] == s;
    DoomedHead(s[p..], gone);
    assert s[p..][1..] == s[p + 1..];
  }

  lemma DoomedHead(s: seq<nat>, gone: set<nat>)
    requires s != [] && s[0] in gone
    ensures Keep(s, gone) == Keep(s[1..], gone)
  {
  }

  /** Where the other doomed slots are once one is removed. */
  lemma RemainingPositions(s: seq<nat>, gone: set<nat>, p: nat)
    requires p in Positions(s, gone)
    ensures p < |s| && Positions(Remove(s, p), gone) == ShiftSet(p, Positions(s, gone) - {p})
  {
    PositionsAre(s, gone, p);
    var t := Remove(s, p);
    hide Positions;
    forall q: nat ensures q in Positions(t, gone) <==> q in ShiftSet(p, Positions(s, gone) - {p}) {
      PositionsAre(t, gone, q);
      PositionsAre(s, gone, q);
      PositionsAre(s, gone, q + 1);
      ShiftedMember(p, Positions(s, gone), q);
      if q < |t| {
        assert t[q] == if q < p then s[q] else s[q + 1];
      }
    }
  }

  lemma ShiftedMember(p: nat, positions: set<nat>, q: nat)
    ensures q in ShiftSet(p, positions - {p}) <==> if q < p then q in positions else q + 1 in positions
  {
    if q < p {
      assert Shift(p, q) == q;
    } else {
      assert Shift(p, q + 1) == q;
    }
  }

  /** The list of targets names exactly the doomed positions, each once. */
  ghost predicate Tracks(items: seq<nat>, positions: set<nat>, s: seq<nat>, gone: set<nat>) {
    Distinct(items) && Elements(items) == positions && positions == Positions(s, gone)
  }

  lemma {:induction false} KeepOne(items: seq<nat>, p: nat)
    requires Distinct(items) && p in items
    ensures |Keep(items, {p})| == |items| - 1
  {
    if items[0] == p {
      assert forall i :: 0 <= i < |items[1..]| ==> items[1..][i] != p;
      KeepAll(items[1..], {p});
    } else {
      KeepOne(items[1..], p);
    }
  }

  lemma ShiftKeepsDistinct(items: seq<nat>, p: nat)
    requires Distinct(items) && p !in items
    ensures Distinct(ShiftAll(p, items))
  {
    forall i, j | 0 <= i < j < |items| ensures ShiftAll(p, items)[i] != ShiftAll(p, items)[j] {
      assert items[i] in items && items[j] in items;
    }
  }

  lemma ShiftElements(items: seq<nat>, p: nat)
    ensures Elements(ShiftAll(p, items)) == ShiftSet(p, Elements(items))
  {
    var shifted := ShiftAll(p, items);
    forall q: nat ensures q in Elements(shifted) <==> q in ShiftSet(p, Elements(items)) {
      if q in shifted {
        var i :| 0 <= i < |shifted| && shifted[i] == q;
        assert items[i] in Elements(items) && Shift(p, items[i]) == q;
      }
      if q in ShiftSet(p, Elements(items)) {
        var r :| r in Elements(items) && Shift(p, r) == q;
        var i :| 0 <= i < |items| && items[i] == r;
        assert shifted[i] == q;
      }
    }
  }

  /** Dropping one target from the list and renumbering the rest follows the removal of its slot. */
  lemma TrackRemoval(items: seq<nat>, positions: set<nat>, s: seq<nat>, gone: set<nat>, p: nat)
    requires Tracks(items, positions, s, gone) && p in positions
    ensures p < |s| && Tracks(ShiftAll(p, Keep(items, {p})), ShiftSet(p, positions - {p}), Remove(s, p), gone)
    ensures Keep(Remove(s, p), gone) == Keep(s, gone)
    ensures |Keep(items, {p})| == |items| - 1
  {
    hide Keep, Positions, ShiftSet;
    PositionsAre(s, gone, p);
    RemoveDoomed(s, gone, p);
    RemainingPositions(s, gone, p);
    assert p in Elements(items);
    KeepOne(items, p);
    var kept := Keep(items, {p});
    KeepIsDistinct(items, {p});
    ShiftKeepsDistinct(kept, p);
    ShiftElements(kept, p);
    assert Elements(kept) == positions - {p};
  }

  // ----- looking slots up by name -----

  /** The nearest slot of that name; one further down may belong to a shadowed variable. */
  function Find(s: seq<string>, name: string): (r: Option<nat>)
    ensures r.Some? ==> r.value < |s| && s[r.value] == name && name !in s[..r.value]
    ensures r.None? ==> name !in s
  {
    if s == [] then None
    else if s[0] == name then Some(0)
    else
      match Find(s[1..], name)
      case None => None
      case Some(i) =>
        assert s[..i + 1] == [s[0]] + s[1..][..i];
        Some(i + 1)
  }

  /** Renumbering after two removals at once, the top and the one at high. */
  function ShiftTwo(high: nat, q: nat): nat {
    if q > high && q >= 2 then q - 2 else if q > 0 then q - 1 else q
  }

  function ShiftTwoAll(high: nat, items: seq<nat>): (r: seq<nat>)
    ensures |r| == |items|
  {
    seq(|items|, i requires 0 <= i < |items| => ShiftTwo(high, items[i]))
  }

  function ShiftTwoSet(high: nat, positions: set<nat>): set<nat> {
    set q | q in positions :: ShiftTwo(high, q)
  }

  lemma KeepCons(x: nat, t: seq<nat>, gone: set<nat>)
    ensures Keep([x] + t, gone) == if x in gone then Keep(t, gone) else [x] + Keep(t, gone)
  {
    assert ([x] + t)[1..] == t;
  }

  lemma ConsFacts(x: nat, t: seq<nat>, p: nat, gone: set<nat>)
    ensures Keep([x] + t, gone) == if x in gone then Keep(t, gone) else [x] + Keep(t, gone)
    ensures ShiftAll(p, [x] + t) == [Shift(p, x)] + ShiftAll(p, t)
    ensures ShiftTwoAll(p, [x] + t) == [ShiftTwo(p, x)] + ShiftTwoAll(p, t)
  {
    hide Keep, Shift, ShiftTwo;
    KeepCons(x, t, gone);
  }

  lemma {:induction false} TwoListShifts(items: seq<nat>, high: nat)
    requires high > 0
    ensures ShiftAll(0, Keep(ShiftAll(high, Keep(items, {high})), {0})) == ShiftTwoAll(high, Keep(items, {0, high}))
  {
    if items != [] {
      TwoListShifts(items[1..], high);
      TwoListShiftsStep(items[0], items[1..], high);
      assert items == [items[0]] + items[1..];
    }
  }

  lemma TwoListShiftsStep(x: nat, rest: seq<nat>, high: nat)
    requires high > 0
    requires ShiftAll(0, Keep(ShiftAll(high, Keep(rest, {high})), {0})) == ShiftTwoAll(high, Keep(rest, {0, high}))
    ensures ShiftAll(0, Keep(ShiftAll(high, Keep([x] + rest, {high})), {0})) ==
            ShiftTwoAll(high, Keep([x] + rest, {0, high}))
  {
    hide Keep, ShiftAll, ShiftTwoAll, Shift, ShiftTwo;
    ConsFacts(x, rest, high, {high});
    ConsFacts(x, rest, high, {0, high});
    ShiftedTwice(high, x);
    if x != high {
      var one := Keep(rest, {high});
      ConsFacts(x, one, high, {});
      ConsFacts(Shift(high, x), ShiftAll(high, one), 0, {0});
      if x != 0 {
        ConsFacts(Shift(high, x), Keep(ShiftAll(high, one), {0}), 0, {});
        ConsFacts(x, Keep(rest, {0, high}), high, {});
      }
    }
  }

  lemma ShiftedTwice(high: nat, x: nat)
    requires high > 0
    ensures x != high ==> (Shift(high, x) == 0 <==> x == 0)
    ensures x != high && x != 0 ==> Shift(0, Shift(high, x)) == ShiftTwo(high, x)
  {
  }

  lemma TwoSetShifts(positions: set<nat>, high: nat)
    requires high > 0
    ensures ShiftSet(0, ShiftSet(high, positions - {high}) - {0}) == ShiftTwoSet(high, positions - {0, high})
  {
    var left, right := ShiftSet(0, ShiftSet(high, positions - {high}) - {0}), ShiftTwoSet(high, positions - {0, high});
    forall r: nat | r in positions - {0, high}
      ensures Shift(0, Shift(high, r)) == ShiftTwo(high, r)
      ensures Shift(high, r) in ShiftSet(high, positions - {high}) - {0}
    {
    }
    forall q: nat ensures q in left <==> q in right {
      if q in left {
        var m :| m in ShiftSet(high, positions - {high}) - {0} && Shift(0, m) == q;
        var r :| r in positions - {high} && Shift(high, r) == m;
        assert r in positions - {0, high};
      }
      if q in right {
        var r :| r in positions - {0, high} && ShiftTwo(high, r) == q;
        assert Shift(0, Shift(high, r)) == q;
      }
    }
  }

  /** Removing the top and the slot at high in one go. */
  lemma TrackPair(items: seq<nat>, positions: set<nat>, s: seq<nat>, gone: set<nat>, high: nat)
    requires Tracks(items, positions, s, gone) && 0 in positions && high in positions && high > 0
    ensures high < |s|
    ensures Tracks(ShiftTwoAll(high, Keep(items, {0, high})), ShiftTwoSet(high, positions - {0, high}),
                   Remove(s, high)[1..], gone)
    ensures Keep(Remove(s, high)[1..], gone) == Keep(s, gone)
    ensures |Keep(items, {0, high})| == |items| - 2
  {
    hide Tracks, Keep, ShiftSet, ShiftTwoSet;
    TrackRemoval(items, positions, s, gone, high);
    var items1, positions1 := ShiftAll(high, Keep(items, {high})), ShiftSet(high, positions - {high});
    var s1 := Remove(s, high);
    assert 0 in positions1 by { ShiftedMember(high, positions, 0); }
    TrackRemoval(items1, positions1, s1, gone, 0);
    assert Remove(s1, 0) == s1[1..];
    TwoListShifts(items, high);
    TwoSetShifts(positions, high);
  }

  lemma {:induction false} HeadRemoved(items: seq<nat>)
    requires items != [] && Distinct(items)
    ensures Keep(items, {items[0]}) == items[1..]
  {
    assert forall i :: 0 <= i < |items[1..]| ==> items[1..][i] != items[0];
    KeepAll(items[1..], {items[0]});
  }

  function Insert(x: nat, s: seq<nat>): (r: seq<nat>)
    ensures multiset(r) == multiset(s) + multiset{x}
  {
    if s == [] then [x]
    else if x >= s[0] then [x] + s
    else
      assert s == [s[0]] + s[1..];
      [s[0]] + Insert(x, s[1..])
  }

  /** Deepest first, as the sort before the struct loop leaves them. */
  function Descending(s: seq<nat>): (r: seq<nat>)
    ensures multiset(r) == multiset(s)
  {
    if s == [] then []
    else
      assert s == [s[0]] + s[1..];
      Insert(s[0], Descending(s[1..]))
  }

  predicate IsDescending(s: seq<nat>) {
    forall i, j :: 0 <= i < j < |s| ==> s[i] >= s[j]
  }

  lemma {:induction false} InsertKeepsOrder(x: nat, s: seq<nat>)
    requires IsDescending(s)
    ensures IsDescending(Insert(x, s))
  {
    if s != [] && x < s[0] {
      InsertKeepsOrder(x, s[1..]);
      var r := Insert(x, s[1..]);
      forall j | 0 <= j < |r| ensures s[0] >= r[j] {
        assert r[j] in multiset(r);
        assert r[j] in multiset(s[1..]) + multiset{x};
      }
    }
  }

  lemma {:induction false} DescendingIsSorted(s: seq<nat>)
    ensures IsDescending(Descending(s))
  {
    if s != [] {
      DescendingIsSorted(s[1..]);
      InsertKeepsOrder(s[0], Descending(s[1..]));
    }
  }

  /** Each target at its own depth, one after the other. */
  function RollDrops(items: seq<nat>): seq<Piece> {
    if items == [] then [] else RollDrop(items[0]) + RollDrops(items[1..])
  }

  /** Removing the deepest target moves none of the others. */
  lemma DeepestMovesNone(items: seq<nat>, before: seq<Piece>)
    requires items != [] && DeepOnly(items)
    ensures var rest := ShiftAll(items[0], items[1..]);
            && rest == items[1..] && DeepOnly(rest)
            && before + RollDrop(items[0]) + RollDrops(rest) == before + RollDrops(items)
  {
    hide RollDrop;
    assert ShiftAll(items[0], items[1..]) == items[1..];
  }

  lemma AllDropped(code: seq<Piece>)
    ensures code + RollDrops([]) == code
  {
  }

  /** Deepest first, and none of them one of the two top slots. */
  predicate DeepOnly(items: seq<nat>) {
    IsDescending(items) && forall i :: 0 <= i < |items| ==> items[i] >= 2
  }

  lemma DeepTargets(targets: seq<nat>, items: seq<nat>)
    requires items == Descending(targets) && Elements(items) == Elements(targets) && 0 !in targets && 1 !in targets
    ensures DeepOnly(items)
  {
    hide Descending;
    DescendingIsSorted(targets);
    forall i | 0 <= i < |items| ensures items[i] >= 2 {
      assert items[i] in Elements(targets);
    }
  }

  lemma NoneOnTop(items: seq<nat>)
    requires DeepOnly(items)
    ensures 0 !in Elements(items) && 1 !in Elements(items)
  {
  }

  lemma RearrangedTargets(a: seq<nat>, b: seq<nat>)
    requires multiset(a) == multiset(b) && Distinct(a)
    ensures Distinct(b) && Elements(b) == Elements(a)
  {
    forall x: nat ensures x in Elements(a) <==> x in Elements(b) {
      assert x in multiset(a) <==> x in a;
      assert x in multiset(b) <==> x in b;
    }
    forall i, j | 0 <= i < j < |b| ensures b[i] != b[j] {
      assert b[i] in multiset(a);
      CountOf(a, b[i]);
      SplitAt(b, i);
      assert Remove(b, i)[j - 1] == b[j];
      assert b[j] in multiset(Remove(b, i));
    }
  }

  function MoveCost(depth: nat): nat {
    if depth <= 16 then 1 else if depth <= 255 then 2 else if depth <= 65535 then 3 else 5
  }

  lemma MoveCostGrows(a: nat, b: nat)
    ensures a <= b ==> MoveCost(a) <= MoveCost(b)
  {
  }

  /** The other target that is cheapest to bring up, and the nearest such. */
  method BestPartner(positions: set<nat>) returns (best: Option<nat>)
    ensures best.None? <==> positions <= {0}
    ensures best.Some? ==> best.value in positions && best.value != 0
    ensures best.Some? ==> forall p :: p in positions && p != 0 ==>
              best.value <= p && MoveCost(best.value) <= MoveCost(p)
  {
    hide Ahead, BestSoFar;
    best := None;
    var rest: set<nat> := positions;
    ghost var done: set<nat> := {};
    NothingTried(positions);
    while rest != {}
      invariant positions == done + rest && Ahead(done, rest) && BestSoFar(best, done)
      decreases |rest|
    {
      HasLeast(rest);
      var pos :| pos in rest && IsLeast(pos, rest);
      TryNext(best, done, rest, pos);
      if pos != 0 && (best.None? || MoveCost(pos) + 1 + 1 < MoveCost(best.value) + 1 + 1) {
        best := Some(pos);
      }
      rest := rest - {pos};
      done := done + {pos};
    }
    NoneLeftToTry(best, positions);
  }

  ghost predicate Ahead(done: set<nat>, rest: set<nat>) {
    forall p, q :: p in done && q in rest ==> p < q
  }

  ghost predicate BestSoFar(best: Option<nat>, done: set<nat>) {
    && (best.None? <==> done <= {0})
    && (best.Some? ==> best.value in done && best.value != 0 && forall p :: p in done && p != 0 ==> best.value <= p)
  }

  lemma NothingTried(positions: set<nat>)
    ensures Ahead({}, positions) && BestSoFar(None, {})
  {
  }

  /** Costs grow with depth, so among positions tried in ascending order the first one stays. */
  lemma TryNext(best: Option<nat>, done: set<nat>, rest: set<nat>, pos: nat)
    requires Ahead(done, rest) && BestSoFar(best, done) && IsLeast(pos, rest)
    ensures Ahead(done + {pos}, rest - {pos})
    ensures best.Some? ==> MoveCost(best.value) <= MoveCost(pos) && BestSoFar(best, done + {pos})
    ensures best.None? ==> BestSoFar(if pos == 0 then None else Some(pos), done + {pos})
  {
    if best.Some? {
      MoveCostGrows(best.value, pos);
    }
  }

  lemma NoneLeftToTry(best: Option<nat>, positions: set<nat>)
    requires BestSoFar(best, positions)
    ensures best.None? <==> positions <= {0}
    ensures best.Some? ==> best.value in positions && best.value != 0
    ensures best.Some? ==> forall p :: p in positions && p != 0 ==>
              best.value <= p && MoveCost(best.value) <= MoveCost(p)
  {
    forall p | best.Some? && p in positions && p != 0 ensures MoveCost(best.value) <= MoveCost(p) {
      MoveCostGrows(best.value, p);
    }
  }

  // ----- the two stacks during a Delete -----

  class Lowering {
    var main: seq<string>
    var alt: seq<string>
    var result: seq<Piece>
    ghost const names: seq<string>
    ghost const start: Stacks<nat>
    /** Which of the original slots the stacks hold now. */
    ghost var slots: Stacks<nat>

    /** The code emitted so far takes the original slots to where the compile-time stacks have them. */
    ghost predicate Valid()
      reads this
    {
      && ActAll(start, StepsOf(result)) == Some(slots)
      && Mirrors(names, slots.main, [], main) && Mirrors(names, slots.alt, [], alt)
      && |slots.main| == |main| && |slots.alt| == |alt|
      && |main| + |alt| <= |names| && Shallow(result, |names|)
    }

    constructor (main: seq<string>, alt: seq<string>)
      ensures Valid() && this.main == main && this.alt == alt && result == []
      ensures names == main + alt
      ensures start == Stacks(Identity(|main|), AltSlots(main, alt))
      ensures slots == start
    {
      this.main, this.alt, result := main, alt, [];
      names := main + alt;
      start := Stacks(Identity(|main|), AltSlots(main, alt));
      slots := Stacks(Identity(|main|), AltSlots(main, alt));
    }

    // ----- edits of the compile-time main stack alone -----

    method Pop()
      requires main != []
      modifies `main
      ensures main == old(main)[1..]
    {
      main := main[1..];
    }

    method RollMain(depth: nat)
      requires depth < |main|
      modifies `main
      ensures main == RollUp(old(main), depth).value
    {
      var item := main[depth];
      main := main[..depth] + main[depth + 1..];
      main := [item] + main;
      assert main == [item] + old(main)[..depth] + old(main)[depth + 1..];
    }

    // ----- code emitted together with the edit it stands for -----

    /** Bookkeeping: the code just appended takes the slots to next. */
    ghost method Follow(before: seq<Piece>, code: seq<Piece>, next: Stacks<nat>)
      requires ActAll(start, StepsOf(before)) == Some(slots) && result == before + code
      requires ActAll(slots, StepsOf(code)) == Some(next)
      requires |main| + |alt| <= |names| && Shallow(before, |names|) && Shallow(code, |names|)
      requires Mirrors(names, next.main, [], main) && Mirrors(names, next.alt, [], alt)
      modifies `slots
      ensures Valid() && slots == next
    {
      hide Act, ActAll;
      assert |next.main| == |main| && |next.alt| == |alt|;
      StepsOfConcat(before, code);
      ActConcat(start, StepsOf(before), StepsOf(code));
      slots := next;
    }

    method EmitDrop()
      requires Valid() && main != []
      modifies `main, `result, `slots
      ensures Valid() && result == old(result) + [One(Step(Drop, 0))]
      ensures slots == old(slots).(main := old(slots.main)[1..])
    {
      hide StepsOf;
      ghost var before, at := result, slots;
      result := result + [One(Step(Drop, 0))];
      PopMirrors(names, at.main, [], main);
      Pop();
      CodeSteps();
      RunOneStep(at, Step(Drop, 0));
      Follow(before, [One(Step(Drop, 0))], at.(main := at.main[1..]));
    }

    method EmitTwoDrop()
      requires Valid() && |main| >= 2
      modifies `main, `result, `slots
      ensures Valid() && result == old(result) + [TwoDrop]
      ensures slots == old(slots).(main := old(slots.main)[2..])
    {
      hide StepsOf;
      ghost var before, at := result, slots;
      result := result + [TwoDrop];
      PopMirrors(names, at.main, [], main);
      PopMirrors(names, at.main[1..], [], main[1..]);
      Pop();
      Pop();
      CodeSteps();
      RunTwoSteps(at, Step(Drop, 0), Step(Drop, 0));
      Follow(before, [TwoDrop], at.(main := at.main[2..]));
    }

    /** OP_NIP is simulated as a roll and a pop. */
    method EmitNip()
      requires Valid() && |main| >= 2
      modifies `main, `result, `slots
      ensures Valid() && result == old(result) + [One(Step(Nip, 1))]
      ensures slots == old(slots).(main := Remove(old(slots.main), 1))
    {
      hide StepsOf;
      ghost var before, at := result, slots;
      result := result + [One(Step(Nip, 1))];
      RollMirrors(names, at.main, [], main, 1);
      PopMirrors(names, RollUp(at.main, 1).value, [], RollUp(main, 1).value);
      RollMain(1);
      Pop();
      CodeSteps();
      RunOneStep(at, Step(Nip, 1));
      RollThenPop(at.main, 1);
      Follow(before, [One(Step(Nip, 1))], at.(main := Remove(at.main, 1)));
    }

    method EmitRollDrop(depth: nat)
      requires Valid() && 2 <= depth < |main|
      modifies `main, `result, `slots
      ensures Valid() && result == old(result) + RollDrop(depth)
      ensures slots == old(slots).(main := Remove(old(slots.main), depth))
    {
      hide StepsOf;
      ghost var before, at := result, slots;
      result := result + RollDrop(depth);
      RollMirrors(names, at.main, [], main, depth);
      PopMirrors(names, RollUp(at.main, depth).value, [], RollUp(main, depth).value);
      RollMain(depth);
      Pop();
      RollDropSteps(depth);
      RunTwoSteps(at, Step(Roll, depth), Step(Drop, 0));
      RollThenPop(at.main, depth);
      Follow(before, RollDrop(depth), at.(main := Remove(at.main, depth)));
    }

    /** A partner is rolled to the top, and the old top has become second: one 2DROP removes both. */
    method EmitPairDrop(partner: nat)
      requires Valid() && 0 < partner < |main|
      modifies `main, `result, `slots
      ensures Valid() && result == old(result) + [One(Step(Roll, partner)), TwoDrop]
      ensures slots == old(slots).(main := Remove(old(slots.main), partner)[1..])
    {
      hide StepsOf;
      ghost var before, at := result, slots;
      var code := [One(Step(Roll, partner)), TwoDrop];
      result := result + code;
      RollMirrors(names, at.main, [], main, partner);
      ghost var rolled, seen := RollUp(at.main, partner).value, RollUp(main, partner).value;
      PopMirrors(names, rolled, [], seen);
      PopMirrors(names, rolled[1..], [], seen[1..]);
      RollMain(partner);
      Pop();
      Pop();
      PairDropSteps(partner);
      RunTwoSteps(at.(main := rolled), Step(Drop, 0), Step(Drop, 0));
      assert [Step(Roll, partner), Step(Drop, 0), Step(Drop, 0)][1..] == [Step(Drop, 0), Step(Drop, 0)];
      RollThenPop(at.main, partner);
      Follow(before, code, at.(main := Remove(at.main, partner)[1..]));
    }

    method EmitFromAlt()
      requires Valid() && alt != []
      modifies `main, `alt, `result, `slots
      ensures Valid() && result == old(result) + [One(Step(FromAltStack, 0))]
      ensures slots == Stacks([old(slots.alt)[0]] + old(slots.main), old(slots.alt)[1..])
    {
      hide StepsOf;
      ghost var before, at := result, slots;
      result := result + [One(Step(FromAltStack, 0))];
      PopMirrors(names, at.alt, [], alt);
      PushMirrors(names, at.main, [], main, at.alt[0]);
      var element := alt[0];
      alt := alt[1..];
      main := [element] + main;
      CodeSteps();
      RunOneStep(at, Step(FromAltStack, 0));
      Follow(before, [One(Step(FromAltStack, 0))], Stacks([at.alt[0]] + at.main, at.alt[1..]));
    }

    method EmitToAlt()
      requires Valid() && main != []
      modifies `main, `alt, `result, `slots
      ensures Valid() && result == old(result) + [One(Step(ToAltStack, 0))]
      ensures slots == Stacks(old(slots.main)[1..], [old(slots.main)[0]] + old(slots.alt))
    {
      hide StepsOf;
      ghost var before, at := result, slots;
      result := result + [One(Step(ToAltStack, 0))];
      PopMirrors(names, at.main, [], main);
      PushMirrors(names, at.alt, [], alt, at.main[0]);
      var element := main[0];
      main := main[1..];
      alt := [element] + alt;
      CodeSteps();
      RunOneStep(at, Step(ToAltStack, 0));
      Follow(before, [One(Step(ToAltStack, 0))], Stacks(at.main[1..], [at.main[0]] + at.alt));
    }

    // ----- the loops -----

    /** One target on its own. */
    method DeleteOne(position: nat)
      requires Valid() && position < |main|
      modifies `main, `result, `slots
      ensures Valid() && slots == old(slots).(main := Remove(old(slots.main), position))
      ensures result == old(result) + RollDrop(position)
    {
      if position == 1 {
        EmitNip();
      } else if position == 0 {
        EmitDrop();
        assert old(slots.main)[1..] == Remove(old(slots.main), 0);
      } else {
        EmitRollDrop(position);
      }
    }

    /** Deletion of the fields of one struct, deepest first. Unless one of the two top slots goes, no target ever moves
        before its turn. */
    method DeleteFields(targets: seq<nat>, ghost gone: set<nat>)
      requires Valid() && Distinct(targets) && Elements(targets) == Positions(slots.main, gone)
      modifies `main, `result, `slots
      ensures Valid() && slots == old(slots).(main := Keep(old(slots.main), gone))
      ensures 0 !in targets && 1 !in targets ==> result == old(result) + RollDrops(Descending(targets))
    {
      hide Keep, Positions, ShiftSet, ShiftTwoSet, RollDrop, RollDrops, StepsOf, DeepOnly, Descending, Mirrors;
      var items := Descending(targets);
      RearrangedTargets(targets, items);
      var positions := Elements(items);
      ghost var deep := 0 !in targets && 1 !in targets;
      if deep {
        DeepTargets(targets, items);
      }
      while items != []
        invariant Valid() && Tracks(items, positions, slots.main, gone)
        invariant slots.alt == old(slots.alt) && Keep(slots.main, gone) == Keep(old(slots.main), gone)
        invariant deep ==> DeepOnly(items) && result + RollDrops(items) == old(result) + RollDrops(Descending(targets))
        decreases |items|
      {
        ghost var s := slots.main;
        if deep {
          NoneOnTop(items);
        }
        if 0 in positions && 1 in positions {
          TrackPair(items, positions, s, gone, 1);
          EmitTwoDrop();
          assert s[2..] == Remove(s, 1)[1..];
          items := ShiftTwoAll(1, Keep(items, {0, 1}));
          positions := ShiftTwoSet(1, positions - {0, 1});
        } else if 1 in positions {
          TrackRemoval(items, positions, s, gone, 1);
          EmitNip();
          items := ShiftAll(1, Keep(items, {1}));
          positions := ShiftSet(1, positions - {1});
        } else {
          var position := items[0];
          assert position in Elements(items);
          TrackRemoval(items, positions, s, gone, position);
          if deep {
            DeepestMovesNone(items, result);
          }
          DeleteOne(position);
          HeadRemoved(items);
          items := ShiftAll(position, items[1..]);
          positions := ShiftSet(position, positions - {position});
        }
      }
      NothingLeftToRemove(slots.main, gone);
      AllDropped(result);
    }

    /** Deletion of several targets, pairing the top with the cheapest partner where that helps. */
    method DeleteMany(targets: seq<nat>, ghost gone: set<nat>)
      requires Valid() && Distinct(targets) && Elements(targets) == Positions(slots.main, gone)
      modifies `main, `result, `slots
      ensures Valid() && slots == old(slots).(main := Keep(old(slots.main), gone))
    {
      hide Keep, Positions, ShiftSet, ShiftTwoSet;
      var items := targets;
      var positions := Elements(items);
      while items != []
        invariant Valid() && Tracks(items, positions, slots.main, gone)
        invariant slots.alt == old(slots.alt) && Keep(slots.main, gone) == Keep(old(slots.main), gone)
        decreases |items|
      {
        ghost var s := slots.main;
        var partner: Option<nat> := None;
        if 0 in positions && 1 !in positions && |positions| > 1 {
          partner := BestPartner(positions);
        }
        if 0 in positions && 1 in positions {
          TrackPair(items, positions, s, gone, 1);
          EmitTwoDrop();
          assert s[2..] == Remove(s, 1)[1..];
          items := ShiftTwoAll(1, Keep(items, {0, 1}));
          positions := ShiftTwoSet(1, positions - {0, 1});
        } else if 1 in positions {
          TrackRemoval(items, positions, s, gone, 1);
          EmitNip();
          items := ShiftAll(1, Keep(items, {1}));
          positions := ShiftSet(1, positions - {1});
        } else if partner.Some? {
          TrackPair(items, positions, s, gone, partner.value);
          EmitPairDrop(partner.value);
          items := ShiftTwoAll(partner.value, Keep(items, {0, partner.value}));
          positions := ShiftTwoSet(partner.value, positions - {0, partner.value});
        } else {
          var position := items[0];
          assert position in Elements(items);
          TrackRemoval(items, positions, s, gone, position);
          DeleteOne(position);
          HeadRemoved(items);
          items := ShiftAll(position, items[1..]);
          positions := ShiftSet(position, positions - {position});
        }
      }
      NothingLeftToRemove(slots.main, gone);
    }

    /** Move the first count entries of the altstack over to the main stack. */
    method CarryOver(count: nat)
      requires Valid() && count <= |alt|
      modifies `main, `alt, `result, `slots
      ensures Valid()
      ensures slots == Stacks(Reversed(old(slots.alt)[..count]) + old(slots.main), old(slots.alt)[count..])
    {
      hide Mirrors, StepsOf, Shallow, ActAll;
      ghost var s, a := slots.main, slots.alt;
      assert Reversed(a[..0]) + s == s && a[0..] == a;
      for i := 0 to count
        invariant Valid() && slots == Stacks(Reversed(a[..i]) + s, a[i..])
      {
        EmitFromAlt();
        CarryOne(a, i, s);
      }
    }

    /** Put count entries from the top of the main stack back on the altstack. */
    method PutBack(count: nat, ghost above: seq<nat>, ghost s: seq<nat>)
      requires Valid() && |above| == count && slots.main == Reversed(above) + s
      modifies `main, `alt, `result, `slots
      ensures Valid() && slots == Stacks(s, above + old(slots.alt))
    {
      hide Mirrors, StepsOf, Shallow, ActAll;
      ghost var a := slots.alt;
      assert above[..count] == above && above[count..] + a == a;
      for i := count downto 0
        invariant Valid() && slots == Stacks(Reversed(above[..i]) + s, above[i..] + a)
      {
        CarryOne(above, i, s);
        EmitToAlt();
        assert [above[i]] + (above[i + 1..] + a) == above[i..] + a;
      }
      assert Reversed(above[..0]) + s == s && above[0..] == above;
    }

    /** Deletion inside the altstack: what lies above is carried over the main stack and put back. */
    method DeleteFromAlt(position: nat)
      requires Valid() && position < |alt|
      modifies `main, `alt, `result, `slots
      ensures Valid() && slots == old(slots).(alt := Remove(old(slots.alt), position))
    {
      ghost var s, a := slots.main, slots.alt;
      if position == 0 {
        EmitFromAlt();
        EmitDrop();
        assert a[1..] == Remove(a, 0);
      } else {
        CarryOver(position);
        EmitFromAlt();
        EmitDrop();
        assert a[position..][1..] == a[position + 1..];
        ReversedIndex(a[..position]);
        PutBack(position, a[..position], s);
      }
    }

    // ----- a whole call -----

    ghost predicate Untouched()
      reads this
    {
      && Valid() && result == [] && names == main + alt && slots == start
      && start == Stacks(Identity(|main|), AltSlots(main, alt))
    }

    /** The check before anything is touched: no two targets may name one slot. */
    method NamesOneSlotTwice(targets: seq<string>) returns (aliased: bool)
      ensures aliased <==> !SeparateTargets(main, alt, targets)
    {
      var claimed: set<string> := {};
      for k := 0 to |targets|
        invariant SeparateTargets(main, alt, targets[..k])
        invariant forall name :: name in claimed <==> name in targets[..k] && (name in main || name in alt)
      {
        var name := targets[k];
        assert targets[..k + 1] == targets[..k] + [name];
        var found := Find(main, name);
        if found.None? {
          found := Find(alt, name);
        }
        if found.Some? {
          if name in claimed {
            return true;
          }
          claimed := claimed + {name};
        }
      }
      assert targets[..|targets|] == targets;
      return false;
    }

    /** Delete by name, given the visible leaf names and whether they come from one argument. Two targets in one slot
        are refused before anything is touched. Otherwise each name takes its nearest slot on the main stack, or failing
        that on the altstack; unknown names are skipped; exactly those slots go, and the emitted code does the same to
        the slots at run time. */
    method Delete(targets: seq<string>, oneArgument: bool) returns (ok: bool)
      requires Untouched()
      modifies this
      ensures Valid() && (ok <==> SeparateTargets(old(main), old(alt), targets))
      ensures !ok ==> Untouched() && main == old(main) && alt == old(alt)
      ensures ok ==> slots.main == Keep(start.main, GoneFromMain(old(main), targets))
      ensures ok ==> slots.alt == Keep(start.alt, GoneFromAlt(old(main), old(alt), targets))
    {
      hide Keep, GoneFromMain, GoneFromAlt, Mirrors;
      var aliased := NamesOneSlotTwice(targets);
      if aliased {
        return false;
      }
      ghost var m, a := main, alt;
      var items: seq<nat> := [];
      StartLookup(m, a);
      assert targets[..0] == [];
      for k := 0 to |targets|
        invariant Valid() && slots.main == start.main && main == m && start.alt == AltSlots(m, a)
        invariant Distinct(items) && Elements(items) == GoneFromMain(m, targets[..k])
        invariant slots.alt == Keep(start.alt, GoneFromAlt(m, a, targets[..k]))
      {
        var name := targets[k];
        assert targets[..k + 1] == targets[..k] + [name];
        assert name in m || name in a ==> name !in targets[..k];
        var pos := Find(main, name);
        if pos.Some? {
          FoundOnMain(m, a, targets[..k], items, pos.value);
          items := items + [pos.value];
        } else {
          var altPos := Find(alt, name);
          SlotsByName(names, slots.alt, alt);
          if altPos.Some? {
            FoundOnAlt(m, a, targets[..k], start.alt, slots.alt, alt, altPos.value, name);
            DeleteFromAlt(altPos.value);
            SameStack(names, slots.main, main, m);
          } else {
            FoundNowhere(m, a, targets[..k], start.alt, slots.alt, alt, name);
          }
        }
      }
      assert targets[..|targets|] == targets;
      ghost var gone := GoneFromMain(m, targets);
      GonePositions(m, targets);
      if oneArgument {
        DeleteFields(items, gone);
      } else {
        DeleteMany(items, gone);
      }
      return true;
    }
  }

  /** No slot is named twice; names found nowhere do not matter. */
  predicate SeparateTargets(main: seq<string>, alt: seq<string>, targets: seq<string>) {
    forall i, j :: 0 <= i < j < |targets| && targets[i] == targets[j] ==> targets[i] !in main && targets[i] !in alt
  }

  /** The nearest main slot of each target. */
  ghost function GoneFromMain(main: seq<string>, targets: seq<string>): set<nat> {
    set i | i in Elements(Identity(|main|)) && IsMainTarget(main, targets, i)
  }

  predicate IsMainTarget(main: seq<string>, targets: seq<string>, i: nat) {
    i < |main| && main[i] in targets && main[i] !in main[..i]
  }

  /** The nearest altstack slot of each target that is not on the main stack; altstack slots are numbered after the
      main ones. */
  ghost function GoneFromAlt(main: seq<string>, alt: seq<string>, targets: seq<string>): set<nat> {
    set j | j in Elements(Identity(|main| + |alt|)) && IsAltTarget(main, alt, targets, j)
  }

  predicate IsAltTarget(main: seq<string>, alt: seq<string>, targets: seq<string>, j: nat) {
    && |main| <= j < |main| + |alt|
    && var k := j - |main|; alt[k] in targets && alt[k] !in main && alt[k] !in alt[..k]
  }

  lemma GoneMembers(main: seq<string>, alt: seq<string>, targets: seq<string>, i: nat)
    ensures i in GoneFromMain(main, targets) <==> IsMainTarget(main, targets, i)
    ensures i in GoneFromAlt(main, alt, targets) <==> IsAltTarget(main, alt, targets, i)
  {
    hide IsMainTarget, IsAltTarget;
    if i < |main| {
      assert Identity(|main|)[i] == i;
    }
    if i < |main| + |alt| {
      assert Identity(|main| + |alt|)[i] == i;
      assert i in Elements(Identity(|main| + |alt|));
    }
    OnlySlotsAreTargets(main, alt, targets, i);
  }

  lemma OnlySlotsAreTargets(main: seq<string>, alt: seq<string>, targets: seq<string>, i: nat)
    ensures IsMainTarget(main, targets, i) ==> i < |main|
    ensures IsAltTarget(main, alt, targets, i) ==> i < |main| + |alt|
  {
  }

  function AltSlots(main: seq<string>, alt: seq<string>): (r: seq<nat>)
    ensures |r| == |alt| && forall i :: 0 <= i < |alt| ==> r[i] == |main| + i
    ensures Distinct(r)
  {
    seq(|alt|, i requires 0 <= i < |alt| => |main| + i)
  }

  lemma StartLookup(main: seq<string>, alt: seq<string>)
    ensures GoneFromMain(main, []) == {} && Keep(AltSlots(main, alt), GoneFromAlt(main, alt, [])) == AltSlots(main, alt)
  {
    KeepAll(AltSlots(main, alt), {});
    assert GoneFromAlt(main, alt, []) == {};
  }

  lemma GonePositions(main: seq<string>, targets: seq<string>)
    ensures GoneFromMain(main, targets) == Positions(Identity(|main|), GoneFromMain(main, targets))
  {
    forall i: nat
      ensures i in GoneFromMain(main, targets) <==> i in Positions(Identity(|main|), GoneFromMain(main, targets))
    {
      GoneMembers(main, [], targets, i);
      PositionsAre(Identity(|main|), GoneFromMain(main, targets), i);
    }
  }

  lemma FoundOnMain(main: seq<string>, alt: seq<string>, seen: seq<string>, items: seq<nat>, p: nat)
    requires p < |main| && main[p] !in main[..p] && main[p] !in seen
    requires Distinct(items) && Elements(items) == GoneFromMain(main, seen)
    ensures Distinct(items + [p]) && Elements(items + [p]) == GoneFromMain(main, seen + [main[p]])
    ensures GoneFromAlt(main, alt, seen + [main[p]]) == GoneFromAlt(main, alt, seen)
  {
    var more := seen + [main[p]];
    forall i: nat
      ensures i in GoneFromMain(main, more) <==> i == p || i in GoneFromMain(main, seen)
      ensures i in GoneFromAlt(main, alt, more) <==> i in GoneFromAlt(main, alt, seen)
    {
      GoneMembers(main, alt, more, i);
      GoneMembers(main, alt, seen, i);
      NearestOnMain(main, seen, p, i);
    }
    hide GoneFromMain, GoneFromAlt;
    GoneMembers(main, alt, seen, p);
    assert p !in Elements(items);
    forall i: nat ensures i in Elements(items + [p]) <==> i == p || i in Elements(items) {
    }
  }

  lemma NearestOnMain(main: seq<string>, seen: seq<string>, p: nat, i: nat)
    requires p < |main| && main[p] !in main[..p]
    ensures IsMainTarget(main, seen + [main[p]], i) <==> i == p || IsMainTarget(main, seen, i)
  {
    if i < |main| && main[i] == main[p] && i != p {
      if p < i {
        assert main[..i][p] == main[p];
      }
    }
  }

  lemma SlotsByName(names: seq<string>, slots: seq<nat>, s: seq<string>)
    requires Mirrors(names, slots, [], s)
    ensures |slots| == |s| && forall i :: 0 <= i < |s| ==> slots[i] < |names| && s[i] == names[slots[i]]
  {
  }

  lemma SameStack(names: seq<string>, slots: seq<nat>, s: seq<string>, t: seq<string>)
    requires Mirrors(names, slots, [], s)
    requires |t| == |slots| && |t| <= |names| && names[..|t|] == t && slots == Identity(|t|)
    ensures s == t
  {
    forall i | 0 <= i < |s| ensures s[i] == t[i] {
      assert names[..|t|][i] == names[i];
    }
  }

  lemma {:induction false} KeepMore(s: seq<nat>, gone: set<nat>, x: nat)
    ensures Keep(s, gone + {x}) == Keep(Keep(s, gone), {x})
  {
    if s != [] {
      KeepMore(s[1..], gone, x);
      assert s == [s[0]] + s[1..];
      hide Keep;
      KeepCons(s[0], s[1..], gone);
      KeepCons(s[0], s[1..], gone + {x});
      KeepCons(s[0], Keep(s[1..], gone), {x});
    } else {
      assert Keep([], gone) == [];
    }
  }

  lemma {:induction false} KeepAllButOne(s: seq<nat>, p: nat)
    requires Distinct(s) && p < |s|
    ensures Keep(s, {s[p]}) == Remove(s, p)
  {
    if p == 0 {
      HeadRemoved(s);
    } else {
      KeepAllButOne(s[1..], p - 1);
      assert Remove(s, p) == [s[0]] + Remove(s[1..], p - 1);
    }
  }

  lemma {:induction false} KeepIsAscending(s: seq<nat>, gone: set<nat>)
    requires Ascending(s)
    ensures Ascending(Keep(s, gone))
  {
    if s != [] {
      KeepIsAscending(s[1..], gone);
      var rest := Keep(s[1..], gone);
      forall j | 0 <= j < |rest| ensures s[0] < rest[j] {
        assert rest[j] in s[1..];
      }
    }
  }

  /** The first slot of a name among those left is its nearest original slot. */
  lemma NearestOnAlt(main: seq<string>, alt: seq<string>, seen: seq<string>, slots: seq<nat>, current: seq<string>,
                     p: nat, name: string)
    requires name !in main && name !in seen
    requires slots == Keep(AltSlots(main, alt), GoneFromAlt(main, alt, seen)) && |current| == |slots|
    requires forall i :: 0 <= i < |slots| ==> slots[i] < |main + alt| && current[i] == (main + alt)[slots[i]]
    requires p < |slots| && current[p] == name && name !in current[..p]
    ensures |main| <= slots[p] && alt[slots[p] - |main|] == name
    ensures name !in alt[..slots[p] - |main|]
  {
    var from := AltSlots(main, alt);
    assert slots[p] in from;
    var k := slots[p] - |main|;
    KeepIsAscending(from, GoneFromAlt(main, alt, seen));
    forall j | 0 <= j < k ensures alt[j] != name {
      var x := |main| + j;
      assert from[j] == x && x in from;
      GoneMembers(main, alt, seen, x);
      if x in slots {
        var q :| 0 <= q < |slots| && slots[q] == x;
        assert current[q] == (main + alt)[x];
        if q < p {
          assert current[..p][q] == current[q];
        }
      }
    }
  }

  lemma NearestTarget(main: seq<string>, alt: seq<string>, seen: seq<string>, k: nat, i: nat)
    requires k < |alt| && alt[k] !in main && alt[k] !in alt[..k]
    ensures IsAltTarget(main, alt, seen + [alt[k]], i) <==> i == |main| + k || IsAltTarget(main, alt, seen, i)
    ensures IsMainTarget(main, seen + [alt[k]], i) <==> IsMainTarget(main, seen, i)
  {
    if |main| <= i < |main| + |alt| && alt[i - |main|] == alt[k] && i != |main| + k {
      if k < i - |main| {
        assert alt[..i - |main|][k] == alt[k];
      }
    }
  }

  lemma FoundOnAlt(main: seq<string>, alt: seq<string>, seen: seq<string>, from: seq<nat>, slots: seq<nat>,
                   current: seq<string>, p: nat, name: string)
    requires from == AltSlots(main, alt) && name !in main && name !in seen
    requires slots == Keep(from, GoneFromAlt(main, alt, seen)) && |current| == |slots|
    requires forall i :: 0 <= i < |slots| ==> slots[i] < |main + alt| && current[i] == (main + alt)[slots[i]]
    requires p < |slots| && current[p] == name && name !in current[..p]
    ensures Remove(slots, p) == Keep(from, GoneFromAlt(main, alt, seen + [name]))
    ensures GoneFromMain(main, seen + [name]) == GoneFromMain(main, seen)
  {
    var more := seen + [name];
    var x := slots[p];
    NearestOnAlt(main, alt, seen, slots, current, p, name);
    forall i: nat
      ensures i in GoneFromAlt(main, alt, more) <==> i in GoneFromAlt(main, alt, seen) + {x}
      ensures i in GoneFromMain(main, more) <==> i in GoneFromMain(main, seen)
    {
      GoneMembers(main, alt, more, i);
      GoneMembers(main, alt, seen, i);
      NearestTarget(main, alt, seen, x - |main|, i);
    }
    hide IsAltTarget, IsMainTarget, GoneFromAlt, GoneFromMain;
    assert GoneFromAlt(main, alt, more) == GoneFromAlt(main, alt, seen) + {x};
    KeepIsDistinct(from, GoneFromAlt(main, alt, seen));
    KeepMore(from, GoneFromAlt(main, alt, seen), x);
    KeepAllButOne(slots, p);
  }

  lemma FoundNowhere(main: seq<string>, alt: seq<string>, seen: seq<string>, from: seq<nat>, slots: seq<nat>,
                     current: seq<string>, name: string)
    requires from == AltSlots(main, alt) && name !in main && name !in current && (name in alt ==> name !in seen)
    requires slots == Keep(from, GoneFromAlt(main, alt, seen)) && |current| == |slots|
    requires forall i :: 0 <= i < |slots| ==> slots[i] < |main + alt| && current[i] == (main + alt)[slots[i]]
    ensures GoneFromAlt(main, alt, seen + [name]) == GoneFromAlt(main, alt, seen)
    ensures GoneFromMain(main, seen + [name]) == GoneFromMain(main, seen)
  {
    var more := seen + [name];
    forall j | 0 <= j < |alt| ensures alt[j] != name {
      var x := |main| + j;
      GoneMembers(main, alt, seen, x);
      assert from[j] == x && x in from;
      if x in slots {
        var q :| 0 <= q < |slots| && slots[q] == x;
        assert current[q] == (main + alt)[x];
      }
    }
    forall i: nat
      ensures i in GoneFromAlt(main, alt, more) <==> i in GoneFromAlt(main, alt, seen)
      ensures i in GoneFromMain(main, more) <==> i in GoneFromMain(main, seen)
    {
      GoneMembers(main, alt, more, i);
      GoneMembers(main, alt, seen, i);
    }
  }

  lemma CarryOne(a: seq<nat>, i: nat, s: seq<nat>)
    requires i < |a|
    ensures Reversed(a[..i + 1]) + s == [a[i]] + (Reversed(a[..i]) + s)
  {
    ReversedSnoc(a[..i], a[i]);
    assert a[..i + 1] == a[..i] + [a[i]];
  }

  lemma CodeSteps()
    ensures forall step: Step :: StepsOf([One(step)]) == [step]
    ensures StepsOf([TwoDrop]) == [Step(Drop, 0), Step(Drop, 0)]
  {
    forall step: Step ensures StepsOf([One(step)]) == [step] {
      assert [One(step)][1..] == [];
    }
    assert [TwoDrop][1..] == [];
  }

  lemma RollDropSteps(depth: nat)
    requires depth >= 2
    ensures StepsOf(RollDrop(depth)) == [Step(Roll, depth), Step(Drop, 0)]
  {
    StepsOfConcat([One(Step(Roll, depth))], [One(Step(Drop, 0))]);
    CodeSteps();
    assert RollDrop(depth) == [One(Step(Roll, depth))] + [One(Step(Drop, 0))];
  }

  lemma PairDropSteps(partner: nat)
    ensures StepsOf([One(Step(Roll, partner)), TwoDrop]) == [Step(Roll, partner), Step(Drop, 0), Step(Drop, 0)]
  {
    StepsOfConcat([One(Step(Roll, partner))], [TwoDrop]);
    CodeSteps();
    assert [One(Step(Roll, partner))] + [TwoDrop] == [One(Step(Roll, partner)), TwoDrop];
  }

  lemma RollThenPop(s: seq<nat>, depth: nat)
    requires depth < |s|
    ensures RollUp(s, depth).value[1..] == Remove(s, depth)
    ensures depth == 1 ==> [s[0]] + s[2..] == Remove(s, 1)
  {
  }

  // ----- the emitted code at run time -----

  lemma NumberSize(k: nat)
    requires k < 0x8000_0000
    ensures |NumberBytes(k)| <= 4
  {
    if k >= 0x100 {
      var a := k / 0x100;
      if a >= 0x100 {
        var b := a / 0x100;
        if b >= 0x100 {
          assert b / 0x100 < 0x80;
          assert |NumberBytes(b / 0x100)| <= 1;
        }
        assert |NumberBytes(b)| <= 2;
      }
      assert |NumberBytes(a)| <= 3;
    }
  }

  lemma TwoDropOnVm(vm: Vm, cond: seq<bool>, s: Stacks<Item>)
    requires false !in cond && |s.main| >= 2
    ensures ActAll(s, Effect(TwoDrop)) == Some(s.(main := s.main[2..]))
    ensures ActsAs(vm, PieceText(TwoDrop), cond, CoreOf(s), CoreOf(s.(main := s.main[2..])))
  {
    hide ActsAs;
    RunTwoSteps(s, Step(Drop, 0), Step(Drop, 0));
    assert s.main[1..][1..] == s.main[2..];
    OneOp(vm, OP_2DROP, cond, CoreOf(s), CoreOf(s.(main := s.main[2..])));
  }

  lemma PieceOnVm(vm: Vm, p: Piece, cond: seq<bool>, s: Stacks<Item>)
    requires ReadsNumbers(vm) && false !in cond && ActAll(s, Effect(p)).Some?
    requires p.One? ==> p.step.depth < 0x8000_0000
    ensures ActsAs(vm, PieceText(p), cond, CoreOf(s), CoreOf(ActAll(s, Effect(p)).value))
  {
    hide ActsAs, ReadsNumbers, NumberBytes;
    match p
    case One(step) =>
      RunOneStep(s, step);
      NumberSize(step.depth);
      StepOnVm(vm, step, cond, s);
    case TwoDrop =>
      TwoDropsNeedTwo(s);
      TwoDropOnVm(vm, cond, s);
  }

  lemma TwoDropsNeedTwo(s: Stacks<Item>)
    requires ActAll(s, Effect(TwoDrop)).Some?
    ensures |s.main| >= 2
  {
    var drops := Effect(TwoDrop);
    assert Act(s, drops[0]).Some?;
    assert drops[1..][0] == Step(Drop, 0);
    assert Act(Act(s, drops[0]).value, drops[1..][0]).Some?;
  }

  /** The text of emitted code does at run time what its steps say. */
  lemma {:induction false} CodeOnVm(vm: Vm, code: seq<Piece>, cond: seq<bool>, s: Stacks<Item>, bound: nat)
    requires ReadsNumbers(vm) && false !in cond && Shallow(code, bound) && bound < 0x8000_0000
    requires ActAll(s, StepsOf(code)).Some?
    ensures ActsAs(vm, CodeText(code), cond, CoreOf(s), CoreOf(ActAll(s, StepsOf(code)).value))
    decreases |code|
  {
    hide ReadsNumbers, Act, ActAll, PieceText, Effect;
    if code != [] {
      ActConcat(s, Effect(code[0]), StepsOf(code[1..]));
      var t := ActAll(s, Effect(code[0])).value;
      PieceOnVm(vm, code[0], cond, s);
      CodeOnVm(vm, code[1..], cond, t, bound);
      RunConcat(MachineOf(vm), PieceText(code[0]), CodeText(code[1..]), Running(cond, CoreOf(s)));
    } else {
      NoSteps(s);
    }
  }

  lemma NoSteps(s: Stacks<Item>)
    ensures ActAll(s, []) == Some(s)
  {
  }

  /** Code that takes the original slots to the survivors removes, from any stacks that start with as many items,
      exactly the items of the other slots, and leaves everything below. */
  lemma DeleteOnVm(vm: Vm, code: seq<Piece>, start: Stacks<nat>, survivors: Stacks<nat>, items: seq<Item>,
                   below: Core, cond: seq<bool>)
    requires ReadsNumbers(vm) && false !in cond && Shallow(code, |items|) && |items| < 0x8000_0000
    requires Names(start.main, items) && Names(start.alt, items)
    requires ActAll(start, StepsOf(code)) == Some(survivors)
    ensures Names(survivors.main, items) && Names(survivors.alt, items)
    ensures ActsAs(vm, CodeText(code), cond,
                   Core(Select(items, start.main) + below.main, Select(items, start.alt) + below.alt),
                   Core(Select(items, survivors.main) + below.main, Select(items, survivors.alt) + below.alt))
  {
    hide ReadsNumbers, Act, ActAll, ActsAs;
    ActAllSelect(items, start, Stacks(below.main, below.alt), StepsOf(code));
    CodeOnVm(vm, code, cond, Stacks(Select(items, start.main) + below.main, Select(items, start.alt) + below.alt),
             |items|);
  }
}
