/** The branch decisions recorded with every origin: those under which flat code reaches the old instruction, written in
    the numbering of the output. */
module IfTailPaths {
  import opened Wrappers
  import opened Hex
  import opened CondMachine
  import opened IfTree
  import opened IfTailOptimizer
  import IfTailPlan

  // ----- branch decisions of flat code -----

  function Outer(open: seq<BranchPredicate>): seq<BranchPredicate> {
    if open == [] then [] else open[..|open| - 1]
  }

  /** What one instruction does to the open branches. */
  function Advance(open: seq<BranchPredicate>, pc: nat, token: Token): seq<BranchPredicate> {
    match token
    case NoToken => open
    case IfToken => open + [BranchPredicate(pc, Then)]
    case NotIfToken => open + [BranchPredicate(pc, Then)]
    case ElseToken =>
      if open == [] then [] else
      var last := open[|open| - 1];
      Outer(open) + [last.(arm := if last.arm == Then then Else else Then)]
    case EndIfToken => Outer(open)
  }

  /** The branches open in front of position k, by one scan of the text. */
  function OpenAt(p: seq<string>, k: nat): seq<BranchPredicate>
    requires k <= |p|
  {
    if k == 0 then [] else Advance(OpenAt(p, k - 1), k - 1, ControlToken(p[k - 1]))
  }

  /** The branch decisions under which an instruction is reached; ELSE and ENDIF belong outside their region. */
  function ReachedUnder(p: seq<string>, k: nat): seq<BranchPredicate>
    requires k < |p|
  {
    if ControlToken(p[k]) == ElseToken || ControlToken(p[k]) == EndIfToken then Outer(OpenAt(p, k)) else OpenAt(p, k)
  }

  // ----- the parser records them -----

  predicate Reached(atoms: seq<Atom>, p: seq<string>, i: nat) {
    && i + |atoms| <= |p|
    && forall k :: 0 <= k < |atoms| ==> atoms[k].origins == [Origin(i + k, ReachedUnder(p, i + k))]
  }

  lemma ReachedConcat(a: seq<Atom>, b: seq<Atom>, p: seq<string>, i: nat)
    requires Reached(a, p, i) && Reached(b, p, i + |a|)
    ensures Reached(a + b, p, i)
  {
    hide ReachedUnder;
    forall k | 0 <= k < |a + b| ensures (a + b)[k].origins == [Origin(i + k, ReachedUnder(p, i + k))] {
      if k >= |a| {
        assert (a + b)[k] == b[k - |a|];
      }
    }
  }

  lemma ReachedOne(p: seq<string>, i: nat, path: seq<BranchPredicate>, labels: set<string>)
    requires i < |p| && ReachedUnder(p, i) == path
    ensures Reached([MakeAtom(p[i], i, path, labels)], p, i)
  {
  }

  lemma {:induction false} ParseSeqReached(p: seq<string>, i: nat, path: seq<BranchPredicate>, labels: set<string>)
    requires i <= |p| && ParseSeq(p, i, path, labels).Some? && OpenAt(p, i) == path
    ensures var Parsed(ns, j) := ParseSeq(p, i, path, labels).value;
            OpenAt(p, j) == path && j == i + |FlattenSeq(ns)| && Reached(FlattenSeq(ns), p, i)
    decreases |p| - i, 1
  {
    hide ControlToken, IsSafeEncoding, OpenAt, ReachedUnder, FlattenNode;
    if !StopsAt(p, i) {
      ParseNodeReached(p, i, path, labels);
      var Parsed(n, j) := ParseNode(p, i, path, labels).value;
      ParseSeqReached(p, j, path, labels);
      var Parsed(ns, _) := ParseSeq(p, j, path, labels).value;
      assert ([n] + ns)[1..] == ns;
      ReachedConcat(FlattenNode(n), FlattenSeq(ns), p, i);
    }
  }

  lemma NextOpen(p: seq<string>, i: nat)
    requires i < |p|
    ensures OpenAt(p, i + 1) == Advance(OpenAt(p, i), i, ControlToken(p[i]))
  {
  }

  lemma {:induction false} ParseNodeReached(p: seq<string>, i: nat, path: seq<BranchPredicate>, labels: set<string>)
    requires i < |p| && !StopsAt(p, i) && ParseNode(p, i, path, labels).Some? && OpenAt(p, i) == path
    ensures var Parsed(n, j) := ParseNode(p, i, path, labels).value;
            OpenAt(p, j) == path && j == i + |FlattenNode(n)| && Reached(FlattenNode(n), p, i)
    decreases |p| - i, 0
  {
    hide ControlToken, IsSafeEncoding, OpenAt, FlattenSeq, Reached, ParseSeq;
    var head := MakeAtom(p[i], i, path, labels);
    NextOpen(p, i);
    ReachedOne(p, i, path, labels);
    if ControlToken(p[i]) != NoToken {
      var inThen, inElse := path + [BranchPredicate(i, Then)], path + [BranchPredicate(i, Else)];
      assert Outer(inThen) == path && Outer(inElse) == path;
      ParseSeqReached(p, i + 1, inThen, labels);
      ParseSeqSound(p, i + 1, inThen, labels);
      var Parsed(t, j) := ParseSeq(p, i + 1, inThen, labels).value;
      NextOpen(p, j);
      ReachedOne(p, j, path, labels);
      var mid := MakeAtom(p[j], j, path, labels);
      ReachedConcat([head], FlattenSeq(t), p, i);
      ReachedConcat([head] + FlattenSeq(t), [mid], p, i);
      if ControlToken(p[j]) == ElseToken {
        ParseSeqReached(p, j + 1, inElse, labels);
        var Parsed(e, k) := ParseSeq(p, j + 1, inElse, labels).value;
        NextOpen(p, k);
        ReachedOne(p, k, path, labels);
        ReachedConcat([head] + FlattenSeq(t) + [mid], FlattenSeq(e), p, i);
        ReachedConcat([head] + FlattenSeq(t) + [mid] + FlattenSeq(e), [MakeAtom(p[k], k, path, labels)], p, i);
      }
    }
  }

  // ----- what they mean when the code runs -----

  /** The value the opener at ifPC gave its region, in a run from s. */
  ghost predicate Entered<S>(m: Machine<S>, p: seq<string>, s: S, ifPC: nat, level: nat, arm: Arm, open: bool)
    requires ifPC < |p|
  {
    var st := Run(m, p[..ifPC + 1], Running([], s));
    st.Running? && |st.cond| == level + 1 && open == (st.cond[level] == (arm == Then))
  }

  /** Each open condition holds exactly when the decision recorded for it is the one taken. */
  ghost predicate Decided<S>(m: Machine<S>, p: seq<string>, s: S, k: nat, cond: seq<bool>, open: seq<BranchPredicate>)
    requires k <= |p|
  {
    && |cond| == |open|
    && forall l :: 0 <= l < |open| ==>
         open[l].ifPC < k && Entered(m, p, s, open[l].ifPC, l, open[l].arm, cond[l])
  }

  /** One running step, as it changes the conditions. */
  lemma StepConditions<S>(m: Machine<S>, instr: string, st: Status<S>)
    requires st.Running? && Step(m, instr, st).Running?
    ensures var next := Step(m, instr, st).cond;
            match ControlToken(instr)
            case NoToken => next == st.cond
            case IfToken => |next| == |st.cond| + 1 && next[..|st.cond|] == st.cond
            case NotIfToken => |next| == |st.cond| + 1 && next[..|st.cond|] == st.cond
            case ElseToken =>
              && st.cond != []
              && next == st.cond[..|st.cond| - 1] + [!st.cond[|st.cond| - 1]]
            case EndIfToken => st.cond != [] && next == st.cond[..|st.cond| - 1]
  {
    hide ControlToken;
  }

  lemma EnteredElse<S>(m: Machine<S>, p: seq<string>, s: S, ifPC: nat, level: nat, arm: Arm, open: bool)
    requires ifPC < |p| && Entered(m, p, s, ifPC, level, arm, open)
    ensures Entered(m, p, s, ifPC, level, if arm == Then then Else else Then, !open)
  {
  }

  lemma EnteredThen<S>(m: Machine<S>, p: seq<string>, s: S, k: nat)
    requires k < |p| && Run(m, p[..k + 1], Running([], s)).Running? && Run(m, p[..k + 1], Running([], s)).cond != []
    ensures var cond := Run(m, p[..k + 1], Running([], s)).cond;
            Entered(m, p, s, k, |cond| - 1, Then, cond[|cond| - 1])
  {
  }

  lemma DecidedElse<S>(m: Machine<S>, p: seq<string>, s: S, k: nat, was: seq<bool>, open: seq<BranchPredicate>)
    requires k < |p| && Decided(m, p, s, k, was, open) && open != []
    ensures Decided(m, p, s, k + 1, was[..|was| - 1] + [!was[|was| - 1]], Advance(open, k, ElseToken))
  {
    hide Entered;
    var last := |open| - 1;
    EnteredElse(m, p, s, open[last].ifPC, last, open[last].arm, was[last]);
  }

  lemma DecidedStep<S>(m: Machine<S>, p: seq<string>, s: S, k: nat, was: seq<bool>, open: seq<BranchPredicate>)
    requires k < |p| && Decided(m, p, s, k, was, open)
    requires Run(m, p[..k], Running([], s)).Running? && Run(m, p[..k], Running([], s)).cond == was
    requires Run(m, p[..k + 1], Running([], s)).Running?
    ensures Decided(m, p, s, k + 1, Run(m, p[..k + 1], Running([], s)).cond, Advance(open, k, ControlToken(p[k])))
  {
    hide ControlToken, Run, Step, Entered;
    var before := Run(m, p[..k], Running([], s));
    var next := Run(m, p[..k + 1], Running([], s)).cond;
    assert p[..k + 1] == p[..k] + [p[k]];
    RunConcat(m, p[..k], [p[k]], Running([], s));
    RunOne(m, p[k], before);
    StepConditions(m, p[k], before);
    if OpensRegion(p[k]) {
      assert forall l :: 0 <= l < |was| ==> next[l] == next[..|was|][l];
      EnteredThen(m, p, s, k);
    } else if ControlToken(p[k]) == ElseToken {
      DecidedElse(m, p, s, k, was, open);
    }
  }

  /** A run that reaches position k has one condition for each decision recorded there, and it holds exactly when that
      decision is the one taken at its opener. */
  lemma {:induction false} DecisionsAreTaken<S>(m: Machine<S>, p: seq<string>, s: S, k: nat)
    requires k <= |p| && Run(m, p[..k], Running([], s)).Running?
    ensures Decided(m, p, s, k, Run(m, p[..k], Running([], s)).cond, OpenAt(p, k))
  {
    hide ControlToken, Decided;
    if k > 0 {
      assert p[..k] == p[..k - 1] + [p[k - 1]];
      RunConcat(m, p[..k - 1], [p[k - 1]], Running([], s));
      RunOne(m, p[k - 1], Run(m, p[..k - 1], Running([], s)));
      DecisionsAreTaken(m, p, s, k - 1);
      DecidedStep(m, p, s, k - 1, Run(m, p[..k - 1], Running([], s)).cond, OpenAt(p, k - 1));
    } else {
      assert p[..0] == [];
      NothingDecided(m, p, s);
    }
  }

  lemma NothingDecided<S>(m: Machine<S>, p: seq<string>, s: S)
    ensures Decided(m, p, s, 0, [], [])
  {
  }

  // ----- the plan keeps them -----

  predicate Ascends(os: seq<Origin>) {
    forall i, j :: 0 <= i < j < |os| ==> os[i].oldPC <= os[j].oldPC
  }

  lemma AscendsFrom(o: Origin, s: seq<Origin>)
    requires Ascends(s) && forall x :: x in s ==> o.oldPC <= x.oldPC
    ensures Ascends([o] + s)
  {
    forall i, j | 0 <= i < j < |s| + 1 ensures ([o] + s)[i].oldPC <= ([o] + s)[j].oldPC {
      assert ([o] + s)[j] == s[j - 1] && s[j - 1] in s;
      if i > 0 {
        assert ([o] + s)[i] == s[i - 1];
      }
    }
  }

  lemma AscendsRest(s: seq<Origin>)
    requires s != [] && Ascends(s)
    ensures Ascends(s[1..]) && forall x :: x in s ==> s[0].oldPC <= x.oldPC
  {
  }

  lemma {:induction false} InsertAscends(o: Origin, s: seq<Origin>)
    requires Ascends(s)
    ensures Ascends(InsertOrigin(o, s))
  {
    hide PathLess, Ascends;
    IfTailPlan.InsertFacts(o, s, 0);
    if s != [] {
      AscendsRest(s);
      if OriginLess(s[0], o) {
        InsertAscends(o, s[1..]);
        IfTailPlan.InsertFacts(o, s[1..], 0);
        AscendsFrom(s[0], InsertOrigin(o, s[1..]));
      } else {
        AscendsFrom(o, s);
      }
    } else {
      AscendsFrom(o, s);
    }
  }

  lemma {:induction false} SortAscends(s: seq<Origin>)
    ensures Ascends(SortOrigins(s))
  {
    hide InsertOrigin;
    if s != [] {
      SortAscends(s[1..]);
      InsertAscends(s[0], SortOrigins(s[1..]));
    }
  }

  lemma {:induction false} CountTwice(s: seq<Origin>, i: nat, j: nat)
    requires i < j < |s| && s[i].oldPC == s[j].oldPC
    ensures CountIn(s, s[i].oldPC) >= 2
  {
    if i == 0 {
      IfTailPlan.CountPositive(s[1..], s[1..][j - 1]);
    } else {
      CountTwice(s[1..], i - 1, j - 1);
    }
  }

  /** A path with its openers renumbered. */
  predicate Renumbered(path: seq<BranchPredicate>, from: seq<BranchPredicate>, oldToNew: seq<Option<nat>>) {
    && |path| == |from|
    && forall l :: 0 <= l < |path| ==>
         && path[l].arm == from[l].arm
         && from[l].ifPC < |oldToNew| && oldToNew[from[l].ifPC] == Some(path[l].ifPC)
  }

  lemma {:induction false} MappedIsRenumbered(path: seq<BranchPredicate>, oldToNew: seq<Option<nat>>,
                                              source: seq<string>, target: seq<string>)
    requires MapPath(path, oldToNew, source, target).Some?
    ensures Renumbered(MapPath(path, oldToNew, source, target).value, path, oldToNew)
  {
    hide ControlToken;
    if path != [] {
      MappedIsRenumbered(path[1..], oldToNew, source, target);
    }
  }

  /** Every normalised origin comes from one that was recorded. */
  lemma {:induction false} NormalizedFrom(os: seq<Origin>, oldToNew: seq<Option<nat>>, source: seq<string>,
                                          target: seq<string>, o: Origin) returns (was: Origin)
    requires NormalizeList(os, oldToNew, source, target).Some?
    requires o in NormalizeList(os, oldToNew, source, target).value
    ensures was in os && NormalizeOrigin(was, oldToNew, source, target) == Some(o)
  {
    hide NormalizeOrigin;
    if NormalizeOrigin(os[0], oldToNew, source, target) == Some(o) {
      return os[0];
    }
    was := NormalizedFrom(os[1..], oldToNew, source, target, o);
  }

  lemma {:induction false} NormalizedAt(lists: seq<seq<Origin>>, oldToNew: seq<Option<nat>>, source: seq<string>,
                                        target: seq<string>, n: nat)
    requires n < |lists| && NormalizeLists(lists, oldToNew, source, target).Some?
    ensures var r := NormalizeLists(lists, oldToNew, source, target).value;
            && |r| == |lists|
            && NormalizeList(lists[n], oldToNew, source, target).Some?
            && r[n] == SortOrigins(NormalizeList(lists[n], oldToNew, source, target).value)
  {
    hide NormalizeList, SortOrigins;
    NormalizedSize(lists, oldToNew, source, target);
    if n > 0 {
      NormalizedAt(lists[1..], oldToNew, source, target, n - 1);
    }
  }

  lemma {:induction false} NormalizedSize(lists: seq<seq<Origin>>, oldToNew: seq<Option<nat>>, source: seq<string>,
                                          target: seq<string>)
    requires NormalizeLists(lists, oldToNew, source, target).Some?
    ensures |NormalizeLists(lists, oldToNew, source, target).value| == |lists|
  {
    hide NormalizeList, SortOrigins;
    if lists != [] {
      NormalizedSize(lists[1..], oldToNew, source, target);
    }
  }

  lemma {:induction false} CountInOne(lists: seq<seq<Origin>>, n: nat, pc: nat)
    requires n < |lists|
    ensures CountIn(lists[n], pc) <= CountInLists(lists, pc)
  {
    if n > 0 {
      CountInOne(lists[1..], n - 1, pc);
    }
  }

  lemma {:induction false} CountInSome(lists: seq<seq<Origin>>, pc: nat) returns (n: nat)
    requires CountInLists(lists, pc) > 0
    ensures n < |lists| && CountIn(lists[n], pc) > 0
  {
    if CountIn(lists[0], pc) > 0 {
      return 0;
    }
    n := CountInSome(lists[1..], pc);
    n := n + 1;
  }

  /** A valid plan lists behind each output exactly the old positions it sends there, once each. */
  lemma ValidIsInverse(plan: Plan, source: seq<string>, target: seq<string>, n: nat)
    requires ValidPlan(plan, source, target) && n < |target|
    ensures forall pc :: 0 <= pc < |source| ==>
              (plan.oldToNew[pc] == Some(n) <==> exists o :: o in plan.newToOld[n] && o.oldPC == pc)
    ensures forall i, j :: 0 <= i < j < |plan.newToOld[n]| ==>
              plan.newToOld[n][i].oldPC != plan.newToOld[n][j].oldPC
  {
    hide ControlToken, CountIn, CountInLists;
    var lists := plan.newToOld;
    forall pc | 0 <= pc < |source| && plan.oldToNew[pc] == Some(n)
      ensures exists o: Origin :: o in lists[n] && o.oldPC == pc
    {
      var k := CountInSome(lists, pc);
      var o := IfTailPlan.CountWitness(lists[k], pc);
      var i :| 0 <= i < |lists[k]| && lists[k][i] == o;
      assert ValidOrigin(lists[k][i], k, plan, source, target);
    }
    forall o: Origin | o in lists[n] ensures o.oldPC < |source| && plan.oldToNew[o.oldPC] == Some(n) {
      var i :| 0 <= i < |lists[n]| && lists[n][i] == o;
      assert ValidOrigin(lists[n][i], n, plan, source, target);
    }
    forall i, j | 0 <= i < j < |lists[n]| ensures lists[n][i].oldPC != lists[n][j].oldPC {
      assert ValidOrigin(lists[n][i], n, plan, source, target);
      if lists[n][i].oldPC == lists[n][j].oldPC {
        CountTwice(lists[n], i, j);
        CountInOne(lists, n, lists[n][i].oldPC);
        assert false;
      }
    }
  }

  /** Every recorded path is the one under which its old position is reached. */
  lemma ParsedPaths(p: seq<string>, labels: set<string>, pc: nat)
    requires Parse(p, labels).Some? && pc < |p|
    ensures var atoms := FlattenSeq(Parse(p, labels).value);
            |atoms| == |p| && IfTailPlan.PathsOf(atoms)[pc] == ReachedUnder(p, pc)
  {
    hide ControlToken, IsSafeEncoding, ReachedUnder;
    ParseSeqReached(p, 0, [], labels);
  }

  lemma KeptPlan(p: seq<string>, labels: set<string>)
    requires Parse(p, labels).Some?
    ensures var out, r := OptimizeSeq(Parse(p, labels).value), Optimize(p, labels);
            && r.instructions == Text(out)
            && NormalizePaths(FlatPlan(out, |p|), p, Text(out)) == Some(r.plan)
            && ValidPlan(r.plan, p, Text(out))
  {
    hide ControlToken, IsSafeEncoding, ValidPlan, NormalizePaths, IfTailPlan.Faithful, AssignAll;
    var ns := Parse(p, labels).value;
    IfTailPlan.HoistingIsFaithful(p, labels);
    IfTailPlan.FaithfulPlanIsValid(FlattenSeq(OptimizeSeq(ns)), p, IfTailPlan.PathsOf(FlattenSeq(ns)));
  }

  lemma PlanPath(p: seq<string>, labels: set<string>, n: nat, o: Origin)
    requires Parse(p, labels).Some? && n < |Optimize(p, labels).instructions|
    requires |Optimize(p, labels).plan.newToOld| == |Optimize(p, labels).instructions|
    requires o in Optimize(p, labels).plan.newToOld[n]
    ensures o.oldPC < |p| && Renumbered(o.path, ReachedUnder(p, o.oldPC), Optimize(p, labels).plan.oldToNew)
  {
    hide ControlToken, IsSafeEncoding, ValidPlan, AssignAll, ReachedUnder, Renumbered, Optimize, NormalizeLists;
    hide SortOrigins, NormalizeList, MapPath;
    var ns := Parse(p, labels).value;
    var atoms := FlattenSeq(OptimizeSeq(ns));
    var text, plan := Encodings(atoms), Optimize(p, labels).plan;
    KeptPlan(p, labels);
    NormalizedAt(OriginLists(atoms), plan.oldToNew, p, text, n);
    var os := NormalizeList(atoms[n].origins, plan.oldToNew, p, text).value;
    IfTailPlan.SortFacts(os, 0);
    var was := NormalizedFrom(atoms[n].origins, plan.oldToNew, p, text, o);
    MappedIsRenumbered(was.path, plan.oldToNew, p, text);
    assert was.oldPC < |p| && was.path == ReachedUnder(p, was.oldPC) by {
      RecordedPath(p, labels, n, was);
    }
  }

  lemma RecordedPath(p: seq<string>, labels: set<string>, n: nat, o: Origin)
    requires Parse(p, labels).Some?
    requires n < |FlattenSeq(OptimizeSeq(Parse(p, labels).value))|
    requires o in FlattenSeq(OptimizeSeq(Parse(p, labels).value))[n].origins
    ensures o.oldPC < |p| && o.path == ReachedUnder(p, o.oldPC)
  {
    hide ControlToken, IsSafeEncoding, ReachedUnder, Parse, OptimizeSeq, FlattenSeq, Key;
    hide IfTailPlan.FlatLooksBack, IfTailPlan.CountAtoms;
    var ns := Parse(p, labels).value;
    IfTailPlan.HoistingIsFaithful(p, labels);
    assert IfTailPlan.TrueAtom(FlattenSeq(OptimizeSeq(ns))[n], p, IfTailPlan.PathsOf(FlattenSeq(ns)));
    ParsedPaths(p, labels, o.oldPC);
  }

  lemma PlanAscends(p: seq<string>, labels: set<string>, n: nat)
    requires Parse(p, labels).Some? && n < |Optimize(p, labels).instructions|
    ensures n < |Optimize(p, labels).plan.newToOld| && Ascends(Optimize(p, labels).plan.newToOld[n])
  {
    hide ControlToken, IsSafeEncoding, ValidPlan, AssignAll, Optimize, NormalizeLists, SortOrigins, NormalizeList;
    hide Ascends;
    var atoms := FlattenSeq(OptimizeSeq(Parse(p, labels).value));
    var plan := Optimize(p, labels).plan;
    KeptPlan(p, labels);
    NormalizedAt(OriginLists(atoms), plan.oldToNew, p, Encodings(atoms), n);
    SortAscends(NormalizeList(atoms[n].origins, plan.oldToNew, p, Encodings(atoms)).value);
  }

  /** Main result: behind each output the plan lists, in ascending order, exactly the old positions sent there, each
      with the branch decisions under which the input reaches it, their openers renumbered. */
  lemma PlanIsExact(p: seq<string>, labels: set<string>, n: nat)
    requires Parse(p, labels).Some? && n < |Optimize(p, labels).instructions|
    ensures var plan := Optimize(p, labels).plan;
            && |plan.oldToNew| == |p| && |plan.newToOld| == |Optimize(p, labels).instructions|
            && var os := plan.newToOld[n];
               && (forall i, j :: 0 <= i < j < |os| ==> os[i].oldPC < os[j].oldPC)
               && (forall pc :: 0 <= pc < |p| ==>
                     (plan.oldToNew[pc] == Some(n) <==> exists o :: o in os && o.oldPC == pc))
               && (forall o :: o in os ==>
                     o.oldPC < |p| && Renumbered(o.path, ReachedUnder(p, o.oldPC), plan.oldToNew))
  {
    hide ControlToken, IsSafeEncoding, Optimize, Renumbered, ReachedUnder, CountIn, CountInLists, ValidOrigin;
    hide NormalizePaths, Parse, OptimizeSeq;
    KeptPlan(p, labels);
    PlanAscends(p, labels, n);
    var plan := Optimize(p, labels).plan;
    ValidIsInverse(plan, p, Optimize(p, labels).instructions, n);
    forall o | o in plan.newToOld[n]
      ensures o.oldPC < |p| && Renumbered(o.path, ReachedUnder(p, o.oldPC), plan.oldToNew)
    {
      PlanPath(p, labels, n, o);
    }
  }

  // ----- code that is not well nested -----

  lemma {:induction false} IdentityCount(n: nat, i: nat, pc: nat)
    requires i <= n
    ensures CountInLists(IdentityPlan(n).newToOld[i..], pc) == if i <= pc < n then 1 else 0
    decreases n - i
  {
    if i < n {
      var lists := IdentityPlan(n).newToOld;
      assert lists[i..][0] == [Origin(i, [])] && lists[i..][1..] == lists[i + 1..];
      assert CountIn([Origin(i, [])], pc) == (if i == pc then 1 else 0) + CountIn([], pc);
      IdentityCount(n, i + 1, pc);
    }
  }

  /** Malformed code comes back as it is, with nothing counted and a plan that is valid and maps every position to
      itself. */
  lemma MalformedIsKept(p: seq<string>, labels: set<string>)
    requires Parse(p, labels).None?
    ensures var r := Optimize(p, labels);
            && r.instructions == p && !r.changed && !r.structurallyValid && r.mergedIfCount == 0
            && r.skippedUnsafeTailCount == 0
            && r.rewritePlanValid && ValidPlan(r.plan, p, p)
            && forall pc :: 0 <= pc < |p| ==> r.plan.oldToNew[pc] == Some(pc as nat)
  {
    hide ControlToken, Parse;
    var plan := IdentityPlan(|p|);
    assert plan.newToOld[0..] == plan.newToOld;
    forall pc | 0 <= pc < |p| ensures CountInLists(plan.newToOld, pc) == 1 {
      IdentityCount(|p|, 0, pc);
    }
  }
}
