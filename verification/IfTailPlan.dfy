/** The rewrite plan of common-tail hoisting is always accepted by its own validator: every input instruction has
    exactly one place in the output, and every branch predicate names an earlier, same-kind opener of the output. */
module IfTailPlan {
  import opened Wrappers
  import opened Hex
  import opened CondMachine
  import opened IfTree
  import opened IfTailOptimizer
  import IfTailMeaning

  // ----- sorting origins -----

  lemma {:induction false} InsertFacts(o: Origin, s: seq<Origin>, pc: nat)
    ensures CountIn(InsertOrigin(o, s), pc) == CountIn([o] + s, pc)
    ensures forall x :: x in InsertOrigin(o, s) <==> x == o || x in s
  {
    assert ([o] + s)[1..] == s;
    if s != [] && OriginLess(s[0], o) {
      InsertFacts(o, s[1..], pc);
      var r := InsertOrigin(o, s[1..]);
      assert ([s[0]] + r)[1..] == r;
      assert ([o] + s[1..])[1..] == s[1..];
      assert s == [s[0]] + s[1..];
    }
  }

  lemma {:induction false} SortFacts(s: seq<Origin>, pc: nat)
    ensures CountIn(SortOrigins(s), pc) == CountIn(s, pc)
    ensures forall x :: x in SortOrigins(s) <==> x in s
  {
    if s != [] {
      SortFacts(s[1..], pc);
      InsertFacts(s[0], SortOrigins(s[1..]), pc);
      assert ([s[0]] + SortOrigins(s[1..]))[1..] == SortOrigins(s[1..]);
      assert s == [s[0]] + s[1..];
    }
  }

  lemma {:induction false} DropMembers(s: seq<Origin>)
    ensures forall x :: x in DropRepeats(s) <==> x in s
  {
    if |s| > 1 {
      DropMembers(s[1..]);
      assert s == [s[0]] + s[1..];
    }
  }

  lemma {:induction false} DropNothing(s: seq<Origin>)
    requires forall pc :: CountIn(s, pc) <= 1
    ensures DropRepeats(s) == s
  {
    if |s| > 1 {
      forall pc ensures CountIn(s[1..], pc) <= 1 {
        assert CountIn(s, pc) <= 1;
      }
      DropNothing(s[1..]);
      assert CountIn(s, s[0].oldPC) == 1 + CountIn(s[1..], s[0].oldPC);
      assert s == [s[0]] + s[1..];
    }
  }

  lemma {:induction false} CountConcat(a: seq<Origin>, b: seq<Origin>, pc: nat)
    ensures CountIn(a + b, pc) == CountIn(a, pc) + CountIn(b, pc)
  {
    if a == [] {
      assert a + b == b;
    } else {
      assert (a + b)[1..] == a[1..] + b;
      CountConcat(a[1..], b, pc);
    }
  }

  lemma {:induction false} CountPositive(s: seq<Origin>, o: Origin)
    requires o in s
    ensures CountIn(s, o.oldPC) >= 1
  {
    if s[0] != o {
      CountPositive(s[1..], o);
    }
  }

  lemma {:induction false} CountWitness(s: seq<Origin>, pc: nat) returns (o: Origin)
    requires CountIn(s, pc) >= 1
    ensures o in s && o.oldPC == pc
  {
    if s[0].oldPC == pc {
      return s[0];
    }
    o := CountWitness(s[1..], pc);
  }

  lemma MergedOrigins(a: Atom, b: Atom)
    ensures forall x :: x in MergeAtom(a, b).origins <==> x in a.origins || x in b.origins
  {
    SortFacts(a.origins + b.origins, 0);
    DropMembers(SortOrigins(a.origins + b.origins));
  }

  lemma MergedCount(a: Atom, b: Atom, pc: nat)
    requires forall q :: CountIn(a.origins, q) + CountIn(b.origins, q) <= 1
    ensures CountIn(MergeAtom(a, b).origins, pc) == CountIn(a.origins, pc) + CountIn(b.origins, pc)
  {
    var s := a.origins + b.origins;
    forall q ensures CountIn(SortOrigins(s), q) <= 1 {
      SortFacts(s, q);
      CountConcat(a.origins, b.origins, q);
    }
    DropNothing(SortOrigins(s));
    SortFacts(s, pc);
    CountConcat(a.origins, b.origins, pc);
  }

  // ----- how often an input instruction occurs in a tree -----

  function CountAtoms(atoms: seq<Atom>, pc: nat): nat {
    if atoms == [] then 0 else CountIn(atoms[0].origins, pc) + CountAtoms(atoms[1..], pc)
  }

  function Count(ns: seq<Node>, pc: nat): nat {
    CountAtoms(FlattenSeq(ns), pc)
  }

  lemma {:induction false} CountAtomsConcat(a: seq<Atom>, b: seq<Atom>, pc: nat)
    ensures CountAtoms(a + b, pc) == CountAtoms(a, pc) + CountAtoms(b, pc)
  {
    if a == [] {
      assert a + b == b;
    } else {
      assert (a + b)[1..] == a[1..] + b;
      CountAtomsConcat(a[1..], b, pc);
    }
  }

  lemma CountSeqConcat(a: seq<Node>, b: seq<Node>, pc: nat)
    ensures Count(a + b, pc) == Count(a, pc) + Count(b, pc)
  {
    FlattenConcat(a, b);
    CountAtomsConcat(FlattenSeq(a), FlattenSeq(b), pc);
  }

  function CountMarker(k: Option<Atom>, pc: nat): nat {
    if k.Some? then CountIn(k.value.origins, pc) else 0
  }

  lemma CountHead(ns: seq<Node>, pc: nat)
    requires ns != []
    ensures Count(ns, pc) == CountAtoms(FlattenNode(ns[0]), pc) + Count(ns[1..], pc)
  {
    CountAtomsConcat(FlattenNode(ns[0]), FlattenSeq(ns[1..]), pc);
  }

  lemma EmptyCount(pc: nat)
    ensures Count([], pc) == 0
  {
  }

  lemma CountOne(a: Atom, pc: nat)
    ensures CountAtoms([a], pc) == CountIn(a.origins, pc)
  {
    assert [a][1..] == [];
  }

  lemma CountRegion(n: Node, pc: nat)
    requires n.IfRegion? && (n.elseMarker.None? ==> n.elseBody == [])
    ensures CountAtoms(FlattenNode(n), pc) ==
            CountIn(n.opener.origins, pc) + Count(n.thenBody, pc) + CountMarker(n.elseMarker, pc)
            + Count(n.elseBody, pc) + CountIn(n.endMarker.origins, pc)
  {
    hide CountAtoms;
    var o, x := [n.opener], [n.endMarker];
    var t, e := FlattenSeq(n.thenBody), FlattenSeq(n.elseBody);
    CountOne(n.opener, pc);
    CountOne(n.endMarker, pc);
    CountAtomsConcat(o, t, pc);
    if n.elseMarker.None? {
      CountAtomsConcat(o + t, x, pc);
      EmptyCount(pc);
    } else {
      var k := [n.elseMarker.value];
      CountOne(n.elseMarker.value, pc);
      CountAtomsConcat(o + t, k, pc);
      CountAtomsConcat(o + t + k, e, pc);
      CountAtomsConcat(o + t + k + e, x, pc);
    }
  }

  /** No input instruction occurs twice in a and b together. */
  ghost predicate Apart(a: seq<Node>, b: seq<Node>) {
    forall q :: Count(a, q) + Count(b, q) <= 1
  }

  ghost predicate ApartNodes(a: Node, b: Node) {
    forall q :: CountAtoms(FlattenNode(a), q) + CountAtoms(FlattenNode(b), q) <= 1
  }

  lemma {:induction false} MergeCount(a: seq<Node>, b: seq<Node>, labels: set<string>, pc: nat)
    requires EquivSeq(a, b) && GoodSeq(a, labels) && GoodSeq(b, labels) && Apart(a, b)
    ensures Count(MergeSeq(a, b), pc) == Count(a, pc) + Count(b, pc)
    decreases a, 1
  {
    hide ControlToken, IsSafeEncoding, EquivAtom, Count, MergeNode, EquivNode, GoodNode, CountAtoms;
    if a == [] {
      EmptyCount(pc);
    } else {
      forall q
        ensures CountAtoms(FlattenNode(a[0]), q) + CountAtoms(FlattenNode(b[0]), q) <= 1
        ensures Count(a[1..], q) + Count(b[1..], q) <= 1
      {
        CountHead(a, q);
        CountHead(b, q);
        assert Count(a, q) + Count(b, q) <= 1;
      }
      CountHead(a, pc);
      CountHead(b, pc);
      CountHead(MergeSeq(a, b), pc);
      MergeCountNode(a[0], b[0], labels, pc);
      MergeCount(a[1..], b[1..], labels, pc);
      assert MergeSeq(a, b)[1..] == MergeSeq(a[1..], b[1..]);
    }
  }

  lemma {:induction false} MergeCountNode(a: Node, b: Node, labels: set<string>, pc: nat)
    requires EquivNode(a, b) && GoodNode(a, labels) && GoodNode(b, labels) && ApartNodes(a, b)
    ensures CountAtoms(FlattenNode(MergeNode(a, b)), pc) ==
            CountAtoms(FlattenNode(a), pc) + CountAtoms(FlattenNode(b), pc)
    decreases a, 0
  {
    hide ControlToken, IsSafeEncoding, EquivAtom, Count, EquivSeq, GoodSeq, CountAtoms, CountIn, MergeAtom;
    match a
    case AtomNode(x) =>
      forall q ensures CountIn(x.origins, q) + CountIn(b.atom.origins, q) <= 1 {
        CountOne(x, q);
        CountOne(b.atom, q);
        assert CountAtoms(FlattenNode(a), q) + CountAtoms(FlattenNode(b), q) <= 1;
      }
      MergedCount(x, b.atom, pc);
      CountOne(x, pc);
      CountOne(b.atom, pc);
      CountOne(MergeAtom(x, b.atom), pc);
    case IfRegion(o, t, k, e, x) =>
      forall q
        ensures CountIn(o.origins, q) + CountIn(b.opener.origins, q) <= 1
        ensures Count(t, q) + Count(b.thenBody, q) <= 1
        ensures CountMarker(k, q) + CountMarker(b.elseMarker, q) <= 1
        ensures Count(e, q) + Count(b.elseBody, q) <= 1
        ensures CountIn(x.origins, q) + CountIn(b.endMarker.origins, q) <= 1
      {
        CountRegion(a, q);
        CountRegion(b, q);
        assert CountAtoms(FlattenNode(a), q) + CountAtoms(FlattenNode(b), q) <= 1;
      }
      MergedCount(o, b.opener, pc);
      MergedCount(x, b.endMarker, pc);
      MergeCount(t, b.thenBody, labels, pc);
      MergeCount(e, b.elseBody, labels, pc);
      if k.Some? {
        forall q ensures CountIn(k.value.origins, q) + CountIn(b.elseMarker.value.origins, q) <= 1 {
          assert CountMarker(k, q) + CountMarker(b.elseMarker, q) <= 1;
        }
        MergedCount(k.value, b.elseMarker.value, pc);
      }
      CountRegion(a, pc);
      CountRegion(b, pc);
      CountRegion(MergeNode(a, b), pc);
  }

  ghost predicate Unique(ns: seq<Node>) {
    forall q :: Count(ns, q) <= 1
  }

  lemma HoistKeepsCount(o: Atom, t: seq<Node>, k: Option<Atom>, e: seq<Node>, x: Atom, labels: set<string>, pc: nat)
    requires GoodNode(IfRegion(o, t, k, e, x), labels) && Unique([IfRegion(o, t, k, e, x)])
    ensures Count(Hoist(o, t, k, e, x), pc) == Count([IfRegion(o, t, k, e, x)], pc)
  {
    hide ControlToken, IsSafeEncoding, GoodAtom, Count, GoodSeq, CountAtoms, CountIn, Hoist, SafeSeq, EquivSeq;
    var whole := IfRegion(o, t, k, e, x);
    var t0, t1, e0, e1 := HoistParts(o, t, k, e, x);
    GoodConcat(t0, t1, labels);
    GoodConcat(e0, e1, labels);
    forall q
      ensures Count([whole], q) ==
              CountIn(o.origins, q) + Count(t0, q) + Count(t1, q) + CountMarker(k, q) + Count(e0, q) + Count(e1, q)
              + CountIn(x.origins, q)
    {
      CountSeqConcat(t0, t1, q);
      CountSeqConcat(e0, e1, q);
      CountRegion(whole, q);
      CountSingle(whole, q);
    }
    assert Apart(t1, e1) by {
      forall q ensures Count(t1, q) + Count(e1, q) <= 1 {
        assert Count([whole], q) <= 1;
      }
    }
    MergeCount(t1, e1, labels, pc);
    var kept := IfRegion(o, t0, k, e0, x);
    CountRegion(kept, pc);
    CountSingle(kept, pc);
    CountSeqConcat([kept], MergeSeq(t1, e1), pc);
  }

  lemma CountSingle(n: Node, pc: nat)
    ensures Count([n], pc) == CountAtoms(FlattenNode(n), pc)
  {
    assert [n][1..] == [];
    CountAtomsConcat(FlattenNode(n), [], pc);
    assert FlattenSeq([n]) == FlattenNode(n) + FlattenSeq([]);
  }

  /** Hoisting neither loses nor repeats an input instruction. */
  lemma {:induction false} OptimizeCount(ns: seq<Node>, labels: set<string>, pc: nat)
    requires GoodSeq(ns, labels) && Unique(ns)
    ensures Count(OptimizeSeq(ns), pc) == Count(ns, pc)
    decreases ns, 1
  {
    hide ControlToken, IsSafeEncoding, GoodAtom, Count, CountAtoms;
    if ns != [] {
      forall q ensures CountAtoms(FlattenNode(ns[0]), q) <= 1 && Count(ns[1..], q) <= 1 {
        CountHead(ns, q);
        assert Count(ns, q) <= 1;
      }
      OptimizeCountNode(ns[0], labels, pc);
      OptimizeCount(ns[1..], labels, pc);
      CountHead(ns, pc);
      CountSeqConcat(OptimizeNode(ns[0]), OptimizeSeq(ns[1..]), pc);
    }
  }

  lemma {:induction false} OptimizeCountNode(n: Node, labels: set<string>, pc: nat)
    requires GoodNode(n, labels) && forall q :: CountAtoms(FlattenNode(n), q) <= 1
    ensures Count(OptimizeNode(n), pc) == CountAtoms(FlattenNode(n), pc)
    decreases n, 0
  {
    hide ControlToken, IsSafeEncoding, GoodAtom, Count, CountAtoms, CountIn, GoodSeq, Hoist;
    match n
    case AtomNode(_) =>
      CountSingle(n, pc);
    case IfRegion(o, t, k, e, x) =>
      var t', e' := OptimizeSeq(t), OptimizeSeq(e);
      forall q ensures Count(t, q) <= 1 && Count(e, q) <= 1 {
        CountRegion(n, q);
        assert CountAtoms(FlattenNode(n), q) <= 1;
      }
      IfTailMeaning.OptimizeGood(t, labels);
      IfTailMeaning.OptimizeGood(e, labels);
      var mid := IfRegion(o, t', k, e', x);
      assert e == [] ==> e' == [];
      forall q ensures Count([mid], q) == CountAtoms(FlattenNode(n), q) {
        OptimizeCount(t, labels, q);
        OptimizeCount(e, labels, q);
        CountRegion(n, q);
        CountRegion(mid, q);
        CountSingle(mid, q);
      }
      assert Unique([mid]) by {
        forall q ensures Count([mid], q) <= 1 {
          assert CountAtoms(FlattenNode(n), q) <= 1;
        }
      }
      HoistKeepsCount(o, t', k, e', x, labels, pc);
  }

  // ----- where an input instruction came from -----

  /** An origin carries the branch path of its input position, and the atom still spells that instruction. */
  predicate TrueOrigin(o: Origin, e: string, p: seq<string>, paths: seq<seq<BranchPredicate>>)
    requires |paths| == |p|
  {
    o.oldPC < |p| && o.path == paths[o.oldPC] && Key(e) == Key(p[o.oldPC])
  }

  predicate TrueAtom(a: Atom, p: seq<string>, paths: seq<seq<BranchPredicate>>)
    requires |paths| == |p|
  {
    a.origins != [] && forall o :: o in a.origins ==> TrueOrigin(o, a.encoding, p, paths)
  }

  predicate TrueAtoms(atoms: seq<Atom>, p: seq<string>, paths: seq<seq<BranchPredicate>>)
    requires |paths| == |p|
  {
    forall i :: 0 <= i < |atoms| ==> TrueAtom(atoms[i], p, paths)
  }

  lemma TrueConcat(a: seq<Atom>, b: seq<Atom>, p: seq<string>, paths: seq<seq<BranchPredicate>>)
    requires |paths| == |p|
    ensures TrueAtoms(a + b, p, paths) <==> TrueAtoms(a, p, paths) && TrueAtoms(b, p, paths)
  {
    hide TrueAtom;
    if TrueAtoms(a + b, p, paths) {
      forall i | 0 <= i < |a| ensures TrueAtom(a[i], p, paths) {
        assert a[i] == (a + b)[i];
      }
      forall i | 0 <= i < |b| ensures TrueAtom(b[i], p, paths) {
        assert b[i] == (a + b)[|a| + i];
      }
    }
  }

  lemma MergeTrueAtom(a: Atom, b: Atom, p: seq<string>, paths: seq<seq<BranchPredicate>>)
    requires |paths| == |p| && EquivAtom(a, b) && TrueAtom(a, p, paths) && TrueAtom(b, p, paths)
    ensures TrueAtom(MergeAtom(a, b), p, paths)
  {
    hide Key, EquivAtom;
    MergedOrigins(a, b);
    IfTailMeaning.EquivIsSameKey(a, b);
    assert a.origins[0] in MergeAtom(a, b).origins;
  }

  lemma {:induction false} MergeTrue(a: seq<Node>, b: seq<Node>, p: seq<string>, paths: seq<seq<BranchPredicate>>)
    requires |paths| == |p| && EquivSeq(a, b)
    requires TrueAtoms(FlattenSeq(a), p, paths) && TrueAtoms(FlattenSeq(b), p, paths)
    ensures TrueAtoms(FlattenSeq(MergeSeq(a, b)), p, paths)
    decreases a, 1
  {
    hide TrueAtoms, EquivNode, MergeNode, FlattenNode;
    if a != [] {
      TrueConcat(FlattenNode(a[0]), FlattenSeq(a[1..]), p, paths);
      TrueConcat(FlattenNode(b[0]), FlattenSeq(b[1..]), p, paths);
      MergeTrueNode(a[0], b[0], p, paths);
      MergeTrue(a[1..], b[1..], p, paths);
      assert MergeSeq(a, b)[1..] == MergeSeq(a[1..], b[1..]);
      TrueConcat(FlattenNode(MergeNode(a[0], b[0])), FlattenSeq(MergeSeq(a[1..], b[1..])), p, paths);
    }
  }

  lemma TrueOne(a: Atom, p: seq<string>, paths: seq<seq<BranchPredicate>>)
    requires |paths| == |p|
    ensures TrueAtoms([a], p, paths) <==> TrueAtom(a, p, paths)
  {
    hide TrueAtom;
    assert [a][0] == a;
  }

  lemma TrueRegion(n: Node, p: seq<string>, paths: seq<seq<BranchPredicate>>)
    requires |paths| == |p| && n.IfRegion?
    ensures TrueAtoms(FlattenNode(n), p, paths) <==>
              && TrueAtom(n.opener, p, paths) && TrueAtoms(FlattenSeq(n.thenBody), p, paths)
              && TrueAtom(n.endMarker, p, paths)
              && (n.elseMarker.Some? ==>
                    TrueAtom(n.elseMarker.value, p, paths) && TrueAtoms(FlattenSeq(n.elseBody), p, paths))
  {
    hide TrueAtoms, TrueAtom;
    var o, x := [n.opener], [n.endMarker];
    var t, e := FlattenSeq(n.thenBody), FlattenSeq(n.elseBody);
    TrueOne(n.opener, p, paths);
    TrueOne(n.endMarker, p, paths);
    TrueConcat(o, t, p, paths);
    if n.elseMarker.None? {
      TrueConcat(o + t, x, p, paths);
    } else {
      var k := [n.elseMarker.value];
      TrueOne(n.elseMarker.value, p, paths);
      TrueConcat(o + t, k, p, paths);
      TrueConcat(o + t + k, e, p, paths);
      TrueConcat(o + t + k + e, x, p, paths);
    }
  }

  lemma {:induction false} MergeTrueNode(a: Node, b: Node, p: seq<string>, paths: seq<seq<BranchPredicate>>)
    requires |paths| == |p| && EquivNode(a, b)
    requires TrueAtoms(FlattenNode(a), p, paths) && TrueAtoms(FlattenNode(b), p, paths)
    ensures TrueAtoms(FlattenNode(MergeNode(a, b)), p, paths)
    decreases a, 0
  {
    hide TrueAtoms, TrueAtom, EquivSeq, EquivAtom, MergeSeq, MergeAtom;
    match a
    case AtomNode(x) =>
      TrueOne(x, p, paths);
      TrueOne(b.atom, p, paths);
      MergeTrueAtom(x, b.atom, p, paths);
      TrueOne(MergeAtom(x, b.atom), p, paths);
    case IfRegion(o, t, k, e, x) =>
      TrueRegion(a, p, paths);
      TrueRegion(b, p, paths);
      MergeTrueAtom(o, b.opener, p, paths);
      MergeTrueAtom(x, b.endMarker, p, paths);
      MergeTrue(t, b.thenBody, p, paths);
      if k.Some? {
        MergeTrueAtom(k.value, b.elseMarker.value, p, paths);
        MergeTrue(e, b.elseBody, p, paths);
      }
      TrueRegion(MergeNode(a, b), p, paths);
  }

  lemma HoistTrue(o: Atom, t: seq<Node>, k: Option<Atom>, e: seq<Node>, x: Atom, p: seq<string>,
                  paths: seq<seq<BranchPredicate>>)
    requires |paths| == |p| && TrueAtoms(FlattenNode(IfRegion(o, t, k, e, x)), p, paths)
    ensures TrueAtoms(FlattenSeq(Hoist(o, t, k, e, x)), p, paths)
  {
    hide TrueAtoms, TrueAtom, MergeSeq, EquivSeq, SafeSeq, Hoist;
    TrueRegion(IfRegion(o, t, k, e, x), p, paths);
    var t0, t1, e0, e1 := HoistParts(o, t, k, e, x);
    FlattenConcat(t0, t1);
    TrueConcat(FlattenSeq(t0), FlattenSeq(t1), p, paths);
    if k.Some? {
      FlattenConcat(e0, e1);
      TrueConcat(FlattenSeq(e0), FlattenSeq(e1), p, paths);
      MergeTrue(t1, e1, p, paths);
    } else {
      assert t1 == [] && e1 == [];
      assert MergeSeq(t1, e1) == [];
      assert FlattenSeq(MergeSeq(t1, e1)) == [];
    }
    var kept := IfRegion(o, t0, k, e0, x);
    TrueRegion(kept, p, paths);
    FlattenConcat([kept], MergeSeq(t1, e1));
    SingleFlat(kept);
    TrueConcat(FlattenNode(kept), FlattenSeq(MergeSeq(t1, e1)), p, paths);
  }

  lemma SingleFlat(n: Node)
    ensures FlattenSeq([n]) == FlattenNode(n)
  {
    assert [n][1..] == [];
    assert FlattenNode(n) + FlattenSeq([]) == FlattenNode(n);
  }

  lemma {:induction false} OptimizeTrue(ns: seq<Node>, p: seq<string>, paths: seq<seq<BranchPredicate>>)
    requires |paths| == |p| && TrueAtoms(FlattenSeq(ns), p, paths)
    ensures TrueAtoms(FlattenSeq(OptimizeSeq(ns)), p, paths)
    decreases ns, 1
  {
    hide TrueAtoms, OptimizeNode, FlattenNode;
    if ns != [] {
      TrueConcat(FlattenNode(ns[0]), FlattenSeq(ns[1..]), p, paths);
      OptimizeTrueNode(ns[0], p, paths);
      OptimizeTrue(ns[1..], p, paths);
      FlattenConcat(OptimizeNode(ns[0]), OptimizeSeq(ns[1..]));
      TrueConcat(FlattenSeq(OptimizeNode(ns[0])), FlattenSeq(OptimizeSeq(ns[1..])), p, paths);
    }
  }

  lemma {:induction false} OptimizeTrueNode(n: Node, p: seq<string>, paths: seq<seq<BranchPredicate>>)
    requires |paths| == |p| && TrueAtoms(FlattenNode(n), p, paths)
    ensures TrueAtoms(FlattenSeq(OptimizeNode(n)), p, paths)
    decreases n, 0
  {
    hide TrueAtoms, TrueAtom, Hoist;
    match n
    case AtomNode(_) =>
      SingleFlat(n);
    case IfRegion(o, t, k, e, x) =>
      TrueRegion(n, p, paths);
      OptimizeTrue(t, p, paths);
      if k.Some? {
        OptimizeTrue(e, p, paths);
      }
      TrueRegion(IfRegion(o, OptimizeSeq(t), k, OptimizeSeq(e), x), p, paths);
      HoistTrue(o, OptimizeSeq(t), k, OptimizeSeq(e), x, p, paths);
  }

  // ----- branch paths only look back -----

  function PcSet(os: seq<Origin>): set<nat> {
    set o | o in os :: o.oldPC
  }

  function Pcs(atoms: seq<Atom>): set<nat> {
    if atoms == [] then {} else PcSet(atoms[0].origins) + Pcs(atoms[1..])
  }

  predicate LooksBack(a: Atom, seen: set<nat>) {
    forall o, i :: o in a.origins && 0 <= i < |o.path| ==> o.path[i].ifPC in seen
  }

  /** Every branch path in the code names instructions that are in seen or come earlier. */
  predicate FlatLooksBack(atoms: seq<Atom>, seen: set<nat>) {
    atoms == [] || (LooksBack(atoms[0], seen) && FlatLooksBack(atoms[1..], seen + PcSet(atoms[0].origins)))
  }

  /** The same for trees; unlike the flat form, an ELSE branch does not count its THEN branch as seen. */
  predicate SeqLooksBack(ns: seq<Node>, seen: set<nat>)
    decreases ns
  {
    ns == [] || (NodeLooksBack(ns[0], seen) && SeqLooksBack(ns[1..], seen + Pcs(FlattenNode(ns[0]))))
  }

  predicate NodeLooksBack(n: Node, seen: set<nat>)
    decreases n
  {
    match n
    case AtomNode(a) => LooksBack(a, seen)
    case IfRegion(o, t, k, e, x) =>
      && LooksBack(o, seen)
      && SeqLooksBack(t, seen + PcSet(o.origins))
      && (k.Some? ==> LooksBack(k.value, seen))
      && SeqLooksBack(e, seen + PcSet(o.origins))
      && LooksBack(x, seen)
  }

  lemma {:induction false} PcsConcat(a: seq<Atom>, b: seq<Atom>)
    ensures Pcs(a + b) == Pcs(a) + Pcs(b)
  {
    if a == [] {
      assert a + b == b;
    } else {
      assert (a + b)[1..] == a[1..] + b;
      PcsConcat(a[1..], b);
    }
  }

  lemma PcsOne(a: Atom)
    ensures Pcs([a]) == PcSet(a.origins)
  {
    assert [a][1..] == [];
  }

  lemma PcsRegion(n: Node)
    requires n.IfRegion? && (n.elseMarker.None? ==> n.elseBody == [])
    ensures PcSet(n.opener.origins) <= Pcs(FlattenNode(n))
    ensures Pcs(FlattenSeq(n.thenBody)) <= Pcs(FlattenNode(n))
    ensures Pcs(FlattenSeq(n.elseBody)) <= Pcs(FlattenNode(n))
  {
    hide Pcs;
    var o, x := [n.opener], [n.endMarker];
    var t, e := FlattenSeq(n.thenBody), FlattenSeq(n.elseBody);
    PcsOne(n.opener);
    PcsConcat(o, t);
    if n.elseMarker.None? {
      PcsConcat(o + t, x);
      PcsConcat(x, e);
      assert x + e == x;
      assert Pcs(e) == {} by { EmptyPcs(); }
    } else {
      var k := [n.elseMarker.value];
      PcsConcat(o + t, k);
      PcsConcat(o + t + k, e);
      PcsConcat(o + t + k + e, x);
    }
  }

  lemma EmptyPcs()
    ensures Pcs([]) == {}
  {
  }

  lemma {:induction false} LooksBackMonotone(ns: seq<Node>, small: set<nat>, large: set<nat>)
    requires SeqLooksBack(ns, small) && small <= large
    ensures SeqLooksBack(ns, large)
    decreases ns, 1
  {
    if ns != [] {
      NodeLooksBackMonotone(ns[0], small, large);
      LooksBackMonotone(ns[1..], small + Pcs(FlattenNode(ns[0])), large + Pcs(FlattenNode(ns[0])));
    }
  }

  lemma {:induction false} NodeLooksBackMonotone(n: Node, small: set<nat>, large: set<nat>)
    requires NodeLooksBack(n, small) && small <= large
    ensures NodeLooksBack(n, large)
    decreases n, 0
  {
    match n
    case AtomNode(_) =>
    case IfRegion(o, t, k, e, x) =>
      LooksBackMonotone(t, small + PcSet(o.origins), large + PcSet(o.origins));
      LooksBackMonotone(e, small + PcSet(o.origins), large + PcSet(o.origins));
  }

  lemma {:induction false} LooksBackConcat(a: seq<Node>, b: seq<Node>, seen: set<nat>)
    ensures SeqLooksBack(a + b, seen) <==> SeqLooksBack(a, seen) && SeqLooksBack(b, seen + Pcs(FlattenSeq(a)))
  {
    hide FlattenNode, NodeLooksBack;
    if a == [] {
      assert a + b == b;
      assert seen + Pcs(FlattenSeq(a)) == seen;
    } else {
      var head := Pcs(FlattenNode(a[0]));
      assert (a + b)[1..] == a[1..] + b;
      LooksBackConcat(a[1..], b, seen + head);
      PcsConcat(FlattenNode(a[0]), FlattenSeq(a[1..]));
      assert seen + head + Pcs(FlattenSeq(a[1..])) == seen + Pcs(FlattenSeq(a));
    }
  }

  lemma MergedPcs(a: Atom, b: Atom)
    ensures PcSet(MergeAtom(a, b).origins) == PcSet(a.origins) + PcSet(b.origins)
  {
    MergedOrigins(a, b);
  }

  lemma MergedLooksBack(a: Atom, b: Atom, seen: set<nat>)
    requires LooksBack(a, seen) && LooksBack(b, seen)
    ensures LooksBack(MergeAtom(a, b), seen)
  {
    MergedOrigins(a, b);
  }

  lemma {:induction false} MergePcs(a: seq<Node>, b: seq<Node>)
    requires EquivSeq(a, b)
    ensures Pcs(FlattenSeq(MergeSeq(a, b))) == Pcs(FlattenSeq(a)) + Pcs(FlattenSeq(b))
    decreases a, 1
  {
    hide Pcs, EquivNode, MergeNode, FlattenNode;
    if a == [] {
      EmptyPcs();
    } else {
      PcsConcat(FlattenNode(a[0]), FlattenSeq(a[1..]));
      PcsConcat(FlattenNode(b[0]), FlattenSeq(b[1..]));
      PcsConcat(FlattenNode(MergeNode(a[0], b[0])), FlattenSeq(MergeSeq(a[1..], b[1..])));
      assert MergeSeq(a, b)[1..] == MergeSeq(a[1..], b[1..]);
      MergePcsNode(a[0], b[0]);
      MergePcs(a[1..], b[1..]);
    }
  }

  /** Pcs of a region, piece by piece. */
  lemma RegionPcs(n: Node)
    requires n.IfRegion?
    ensures n.elseMarker.None? ==>
              Pcs(FlattenNode(n)) ==
              PcSet(n.opener.origins) + Pcs(FlattenSeq(n.thenBody)) + PcSet(n.endMarker.origins)
    ensures n.elseMarker.Some? ==>
              Pcs(FlattenNode(n)) ==
              PcSet(n.opener.origins) + Pcs(FlattenSeq(n.thenBody)) + PcSet(n.elseMarker.value.origins)
              + Pcs(FlattenSeq(n.elseBody)) + PcSet(n.endMarker.origins)
  {
    hide Pcs;
    var o, x := [n.opener], [n.endMarker];
    var t, e := FlattenSeq(n.thenBody), FlattenSeq(n.elseBody);
    PcsOne(n.opener);
    PcsOne(n.endMarker);
    PcsConcat(o, t);
    if n.elseMarker.None? {
      PcsConcat(o + t, x);
    } else {
      var k := [n.elseMarker.value];
      PcsOne(n.elseMarker.value);
      PcsConcat(o + t, k);
      PcsConcat(o + t + k, e);
      PcsConcat(o + t + k + e, x);
    }
  }

  lemma {:induction false} MergePcsNode(a: Node, b: Node)
    requires EquivNode(a, b)
    ensures Pcs(FlattenNode(MergeNode(a, b))) == Pcs(FlattenNode(a)) + Pcs(FlattenNode(b))
    decreases a, 0
  {
    hide Pcs, EquivSeq, EquivAtom, MergeSeq, MergeAtom, PcSet;
    match a
    case AtomNode(x) =>
      PcsOne(x);
      PcsOne(b.atom);
      PcsOne(MergeAtom(x, b.atom));
      MergedPcs(x, b.atom);
    case IfRegion(o, t, k, e, x) =>
      RegionPcs(a);
      RegionPcs(b);
      RegionPcs(MergeNode(a, b));
      MergedPcs(o, b.opener);
      MergedPcs(x, b.endMarker);
      MergePcs(t, b.thenBody);
      if k.Some? {
        MergedPcs(k.value, b.elseMarker.value);
        MergePcs(e, b.elseBody);
      }
  }

  lemma {:induction false} MergeLooksBack(a: seq<Node>, b: seq<Node>, seen: set<nat>)
    requires EquivSeq(a, b) && SeqLooksBack(a, seen) && SeqLooksBack(b, seen)
    ensures SeqLooksBack(MergeSeq(a, b), seen)
    decreases a, 1
  {
    hide Pcs, EquivNode, MergeNode, FlattenNode, NodeLooksBack;
    if a != [] {
      MergeLooksBackNode(a[0], b[0], seen);
      MergePcsNode(a[0], b[0]);
      var p, q := Pcs(FlattenNode(a[0])), Pcs(FlattenNode(b[0]));
      var both := seen + Pcs(FlattenNode(MergeNode(a[0], b[0])));
      LooksBackMonotone(a[1..], seen + p, both);
      LooksBackMonotone(b[1..], seen + q, both);
      MergeLooksBack(a[1..], b[1..], both);
      assert MergeSeq(a, b)[1..] == MergeSeq(a[1..], b[1..]);
    }
  }

  lemma {:induction false} MergeLooksBackNode(a: Node, b: Node, seen: set<nat>)
    requires EquivNode(a, b) && NodeLooksBack(a, seen) && NodeLooksBack(b, seen)
    ensures NodeLooksBack(MergeNode(a, b), seen)
    decreases a, 0
  {
    hide EquivSeq, EquivAtom, MergeSeq, MergeAtom, PcSet, LooksBack, SeqLooksBack;
    match a
    case AtomNode(x) =>
      MergedLooksBack(x, b.atom, seen);
    case IfRegion(o, t, k, e, x) =>
      MergedLooksBack(o, b.opener, seen);
      MergedLooksBack(x, b.endMarker, seen);
      MergedPcs(o, b.opener);
      var inside := seen + PcSet(MergeAtom(o, b.opener).origins);
      LooksBackMonotone(t, seen + PcSet(o.origins), inside);
      LooksBackMonotone(b.thenBody, seen + PcSet(b.opener.origins), inside);
      LooksBackMonotone(e, seen + PcSet(o.origins), inside);
      LooksBackMonotone(b.elseBody, seen + PcSet(b.opener.origins), inside);
      MergeLooksBack(t, b.thenBody, inside);
      MergeLooksBack(e, b.elseBody, inside);
      if k.Some? {
        MergedLooksBack(k.value, b.elseMarker.value, seen);
      }
  }

  lemma HoistLooksBack(o: Atom, t: seq<Node>, k: Option<Atom>, e: seq<Node>, x: Atom, seen: set<nat>)
    requires NodeLooksBack(IfRegion(o, t, k, e, x), seen) && (k.None? ==> e == [])
    ensures SeqLooksBack(Hoist(o, t, k, e, x), seen)
  {
    hide Pcs, EquivSeq, MergeSeq, LooksBack, SeqLooksBack, PcSet, FlattenNode;
    var t0, t1, e0, e1 := HoistParts(o, t, k, e, x);
    var inside := seen + PcSet(o.origins);
    LooksBackConcat(t0, t1, inside);
    LooksBackConcat(e0, e1, inside);
    var kept := IfRegion(o, t0, k, e0, x);
    PcsRegion(kept);
    var after := seen + Pcs(FlattenNode(kept));
    LooksBackMonotone(t1, inside + Pcs(FlattenSeq(t0)), after);
    LooksBackMonotone(e1, inside + Pcs(FlattenSeq(e0)), after);
    MergeLooksBack(t1, e1, after);
    SingleFlat(kept);
    LooksBackOne(kept, seen);
    LooksBackConcat([kept], MergeSeq(t1, e1), seen);
  }

  lemma LooksBackOne(n: Node, seen: set<nat>)
    ensures SeqLooksBack([n], seen) <==> NodeLooksBack(n, seen)
  {
    hide NodeLooksBack;
    assert [n][1..] == [];
  }

  lemma {:induction false} OptimizeLooksBack(ns: seq<Node>, seen: set<nat>, labels: set<string>)
    requires SeqLooksBack(ns, seen) && GoodSeq(ns, labels)
    ensures SeqLooksBack(OptimizeSeq(ns), seen)
    ensures Pcs(FlattenSeq(OptimizeSeq(ns))) == Pcs(FlattenSeq(ns))
    decreases ns, 1
  {
    hide Pcs, NodeLooksBack, FlattenNode, OptimizeNode, ControlToken, IsSafeEncoding, GoodNode;
    if ns != [] {
      OptimizeLooksBackNode(ns[0], seen, labels);
      OptimizeLooksBack(ns[1..], seen + Pcs(FlattenNode(ns[0])), labels);
      LooksBackConcat(OptimizeNode(ns[0]), OptimizeSeq(ns[1..]), seen);
      FlattenConcat(OptimizeNode(ns[0]), OptimizeSeq(ns[1..]));
      PcsConcat(FlattenSeq(OptimizeNode(ns[0])), FlattenSeq(OptimizeSeq(ns[1..])));
      PcsConcat(FlattenNode(ns[0]), FlattenSeq(ns[1..]));
    }
  }

  lemma {:induction false} OptimizeLooksBackNode(n: Node, seen: set<nat>, labels: set<string>)
    requires NodeLooksBack(n, seen) && GoodNode(n, labels)
    ensures SeqLooksBack(OptimizeNode(n), seen)
    ensures Pcs(FlattenSeq(OptimizeNode(n))) == Pcs(FlattenNode(n))
    decreases n, 0
  {
    hide Pcs, LooksBack, SeqLooksBack, PcSet, ControlToken, IsSafeEncoding, GoodAtom, Hoist, GoodSeq, FlattenNode;
    match n
    case AtomNode(_) =>
      LooksBackOne(n, seen);
      SingleFlat(n);
    case IfRegion(o, t, k, e, x) =>
      var inside := seen + PcSet(o.origins);
      OptimizeLooksBack(t, inside, labels);
      OptimizeLooksBack(e, inside, labels);
      var mid := IfRegion(o, OptimizeSeq(t), k, OptimizeSeq(e), x);
      assert k.None? ==> OptimizeSeq(e) == [];
      HoistLooksBack(o, OptimizeSeq(t), k, OptimizeSeq(e), x, seen);
      RegionPcs(n);
      RegionPcs(mid);
      HoistPcs(o, OptimizeSeq(t), k, OptimizeSeq(e), x);
  }

  lemma HoistPcs(o: Atom, t: seq<Node>, k: Option<Atom>, e: seq<Node>, x: Atom)
    requires k.None? ==> e == []
    ensures Pcs(FlattenSeq(Hoist(o, t, k, e, x))) == Pcs(FlattenNode(IfRegion(o, t, k, e, x)))
  {
    hide Pcs, EquivSeq, MergeSeq, PcSet, FlattenNode, FlattenSeq, Hoist, SafeSeq;
    var t0, t1, e0, e1 := HoistParts(o, t, k, e, x);
    var kept, whole := IfRegion(o, t0, k, e0, x), IfRegion(o, t, k, e, x);
    FlattenConcat(t0, t1);
    FlattenConcat(e0, e1);
    PcsConcat(FlattenSeq(t0), FlattenSeq(t1));
    PcsConcat(FlattenSeq(e0), FlattenSeq(e1));
    MergePcs(t1, e1);
    SingleFlat(kept);
    FlattenConcat([kept], MergeSeq(t1, e1));
    PcsConcat(FlattenNode(kept), FlattenSeq(MergeSeq(t1, e1)));
    RegionPcs(kept);
    RegionPcs(whole);
    if k.None? {
      assert t1 == [] && e1 == [];
      assert FlattenSeq([]) == [] by { EmptyFlat(); }
      EmptyPcs();
    }
  }

  lemma EmptyFlat()
    ensures FlattenSeq([]) == []
  {
  }

  lemma {:induction false} FlatConcatLooksBack(a: seq<Atom>, b: seq<Atom>, seen: set<nat>)
    ensures FlatLooksBack(a + b, seen) <==> FlatLooksBack(a, seen) && FlatLooksBack(b, seen + Pcs(a))
  {
    if a == [] {
      assert a + b == b;
      assert seen + Pcs(a) == seen;
    } else {
      assert (a + b)[1..] == a[1..] + b;
      FlatConcatLooksBack(a[1..], b, seen + PcSet(a[0].origins));
      assert seen + PcSet(a[0].origins) + Pcs(a[1..]) == seen + Pcs(a);
    }
  }

  lemma FlatOneLooksBack(a: Atom, small: set<nat>, large: set<nat>)
    requires LooksBack(a, small) && small <= large
    ensures FlatLooksBack([a], large)
  {
    assert [a][1..] == [];
  }

  lemma {:induction false} TreeToFlat(ns: seq<Node>, seen: set<nat>)
    requires SeqLooksBack(ns, seen)
    ensures FlatLooksBack(FlattenSeq(ns), seen)
    decreases ns, 1
  {
    hide Pcs, NodeLooksBack, FlattenNode;
    if ns != [] {
      TreeToFlatNode(ns[0], seen);
      TreeToFlat(ns[1..], seen + Pcs(FlattenNode(ns[0])));
      FlatConcatLooksBack(FlattenNode(ns[0]), FlattenSeq(ns[1..]), seen);
    }
  }

  lemma {:induction false} TreeToFlatNode(n: Node, seen: set<nat>)
    requires NodeLooksBack(n, seen)
    ensures FlatLooksBack(FlattenNode(n), seen)
    decreases n, 0
  {
    hide Pcs, LooksBack, SeqLooksBack, PcSet, FlatLooksBack;
    match n
    case AtomNode(a) =>
      FlatOneLooksBack(a, seen, seen);
    case IfRegion(o, t, k, e, x) =>
      var inside := seen + PcSet(o.origins);
      var os, tf, ef, xs := [o], FlattenSeq(t), FlattenSeq(e), [x];
      PcsOne(o);
      FlatOneLooksBack(o, seen, seen);
      TreeToFlat(t, inside);
      FlatConcatLooksBack(os, tf, seen);
      PcsConcat(os, tf);
      if k.None? {
        FlatOneLooksBack(x, seen, seen + Pcs(os + tf));
        FlatConcatLooksBack(os + tf, xs, seen);
      } else {
        var ks := [k.value];
        FlatOneLooksBack(k.value, seen, seen + Pcs(os + tf));
        FlatConcatLooksBack(os + tf, ks, seen);
        PcsConcat(os + tf, ks);
        LooksBackMonotone(e, inside, seen + Pcs(os + tf + ks));
        TreeToFlat(e, seen + Pcs(os + tf + ks));
        FlatConcatLooksBack(os + tf + ks, ef, seen);
        FlatOneLooksBack(x, seen, seen + Pcs(os + tf + ks + ef));
        FlatConcatLooksBack(os + tf + ks + ef, xs, seen);
      }
  }

  /** In flat code that looks back, each named instruction really is at an earlier position. */
  lemma {:induction false} FindEarlier(atoms: seq<Atom>, seen: set<nat>, j: nat, o: Origin, i: nat) returns (q: nat)
    requires FlatLooksBack(atoms, seen) && j < |atoms| && o in atoms[j].origins && i < |o.path|
    requires o.path[i].ifPC !in seen
    ensures q < j && o.path[i].ifPC in PcSet(atoms[q].origins)
  {
    var pc := o.path[i].ifPC;
    if pc in PcSet(atoms[0].origins) {
      q := 0;
      assert j != 0;
    } else {
      var q' := FindEarlier(atoms[1..], seen + PcSet(atoms[0].origins), j - 1, o, i);
      q := q' + 1;
    }
  }

  // ----- what the parser establishes -----

  /** Paths of consecutive atoms extend path by regions opened among those atoms, innermost last. */
  predicate Nested(atoms: seq<Atom>, p: seq<string>, i: nat, path: seq<BranchPredicate>) {
    forall k :: 0 <= k < |atoms| ==> NestedAt(atoms, p, i, path, k)
  }

  predicate NestedAt(atoms: seq<Atom>, p: seq<string>, i: nat, path: seq<BranchPredicate>, k: nat)
    requires k < |atoms|
  {
    && |atoms[k].origins| == 1
    && var q := atoms[k].origins[0].path;
       && |path| <= |q| && q[..|path|] == path
       && (forall l :: |path| <= l < |q| ==> OpenedAt(atoms, p, i, k, q, l))
  }

  predicate OpenedAt(atoms: seq<Atom>, p: seq<string>, i: nat, k: nat, q: seq<BranchPredicate>, l: nat)
    requires l < |q| && k < |atoms|
  {
    && i <= q[l].ifPC < i + k && q[l].ifPC < |p| && OpensRegion(p[q[l].ifPC])
    && |atoms[q[l].ifPC - i].origins| == 1
    && atoms[q[l].ifPC - i].origins[0].path == q[..l]
  }

  lemma NestedConcat(a: seq<Atom>, b: seq<Atom>, p: seq<string>, i: nat, path: seq<BranchPredicate>)
    requires Nested(a, p, i, path) && Nested(b, p, i + |a|, path)
    ensures Nested(a + b, p, i, path)
  {
    hide OpensRegion;
    forall k | 0 <= k < |a + b| ensures NestedAt(a + b, p, i, path, k) {
      if k < |a| {
        assert NestedAt(a, p, i, path, k);
        var q := a[k].origins[0].path;
        forall l | |path| <= l < |q| ensures OpenedAt(a + b, p, i, k, q, l) {
          assert OpenedAt(a, p, i, k, q, l);
        }
      } else {
        assert NestedAt(b, p, i + |a|, path, k - |a|);
        var q := b[k - |a|].origins[0].path;
        forall l | |path| <= l < |q| ensures OpenedAt(a + b, p, i, k, q, l) {
          assert OpenedAt(b, p, i + |a|, k - |a|, q, l);
          assert (a + b)[q[l].ifPC - i] == b[q[l].ifPC - i - |a|];
        }
      }
    }
  }

  /** Code nested one level deeper, behind the opener of its region. */
  lemma NestedInside(a: seq<Atom>, b: seq<Atom>, p: seq<string>, i: nat, path: seq<BranchPredicate>, arm: Arm)
    requires a != [] && Nested(a, p, i, path) && NestedAt(a, p, i, path, 0) && a[0].origins[0].path == path
    requires i < |p| && OpensRegion(p[i])
    requires Nested(b, p, i + |a|, path + [BranchPredicate(i, arm)])
    ensures Nested(a + b, p, i, path)
  {
    hide OpensRegion;
    var deep := path + [BranchPredicate(i, arm)];
    assert NestedAt(a, p, i, path, 0);
    forall k | 0 <= k < |a + b| ensures NestedAt(a + b, p, i, path, k) {
      if k < |a| {
        assert NestedAt(a, p, i, path, k);
        var q := a[k].origins[0].path;
        forall l | |path| <= l < |q| ensures OpenedAt(a + b, p, i, k, q, l) {
          assert OpenedAt(a, p, i, k, q, l);
        }
      } else {
        assert NestedAt(b, p, i + |a|, deep, k - |a|);
        var q := b[k - |a|].origins[0].path;
        assert q[..|path|] == q[..|deep|][..|path|] == path;
        assert q[|path|] == q[..|deep|][|path|] == BranchPredicate(i, arm);
        forall l | |path| <= l < |q| ensures OpenedAt(a + b, p, i, k, q, l) {
          if l == |path| {
            assert (a + b)[0] == a[0];
          } else {
            assert OpenedAt(b, p, i + |a|, k - |a|, q, l);
            assert (a + b)[q[l].ifPC - i] == b[q[l].ifPC - i - |a|];
          }
        }
      }
    }
  }

  lemma NestedFirst(a: seq<Atom>, p: seq<string>, i: nat, path: seq<BranchPredicate>)
    requires a != [] && Nested(a, p, i, path)
    ensures NestedAt(a, p, i, path, 0)
  {
  }

  lemma NestedOne(e: string, p: seq<string>, i: nat, path: seq<BranchPredicate>, labels: set<string>)
    ensures Nested([MakeAtom(e, i, path, labels)], p, i, path)
  {
    hide OpensRegion, IsSafeEncoding;
    var a := [MakeAtom(e, i, path, labels)];
    assert path[..|path|] == path;
    assert NestedAt(a, p, i, path, 0);
  }

  predicate PathSeen(path: seq<BranchPredicate>, seen: set<nat>) {
    forall i :: 0 <= i < |path| ==> path[i].ifPC in seen
  }

  lemma {:induction false} ParseSeqPaths(p: seq<string>, i: nat, path: seq<BranchPredicate>, labels: set<string>,
                                         seen: set<nat>)
    requires i <= |p| && ParseSeq(p, i, path, labels).Some? && PathSeen(path, seen)
    ensures var Parsed(ns, _) := ParseSeq(p, i, path, labels).value;
            SeqLooksBack(ns, seen) && Nested(FlattenSeq(ns), p, i, path)
    decreases |p| - i, 1
  {
    hide ControlToken, IsSafeEncoding, Nested, Covers, Pcs, FlattenNode, NodeLooksBack;
    if StopsAt(p, i) {
      NestedNothing(p, i, path);
    } else {
      ParseNodeSound(p, i, path, labels);
      ParseNodePaths(p, i, path, labels, seen);
      var Parsed(n, j) := ParseNode(p, i, path, labels).value;
      CoveredLength(FlattenNode(n), p, i, j);
      ParseSeqPaths(p, j, path, labels, seen + Pcs(FlattenNode(n)));
      var Parsed(ns, _) := ParseSeq(p, j, path, labels).value;
      assert ([n] + ns)[1..] == ns;
      NestedConcat(FlattenNode(n), FlattenSeq(ns), p, i, path);
    }
  }

  lemma NestedNothing(p: seq<string>, i: nat, path: seq<BranchPredicate>)
    ensures Nested([], p, i, path)
  {
  }

  lemma CoveredLength(atoms: seq<Atom>, p: seq<string>, i: nat, j: nat)
    requires Covers(atoms, p, i, j)
    ensures j == i + |atoms|
  {
  }

  lemma {:induction false} ParseNodePaths(p: seq<string>, i: nat, path: seq<BranchPredicate>, labels: set<string>,
                                          seen: set<nat>)
    requires i < |p| && !StopsAt(p, i) && ParseNode(p, i, path, labels).Some? && PathSeen(path, seen)
    ensures var Parsed(n, _) := ParseNode(p, i, path, labels).value;
            NodeLooksBack(n, seen) && Nested(FlattenNode(n), p, i, path)
    decreases |p| - i, 0
  {
    hide ControlToken, IsSafeEncoding, Nested, Covers, SeqLooksBack, FlattenSeq;
    var head := MakeAtom(p[i], i, path, labels);
    NestedOne(p[i], p, i, path, labels);
    if ControlToken(p[i]) != NoToken {
      var inThen, inElse := path + [BranchPredicate(i, Then)], path + [BranchPredicate(i, Else)];
      var inside := seen + PcSet(head.origins);
      assert head.origins[0] in head.origins && i in PcSet(head.origins);
      ParseSeqPaths(p, i + 1, inThen, labels, inside);
      ParseSeqSound(p, i + 1, inThen, labels);
      var Parsed(t, j) := ParseSeq(p, i + 1, inThen, labels).value;
      CoveredLength(FlattenSeq(t), p, i + 1, j);
      NestedFirst([head], p, i, path);
      NestedInside([head], FlattenSeq(t), p, i, path, Then);
      NestedOne(p[j], p, j, path, labels);
      var upToMarker := [head] + FlattenSeq(t);
      var mid := MakeAtom(p[j], j, path, labels);
      NestedConcat(upToMarker, [mid], p, i, path);
      if ControlToken(p[j]) == ElseToken {
        ParseSeqPaths(p, j + 1, inElse, labels, inside);
        ParseSeqSound(p, j + 1, inElse, labels);
        var Parsed(e, k) := ParseSeq(p, j + 1, inElse, labels).value;
        CoveredLength(FlattenSeq(e), p, j + 1, k);
        NestedFirst(upToMarker + [mid], p, i, path);
        NestedInside(upToMarker + [mid], FlattenSeq(e), p, i, path, Else);
        NestedOne(p[k], p, k, path, labels);
        NestedConcat(upToMarker + [mid] + FlattenSeq(e), [MakeAtom(p[k], k, path, labels)], p, i, path);
      } else {
        EmptyLooksBack(inside);
      }
    }
  }

  lemma EmptyLooksBack(seen: set<nat>)
    ensures SeqLooksBack([], seen)
  {
  }

  /** Paths of input positions: each names earlier openers whose own paths are its prefixes. */
  predicate WellNested(paths: seq<seq<BranchPredicate>>, p: seq<string>) {
    && |paths| == |p|
    && (forall pc, l :: 0 <= pc < |p| && 0 <= l < |paths[pc]| ==>
          && paths[pc][l].ifPC < pc
          && OpensRegion(p[paths[pc][l].ifPC])
          && paths[paths[pc][l].ifPC] == paths[pc][..l])
  }

  function PathsOf(atoms: seq<Atom>): seq<seq<BranchPredicate>> {
    seq(|atoms|, k requires 0 <= k < |atoms| => if atoms[k].origins == [] then [] else atoms[k].origins[0].path)
  }

  lemma NestedPaths(atoms: seq<Atom>, p: seq<string>)
    requires Nested(atoms, p, 0, []) && |atoms| == |p|
    ensures WellNested(PathsOf(atoms), p)
  {
    hide OpensRegion;
    var paths: seq<seq<BranchPredicate>> := PathsOf(atoms);
    forall pc: nat, l: nat | pc < |p| && l < |paths[pc]|
      ensures paths[pc][l].ifPC < pc && OpensRegion(p[paths[pc][l].ifPC])
      ensures paths[paths[pc][l].ifPC] == paths[pc][..l]
    {
      assert NestedAt(atoms, p, 0, [], pc);
      assert OpenedAt(atoms, p, 0, pc, paths[pc], l);
    }
  }

  lemma CoveredIsTrue(atoms: seq<Atom>, p: seq<string>)
    requires Covers(atoms, p, 0, |p|)
    ensures TrueAtoms(atoms, p, PathsOf(atoms))
  {
    hide Key;
    forall k | 0 <= k < |atoms| ensures TrueAtom(atoms[k], p, PathsOf(atoms)) {
      assert forall o :: o in atoms[k].origins ==> o == atoms[k].origins[0];
    }
  }

  lemma {:induction false} CoveredCount(atoms: seq<Atom>, p: seq<string>, i: nat, j: nat, pc: nat)
    requires Covers(atoms, p, i, j)
    ensures CountAtoms(atoms, pc) == if i <= pc < j then 1 else 0
    decreases |atoms|
  {
    if atoms != [] {
      forall k | 0 <= k < |atoms[1..]|
        ensures atoms[1..][k].encoding == p[i + 1 + k] && |atoms[1..][k].origins| == 1
        ensures atoms[1..][k].origins[0].oldPC == i + 1 + k
      {
        assert atoms[1..][k] == atoms[k + 1];
      }
      CoveredCount(atoms[1..], p, i + 1, j, pc);
      assert atoms[0].origins == [atoms[0].origins[0]];
      assert CountIn(atoms[0].origins, pc) == (if i == pc then 1 else 0) + CountIn([], pc);
    }
  }

  // ----- the plan -----

  /** Flat output code together with all that hoisting keeps of its input p. */
  ghost predicate Faithful(atoms: seq<Atom>, p: seq<string>, paths: seq<seq<BranchPredicate>>) {
    && WellNested(paths, p)
    && TrueAtoms(atoms, p, paths)
    && (forall pc: nat :: CountAtoms(atoms, pc) == if pc < |p| then 1 else 0)
    && FlatLooksBack(atoms, {})
  }

  lemma HoistingIsFaithful(p: seq<string>, labels: set<string>)
    requires Parse(p, labels).Some?
    ensures Faithful(FlattenSeq(OptimizeSeq(Parse(p, labels).value)), p, PathsOf(FlattenSeq(Parse(p, labels).value)))
  {
    hide ControlToken, IsSafeEncoding, TrueAtoms, CountAtoms, FlatLooksBack, WellNested, Nested, GoodSeq, SeqLooksBack;
    var ns := Parse(p, labels).value;
    var atoms := FlattenSeq(ns);
    ParseSound(p, labels);
    ParseSeqPaths(p, 0, [], labels, {});
    NestedPaths(atoms, p);
    CoveredIsTrue(atoms, p);
    OptimizeTrue(ns, p, PathsOf(atoms));
    forall pc: nat ensures Count(ns, pc) == if pc < |p| then 1 else 0 {
      CoveredCount(atoms, p, 0, |p|, pc);
    }
    forall pc: nat ensures CountAtoms(FlattenSeq(OptimizeSeq(ns)), pc) == if pc < |p| then 1 else 0 {
      OptimizeCount(ns, labels, pc);
      assert Count(OptimizeSeq(ns), pc) == CountAtoms(FlattenSeq(OptimizeSeq(ns)), pc);
    }
    OptimizeLooksBack(ns, {}, labels);
    TreeToFlat(OptimizeSeq(ns), {});
  }

  lemma {:induction false} AssignOriginsAt(m: seq<Option<nat>>, os: seq<Origin>, newPC: nat, pc: nat)
    requires pc < |m|
    ensures AssignOrigins(m, os, newPC)[pc] == if pc in PcSet(os) then Some(newPC) else m[pc]
    decreases os
  {
    if os != [] {
      var q := os[0].oldPC;
      AssignOriginsAt(if q < |m| then m[q := Some(newPC)] else m, os[1..], newPC, pc);
      assert os == [os[0]] + os[1..];
      assert PcSet(os) == {q} + PcSet(os[1..]);
    }
  }

  lemma {:induction false} AssignElsewhere(m: seq<Option<nat>>, atoms: seq<Atom>, base: nat, pc: nat)
    requires pc < |m| && CountAtoms(atoms, pc) == 0
    ensures AssignAll(m, atoms, base)[pc] == m[pc]
    decreases atoms
  {
    if atoms != [] {
      AssignOriginsAt(m, atoms[0].origins, base, pc);
      if pc in PcSet(atoms[0].origins) {
        var o :| o in atoms[0].origins && o.oldPC == pc;
        CountPositive(atoms[0].origins, o);
      }
      AssignElsewhere(AssignOrigins(m, atoms[0].origins, base), atoms[1..], base + 1, pc);
    }
  }

  lemma {:induction false} AssignAt(m: seq<Option<nat>>, atoms: seq<Atom>, base: nat, k: nat, pc: nat)
    requires pc < |m| && k < |atoms| && pc in PcSet(atoms[k].origins) && CountAtoms(atoms, pc) == 1
    ensures AssignAll(m, atoms, base)[pc] == Some(base + k)
    decreases atoms
  {
    var o :| o in atoms[k].origins && o.oldPC == pc;
    CountPositive(atoms[k].origins, o);
    AssignOriginsAt(m, atoms[0].origins, base, pc);
    if k == 0 {
      AssignElsewhere(AssignOrigins(m, atoms[0].origins, base), atoms[1..], base + 1, pc);
    } else {
      CountOccurrence(atoms[1..], k - 1, pc);
      AssignAt(AssignOrigins(m, atoms[0].origins, base), atoms[1..], base + 1, k - 1, pc);
    }
  }

  lemma {:induction false} CountOccurrence(atoms: seq<Atom>, k: nat, pc: nat)
    requires k < |atoms| && CountIn(atoms[k].origins, pc) >= 1
    ensures CountAtoms(atoms, pc) >= 1
  {
    if k > 0 {
      CountOccurrence(atoms[1..], k - 1, pc);
    }
  }

  lemma {:induction false} FindPlace(atoms: seq<Atom>, pc: nat) returns (k: nat)
    requires CountAtoms(atoms, pc) >= 1
    ensures k < |atoms| && pc in PcSet(atoms[k].origins)
  {
    if CountIn(atoms[0].origins, pc) >= 1 {
      k := 0;
      var o := CountWitness(atoms[0].origins, pc);
    } else {
      var k' := FindPlace(atoms[1..], pc);
      k := k' + 1;
    }
  }

  function Places(atoms: seq<Atom>, n: nat): seq<Option<nat>> {
    AssignAll(Unassigned(n), atoms, 0)
  }

  lemma PlaceOf(atoms: seq<Atom>, p: seq<string>, paths: seq<seq<BranchPredicate>>, k: nat, pc: nat)
    requires Faithful(atoms, p, paths) && k < |atoms| && pc in PcSet(atoms[k].origins)
    ensures pc < |p| && Places(atoms, |p|)[pc] == Some(k)
  {
    hide AssignAll;
    var o :| o in atoms[k].origins && o.oldPC == pc;
    assert TrueAtom(atoms[k], p, paths);
    AssignAt(Unassigned(|p|), atoms, 0, k, pc);
  }

  lemma MapsPredicate(atoms: seq<Atom>, p: seq<string>, paths: seq<seq<BranchPredicate>>, j: nat, o: Origin, i: nat)
    requires Faithful(atoms, p, paths) && j < |atoms| && o in atoms[j].origins && i < |o.path|
    ensures var b := MapPredicate(o.path[i], Places(atoms, |p|), p, Encodings(atoms));
            && b.Some? && b.value.arm == o.path[i].arm && b.value.ifPC < j
            && o.path[i].ifPC in PcSet(atoms[b.value.ifPC].origins)
            && OpensRegion(Encodings(atoms)[b.value.ifPC])
  {
    hide ControlToken, Key, FlatLooksBack, CountAtoms, AssignAll;
    assert TrueAtom(atoms[j], p, paths);
    var pc := o.path[i].ifPC;
    assert paths[o.oldPC][i].ifPC == pc;
    var q := FindEarlier(atoms, {}, j, o, i);
    PlaceOf(atoms, p, paths, q, pc);
    assert TrueAtom(atoms[q], p, paths);
    var o' :| o' in atoms[q].origins && o'.oldPC == pc;
    TokenOfKey(atoms[q].encoding, p[pc]);
  }

  lemma {:induction false} MapsPath(path: seq<BranchPredicate>, oldToNew: seq<Option<nat>>, source: seq<string>,
                                    target: seq<string>)
    requires forall i :: 0 <= i < |path| ==> MapPredicate(path[i], oldToNew, source, target).Some?
    ensures var r := MapPath(path, oldToNew, source, target);
            && r.Some? && |r.value| == |path|
            && forall i :: 0 <= i < |path| ==> Some(r.value[i]) == MapPredicate(path[i], oldToNew, source, target)
  {
    hide MapPredicate;
    if path != [] {
      MapsPath(path[1..], oldToNew, source, target);
    }
  }

  /** Regions named by one path are at strictly increasing places. */
  lemma PathIncreases(atoms: seq<Atom>, p: seq<string>, paths: seq<seq<BranchPredicate>>, j: nat, o: Origin, i: nat,
                      l: nat)
    requires Faithful(atoms, p, paths) && j < |atoms| && o in atoms[j].origins && i < l < |o.path|
    ensures o.path[i].ifPC < |p| && o.path[l].ifPC < |p|
    ensures var places := Places(atoms, |p|);
            && places[o.path[i].ifPC].Some? && places[o.path[l].ifPC].Some?
            && places[o.path[i].ifPC].value < places[o.path[l].ifPC].value
  {
    hide ControlToken, Key, FlatLooksBack, CountAtoms, AssignAll;
    assert TrueAtom(atoms[j], p, paths);
    assert paths[o.oldPC][l] == o.path[l];
    MapsPredicate(atoms, p, paths, j, o, l);
    var q := MapPredicate(o.path[l], Places(atoms, |p|), p, Encodings(atoms)).value.ifPC;
    assert TrueAtom(atoms[q], p, paths);
    var inner :| inner in atoms[q].origins && inner.oldPC == o.path[l].ifPC;
    assert inner.path == o.path[..l];
    assert inner.path[i] == o.path[i];
    MapsPredicate(atoms, p, paths, q, inner, i);
  }

  predicate GoodTarget(o: Origin, j: nat, p: seq<string>, places: seq<Option<nat>>, text: seq<string>)
    requires |places| == |p|
  {
    ValidOrigin(o, j, Plan(places, []), p, text)
  }

  lemma NormalizesOrigin(atoms: seq<Atom>, p: seq<string>, paths: seq<seq<BranchPredicate>>, j: nat, o: Origin)
    requires Faithful(atoms, p, paths) && j < |atoms| && o in atoms[j].origins
    ensures var r := NormalizeOrigin(o, Places(atoms, |p|), p, Encodings(atoms));
            && r.Some? && r.value.oldPC == o.oldPC
            && GoodTarget(r.value, j, p, Places(atoms, |p|), Encodings(atoms))
  {
    hide ControlToken, Faithful, AssignAll;
    var places, text := Places(atoms, |p|), Encodings(atoms);
    forall i | 0 <= i < |o.path| ensures MapPredicate(o.path[i], places, p, text).Some? {
      MapsPredicate(atoms, p, paths, j, o, i);
    }
    MapsPath(o.path, places, p, text);
    var path := MapPath(o.path, places, p, text).value;
    forall i, l | 0 <= i < l < |path| ensures path[i].ifPC != path[l].ifPC {
      assert Some(path[i]) == MapPredicate(o.path[i], places, p, text);
      assert Some(path[l]) == MapPredicate(o.path[l], places, p, text);
      PathIncreases(atoms, p, paths, j, o, i, l);
    }
    forall i | 0 <= i < |path| ensures path[i].ifPC < |text| && path[i].ifPC < j && OpensRegion(text[path[i].ifPC]) {
      assert Some(path[i]) == MapPredicate(o.path[i], places, p, text);
      MapsPredicate(atoms, p, paths, j, o, i);
    }
    PlaceOf(atoms, p, paths, j, o.oldPC);
  }

  lemma {:induction false} NormalizesList(atoms: seq<Atom>, p: seq<string>, paths: seq<seq<BranchPredicate>>, j: nat,
                                          os: seq<Origin>, pc: nat)
    requires Faithful(atoms, p, paths) && j < |atoms| && forall o :: o in os ==> o in atoms[j].origins
    ensures var r := NormalizeList(os, Places(atoms, |p|), p, Encodings(atoms));
            && r.Some? && |r.value| == |os| && CountIn(r.value, pc) == CountIn(os, pc)
            && forall o :: o in r.value ==> GoodTarget(o, j, p, Places(atoms, |p|), Encodings(atoms))
  {
    hide ControlToken, Faithful, AssignAll, NormalizeOrigin, GoodTarget;
    if os != [] {
      NormalizesOrigin(atoms, p, paths, j, os[0]);
      NormalizesList(atoms, p, paths, j, os[1..], pc);
      var o := NormalizeOrigin(os[0], Places(atoms, |p|), p, Encodings(atoms)).value;
      var rest := NormalizeList(os[1..], Places(atoms, |p|), p, Encodings(atoms)).value;
      assert ([o] + rest)[1..] == rest;
    }
  }

  lemma {:induction false} NormalizesLists(atoms: seq<Atom>, p: seq<string>, paths: seq<seq<BranchPredicate>>, j: nat,
                                           pc: nat)
    requires Faithful(atoms, p, paths) && j <= |atoms|
    ensures var r := NormalizeLists(OriginLists(atoms)[j..], Places(atoms, |p|), p, Encodings(atoms));
            && r.Some? && |r.value| == |atoms| - j
            && CountInLists(r.value, pc) == CountAtoms(atoms[j..], pc)
            && forall k :: 0 <= k < |atoms| - j ==>
                 && r.value[k] != []
                 && forall o :: o in r.value[k] ==> GoodTarget(o, j + k, p, Places(atoms, |p|), Encodings(atoms))
    decreases |atoms| - j
  {
    hide ControlToken, AssignAll, NormalizeList, GoodTarget, FlatLooksBack;
    if j < |atoms| {
      var lists := OriginLists(atoms)[j..];
      assert lists[0] == atoms[j].origins && lists[1..] == OriginLists(atoms)[j + 1..];
      assert atoms[j..][0] == atoms[j] && atoms[j..][1..] == atoms[j + 1..];
      assert TrueAtom(atoms[j], p, paths);
      NormalizesList(atoms, p, paths, j, lists[0], pc);
      NormalizesLists(atoms, p, paths, j + 1, pc);
      var os := NormalizeList(lists[0], Places(atoms, |p|), p, Encodings(atoms)).value;
      var rest := NormalizeLists(lists[1..], Places(atoms, |p|), p, Encodings(atoms)).value;
      SortFacts(os, pc);
      assert os[0] in SortOrigins(os);
      assert ([SortOrigins(os)] + rest)[1..] == rest;
    }
  }

  /** A faithful rewrite has a plan that both normalises and validates. */
  lemma FaithfulPlanIsValid(atoms: seq<Atom>, p: seq<string>, paths: seq<seq<BranchPredicate>>)
    requires Faithful(atoms, p, paths)
    ensures var plan := NormalizePaths(Plan(Places(atoms, |p|), OriginLists(atoms)), p, Encodings(atoms));
            plan.Some? && ValidPlan(plan.value, p, Encodings(atoms))
  {
    hide ControlToken, AssignAll, NormalizeLists, WellNested, FlatLooksBack, CountAtoms, TrueAtoms;
    var places := Places(atoms, |p|);
    assert OriginLists(atoms)[0..] == OriginLists(atoms) && atoms[0..] == atoms;
    NormalizesLists(atoms, p, paths, 0, 0);
    var lists := NormalizeLists(OriginLists(atoms), places, p, Encodings(atoms)).value;
    forall j, k | 0 <= j < |atoms| && 0 <= k < |lists[j]|
      ensures ValidOrigin(lists[j][k], j, Plan(places, lists), p, Encodings(atoms))
    {
      assert lists[j][k] in lists[j];
      assert GoodTarget(lists[j][k], 0 + j, p, places, Encodings(atoms));
    }
    forall pc | 0 <= pc < |p|
      ensures CountInLists(lists, pc) == 1 && places[pc].Some? && places[pc].value < |atoms|
    {
      NormalizesLists(atoms, p, paths, 0, pc);
      var k := FindPlace(atoms, pc);
      PlaceOf(atoms, p, paths, k, pc);
    }
  }

  /** Main result: on every structurally valid input the defensive validation passes, so the rewrite is kept. */
  lemma RewritePlanIsAlwaysValid(p: seq<string>, labels: set<string>)
    ensures Optimize(p, labels).rewritePlanValid
    ensures Optimize(p, labels).structurallyValid <==> Parse(p, labels).Some?
    ensures Parse(p, labels).Some? ==> Optimize(p, labels).instructions == Text(OptimizeSeq(Parse(p, labels).value))
  {
    hide ControlToken, IsSafeEncoding, ValidPlan, NormalizePaths, Faithful, AssignAll;
    if Parse(p, labels).Some? {
      HoistingIsFaithful(p, labels);
      FaithfulPlanIsValid(FlattenSeq(OptimizeSeq(Parse(p, labels).value)), p,
                          PathsOf(FlattenSeq(Parse(p, labels).value)));
    }
  }

  /** Every input instruction has a place in the output that holds the same instruction up to spelling. */
  lemma EveryInstructionIsKept(p: seq<string>, labels: set<string>, pc: nat)
    requires Parse(p, labels).Some? && pc < |p|
    ensures var r := Optimize(p, labels);
            && |r.plan.oldToNew| == |p| && r.plan.oldToNew[pc].Some?
            && r.plan.oldToNew[pc].value < |r.instructions|
            && Key(r.instructions[r.plan.oldToNew[pc].value]) == Key(p[pc])
  {
    hide ControlToken, IsSafeEncoding, ValidPlan, Key, AssignAll, FlatLooksBack, NormalizeLists;
    RewritePlanIsAlwaysValid(p, labels);
    HoistingIsFaithful(p, labels);
    var atoms, paths := FlattenSeq(OptimizeSeq(Parse(p, labels).value)), PathsOf(FlattenSeq(Parse(p, labels).value));
    var k := FindPlace(atoms, pc);
    PlaceOf(atoms, p, paths, k, pc);
    assert TrueAtom(atoms[k], p, paths);
  }
}
