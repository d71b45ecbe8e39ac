/** Common-tail hoisting reaches a normal form in one pass, and shortens the code whenever it changes it. */
module IfTailNormalForm {
  import opened Wrappers
  import opened Hex
  import opened CondMachine
  import opened IfTree
  import opened IfTailOptimizer
  import IfTailMeaning
  import IfTailPlan

  /** Nowhere do the two branches of a region, both safe to move out of, end in the same node. */
  predicate NormalSeq(ns: seq<Node>)
    decreases ns
  {
    ns == [] || (NormalNode(ns[0]) && NormalSeq(ns[1..]))
  }

  predicate NormalNode(n: Node)
    decreases n
  {
    match n
    case AtomNode(_) => true
    case IfRegion(o, t, k, e, x) => NormalSeq(t) && NormalSeq(e) && !HasCommonTail(t, k, e)
  }

  // ----- provenance plays no part in what is hoisted -----

  lemma {:induction false} EraseIndex(ns: seq<Node>)
    ensures |EraseSeq(ns)| == |ns|
    ensures forall i :: 0 <= i < |ns| ==> EraseSeq(ns)[i] == EraseNode(ns[i])
  {
    if ns != [] {
      EraseIndex(ns[1..]);
    }
  }

  lemma {:induction false} EraseEquiv(a: seq<Node>, b: seq<Node>)
    ensures EquivSeq(EraseSeq(a), EraseSeq(b)) <==> EquivSeq(a, b)
    decreases a, 1
  {
    hide EquivAtom, EquivNode, EraseNode;
    EraseIndex(a);
    EraseIndex(b);
    if a != [] && |a| == |b| {
      EraseEquivNode(a[0], b[0]);
      EraseEquiv(a[1..], b[1..]);
    }
  }

  lemma {:induction false} EraseEquivNode(a: Node, b: Node)
    ensures EquivNode(EraseNode(a), EraseNode(b)) <==> EquivNode(a, b)
    decreases a, 0
  {
    hide IsPureHex, Normalize, EquivSeq, EraseSeq;
    if a.IfRegion? && b.IfRegion? {
      EraseEquiv(a.thenBody, b.thenBody);
      EraseEquiv(a.elseBody, b.elseBody);
    }
  }

  lemma {:induction false} EraseSafe(ns: seq<Node>)
    ensures SafeSeq(EraseSeq(ns)) <==> SafeSeq(ns)
    decreases ns, 1
  {
    if ns != [] {
      EraseSafeNode(ns[0]);
      EraseSafe(ns[1..]);
    }
  }

  lemma {:induction false} EraseSafeNode(n: Node)
    ensures SafeNode(EraseNode(n)) <==> SafeNode(n)
    decreases n, 0
  {
    if n.IfRegion? {
      EraseSafe(n.thenBody);
      EraseSafe(n.elseBody);
    }
  }

  lemma {:induction false} EraseNormal(ns: seq<Node>)
    ensures NormalSeq(EraseSeq(ns)) <==> NormalSeq(ns)
    decreases ns, 1
  {
    hide EraseNode, NormalNode;
    EraseIndex(ns);
    if ns != [] {
      EraseNormalNode(ns[0]);
      EraseNormal(ns[1..]);
    }
  }

  lemma {:induction false} EraseNormalNode(n: Node)
    ensures NormalNode(EraseNode(n)) <==> NormalNode(n)
    decreases n, 0
  {
    hide EraseSeq, NormalSeq, HasCommonTail;
    match n
    case AtomNode(_) =>
    case IfRegion(o, t, k, e, x) =>
      EraseNormal(t);
      EraseNormal(e);
      EraseTails(t, k, e);
  }

  lemma EraseTails(t: seq<Node>, k: Option<Atom>, e: seq<Node>)
    ensures HasCommonTail(EraseSeq(t), if k.Some? then Some(EraseAtom(k.value)) else None, EraseSeq(e)) <==>
            HasCommonTail(t, k, e)
  {
    hide EraseSeq, SafeSeq, EquivNode, EraseNode;
    EraseSafe(t);
    EraseSafe(e);
    EraseIndex(t);
    EraseIndex(e);
    if t != [] && e != [] {
      EraseEquivNode(t[|t| - 1], e[|e| - 1]);
    }
  }

  lemma {:induction false} MergeErased(a: seq<Node>, b: seq<Node>)
    requires EquivSeq(a, b)
    ensures EraseSeq(MergeSeq(a, b)) == EraseSeq(a)
    decreases a, 1
  {
    hide EquivNode, MergeNode, EraseNode;
    if a != [] {
      MergeErasedNode(a[0], b[0]);
      MergeErased(a[1..], b[1..]);
      assert MergeSeq(a, b)[1..] == MergeSeq(a[1..], b[1..]);
    }
  }

  lemma {:induction false} MergeErasedNode(a: Node, b: Node)
    requires EquivNode(a, b)
    ensures EraseNode(MergeNode(a, b)) == EraseNode(a)
    decreases a, 0
  {
    hide EquivAtom, EquivSeq, MergeSeq, EraseSeq;
    match a
    case AtomNode(_) =>
    case IfRegion(o, t, k, e, x) =>
      MergeErased(t, b.thenBody);
      MergeErased(e, b.elseBody);
  }

  // ----- optimizing gives a normal tree, and leaves one alone -----

  lemma {:induction false} NormalConcat(a: seq<Node>, b: seq<Node>)
    ensures NormalSeq(a + b) <==> NormalSeq(a) && NormalSeq(b)
  {
    if a == [] {
      assert a + b == b;
    } else {
      assert (a + b)[1..] == a[1..] + b;
      NormalConcat(a[1..], b);
    }
  }

  lemma NormalOne(n: Node)
    ensures NormalSeq([n]) <==> NormalNode(n)
  {
    hide NormalNode;
    assert [n][1..] == [];
  }

  /** What a hoist leaves in the branches has no common tail. */
  lemma KeptDiffers(t: seq<Node>, k: Option<Atom>, e: seq<Node>)
    ensures var c := HoistCount(t, k, e);
            !HasCommonTail(t[..|t| - c], k, e[..|e| - c])
  {
    hide CommonCount, SafeSeq, EquivNode;
    HoistsCommonTails(t, k, e);
    TailStops(t, e);
    if HoistCount(t, k, e) == 0 {
      assert t[..|t|] == t && e[..|e|] == e;
    }
  }

  lemma HoistNormal(o: Atom, t: seq<Node>, k: Option<Atom>, e: seq<Node>, x: Atom)
    requires NormalSeq(t) && NormalSeq(e)
    ensures NormalSeq(Hoist(o, t, k, e, x))
  {
    hide NormalSeq, MergeSeq, EquivSeq, CommonCount, SafeSeq, EraseSeq, EquivNode, HasCommonTail;
    var c := HoistCount(t, k, e);
    HoistTail(t, k, e);
    KeptDiffers(t, k, e);
    var t0, t1, e0, e1 := t[..|t| - c], t[|t| - c..], e[..|e| - c], e[|e| - c..];
    assert t == t0 + t1 && e == e0 + e1;
    NormalConcat(t0, t1);
    NormalConcat(e0, e1);
    MergeErased(t1, e1);
    EraseNormal(t1);
    EraseNormal(MergeSeq(t1, e1));
    var kept := IfRegion(o, t0, k, e0, x);
    NormalOne(kept);
    NormalConcat([kept], MergeSeq(t1, e1));
  }

  lemma {:induction false} OptimizeNormal(ns: seq<Node>)
    ensures NormalSeq(OptimizeSeq(ns))
    decreases ns, 1
  {
    if ns != [] {
      OptimizeNormalNode(ns[0]);
      OptimizeNormal(ns[1..]);
      NormalConcat(OptimizeNode(ns[0]), OptimizeSeq(ns[1..]));
    }
  }

  lemma {:induction false} OptimizeNormalNode(n: Node)
    ensures NormalSeq(OptimizeNode(n))
    decreases n, 0
  {
    hide Hoist;
    match n
    case AtomNode(_) =>
      NormalOne(n);
    case IfRegion(o, t, k, e, x) =>
      OptimizeNormal(t);
      OptimizeNormal(e);
      HoistNormal(o, OptimizeSeq(t), k, OptimizeSeq(e), x);
  }

  lemma {:induction false} NormalIsFixed(ns: seq<Node>)
    requires NormalSeq(ns)
    ensures OptimizeSeq(ns) == ns && MergedIfs(ns) == 0
    decreases ns, 1
  {
    hide NormalNode, OptimizeNode;
    if ns != [] {
      NormalNodeIsFixed(ns[0]);
      NormalIsFixed(ns[1..]);
      assert ns == [ns[0]] + ns[1..];
    }
  }

  lemma {:induction false} NormalNodeIsFixed(n: Node)
    requires NormalNode(n)
    ensures OptimizeNode(n) == [n] && MergedIfsNode(n) == 0
    decreases n, 0
  {
    hide NormalSeq, OptimizeSeq, MergedIfs, HoistCount, HasCommonTail;
    match n
    case AtomNode(_) =>
    case IfRegion(o, t, k, e, x) =>
      NormalIsFixed(t);
      NormalIsFixed(e);
      HoistsCommonTails(t, k, e);
      HoistTail(t, k, e);
      assert t[..|t|] == t && e[..|e|] == e;
      assert t[|t|..] == [] && e[|e|..] == [];
      assert MergeSeq([], []) == [];
  }

  /** The output is balanced code in which no two safe branches of one region end alike. */
  lemma OutputIsNormal(p: seq<string>, labels: set<string>)
    requires Parse(p, labels).Some?
    ensures var q := Optimize(p, labels).instructions;
            Parse(q, labels).Some? && NormalSeq(Parse(q, labels).value)
  {
    hide ControlToken, IsSafeEncoding, ValidPlan, NormalizePaths, FlatPlan, NormalSeq;
    IfTailPlan.RewritePlanIsAlwaysValid(p, labels);
    var ns := Parse(p, labels).value;
    var out := OptimizeSeq(ns);
    ParseSound(p, labels);
    IfTailMeaning.OptimizeGood(ns, labels);
    ParseComplete(out, labels);
    OptimizeNormal(ns);
    EraseNormal(out);
    EraseNormal(Parse(Text(out), labels).value);
  }

  /** Main result: optimizing optimized code changes nothing. */
  lemma OptimizeIsIdempotent(p: seq<string>, labels: set<string>)
    ensures var once := Optimize(p, labels);
            var twice := Optimize(once.instructions, labels);
            twice.instructions == once.instructions && !twice.changed && twice.mergedIfCount == 0
  {
    hide ControlToken, IsSafeEncoding, ValidPlan, NormalizePaths, FlatPlan, NormalSeq;
    IfTailPlan.RewritePlanIsAlwaysValid(p, labels);
    if Parse(p, labels).Some? {
      OutputIsNormal(p, labels);
      var q := Optimize(p, labels).instructions;
      NormalIsFixed(Parse(q, labels).value);
      ParseSound(q, labels);
      IfTailPlan.RewritePlanIsAlwaysValid(q, labels);
    }
  }

  // ----- what is left because moving it would not be safe -----

  predicate EndsAlike(t: seq<Node>, k: Option<Atom>, e: seq<Node>) {
    k.Some? && t != [] && e != [] && EquivNode(t[|t| - 1], e[|e| - 1])
  }

  /** Regions anywhere in the code whose two branches end in the same node. */
  function AlikeRegions(ns: seq<Node>): nat
    decreases ns
  {
    if ns == [] then 0 else AlikeInNode(ns[0]) + AlikeRegions(ns[1..])
  }

  function AlikeInNode(n: Node): nat
    decreases n
  {
    match n
    case AtomNode(_) => 0
    case IfRegion(o, t, k, e, x) => AlikeRegions(t) + AlikeRegions(e) + if EndsAlike(t, k, e) then 1 else 0
  }

  lemma {:induction false} AlikeConcat(a: seq<Node>, b: seq<Node>)
    ensures AlikeRegions(a + b) == AlikeRegions(a) + AlikeRegions(b)
  {
    hide AlikeInNode;
    if a == [] {
      assert a + b == b;
    } else {
      assert (a + b)[1..] == a[1..] + b;
      AlikeConcat(a[1..], b);
    }
  }

  lemma AlikeOne(n: Node)
    ensures AlikeRegions([n]) == AlikeInNode(n)
  {
    hide AlikeInNode;
    assert [n][1..] == [];
  }

  /** Safe code in normal form has no such region. */
  lemma {:induction false} SafeNormalHasNone(ns: seq<Node>)
    requires NormalSeq(ns) && SafeSeq(ns)
    ensures AlikeRegions(ns) == 0
    decreases ns, 1
  {
    if ns != [] {
      SafeNormalNodeHasNone(ns[0]);
      SafeNormalHasNone(ns[1..]);
    }
  }

  lemma {:induction false} SafeNormalNodeHasNone(n: Node)
    requires NormalNode(n) && SafeNode(n)
    ensures AlikeInNode(n) == 0
    decreases n, 0
  {
    hide EquivNode;
    if n.IfRegion? {
      SafeNormalHasNone(n.thenBody);
      SafeNormalHasNone(n.elseBody);
    }
  }

  lemma {:induction false} SafeConcat(a: seq<Node>, b: seq<Node>)
    ensures SafeSeq(a + b) <==> SafeSeq(a) && SafeSeq(b)
  {
    hide SafeNode;
    if a == [] {
      assert a + b == b;
    } else {
      assert (a + b)[1..] == a[1..] + b;
      SafeConcat(a[1..], b);
    }
  }

  /** What is left in the branches ends alike exactly when the tail was skipped. */
  lemma KeptEnds(t: seq<Node>, k: Option<Atom>, e: seq<Node>)
    ensures var c := HoistCount(t, k, e);
            EndsAlike(t[..|t| - c], k, e[..|e| - c]) <==> SkipsTail(t, k, e)
  {
    hide CommonCount, SafeSeq, EquivNode;
    var c := HoistCount(t, k, e);
    HoistsCommonTails(t, k, e);
    TailStops(t, e);
    if c == 0 {
      assert t[..|t|] == t && e[..|e|] == e;
    }
  }

  lemma HoistLeaves(o: Atom, t: seq<Node>, k: Option<Atom>, e: seq<Node>, x: Atom)
    requires NormalSeq(t) && NormalSeq(e)
    ensures AlikeRegions(Hoist(o, t, k, e, x)) ==
            AlikeRegions(t) + AlikeRegions(e) + if SkipsTail(t, k, e) then 1 else 0
  {
    hide NormalSeq, MergeSeq, EquivSeq, CommonCount, SafeSeq, EraseSeq, AlikeRegions, SkipsTail, EndsAlike;
    var c := HoistCount(t, k, e);
    HoistTail(t, k, e);
    KeptEnds(t, k, e);
    var t0, t1, e0, e1 := t[..|t| - c], t[|t| - c..], e[..|e| - c], e[|e| - c..];
    var kept := IfRegion(o, t0, k, e0, x);
    AlikeConcat([kept], MergeSeq(t1, e1));
    AlikeOne(kept);
    assert t == t0 + t1 && e == e0 + e1;
    if c == 0 {
      assert t0 == t && e0 == e && t1 == [];
      NothingMoved(t1, e1);
    } else {
      MovedLeaves(t0, t1, e0, e1);
    }
  }

  /** Once the tail of two safe branches has moved, no region in any of the parts still ends alike. */
  lemma MovedLeaves(t0: seq<Node>, t1: seq<Node>, e0: seq<Node>, e1: seq<Node>)
    requires NormalSeq(t0 + t1) && NormalSeq(e0 + e1) && SafeSeq(t0 + t1) && SafeSeq(e0 + e1) && EquivSeq(t1, e1)
    ensures AlikeRegions(t0 + t1) == 0 && AlikeRegions(e0 + e1) == 0
    ensures AlikeRegions(t0) == 0 && AlikeRegions(e0) == 0 && AlikeRegions(MergeSeq(t1, e1)) == 0
    ensures SafeSeq(t0) && SafeSeq(e0)
  {
    hide NormalSeq, MergeSeq, EquivSeq, SafeSeq, AlikeRegions;
    MergedIsSafe(t0, t1, e1);
    NormalConcat(t0, t1);
    NormalConcat(e0, e1);
    SafeConcat(e0, e1);
    SafeNormalHasNone(t0 + t1);
    SafeNormalHasNone(e0 + e1);
    SafeNormalHasNone(t0);
    SafeNormalHasNone(e0);
    SafeNormalHasNone(MergeSeq(t1, e1));
  }

  lemma NothingMoved(t1: seq<Node>, e1: seq<Node>)
    requires t1 == [] && EquivSeq(t1, e1)
    ensures MergeSeq(t1, e1) == [] && AlikeRegions([]) == 0
  {
  }

  lemma MergedIsSafe(t0: seq<Node>, t1: seq<Node>, e1: seq<Node>)
    requires SafeSeq(t0 + t1) && NormalSeq(t0 + t1) && EquivSeq(t1, e1)
    ensures SafeSeq(t0) && SafeSeq(MergeSeq(t1, e1)) && NormalSeq(MergeSeq(t1, e1))
  {
    hide SafeSeq, NormalSeq, MergeSeq, EraseSeq, EquivSeq;
    SafeConcat(t0, t1);
    NormalConcat(t0, t1);
    MergeErased(t1, e1);
    EraseSafe(t1);
    EraseSafe(MergeSeq(t1, e1));
    EraseNormal(t1);
    EraseNormal(MergeSeq(t1, e1));
  }

  /** The reported number of skipped tails is the number of regions that still end alike in the output. */
  lemma {:induction false} SkippedTailsRemain(ns: seq<Node>)
    ensures SkippedTails(ns) == AlikeRegions(OptimizeSeq(ns))
    decreases ns, 1
  {
    hide OptimizeNode, SkippedTailsNode, AlikeInNode;
    if ns != [] {
      SkippedInNodeRemain(ns[0]);
      SkippedTailsRemain(ns[1..]);
      AlikeConcat(OptimizeNode(ns[0]), OptimizeSeq(ns[1..]));
    }
  }

  lemma {:induction false} SkippedInNodeRemain(n: Node)
    ensures SkippedTailsNode(n) == AlikeRegions(OptimizeNode(n))
    decreases n, 0
  {
    hide OptimizeSeq, SkippedTails, AlikeRegions, Hoist, SkipsTail;
    match n
    case AtomNode(_) =>
      AlikeOne(n);
    case IfRegion(o, t, k, e, x) =>
      SkippedTailsRemain(t);
      SkippedTailsRemain(e);
      OptimizeNormal(t);
      OptimizeNormal(e);
      HoistLeaves(o, OptimizeSeq(t), k, OptimizeSeq(e), x);
  }

  // ----- the same, read off the text -----

  /** Moving code out of a branch is allowed exactly when every instruction in it is safe. */
  lemma {:induction false} SafeByText(ns: seq<Node>, labels: set<string>)
    requires GoodSeq(ns, labels)
    ensures SafeSeq(ns) <==> forall e :: e in Text(ns) ==> IsSafeEncoding(e, labels)
    decreases ns, 1
  {
    hide IsSafeEncoding, ControlToken, Encodings, FlattenNode, GoodNode, SafeNode;
    if ns != [] {
      SafeNodeByText(ns[0], labels);
      SafeByText(ns[1..], labels);
      EncodingsConcat(FlattenNode(ns[0]), FlattenSeq(ns[1..]));
    } else {
      NoText();
    }
  }

  lemma NoText()
    ensures Text([]) == []
  {
  }

  lemma {:induction false} SafeNodeByText(n: Node, labels: set<string>)
    requires GoodNode(n, labels)
    ensures SafeNode(n) <==> forall e :: e in Encodings(FlattenNode(n)) ==> IsSafeEncoding(e, labels)
    decreases n, 0
  {
    hide IsSafeEncoding, ControlToken;
    match n
    case AtomNode(a) =>
      AtomText(a);
    case IfRegion(o, t, k, e, x) =>
      hide Encodings, FlattenNode, FlattenSeq, Text;
      SafeByText(t, labels);
      SafeByText(e, labels);
      RegionText(n);
      if k.None? {
        NoText();
      }
  }

  lemma AtomText(a: Atom)
    ensures Encodings(FlattenNode(AtomNode(a))) == [a.encoding]
  {
  }

  function Keys(es: seq<string>): (r: seq<string>)
    ensures |r| == |es|
  {
    seq(|es|, i requires 0 <= i < |es| => Key(es[i]))
  }

  /** The tree with every instruction in its normalised spelling. */
  function KeyAtom(a: Atom, labels: set<string>): Atom {
    Atom(Key(a.encoding), [], IsSafeEncoding(Key(a.encoding), labels))
  }

  function KeySeq(ns: seq<Node>, labels: set<string>): seq<Node>
    decreases ns
  {
    if ns == [] then [] else [KeyNode(ns[0], labels)] + KeySeq(ns[1..], labels)
  }

  function KeyNode(n: Node, labels: set<string>): Node
    decreases n
  {
    match n
    case AtomNode(a) => AtomNode(KeyAtom(a, labels))
    case IfRegion(o, t, k, e, x) =>
      IfRegion(KeyAtom(o, labels), KeySeq(t, labels), if k.Some? then Some(KeyAtom(k.value, labels)) else None,
               KeySeq(e, labels), KeyAtom(x, labels))
  }

  lemma KeyAtomFacts(a: Atom, labels: set<string>)
    ensures GoodAtom(KeyAtom(a, labels), labels)
    ensures ControlToken(KeyAtom(a, labels).encoding) == ControlToken(a.encoding)
  {
    hide IsSafeEncoding, ControlToken;
    KeyIsStable(a.encoding);
    TokenOfKey(Key(a.encoding), a.encoding);
  }

  lemma {:induction false} KeySeqIsGood(ns: seq<Node>, labels: set<string>)
    requires GoodSeq(ns, labels)
    ensures GoodSeq(KeySeq(ns, labels), labels) && Text(KeySeq(ns, labels)) == Keys(Text(ns))
    decreases ns, 1
  {
    hide ControlToken, IsSafeEncoding, GoodNode, KeyNode, FlattenNode, Encodings;
    if ns != [] {
      KeyNodeIsGood(ns[0], labels);
      KeySeqIsGood(ns[1..], labels);
      var n, rest := KeyNode(ns[0], labels), KeySeq(ns[1..], labels);
      assert ([n] + rest)[1..] == rest;
      EncodingsConcat(FlattenNode(ns[0]), FlattenSeq(ns[1..]));
      EncodingsConcat(FlattenNode(n), FlattenSeq(rest));
    } else {
      NoText();
    }
  }

  lemma {:induction false} KeyNodeIsGood(n: Node, labels: set<string>)
    requires GoodNode(n, labels)
    ensures GoodNode(KeyNode(n, labels), labels)
    ensures Encodings(FlattenNode(KeyNode(n, labels))) == Keys(Encodings(FlattenNode(n)))
    decreases n, 0
  {
    hide ControlToken, IsSafeEncoding, GoodAtom, KeyAtom, Encodings, FlattenNode, Text, Key;
    match n
    case AtomNode(a) =>
      KeyAtomFacts(a, labels);
      AtomText(a);
      AtomText(KeyAtom(a, labels));
      KeyAtomEncoding(a, labels);
    case IfRegion(o, t, k, e, x) =>
      KeySeqIsGood(t, labels);
      KeySeqIsGood(e, labels);
      KeyAtomFacts(o, labels);
      KeyAtomFacts(x, labels);
      if k.Some? {
        KeyAtomFacts(k.value, labels);
      }
      KeyRegionText(n, labels);
  }

  lemma KeysConcat(a: seq<string>, b: seq<string>)
    ensures Keys(a + b) == Keys(a) + Keys(b)
  {
    hide Key;
  }

  lemma KeyRegionText(n: Node, labels: set<string>)
    requires n.IfRegion? && Text(KeySeq(n.thenBody, labels)) == Keys(Text(n.thenBody))
    requires Text(KeySeq(n.elseBody, labels)) == Keys(Text(n.elseBody))
    ensures Encodings(FlattenNode(KeyNode(n, labels))) == Keys(Encodings(FlattenNode(n)))
  {
    hide Encodings, FlattenNode, Text, Keys, KeySeq, KeyAtom;
    var o, x, t, e := n.opener.encoding, n.endMarker.encoding, Text(n.thenBody), Text(n.elseBody);
    RegionText(n);
    RegionText(KeyNode(n, labels));
    KeyAtomEncoding(n.opener, labels);
    KeyAtomEncoding(n.endMarker, labels);
    KeysOfOne(o);
    KeysOfOne(x);
    if n.elseMarker.None? {
      KeysConcat([o], t + [x]);
      KeysConcat(t, [x]);
    } else {
      var k := n.elseMarker.value.encoding;
      KeyAtomEncoding(n.elseMarker.value, labels);
      KeysOfOne(k);
      KeysConcat([o], t + ([k] + (e + [x])));
      KeysConcat(t, [k] + (e + [x]));
      KeysConcat([k], e + [x]);
      KeysConcat(e, [x]);
    }
  }

  lemma KeysOfOne(s: string)
    ensures Keys([s]) == [Key(s)]
  {
    hide Key;
  }

  lemma KeyAtomEncoding(a: Atom, labels: set<string>)
    ensures KeyAtom(a, labels).encoding == Key(a.encoding)
  {
  }

  lemma {:induction false} EquivByKeyTree(a: seq<Node>, b: seq<Node>, labels: set<string>)
    ensures EquivSeq(a, b) <==> KeySeq(a, labels) == KeySeq(b, labels)
    decreases a, 1
  {
    hide EquivNode, KeyNode;
    KeySeqSize(a, labels);
    KeySeqSize(b, labels);
    if a != [] && b != [] {
      EquivNodeByKeyTree(a[0], b[0], labels);
      EquivByKeyTree(a[1..], b[1..], labels);
      KeySeqCons(a, labels);
      KeySeqCons(b, labels);
    }
  }

  lemma {:induction false} KeySeqSize(a: seq<Node>, labels: set<string>)
    ensures |KeySeq(a, labels)| == |a|
  {
    hide KeyNode;
    if a != [] {
      KeySeqSize(a[1..], labels);
    }
  }

  lemma KeySeqCons(a: seq<Node>, labels: set<string>)
    requires a != []
    ensures KeySeq(a, labels)[0] == KeyNode(a[0], labels) && KeySeq(a, labels)[1..] == KeySeq(a[1..], labels)
    ensures KeySeq(a, labels) == [KeySeq(a, labels)[0]] + KeySeq(a, labels)[1..]
  {
    hide KeyNode;
  }

  lemma {:induction false} EquivNodeByKeyTree(a: Node, b: Node, labels: set<string>)
    ensures EquivNode(a, b) <==> KeyNode(a, labels) == KeyNode(b, labels)
    decreases a, 0
  {
    hide EquivAtom, EquivSeq, KeySeq, KeyAtom;
    if a.AtomNode? && b.AtomNode? {
      EquivAtomByKeyAtom(a.atom, b.atom, labels);
    } else if a.IfRegion? && b.IfRegion? {
      EquivAtomByKeyAtom(a.opener, b.opener, labels);
      EquivAtomByKeyAtom(a.endMarker, b.endMarker, labels);
      if a.elseMarker.Some? && b.elseMarker.Some? {
        EquivAtomByKeyAtom(a.elseMarker.value, b.elseMarker.value, labels);
      }
      EquivByKeyTree(a.thenBody, b.thenBody, labels);
      EquivByKeyTree(a.elseBody, b.elseBody, labels);
    }
  }

  lemma EquivAtomByKeyAtom(a: Atom, b: Atom, labels: set<string>)
    ensures EquivAtom(a, b) <==> KeyAtom(a, labels) == KeyAtom(b, labels)
  {
    hide EquivAtom, Key, IsSafeEncoding;
    IfTailMeaning.EquivIsSameKey(a, b);
  }

  lemma {:induction false} KeySeqErased(ns: seq<Node>, labels: set<string>)
    ensures EraseSeq(KeySeq(ns, labels)) == KeySeq(ns, labels)
    decreases ns, 1
  {
    hide KeyNode, EraseNode;
    if ns != [] {
      KeyNodeErased(ns[0], labels);
      KeySeqErased(ns[1..], labels);
      KeySeqCons(ns, labels);
    }
  }

  lemma {:induction false} KeyNodeErased(n: Node, labels: set<string>)
    ensures EraseNode(KeyNode(n, labels)) == KeyNode(n, labels)
    decreases n, 0
  {
    hide Key, IsSafeEncoding;
    if n.IfRegion? {
      KeySeqErased(n.thenBody, labels);
      KeySeqErased(n.elseBody, labels);
    }
  }

  /** Balanced code is the same code, node by node and region by region, exactly when its texts are the same up to
      spelling. */
  lemma EquivByText(a: seq<Node>, b: seq<Node>, labels: set<string>)
    requires GoodSeq(a, labels) && GoodSeq(b, labels)
    ensures EquivSeq(a, b) <==> Keys(Text(a)) == Keys(Text(b))
  {
    hide GoodSeq, Text, Keys, EquivSeq, KeySeq, EraseSeq;
    EquivByKeyTree(a, b, labels);
    KeySeqIsGood(a, labels);
    KeySeqIsGood(b, labels);
    ParseComplete(KeySeq(a, labels), labels);
    ParseComplete(KeySeq(b, labels), labels);
    KeySeqErased(a, labels);
    KeySeqErased(b, labels);
  }

  // ----- size -----

  lemma {:induction false} MergeLength(a: seq<Node>, b: seq<Node>)
    requires EquivSeq(a, b)
    ensures |FlattenSeq(MergeSeq(a, b))| == |FlattenSeq(a)|
    ensures |FlattenSeq(a)| >= |a|
    decreases a, 1
  {
    hide EquivNode, MergeNode, FlattenNode;
    if a != [] {
      MergeLengthNode(a[0], b[0]);
      MergeLength(a[1..], b[1..]);
      assert MergeSeq(a, b)[1..] == MergeSeq(a[1..], b[1..]);
    }
  }

  lemma {:induction false} MergeLengthNode(a: Node, b: Node)
    requires EquivNode(a, b)
    ensures |FlattenNode(MergeNode(a, b))| == |FlattenNode(a)| >= 1
    decreases a, 0
  {
    hide EquivAtom, EquivSeq, MergeSeq, FlattenSeq;
    match a
    case AtomNode(_) =>
    case IfRegion(o, t, k, e, x) =>
      MergeLength(t, b.thenBody);
      MergeLength(e, b.elseBody);
  }

  lemma HoistLength(o: Atom, t: seq<Node>, k: Option<Atom>, e: seq<Node>, x: Atom)
    ensures |FlattenSeq(Hoist(o, t, k, e, x))| <= |FlattenNode(IfRegion(o, t, k, e, x))|
    ensures HoistCount(t, k, e) > 0 ==>
              |FlattenSeq(Hoist(o, t, k, e, x))| < |FlattenNode(IfRegion(o, t, k, e, x))|
  {
    hide EquivSeq, MergeSeq, FlattenSeq, CommonCount, SafeSeq;
    var c := HoistCount(t, k, e);
    HoistTail(t, k, e);
    var t0, t1, e0, e1 := t[..|t| - c], t[|t| - c..], e[..|e| - c], e[|e| - c..];
    assert t == t0 + t1 && e == e0 + e1;
    FlattenConcat(t0, t1);
    FlattenConcat(e0, e1);
    MergeLength(t1, e1);
    EquivReflexive(e1);
    MergeLength(e1, e1);
    var kept := IfRegion(o, t0, k, e0, x);
    FlattenConcat([kept], MergeSeq(t1, e1));
    IfTailPlan.SingleFlat(kept);
    if c == 0 {
      assert t1 == [];
      IfTailPlan.EmptyFlat();
    }
  }

  lemma {:induction false} EquivReflexive(a: seq<Node>)
    ensures EquivSeq(a, a)
    decreases a, 1
  {
    if a != [] {
      EquivNodeReflexive(a[0]);
      EquivReflexive(a[1..]);
    }
  }

  lemma {:induction false} EquivNodeReflexive(a: Node)
    ensures EquivNode(a, a)
    decreases a, 0
  {
    hide EquivSeq;
    if a.IfRegion? {
      EquivReflexive(a.thenBody);
      EquivReflexive(a.elseBody);
    }
  }

  lemma {:induction false} OptimizeLength(ns: seq<Node>, labels: set<string>)
    requires GoodSeq(ns, labels)
    ensures |FlattenSeq(OptimizeSeq(ns))| <= |FlattenSeq(ns)|
    ensures MergedIfs(ns) > 0 <==> |FlattenSeq(OptimizeSeq(ns))| < |FlattenSeq(ns)|
    decreases ns, 1
  {
    hide FlattenNode, OptimizeNode, MergedIfsNode, GoodNode;
    if ns != [] {
      OptimizeLengthNode(ns[0], labels);
      OptimizeLength(ns[1..], labels);
      FlattenConcat(OptimizeNode(ns[0]), OptimizeSeq(ns[1..]));
    }
  }

  lemma {:induction false} OptimizeLengthNode(n: Node, labels: set<string>)
    requires GoodNode(n, labels)
    ensures |FlattenSeq(OptimizeNode(n))| <= |FlattenNode(n)|
    ensures MergedIfsNode(n) > 0 <==> |FlattenSeq(OptimizeNode(n))| < |FlattenNode(n)|
    decreases n, 0
  {
    hide FlattenSeq, OptimizeSeq, MergedIfs, HoistCount, ControlToken, GoodAtom, GoodSeq;
    match n
    case AtomNode(_) =>
      IfTailPlan.SingleFlat(n);
    case IfRegion(o, t, k, e, x) =>
      OptimizeLength(t, labels);
      OptimizeLength(e, labels);
      if k.None? {
        NothingToOptimize();
      }
      HoistLength(o, OptimizeSeq(t), k, OptimizeSeq(e), x);
      if HoistCount(OptimizeSeq(t), k, OptimizeSeq(e)) == 0 {
        UnhoistedLength(o, OptimizeSeq(t), k, OptimizeSeq(e), x);
      }
  }

  lemma NothingToOptimize()
    ensures OptimizeSeq([]) == [] && MergedIfs([]) == 0
  {
  }

  lemma UnhoistedLength(o: Atom, t: seq<Node>, k: Option<Atom>, e: seq<Node>, x: Atom)
    requires HoistCount(t, k, e) == 0
    ensures Hoist(o, t, k, e, x) == [IfRegion(o, t, k, e, x)]
    ensures |FlattenSeq(Hoist(o, t, k, e, x))| == |FlattenNode(IfRegion(o, t, k, e, x))|
  {
    hide HoistCount;
    HoistTail(t, k, e);
    assert t[..|t|] == t && e[..|e|] == e;
    assert t[|t|..] == [] && e[|e|..] == [];
    assert MergeSeq([], []) == [];
    IfTailPlan.SingleFlat(IfRegion(o, t, k, e, x));
  }

  /** The optimizer reports a change exactly when it made the code shorter, and never makes it longer. */
  lemma ChangedMeansShorter(p: seq<string>, labels: set<string>)
    ensures |Optimize(p, labels).instructions| <= |p|
    ensures Optimize(p, labels).changed <==> |Optimize(p, labels).instructions| < |p|
    ensures !Optimize(p, labels).changed ==> Optimize(p, labels).instructions == p
  {
    hide ControlToken, IsSafeEncoding, ValidPlan, NormalizePaths, FlatPlan;
    IfTailPlan.RewritePlanIsAlwaysValid(p, labels);
    if Parse(p, labels).Some? {
      var ns := Parse(p, labels).value;
      ParseSound(p, labels);
      OptimizeLength(ns, labels);
      if MergedIfs(ns) == 0 {
        UnmergedIsFixed(ns);
      }
    }
  }

  lemma {:induction false} UnmergedIsFixed(ns: seq<Node>)
    requires MergedIfs(ns) == 0
    ensures OptimizeSeq(ns) == ns
    decreases ns, 1
  {
    hide OptimizeNode, MergedIfsNode;
    if ns != [] {
      UnmergedNodeIsFixed(ns[0]);
      UnmergedIsFixed(ns[1..]);
      assert ns == [ns[0]] + ns[1..];
    }
  }

  lemma {:induction false} UnmergedNodeIsFixed(n: Node)
    requires MergedIfsNode(n) == 0
    ensures OptimizeNode(n) == [n]
    decreases n, 0
  {
    hide OptimizeSeq, MergedIfs, HoistCount, Hoist;
    match n
    case AtomNode(_) =>
    case IfRegion(o, t, k, e, x) =>
      UnmergedIsFixed(t);
      UnmergedIsFixed(e);
      UnhoistedLength(o, t, k, e, x);
  }
}
