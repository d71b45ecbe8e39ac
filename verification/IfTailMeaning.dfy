/** Common-tail hoisting keeps the meaning of a script on every machine whose ordinary instructions depend only on
    their normalised encoding and, where the optimizer may move them, not on the conditional depth. */
module IfTailMeaning {
  import opened Wrappers
  import opened Hex
  import opened CondMachine
  import opened IfTree
  import opened IfTailOptimizer

  /** Instructions with one key act alike. */
  ghost predicate RespectsKeys<S(!new)>(m: Machine<S>) {
    forall a, b, d, s :: Key(a) == Key(b) ==> m.exec(a, d, s) == m.exec(b, d, s)
  }

  /** An instruction the optimizer considers safe acts alike at every conditional depth. OP_RETURN, OP_CODESEPARATOR
      and opaque text are not covered: they may depend on whether they are inside a branch. */
  ghost predicate SafeIsDepthFree<S(!new)>(m: Machine<S>, labels: set<string>) {
    forall e, d, d', s :: IsSafeEncoding(e, labels) ==> m.exec(e, d, s) == m.exec(e, d', s)
  }

  // ----- what a tree means -----

  function EvalSeq<S>(m: Machine<S>, ns: seq<Node>, d: nat, s: S): Outcome<S>
    decreases ns
  {
    if ns == [] then Next(s)
    else
      var o := EvalNode(m, ns[0], d, s);
      if o.Next? then EvalSeq(m, ns[1..], d, o.state) else o
  }

  function EvalNode<S>(m: Machine<S>, n: Node, d: nat, s: S): Outcome<S>
    decreases n
  {
    match n
    case AtomNode(a) => m.exec(a.encoding, d, s)
    case IfRegion(o, t, k, e, x) =>
      match m.test(s)
      case None => Fail
      case Some((b, s')) =>
        if b == (ControlToken(o.encoding) == IfToken) then EvalSeq(m, t, d + 1, s') else EvalSeq(m, e, d + 1, s')
  }

  lemma {:induction false} EvalConcat<S>(m: Machine<S>, a: seq<Node>, b: seq<Node>, d: nat, s: S)
    ensures EvalSeq(m, a + b, d, s) ==
            var o := EvalSeq(m, a, d, s); if o.Next? then EvalSeq(m, b, d, o.state) else o
  {
    if a == [] {
      assert a + b == b;
    } else {
      assert (a + b)[1..] == a[1..] + b;
      var o := EvalNode(m, a[0], d, s);
      if o.Next? {
        EvalConcat(m, a[1..], b, d, o.state);
      }
    }
  }

  /** What a piece of balanced code does to a status: nothing when a condition is false, else what its tree means. */
  function After<S>(m: Machine<S>, st: Status<S>, ns: seq<Node>): Status<S> {
    if !st.Running? || false in st.cond then st else Lift(st.cond, EvalSeq(m, ns, |st.cond|, st.state))
  }

  function AfterNode<S>(m: Machine<S>, st: Status<S>, n: Node): Status<S> {
    if !st.Running? || false in st.cond then st else Lift(st.cond, EvalNode(m, n, |st.cond|, st.state))
  }

  /** Running flat code from any status is evaluating its tree. */
  lemma {:induction false} FlatRunsTree<S>(m: Machine<S>, ns: seq<Node>, st: Status<S>, labels: set<string>)
    requires GoodSeq(ns, labels)
    ensures Run(m, Text(ns), st) == After(m, st, ns)
    decreases ns, 1
  {
    hide ControlToken, IsSafeEncoding;
    if ns == [] || !st.Running? {
      RunStoppedOrEmpty(m, Text(ns), st);
    } else {
      EncodingsConcat(FlattenNode(ns[0]), FlattenSeq(ns[1..]));
      RunConcat(m, Encodings(FlattenNode(ns[0])), Text(ns[1..]), st);
      FlatRunsNode(m, ns[0], st, labels);
      FlatRunsTree(m, ns[1..], AfterNode(m, st, ns[0]), labels);
    }
  }

  lemma RunStoppedOrEmpty<S>(m: Machine<S>, prog: seq<string>, st: Status<S>)
    requires prog == [] || !st.Running?
    ensures Run(m, prog, st) == st
  {
    if !st.Running? {
      RunStopped(m, prog, st);
    }
  }

  lemma {:induction false} FlatRunsNode<S>(m: Machine<S>, n: Node, st: Status<S>, labels: set<string>)
    requires GoodNode(n, labels) && st.Running?
    ensures Run(m, Encodings(FlattenNode(n)), st) == AfterNode(m, st, n)
    decreases n, 0
  {
    hide ControlToken, IsSafeEncoding;
    match n
    case AtomNode(a) =>
      assert Encodings([a]) == [a.encoding];
      RunOne(m, a.encoding, st);
    case IfRegion(o, t, k, e, x) =>
      var st1 := Step(m, o.encoding, st);
      RunRegion(m, n, st);
      FlatRunsTree(m, t, st1, labels);
      var st2 := After(m, st1, t);
      if k.Some? {
        FlatRunsTree(m, e, Step(m, k.value.encoding, st2), labels);
      }
      RegionStatus(m, n, st, labels);
  }

  /** A flat region is its pieces run one after the other. */
  lemma RunRegion<S>(m: Machine<S>, n: Node, st: Status<S>)
    requires n.IfRegion?
    ensures var st2 := Run(m, Text(n.thenBody), Step(m, n.opener.encoding, st));
            Run(m, Encodings(FlattenNode(n)), st) ==
            if n.elseMarker.None? then Step(m, n.endMarker.encoding, st2)
            else Step(m, n.endMarker.encoding, Run(m, Text(n.elseBody), Step(m, n.elseMarker.value.encoding, st2)))
  {
    hide Step, Encodings, FlattenNode;
    RegionText(n);
    var o, x := n.opener.encoding, n.endMarker.encoding;
    var t, e := Text(n.thenBody), Text(n.elseBody);
    var st1 := Step(m, o, st);
    var st2 := Run(m, t, st1);
    RunOne(m, o, st);
    if n.elseMarker.None? {
      RunConcat(m, [o], t + [x], st);
      RunConcat(m, t, [x], st1);
      RunOne(m, x, st2);
    } else {
      var k := n.elseMarker.value.encoding;
      var st3 := Step(m, k, st2);
      RunConcat(m, [o], t + ([k] + (e + [x])), st);
      RunConcat(m, t, [k] + (e + [x]), st1);
      RunConcat(m, [k], e + [x], st2);
      RunOne(m, k, st2);
      RunConcat(m, e, [x], st3);
      RunOne(m, x, Run(m, e, st3));
    }
  }

  lemma TopCondition<S>(m: Machine<S>, c: seq<bool>, b: bool, s: S, marker: string)
    ensures ControlToken(marker) == EndIfToken ==> Step(m, marker, Running(c + [b], s)) == Running(c, s)
    ensures ControlToken(marker) == ElseToken ==> Step(m, marker, Running(c + [b], s)) == Running(c + [!b], s)
    ensures false in c + [b] <==> (false in c || !b)
  {
    hide ControlToken;
    assert (c + [b])[..|c|] == c && (c + [b])[|c|] == b;
  }

  /** Opening, running the taken branch, skipping the other and closing amounts to the region's meaning. */
  lemma RegionStatus<S>(m: Machine<S>, n: Node, st: Status<S>, labels: set<string>)
    requires n.IfRegion? && GoodNode(n, labels) && st.Running?
    ensures var st2 := After(m, Step(m, n.opener.encoding, st), n.thenBody);
            AfterNode(m, st, n) ==
            if n.elseMarker.None? then Step(m, n.endMarker.encoding, st2)
            else Step(m, n.endMarker.encoding, After(m, Step(m, n.elseMarker.value.encoding, st2), n.elseBody))
  {
    hide ControlToken, IsSafeEncoding;
    var c, s := st.cond, st.state;
    if false in c {
      SkippedRegion(m, n, c, s, labels);
    } else if m.test(s).Some? {
      var (b, s') := m.test(s).value;
      var taken := b == (ControlToken(n.opener.encoding) == IfToken);
      assert Step(m, n.opener.encoding, st) == Running(c + [taken], s');
      if taken {
        TakenThen(m, n, c, s', labels);
      } else {
        TakenElse(m, n, c, s', labels);
      }
    }
  }

  lemma SkippedRegion<S>(m: Machine<S>, n: Node, c: seq<bool>, s: S, labels: set<string>)
    requires n.IfRegion? && GoodNode(n, labels) && false in c
    ensures var st2 := After(m, Step(m, n.opener.encoding, Running(c, s)), n.thenBody);
            Running(c, s) ==
            if n.elseMarker.None? then Step(m, n.endMarker.encoding, st2)
            else Step(m, n.endMarker.encoding, After(m, Step(m, n.elseMarker.value.encoding, st2), n.elseBody))
  {
    hide ControlToken, IsSafeEncoding, EvalSeq;
    assert Step(m, n.opener.encoding, Running(c, s)) == Running(c + [false], s);
    hide Step;
    TopCondition(m, c, false, s, n.endMarker.encoding);
    TopCondition(m, c, true, s, n.endMarker.encoding);
    if n.elseMarker.Some? {
      TopCondition(m, c, false, s, n.elseMarker.value.encoding);
    }
  }

  lemma TakenThen<S>(m: Machine<S>, n: Node, c: seq<bool>, s: S, labels: set<string>)
    requires n.IfRegion? && GoodNode(n, labels) && false !in c
    ensures var st2 := After(m, Running(c + [true], s), n.thenBody);
            Lift(c, EvalSeq(m, n.thenBody, |c| + 1, s)) ==
            if n.elseMarker.None? then Step(m, n.endMarker.encoding, st2)
            else Step(m, n.endMarker.encoding, After(m, Step(m, n.elseMarker.value.encoding, st2), n.elseBody))
  {
    hide ControlToken, IsSafeEncoding, EvalSeq;
    var o := EvalSeq(m, n.thenBody, |c| + 1, s);
    TopCondition(m, c, true, s, n.endMarker.encoding);
    assert After(m, Running(c + [true], s), n.thenBody) == Lift(c + [true], o);
    if o.Next? {
      hide Step;
      TopCondition(m, c, true, o.state, n.endMarker.encoding);
      TopCondition(m, c, false, o.state, n.endMarker.encoding);
      if n.elseMarker.Some? {
        TopCondition(m, c, true, o.state, n.elseMarker.value.encoding);
      }
    }
  }

  lemma TakenElse<S>(m: Machine<S>, n: Node, c: seq<bool>, s: S, labels: set<string>)
    requires n.IfRegion? && GoodNode(n, labels) && false !in c
    ensures var st2 := After(m, Running(c + [false], s), n.thenBody);
            Lift(c, EvalSeq(m, n.elseBody, |c| + 1, s)) ==
            if n.elseMarker.None? then Step(m, n.endMarker.encoding, st2)
            else Step(m, n.endMarker.encoding, After(m, Step(m, n.elseMarker.value.encoding, st2), n.elseBody))
  {
    hide ControlToken, IsSafeEncoding;
    TopCondition(m, c, false, s, n.endMarker.encoding);
    if n.elseMarker.Some? {
      TopCondition(m, c, false, s, n.elseMarker.value.encoding);
      TopCondition(m, c, true, s, n.endMarker.encoding);
      var o := EvalSeq(m, n.elseBody, |c| + 1, s);
      assert After(m, Running(c + [true], s), n.elseBody) == Lift(c + [true], o);
      if o.Next? {
        TopCondition(m, c, true, o.state, n.endMarker.encoding);
      }
    }
  }

  // ----- the hoist law -----

  lemma EquivIsSameKey(a: Atom, b: Atom)
    ensures EquivAtom(a, b) <==> Key(a.encoding) == Key(b.encoding)
  {
    KeyIsStable(a.encoding);
    KeyIsStable(b.encoding);
  }

  lemma {:induction false} EquivEval<S(!new)>(m: Machine<S>, a: seq<Node>, b: seq<Node>, d: nat, s: S)
    requires RespectsKeys(m) && EquivSeq(a, b)
    ensures EvalSeq(m, a, d, s) == EvalSeq(m, b, d, s)
    decreases a, 1
  {
    hide ControlToken, EquivAtom, Key;
    if a != [] {
      EquivEvalNode(m, a[0], b[0], d, s);
      var o := EvalNode(m, a[0], d, s);
      if o.Next? {
        EquivEval(m, a[1..], b[1..], d, o.state);
      }
    }
  }

  lemma {:induction false} EquivEvalNode<S(!new)>(m: Machine<S>, a: Node, b: Node, d: nat, s: S)
    requires RespectsKeys(m) && EquivNode(a, b)
    ensures EvalNode(m, a, d, s) == EvalNode(m, b, d, s)
    decreases a, 0
  {
    hide ControlToken, EquivAtom, Key;
    match a
    case AtomNode(x) =>
      EquivIsSameKey(x, b.atom);
    case IfRegion(o, t, k, e, x) =>
      EquivIsSameKey(o, b.opener);
      TokenOfKey(o.encoding, b.opener.encoding);
      if m.test(s).Some? {
        EquivEval(m, t, b.thenBody, d + 1, m.test(s).value.1);
        EquivEval(m, e, b.elseBody, d + 1, m.test(s).value.1);
      }
  }

  lemma {:induction false} SafeEval<S(!new)>(m: Machine<S>, ns: seq<Node>, d: nat, d': nat, s: S, labels: set<string>)
    requires SafeIsDepthFree(m, labels) && GoodSeq(ns, labels) && SafeSeq(ns)
    ensures EvalSeq(m, ns, d, s) == EvalSeq(m, ns, d', s)
    decreases ns, 1
  {
    hide ControlToken, IsSafeEncoding;
    if ns != [] {
      SafeEvalNode(m, ns[0], d, d', s, labels);
      var o := EvalNode(m, ns[0], d, s);
      if o.Next? {
        SafeEval(m, ns[1..], d, d', o.state, labels);
      }
    }
  }

  lemma {:induction false} SafeEvalNode<S(!new)>(m: Machine<S>, n: Node, d: nat, d': nat, s: S, labels: set<string>)
    requires SafeIsDepthFree(m, labels) && GoodNode(n, labels) && SafeNode(n)
    ensures EvalNode(m, n, d, s) == EvalNode(m, n, d', s)
    decreases n, 0
  {
    hide ControlToken, IsSafeEncoding;
    match n
    case AtomNode(_) =>
    case IfRegion(o, t, k, e, x) =>
      if m.test(s).Some? {
        SafeEval(m, t, d + 1, d' + 1, m.test(s).value.1, labels);
        SafeEval(m, e, d + 1, d' + 1, m.test(s).value.1, labels);
      }
  }

  /** Merging provenance changes nothing that is run. */
  lemma {:induction false} MergeEval<S>(m: Machine<S>, a: seq<Node>, b: seq<Node>, d: nat, s: S)
    requires EquivSeq(a, b)
    ensures EvalSeq(m, MergeSeq(a, b), d, s) == EvalSeq(m, a, d, s)
    decreases a, 1
  {
    hide ControlToken, EquivAtom;
    if a != [] {
      MergeEvalNode(m, a[0], b[0], d, s);
      assert MergeSeq(a, b)[1..] == MergeSeq(a[1..], b[1..]);
      var o := EvalNode(m, a[0], d, s);
      if o.Next? {
        MergeEval(m, a[1..], b[1..], d, o.state);
      }
    }
  }

  lemma {:induction false} MergeEvalNode<S>(m: Machine<S>, a: Node, b: Node, d: nat, s: S)
    requires EquivNode(a, b)
    ensures EvalNode(m, MergeNode(a, b), d, s) == EvalNode(m, a, d, s)
    decreases a, 0
  {
    hide ControlToken, EquivAtom;
    match a
    case AtomNode(_) =>
    case IfRegion(o, t, k, e, x) =>
      if m.test(s).Some? {
        MergeEval(m, t, b.thenBody, d + 1, m.test(s).value.1);
        MergeEval(m, e, b.elseBody, d + 1, m.test(s).value.1);
      }
  }

  lemma {:induction false} SafeSuffix(a: seq<Node>, b: seq<Node>)
    requires SafeSeq(a + b)
    ensures SafeSeq(a) && SafeSeq(b)
  {
    if a == [] {
      assert a + b == b;
    } else {
      assert (a + b)[1..] == a[1..] + b;
      SafeSuffix(a[1..], b);
    }
  }

  lemma {:induction false} MergeGood(a: seq<Node>, b: seq<Node>, labels: set<string>)
    requires EquivSeq(a, b) && GoodSeq(a, labels)
    ensures GoodSeq(MergeSeq(a, b), labels)
    decreases a, 1
  {
    hide ControlToken, IsSafeEncoding, EquivAtom;
    if a != [] {
      MergeGoodNode(a[0], b[0], labels);
      MergeGood(a[1..], b[1..], labels);
      assert MergeSeq(a, b)[1..] == MergeSeq(a[1..], b[1..]);
    }
  }

  lemma {:induction false} MergeGoodNode(a: Node, b: Node, labels: set<string>)
    requires EquivNode(a, b) && GoodNode(a, labels)
    ensures GoodNode(MergeNode(a, b), labels)
    decreases a, 0
  {
    hide ControlToken, IsSafeEncoding, EquivAtom;
    match a
    case AtomNode(_) =>
    case IfRegion(o, t, k, e, x) =>
      MergeGood(t, b.thenBody, labels);
      MergeGood(e, b.elseBody, labels);
  }

  /** The hoist law: moving the common tail of both branches behind the region changes no outcome. */
  lemma HoistMeaning<S(!new)>(m: Machine<S>, o: Atom, t: seq<Node>, k: Option<Atom>, e: seq<Node>, x: Atom,
                              d: nat, s: S, labels: set<string>)
    requires RespectsKeys(m) && SafeIsDepthFree(m, labels)
    requires GoodSeq(t, labels) && GoodSeq(e, labels)
    ensures EvalSeq(m, Hoist(o, t, k, e, x), d, s) == EvalNode(m, IfRegion(o, t, k, e, x), d, s)
  {
    hide ControlToken, IsSafeEncoding, GoodSeq, EquivSeq, MergeSeq, Hoist;
    var t0, t1, e0, e1 := HoistParts(o, t, k, e, x);
    assert Hoist(o, t, k, e, x)[1..] == MergeSeq(t1, e1);
    GoodConcat(t0, t1, labels);
    if t1 != [] {
      SafeSuffix(t0, t1);
    }
    assert SafeSeq(t1);
    hide SafeSeq;
    if m.test(s).Some? {
      var s' := m.test(s).value.1;
      TailMeaning(m, t0, t1, t1, e1, d, s', labels);
      TailMeaning(m, e0, e1, t1, e1, d, s', labels);
    }
  }

  /** Finishing a branch at its own depth is stopping short and finishing outside. */
  lemma TailMeaning<S(!new)>(m: Machine<S>, first: seq<Node>, last: seq<Node>, kept: seq<Node>, dup: seq<Node>,
                             d: nat, s: S, labels: set<string>)
    requires RespectsKeys(m) && SafeIsDepthFree(m, labels)
    requires EquivSeq(kept, dup) && (last == kept || last == dup)
    requires GoodSeq(kept, labels) && SafeSeq(kept)
    ensures EvalSeq(m, first + last, d + 1, s) ==
            var o := EvalSeq(m, first, d + 1, s);
            if o.Next? then EvalSeq(m, MergeSeq(kept, dup), d, o.state) else o
  {
    hide GoodSeq, SafeSeq, EquivSeq;
    EvalConcat(m, first, last, d + 1, s);
    var o := EvalSeq(m, first, d + 1, s);
    if o.Next? {
      EquivEval(m, kept, dup, d + 1, o.state);
      SafeEval(m, kept, d, d + 1, o.state, labels);
      MergeEval(m, kept, dup, d, o.state);
    }
  }

  lemma HoistGood(o: Atom, t: seq<Node>, k: Option<Atom>, e: seq<Node>, x: Atom, labels: set<string>)
    requires GoodNode(IfRegion(o, t, k, e, x), labels)
    ensures GoodSeq(Hoist(o, t, k, e, x), labels)
  {
    hide ControlToken, IsSafeEncoding, GoodAtom;
    var t0, t1, e0, e1 := HoistParts(o, t, k, e, x);
    GoodConcat(t0, t1, labels);
    GoodConcat(e0, e1, labels);
    MergeGood(t1, e1, labels);
    assert Hoist(o, t, k, e, x)[1..] == MergeSeq(t1, e1);
  }

  lemma {:induction false} OptimizeGood(ns: seq<Node>, labels: set<string>)
    requires GoodSeq(ns, labels)
    ensures GoodSeq(OptimizeSeq(ns), labels)
    decreases ns, 1
  {
    hide ControlToken, IsSafeEncoding;
    if ns != [] {
      OptimizeGoodNode(ns[0], labels);
      OptimizeGood(ns[1..], labels);
      GoodConcat(OptimizeNode(ns[0]), OptimizeSeq(ns[1..]), labels);
    }
  }

  lemma {:induction false} OptimizeGoodNode(n: Node, labels: set<string>)
    requires GoodNode(n, labels)
    ensures GoodSeq(OptimizeNode(n), labels)
    decreases n, 0
  {
    hide ControlToken, IsSafeEncoding, GoodAtom;
    match n
    case AtomNode(_) =>
      assert [n][1..] == [];
    case IfRegion(o, t, k, e, x) =>
      OptimizeGood(t, labels);
      OptimizeGood(e, labels);
      HoistGood(o, OptimizeSeq(t), k, OptimizeSeq(e), x, labels);
  }

  lemma {:induction false} OptimizeMeaning<S(!new)>(m: Machine<S>, ns: seq<Node>, d: nat, s: S, labels: set<string>)
    requires RespectsKeys(m) && SafeIsDepthFree(m, labels) && GoodSeq(ns, labels)
    ensures EvalSeq(m, OptimizeSeq(ns), d, s) == EvalSeq(m, ns, d, s)
    decreases ns, 1
  {
    hide ControlToken, IsSafeEncoding;
    if ns != [] {
      EvalConcat(m, OptimizeNode(ns[0]), OptimizeSeq(ns[1..]), d, s);
      OptimizeMeaningNode(m, ns[0], d, s, labels);
      var o := EvalNode(m, ns[0], d, s);
      if o.Next? {
        OptimizeMeaning(m, ns[1..], d, o.state, labels);
      }
    }
  }

  lemma {:induction false} OptimizeMeaningNode<S(!new)>(m: Machine<S>, n: Node, d: nat, s: S, labels: set<string>)
    requires RespectsKeys(m) && SafeIsDepthFree(m, labels) && GoodNode(n, labels)
    ensures EvalSeq(m, OptimizeNode(n), d, s) == EvalNode(m, n, d, s)
    decreases n, 0
  {
    hide ControlToken, IsSafeEncoding, GoodAtom;
    match n
    case AtomNode(_) =>
      assert [n][1..] == [];
    case IfRegion(o, t, k, e, x) =>
      OptimizeGood(t, labels);
      OptimizeGood(e, labels);
      HoistMeaning(m, o, OptimizeSeq(t), k, OptimizeSeq(e), x, d, s, labels);
      if m.test(s).Some? {
        OptimizeMeaning(m, t, d + 1, m.test(s).value.1, labels);
        OptimizeMeaning(m, e, d + 1, m.test(s).value.1, labels);
      }
  }

  /** Main result: from every status, the optimizer's output runs exactly as its input, malformed input included. */
  lemma OptimizePreservesMeaning<S(!new)>(m: Machine<S>, p: seq<string>, st: Status<S>, labels: set<string>)
    requires RespectsKeys(m) && SafeIsDepthFree(m, labels)
    ensures Run(m, Optimize(p, labels).instructions, st) == Run(m, p, st)
  {
    hide ControlToken, IsSafeEncoding, ValidPlan, NormalizePaths, FlatPlan;
    if Parse(p, labels).Some? {
      var ns := Parse(p, labels).value;
      ParseSound(p, labels);
      OptimizeGood(ns, labels);
      FlatRunsTree(m, ns, st, labels);
      FlatRunsTree(m, OptimizeSeq(ns), st, labels);
      if st.Running? {
        OptimizeMeaning(m, ns, |st.cond|, st.state, labels);
      }
    }
  }
}
