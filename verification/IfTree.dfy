/** The temporary control-flow tree of the common-tail optimizer: parsing a flat instruction vector into it and
    flattening it back. */
module IfTree {
  import opened Wrappers
  import opened Hex
  import opened CondMachine

  const OP_RETURN: Byte := 0x6a
  const OP_CODESEPARATOR: Byte := 0xab

  datatype Arm = Then | Else

  datatype BranchPredicate = BranchPredicate(ifPC: nat, arm: Arm)

  datatype Origin = Origin(oldPC: nat, path: seq<BranchPredicate>)

  datatype Atom = Atom(encoding: string, origins: seq<Origin>, extractionSafe: bool)

  datatype Node =
    | AtomNode(atom: Atom)
    | IfRegion(opener: Atom, thenBody: seq<Node>, elseMarker: Option<Atom>, elseBody: seq<Node>, endMarker: Atom)

  // ----- atoms -----

  /** A whole instruction consisting of one known data placeholder. */
  predicate IsKnownPlaceholder(e: string, labels: set<string>) {
    && |e| >= 3 && e[0] == '<' && e[|e| - 1] == '>'
    && (forall i :: 1 <= i < |e| ==> e[i] != '<')
    && (forall i :: 0 <= i < |e| - 1 ==> e[i] != '>')
    && e[1..|e| - 1] in labels
  }

  predicate IsSafeEncoding(e: string, labels: set<string>) {
    || (IsPureHex(e) && !IsSingleOpcode(e, OP_RETURN) && !IsSingleOpcode(e, OP_CODESEPARATOR))
    || IsKnownPlaceholder(e, labels)
  }

  function MakeAtom(e: string, oldPC: nat, path: seq<BranchPredicate>, labels: set<string>): Atom {
    Atom(e, [Origin(oldPC, path)], IsSafeEncoding(e, labels))
  }

  // ----- flattening -----

  function FlattenSeq(ns: seq<Node>): seq<Atom>
    decreases ns
  {
    if ns == [] then [] else FlattenNode(ns[0]) + FlattenSeq(ns[1..])
  }

  function FlattenNode(n: Node): seq<Atom>
    decreases n
  {
    match n
    case AtomNode(a) => [a]
    case IfRegion(o, t, None, e, x) => [o] + FlattenSeq(t) + [x]
    case IfRegion(o, t, Some(k), e, x) => [o] + FlattenSeq(t) + [k] + FlattenSeq(e) + [x]
  }

  function Encodings(atoms: seq<Atom>): (r: seq<string>)
    ensures |r| == |atoms|
  {
    seq(|atoms|, i requires 0 <= i < |atoms| => atoms[i].encoding)
  }

  function Text(ns: seq<Node>): seq<string> {
    Encodings(FlattenSeq(ns))
  }

  lemma {:induction false} FlattenConcat(a: seq<Node>, b: seq<Node>)
    ensures FlattenSeq(a + b) == FlattenSeq(a) + FlattenSeq(b)
  {
    if a == [] {
      assert a + b == b;
    } else {
      assert (a + b)[1..] == a[1..] + b;
      FlattenConcat(a[1..], b);
    }
  }

  lemma EncodingsConcat(a: seq<Atom>, b: seq<Atom>)
    ensures Encodings(a + b) == Encodings(a) + Encodings(b)
  {
  }

  // ----- trees that come from balanced code -----

  predicate GoodAtom(a: Atom, labels: set<string>) {
    a.extractionSafe == IsSafeEncoding(a.encoding, labels)
  }

  predicate GoodSeq(ns: seq<Node>, labels: set<string>)
    decreases ns
  {
    ns == [] || (GoodNode(ns[0], labels) && GoodSeq(ns[1..], labels))
  }

  predicate GoodNode(n: Node, labels: set<string>)
    decreases n
  {
    match n
    case AtomNode(a) => GoodAtom(a, labels) && ControlToken(a.encoding) == NoToken
    case IfRegion(o, t, k, e, x) =>
      && GoodAtom(o, labels) && OpensRegion(o.encoding)
      && GoodSeq(t, labels)
      && (k.Some? ==> GoodAtom(k.value, labels) && ControlToken(k.value.encoding) == ElseToken)
      && (k.None? ==> e == [])
      && GoodSeq(e, labels)
      && GoodAtom(x, labels) && ControlToken(x.encoding) == EndIfToken
  }

  lemma {:induction false} GoodConcat(a: seq<Node>, b: seq<Node>, labels: set<string>)
    ensures GoodSeq(a + b, labels) <==> GoodSeq(a, labels) && GoodSeq(b, labels)
  {
    if a == [] {
      assert a + b == b;
    } else {
      assert (a + b)[1..] == a[1..] + b;
      GoodConcat(a[1..], b, labels);
    }
  }

  // ----- parsing -----

  datatype Parsed<T> = Parsed(result: T, next: nat)

  /** Nodes from index up to the end of input or an unmatched ELSE or ENDIF; None on malformed code. */
  function ParseSeq(p: seq<string>, i: nat, path: seq<BranchPredicate>,
                    labels: set<string>): (r: Option<Parsed<seq<Node>>>)
    requires i <= |p|
    ensures r.Some? ==> i <= r.value.next <= |p|
    decreases |p| - i, 1
  {
    if i == |p| || ControlToken(p[i]) == ElseToken || ControlToken(p[i]) == EndIfToken then Some(Parsed([], i))
    else
      match ParseNode(p, i, path, labels)
      case None => None
      case Some(Parsed(n, j)) =>
        match ParseSeq(p, j, path, labels)
        case None => None
        case Some(Parsed(ns, k)) => Some(Parsed([n] + ns, k))
  }

  function ParseNode(p: seq<string>, i: nat, path: seq<BranchPredicate>, labels: set<string>): (r: Option<Parsed<Node>>)
    requires i < |p|
    requires ControlToken(p[i]) != ElseToken && ControlToken(p[i]) != EndIfToken
    ensures r.Some? ==> i < r.value.next <= |p|
    decreases |p| - i, 0
  {
    var head := MakeAtom(p[i], i, path, labels);
    if ControlToken(p[i]) == NoToken then Some(Parsed(AtomNode(head), i + 1))
    else
      match ParseSeq(p, i + 1, path + [BranchPredicate(i, Then)], labels)
      case None => None
      case Some(Parsed(t, j)) =>
        if j == |p| then None
        else if ControlToken(p[j]) == EndIfToken then
          Some(Parsed(IfRegion(head, t, None, [], MakeAtom(p[j], j, path, labels)), j + 1))
        else
          match ParseSeq(p, j + 1, path + [BranchPredicate(i, Else)], labels)
          case None => None
          case Some(Parsed(e, k)) =>
            if k == |p| || ControlToken(p[k]) != EndIfToken then None
            else
              Some(Parsed(IfRegion(head, t, Some(MakeAtom(p[j], j, path, labels)), e,
                                   MakeAtom(p[k], k, path, labels)), k + 1))
  }

  function Parse(p: seq<string>, labels: set<string>): Option<seq<Node>> {
    match ParseSeq(p, 0, [], labels)
    case None => None
    case Some(Parsed(ns, j)) => if j == |p| then Some(ns) else None
  }

  predicate StopsAt(p: seq<string>, j: nat) {
    j == |p| || (j < |p| && (ControlToken(p[j]) == ElseToken || ControlToken(p[j]) == EndIfToken))
  }

  /** Flat atoms are those of p[i..], in order, each with the single origin its position gives it. */
  predicate Covers(atoms: seq<Atom>, p: seq<string>, i: nat, j: nat) {
    && i <= j <= |p| && |atoms| == j - i
    && (forall k :: 0 <= k < |atoms| ==>
          atoms[k].encoding == p[i + k] && |atoms[k].origins| == 1 && atoms[k].origins[0].oldPC == i + k)
  }

  lemma CoversConcat(a: seq<Atom>, b: seq<Atom>, p: seq<string>, i: nat, j: nat, k: nat)
    requires Covers(a, p, i, j) && Covers(b, p, j, k)
    ensures Covers(a + b, p, i, k)
  {
    forall x | 0 <= x < |a + b|
      ensures (a + b)[x].encoding == p[i + x] && |(a + b)[x].origins| == 1 && (a + b)[x].origins[0].oldPC == i + x
    {
      if x >= |a| {
        assert (a + b)[x] == b[x - |a|];
      }
    }
  }

  lemma {:induction false} ParseSeqSound(p: seq<string>, i: nat, path: seq<BranchPredicate>, labels: set<string>)
    requires i <= |p| && ParseSeq(p, i, path, labels).Some?
    ensures var Parsed(ns, j) := ParseSeq(p, i, path, labels).value;
            GoodSeq(ns, labels) && Covers(FlattenSeq(ns), p, i, j) && StopsAt(p, j)
    decreases |p| - i, 1
  {
    hide ControlToken, IsSafeEncoding;
    if !StopsAt(p, i) {
      ParseNodeSound(p, i, path, labels);
      var Parsed(n, j) := ParseNode(p, i, path, labels).value;
      ParseSeqSound(p, j, path, labels);
      var Parsed(ns, k) := ParseSeq(p, j, path, labels).value;
      assert ([n] + ns)[1..] == ns;
      CoversConcat(FlattenNode(n), FlattenSeq(ns), p, i, j, k);
    }
  }

  lemma {:induction false} ParseNodeSound(p: seq<string>, i: nat, path: seq<BranchPredicate>, labels: set<string>)
    requires i < |p| && !StopsAt(p, i) && ParseNode(p, i, path, labels).Some?
    ensures var Parsed(n, j) := ParseNode(p, i, path, labels).value;
            GoodNode(n, labels) && Covers(FlattenNode(n), p, i, j)
    decreases |p| - i, 0
  {
    hide ControlToken, IsSafeEncoding;
    if ControlToken(p[i]) != NoToken {
      var head := MakeAtom(p[i], i, path, labels);
      ParseSeqSound(p, i + 1, path + [BranchPredicate(i, Then)], labels);
      var Parsed(t, j) := ParseSeq(p, i + 1, path + [BranchPredicate(i, Then)], labels).value;
      var mid := MakeAtom(p[j], j, path, labels);
      CoversConcat([head], FlattenSeq(t), p, i, i + 1, j);
      CoversConcat([head] + FlattenSeq(t), [mid], p, i, j, j + 1);
      if ControlToken(p[j]) == ElseToken {
        ParseSeqSound(p, j + 1, path + [BranchPredicate(i, Else)], labels);
        var Parsed(e, k) := ParseSeq(p, j + 1, path + [BranchPredicate(i, Else)], labels).value;
        CoversConcat([head] + FlattenSeq(t) + [mid], FlattenSeq(e), p, i, j + 1, k);
        CoversConcat([head] + FlattenSeq(t) + [mid] + FlattenSeq(e), [MakeAtom(p[k], k, path, labels)], p, i, k, k + 1);
      }
    }
  }

  /** A parsed tree is well formed and flattens back to exactly the input. */
  lemma ParseSound(p: seq<string>, labels: set<string>)
    requires Parse(p, labels).Some?
    ensures GoodSeq(Parse(p, labels).value, labels)
    ensures Text(Parse(p, labels).value) == p
    ensures Covers(FlattenSeq(Parse(p, labels).value), p, 0, |p|)
  {
    ParseSeqSound(p, 0, [], labels);
  }

  // ----- the other direction: every well-formed tree is found again -----

  function EraseAtom(a: Atom): Atom {
    a.(origins := [])
  }

  /** The tree without its provenance. */
  function EraseSeq(ns: seq<Node>): seq<Node>
    decreases ns
  {
    if ns == [] then [] else [EraseNode(ns[0])] + EraseSeq(ns[1..])
  }

  function EraseNode(n: Node): Node
    decreases n
  {
    match n
    case AtomNode(a) => AtomNode(EraseAtom(a))
    case IfRegion(o, t, k, e, x) =>
      IfRegion(EraseAtom(o), EraseSeq(t), if k.Some? then Some(EraseAtom(k.value)) else None, EraseSeq(e), EraseAtom(x))
  }

  predicate PartAt(p: seq<string>, i: nat, part: seq<string>) {
    i + |part| <= |p| && p[i..i + |part|] == part
  }

  lemma PartSplit(p: seq<string>, i: nat, a: seq<string>, b: seq<string>)
    requires PartAt(p, i, a + b)
    ensures PartAt(p, i, a) && PartAt(p, i + |a|, b)
  {
    assert p[i..i + |a|] == p[i..i + |a + b|][..|a|];
    assert p[i + |a|..i + |a| + |b|] == p[i..i + |a + b|][|a|..];
  }

  lemma {:induction false} ParseSeqComplete(p: seq<string>, i: nat, path: seq<BranchPredicate>, labels: set<string>,
                                            ns: seq<Node>)
    requires i <= |p| && GoodSeq(ns, labels) && PartAt(p, i, Text(ns)) && StopsAt(p, i + |Text(ns)|)
    ensures var r := ParseSeq(p, i, path, labels);
            r.Some? && r.value.next == i + |Text(ns)| && EraseSeq(r.value.result) == EraseSeq(ns)
    decreases ns, 1
  {
    hide ControlToken, IsSafeEncoding;
    if ns != [] {
      var a, b := FlattenNode(ns[0]), FlattenSeq(ns[1..]);
      EncodingsConcat(a, b);
      PartSplit(p, i, Encodings(a), Encodings(b));
      ParseNodeComplete(p, i, path, labels, ns[0]);
      var Parsed(n, j) := ParseNode(p, i, path, labels).value;
      ParseSeqComplete(p, j, path, labels, ns[1..]);
      var rest := ParseSeq(p, j, path, labels).value.result;
      assert ([n] + rest)[1..] == rest;
    }
  }

  lemma PartHead(p: seq<string>, i: nat, e: string, rest: seq<string>)
    requires PartAt(p, i, [e] + rest)
    ensures i < |p| && p[i] == e && PartAt(p, i + 1, rest)
  {
    PartSplit(p, i, [e], rest);
    assert p[i] == p[i..i + 1][0];
  }

  lemma RegionText(n: Node)
    requires n.IfRegion?
    ensures n.elseMarker.None? ==>
              Encodings(FlattenNode(n)) == [n.opener.encoding] + (Text(n.thenBody) + [n.endMarker.encoding])
    ensures n.elseMarker.Some? ==>
              Encodings(FlattenNode(n)) == [n.opener.encoding] +
              (Text(n.thenBody) + ([n.elseMarker.value.encoding] + (Text(n.elseBody) + [n.endMarker.encoding])))
  {
    var o, x := [n.opener], [n.endMarker];
    var t, e := FlattenSeq(n.thenBody), FlattenSeq(n.elseBody);
    if n.elseMarker.None? {
      assert FlattenNode(n) == o + (t + x);
      EncodingsConcat(o, t + x);
      EncodingsConcat(t, x);
    } else {
      var k := [n.elseMarker.value];
      assert FlattenNode(n) == o + (t + (k + (e + x)));
      EncodingsConcat(o, t + (k + (e + x)));
      EncodingsConcat(t, k + (e + x));
      EncodingsConcat(k, e + x);
      EncodingsConcat(e, x);
    }
  }

  /** Where the pieces of a flattened region lie. */
  lemma RegionLayout(p: seq<string>, i: nat, n: Node)
    requires n.IfRegion? && PartAt(p, i, Encodings(FlattenNode(n)))
    ensures i < |p| && p[i] == n.opener.encoding && PartAt(p, i + 1, Text(n.thenBody))
    ensures var j := i + 1 + |Text(n.thenBody)|;
            && j < |p|
            && (n.elseMarker.None? ==> p[j] == n.endMarker.encoding && j + 1 == i + |FlattenNode(n)|)
            && (n.elseMarker.Some? ==>
                  && p[j] == n.elseMarker.value.encoding && PartAt(p, j + 1, Text(n.elseBody))
                  && var k := j + 1 + |Text(n.elseBody)|;
                     k < |p| && p[k] == n.endMarker.encoding && k + 1 == i + |FlattenNode(n)|)
  {
    hide PartAt, Encodings, FlattenNode, Text;
    RegionText(n);
    var o, t, e, x := n.opener.encoding, Text(n.thenBody), Text(n.elseBody), n.endMarker.encoding;
    assert [x] == [x] + [];
    if n.elseMarker.None? {
      PartHead(p, i, o, t + [x]);
      PartSplit(p, i + 1, t, [x]);
      PartHead(p, i + 1 + |t|, x, []);
    } else {
      var k := n.elseMarker.value.encoding;
      PartHead(p, i, o, t + ([k] + (e + [x])));
      PartSplit(p, i + 1, t, [k] + (e + [x]));
      PartHead(p, i + 1 + |t|, k, e + [x]);
      PartSplit(p, i + 2 + |t|, e, [x]);
      PartHead(p, i + 2 + |t| + |e|, x, []);
    }
  }

  lemma {:induction false} ParseNodeComplete(p: seq<string>, i: nat, path: seq<BranchPredicate>, labels: set<string>,
                                             n: Node)
    requires i <= |p| && GoodNode(n, labels) && PartAt(p, i, Encodings(FlattenNode(n)))
    ensures i < |p| && !StopsAt(p, i)
    ensures var r := ParseNode(p, i, path, labels);
            r.Some? && r.value.next == i + |FlattenNode(n)| && EraseNode(r.value.result) == EraseNode(n)
    decreases n, 0
  {
    hide ControlToken, IsSafeEncoding, PartAt, ParseSeq, EraseSeq, GoodSeq, FlattenSeq;
    match n
    case AtomNode(a) =>
      assert Encodings([a]) == [a.encoding] + [];
      PartHead(p, i, a.encoding, []);
    case IfRegion(o, t, k, e, x) =>
      hide Encodings;
      RegionLayout(p, i, n);
      var j := i + 1 + |Text(t)|;
      ParseSeqComplete(p, i + 1, path + [BranchPredicate(i, Then)], labels, t);
      if k.Some? {
        ParseSeqComplete(p, j + 1, path + [BranchPredicate(i, Else)], labels, e);
      }
  }

  /** Parsing succeeds exactly on the flattenings of well-formed trees, and finds the tree back. */
  lemma ParseComplete(ns: seq<Node>, labels: set<string>)
    requires GoodSeq(ns, labels)
    ensures Parse(Text(ns), labels).Some?
    ensures EraseSeq(Parse(Text(ns), labels).value) == EraseSeq(ns)
  {
    var p := Text(ns);
    assert p[0..|p|] == p;
    ParseSeqComplete(p, 0, [], labels, ns);
  }

  // ----- the parser of the source -----

  class Parser {
    const instructions: seq<string>
    const labels: set<string>

    constructor (instructions: seq<string>, labels: set<string>)
      ensures this.instructions == instructions && this.labels == labels
    {
      this.instructions := instructions;
      this.labels := labels;
    }

    method ParseAll() returns (result: Option<seq<Node>>)
      ensures result == Parse(instructions, labels)
    {
      var parsed := ParseSequence(0, []);
      if parsed.Some? && parsed.value.next == |instructions| {
        return Some(parsed.value.result);
      }
      return None;
    }

    method ParseSequence(start: nat, path: seq<BranchPredicate>) returns (result: Option<Parsed<seq<Node>>>)
      requires start <= |instructions|
      ensures result == ParseSeq(instructions, start, path, labels)
      decreases |instructions| - start, 1
    {
      hide ControlToken, IsSafeEncoding;
      var nodes: seq<Node> := [];
      var index := start;
      ResumeNothing(ParseSeq(instructions, start, path, labels));
      while index < |instructions|
        invariant start <= index <= |instructions|
        invariant ParseSeq(instructions, start, path, labels) ==
                  Resume(nodes, ParseSeq(instructions, index, path, labels))
      {
        var token := ControlToken(instructions[index]);
        if token == ElseToken || token == EndIfToken {
          assert nodes + [] == nodes;
          return Some(Parsed(nodes, index));
        }
        var node: Node;
        var next: nat;
        if token == NoToken {
          node, next := AtomNode(MakeAtom(instructions[index], index, path, labels)), index + 1;
        } else {
          var region := ParseRegion(index, path);
          if region.None? {
            return None;
          }
          node, next := region.value.result, region.value.next;
        }
        ResumeOne(nodes, node, ParseSeq(instructions, next, path, labels));
        nodes := nodes + [node];
        index := next;
      }
      assert nodes + [] == nodes;
      return Some(Parsed(nodes, index));
    }

    method ParseRegion(openerPC: nat, path: seq<BranchPredicate>) returns (result: Option<Parsed<Node>>)
      requires openerPC < |instructions| && OpensRegion(instructions[openerPC])
      ensures result == ParseNode(instructions, openerPC, path, labels)
      decreases |instructions| - openerPC, 0
    {
      hide ControlToken, IsSafeEncoding;
      var head := MakeAtom(instructions[openerPC], openerPC, path, labels);
      var thenPart := ParseSequence(openerPC + 1, path + [BranchPredicate(openerPC, Then)]);
      if thenPart.None? || thenPart.value.next >= |instructions| {
        return None;
      }
      ParseSeqSound(instructions, openerPC + 1, path + [BranchPredicate(openerPC, Then)], labels);
      var Parsed(thenBody, stop) := thenPart.value;
      var elseMarker: Option<Atom> := None;
      var elseBody: seq<Node> := [];
      if ControlToken(instructions[stop]) == ElseToken {
        elseMarker := Some(MakeAtom(instructions[stop], stop, path, labels));
        var elsePart := ParseSequence(stop + 1, path + [BranchPredicate(openerPC, Else)]);
        if elsePart.None? || elsePart.value.next >= |instructions| {
          return None;
        }
        elseBody := elsePart.value.result;
        stop := elsePart.value.next;
      }
      if ControlToken(instructions[stop]) != EndIfToken {
        return None;
      }
      return Some(Parsed(IfRegion(head, thenBody, elseMarker, elseBody,
                                  MakeAtom(instructions[stop], stop, path, labels)), stop + 1));
    }
  }

  function Resume(nodes: seq<Node>, rest: Option<Parsed<seq<Node>>>): Option<Parsed<seq<Node>>> {
    match rest
    case None => None
    case Some(Parsed(ns, j)) => Some(Parsed(nodes + ns, j))
  }

  lemma ResumeNothing(rest: Option<Parsed<seq<Node>>>)
    ensures Resume([], rest) == rest
  {
    if rest.Some? {
      assert [] + rest.value.result == rest.value.result;
    }
  }

  lemma ResumeOne(nodes: seq<Node>, n: Node, rest: Option<Parsed<seq<Node>>>)
    ensures Resume(nodes, Resume([n], rest)) == Resume(nodes + [n], rest)
  {
    if rest.Some? {
      assert nodes + ([n] + rest.value.result) == nodes + [n] + rest.value.result;
    }
  }
}
