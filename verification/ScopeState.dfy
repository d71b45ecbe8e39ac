/** Control-flow snapshots of the compile-time scope. Tables own their main and fixed stacks but all share one
    altstack object, so a snapshot must carry its own copy of the altstack's content. */
module ScopeState {
  import opened Wrappers

  datatype Element = Element(name: string, kind: string, data: string)

  /** Everything a table keeps besides its stacks. */
  datatype Meta = Meta(
    newSymbols: seq<string>, declared: seq<string>, keep: seq<string>, bind: seq<(string, string)>,
    scopeEntries: seq<(string, string)>, bindStart: nat, scopeStart: nat)

  const NO_META: Meta := Meta([], [], [], [], [], 0, 0)

  function SizeOf(e: Element): nat {
    |e.name| + |e.kind| + |e.data|
  }

  function TotalSize(items: seq<Element>): nat {
    if items == [] then 0 else SizeOf(items[0]) + TotalSize(items[1..])
  }

  /** The running size after a removal stops at zero. */
  function Shrunk(combined: nat, e: Element): nat {
    if combined >= SizeOf(e) then combined - SizeOf(e) else 0
  }

  /** Drop the most recent record of a name. */
  function ForgetLast(names: seq<string>, name: string): seq<string> {
    if names == [] then []
    else if names[|names| - 1] == name then names[..|names| - 1]
    else ForgetLast(names[..|names| - 1], name) + [names[|names| - 1]]
  }

  /** A stack of elements, top first, with a running size that callers may also set. */
  class OpStack {
    var items: seq<Element>
    var combined: nat

    constructor ()
      ensures items == [] && combined == 0
    {
      items, combined := [], 0;
    }

    method Push(e: Element)
      modifies this
      ensures items == [e] + old(items) && combined == old(combined) + SizeOf(e)
    {
      items, combined := [e] + items, combined + SizeOf(e);
    }

    method Pop()
      requires items != []
      modifies this
      ensures items == old(items)[1..]
      ensures combined == Shrunk(old(combined), old(items)[0])
    {
      combined := if combined >= SizeOf(items[0]) then combined - SizeOf(items[0]) else 0;
      items := items[1..];
    }

    method Roll(depth: nat)
      requires depth < |items|
      modifies this`items
      ensures items == [old(items)[depth]] + old(items)[..depth] + old(items)[depth + 1..]
    {
      items := [items[depth]] + items[..depth] + items[depth + 1..];
    }

    method Rename(position: nat, name: string)
      requires position < |items|
      modifies this`items
      ensures items == old(items)[position := old(items)[position].(name := name)]
    {
      items := items[position := items[position].(name := name)];
    }

    method ReplaceContent(content: seq<Element>)
      modifies this
      ensures items == content && combined == TotalSize(content)
    {
      items, combined := content, TotalSize(content);
    }
  }

  /** Copy a stack by pushing from the bottom up; the running size becomes the sum of the sizes. */
  method CopyStack(from: OpStack) returns (s: OpStack)
    ensures fresh(s) && s.items == from.items && s.combined == TotalSize(from.items)
  {
    s := new OpStack();
    var index := |from.items|;
    while index > 0
      invariant 0 <= index <= |from.items| && fresh(s) && from != s && from.items == old(from.items)
      invariant s.items == from.items[index..] && s.combined == TotalSize(s.items)
    {
      index := index - 1;
      assert ([from.items[index]] + from.items[index + 1..])[1..] == from.items[index + 1..];
      s.Push(from.items[index]);
    }
  }

  class SymbolTable {
    var main: OpStack
    var alt: OpStack
    var fixed: OpStack
    var meta: Meta

    ghost predicate Separate()
      reads this
    {
      main != alt && main != fixed && alt != fixed
    }

    constructor ()
      ensures Separate() && fresh(main) && fresh(alt) && fresh(fixed)
      ensures main.items == [] && alt.items == [] && fixed.items == [] && meta == NO_META && alt.combined == 0
    {
      main := new OpStack();
      alt := new OpStack();
      fixed := new OpStack();
      meta := NO_META;
      new;
    }

    /** Copies own their main and fixed stacks and share the altstack. */
    constructor Copy(other: SymbolTable)
      requires other.Separate()
      ensures Separate() && fresh(main) && fresh(fixed) && alt == other.alt
      ensures main.items == other.main.items && fixed.items == other.fixed.items && meta == other.meta
      ensures main.combined == TotalSize(main.items)
    {
      var m := CopyStack(other.main);
      var f := CopyStack(other.fixed);
      main, fixed := m, f;
      alt := other.alt;
      meta := other.meta;
    }

    method Assign(other: SymbolTable)
      requires other.Separate()
      modifies this
      ensures Separate() && fresh(main) && fresh(fixed) && alt == old(other.alt)
      ensures main.items == old(other.main.items) && fixed.items == old(other.fixed.items) && meta == old(other.meta)
      ensures main.combined == TotalSize(main.items)
    {
      if this == other {
        var m := CopyStack(main);
        var f := CopyStack(fixed);
        main, fixed := m, f;
        return;
      }
      meta := other.meta;
      alt := other.alt;
      main := CopyStack(other.main);
      fixed := CopyStack(other.fixed);
    }
  }

  datatype Snapshot =
    Snapshot(table: SymbolTable, altStack: seq<Element>, mainCombined: nat, altCombined: nat, lexicalDepth: nat)

  /** The state a snapshot is about. */
  datatype View =
    View(main: seq<Element>, alt: seq<Element>, fixed: seq<Element>, meta: Meta, mainCombined: nat, altCombined: nat)

  ghost predicate Holds(s: Snapshot, v: View)
    reads s.table, s.table.main, s.table.fixed
  {
    && s.table.Separate()
    && s.table.main.items == v.main && s.table.fixed.items == v.fixed && s.table.meta == v.meta
    && s.altStack == v.alt && s.mainCombined == v.mainCombined && s.altCombined == v.altCombined
  }

  datatype Command =
    | PushMain(element: Element)
    | PopMain
    | RollMain(depth: nat)
    | RenameMain(position: nat, name: string)
    | ToAlt
    | FromAlt
    | PushFixed(element: Element)
    | ChangeMeta(meta: Meta)
    | EnterScope
    | ExitScope

  /** The lexical depth after one command; leaving the outermost scope stays there. */
  function DepthStep(depth: nat, c: Command): nat {
    match c
    case EnterScope => depth + 1
    case ExitScope => if depth == 0 then 0 else depth - 1
    case _ => depth
  }

  function DepthAfter(depth: nat, commands: seq<Command>): nat
    decreases commands
  {
    if commands == [] then depth else DepthAfter(DepthStep(depth, commands[0]), commands[1..])
  }

  /** Scopes opened less scopes closed. */
  function Net(commands: seq<Command>): int {
    if commands == [] then 0
    else (match commands[0] case EnterScope => 1 case ExitScope => -1 case _ => 0) + Net(commands[1..])
  }

  /** How many of the scopes already open the commands close on the way. */
  function Dip(commands: seq<Command>): nat {
    if commands == [] then 0
    else
      var rest := Dip(commands[1..]);
      match commands[0]
      case EnterScope => if rest == 0 then 0 else rest - 1
      case ExitScope => rest + 1
      case _ => rest
  }

  /** The depth a list of commands leads to, from its openings and closings alone. */
  lemma {:induction false} DepthReached(depth: nat, commands: seq<Command>)
    ensures DepthAfter(depth, commands) == (if depth < Dip(commands) then Dip(commands) else depth) + Net(commands)
    decreases commands
  {
    if commands != [] {
      DepthReached(DepthStep(depth, commands[0]), commands[1..]);
    }
  }

  /** Commands that close what they open, and nothing that was not open before. */
  predicate Balanced(depth: nat, commands: seq<Command>) {
    Net(commands) == 0 && Dip(commands) <= depth
  }

  lemma {:induction false} DepthOfConcat(depth: nat, a: seq<Command>, b: seq<Command>)
    ensures DepthAfter(depth, a + b) == DepthAfter(DepthAfter(depth, a), b)
    decreases a
  {
    if a == [] {
      assert a + b == b;
    } else {
      assert (a + b)[1..] == a[1..] + b;
      DepthOfConcat(DepthStep(depth, a[0]), a[1..], b);
    }
  }

  /** What leaving a scope brings back. */
  datatype Kept = Kept(main: seq<Element>, fixed: seq<Element>, meta: Meta)

  /** A command that leaves the lexical depth alone, on the state it works on. */
  function Apply(v: View, c: Command): View {
    match c
    case PushMain(e) =>
      v.(main := [e] + v.main, mainCombined := v.mainCombined + SizeOf(e),
         meta := v.meta.(newSymbols := v.meta.newSymbols + [e.name]))
    case PopMain =>
      if v.main == [] then v
      else v.(main := v.main[1..], mainCombined := Shrunk(v.mainCombined, v.main[0]),
              meta := v.meta.(newSymbols := ForgetLast(v.meta.newSymbols, v.main[0].name)))
    case RollMain(d) =>
      if d >= |v.main| then v else v.(main := [v.main[d]] + v.main[..d] + v.main[d + 1..])
    case RenameMain(p, name) =>
      if p >= |v.main| then v else v.(main := v.main[p := v.main[p].(name := name)])
    case ToAlt =>
      if v.main == [] then v
      else
        var e := v.main[0];
        v.(main := v.main[1..], mainCombined := Shrunk(v.mainCombined, e), alt := [e] + v.alt,
           altCombined := v.altCombined + SizeOf(e))
    case FromAlt =>
      if v.alt == [] then v
      else
        var e := v.alt[0];
        v.(main := [e] + v.main, mainCombined := v.mainCombined + SizeOf(e), alt := v.alt[1..],
           altCombined := Shrunk(v.altCombined, e))
    case PushFixed(e) => v.(fixed := [e] + v.fixed)
    case ChangeMeta(meta) => v.(meta := meta)
    case EnterScope => v
    case ExitScope => v
  }

  /** At no point do the commands close more than Dip scopes. */
  lemma {:induction false} DipBounds(depth: nat, commands: seq<Command>, i: nat)
    requires i <= |commands|
    ensures DepthAfter(depth, commands[..i]) + Dip(commands) >= depth
    decreases commands
  {
    if i > 0 {
      assert commands[..i][1..] == commands[1..][..i - 1];
      DipBounds(DepthStep(depth, commands[0]), commands[1..], i - 1);
    }
  }

  class Scope {
    var current: SymbolTable
    var saved: seq<SymbolTable>
    /** Every object the scope has ever worked on. */
    ghost var Repr: set<object>
    /** Every stack that ever was a main or fixed stack of one of its tables. */
    ghost var owned: set<OpStack>

    ghost predicate Owns(t: SymbolTable)
      reads this, Repr
    {
      && t in Repr && t.main in Repr && t.alt in Repr && t.fixed in Repr && t.Separate()
      && t.main in owned && t.fixed in owned && t.alt !in owned
    }

    ghost predicate Apart(t: SymbolTable, u: SymbolTable)
      reads t, u
    {
      t != u && t.main != u.main && t.main != u.fixed && t.fixed != u.main && t.fixed != u.fixed
    }

    ghost predicate Valid()
      reads this, Repr
    {
      && this in Repr && Owns(current) && (forall i :: 0 <= i < |saved| ==> Owns(saved[i]))
      && (forall i :: 0 <= i < |saved| ==> Apart(saved[i], current))
      && (forall i, j :: 0 <= i < j < |saved| ==> Apart(saved[i], saved[j]))
    }

    ghost function State(): View
      requires Valid()
      reads this, Repr
    {
      View(current.main.items, current.alt.items, current.fixed.items, current.meta, current.main.combined,
           current.alt.combined)
    }

    /** What the enclosing scopes will bring back, outermost first. */
    ghost function Outer(): (r: seq<Kept>)
      requires Valid()
      reads this, Repr
      ensures |r| == |saved|
    {
      seq(|saved|, i requires Valid() && 0 <= i < |saved| reads this, Repr =>
        assert Owns(saved[i]); Kept(saved[i].main.items, saved[i].fixed.items, saved[i].meta))
    }

    /** Nothing the scope does can reach the snapshot's own objects. */
    ghost predicate Isolated(s: Snapshot)
      reads this, s.table
    {
      && s.table !in Repr && s.table.main !in Repr && s.table.fixed !in Repr && s.table.alt in Repr
      && s.table.alt !in owned
    }

    constructor ()
      ensures Valid() && fresh(Repr) && saved == []
    {
      current := new SymbolTable();
      saved := [];
      new;
      Repr := {this, current, current.main, current.alt, current.fixed};
      owned := {current.main, current.fixed};
    }

    method Push(element: Element)
      requires Valid()
      modifies Repr
      ensures Valid() && Repr == old(Repr) && owned == old(owned) && saved == old(saved) && Outer() == old(Outer())
      ensures State() == Apply(old(State()), PushMain(element))
    {
      current.meta := current.meta.(newSymbols := current.meta.newSymbols + [element.name]);
      current.main.Push(element);
    }

    method Pop() returns (element: Option<Element>)
      requires Valid()
      modifies Repr
      ensures Valid() && Repr == old(Repr) && owned == old(owned) && saved == old(saved) && Outer() == old(Outer())
      ensures element == if old(State().main) == [] then None else Some(old(State().main)[0])
      ensures State() == Apply(old(State()), PopMain)
    {
      if current.main.items == [] {
        return None;
      }
      var top := current.main.items[0];
      current.meta := current.meta.(newSymbols := ForgetLast(current.meta.newSymbols, top.name));
      current.main.Pop();
      return Some(top);
    }

    method Roll(depth: nat)
      requires Valid()
      modifies Repr
      ensures Valid() && Repr == old(Repr) && owned == old(owned) && saved == old(saved) && Outer() == old(Outer())
      ensures State() == Apply(old(State()), RollMain(depth))
    {
      if depth < |current.main.items| {
        current.main.Roll(depth);
      }
    }

    method Rename(position: nat, name: string)
      requires Valid()
      modifies Repr
      ensures Valid() && Repr == old(Repr) && owned == old(owned) && saved == old(saved) && Outer() == old(Outer())
      ensures State() == Apply(old(State()), RenameMain(position, name))
    {
      if position < |current.main.items| {
        current.main.Rename(position, name);
      }
    }

    method MoveToAlt()
      requires Valid()
      modifies Repr
      ensures Valid() && Repr == old(Repr) && owned == old(owned) && saved == old(saved) && Outer() == old(Outer())
      ensures State() == Apply(old(State()), ToAlt)
    {
      if current.main.items != [] {
        var top := current.main.items[0];
        current.main.Pop();
        current.alt.Push(top);
      }
    }

    method MoveFromAlt()
      requires Valid()
      modifies Repr
      ensures Valid() && Repr == old(Repr) && owned == old(owned) && saved == old(saved) && Outer() == old(Outer())
      ensures State() == Apply(old(State()), FromAlt)
    {
      if current.alt.items != [] {
        var top := current.alt.items[0];
        current.alt.Pop();
        current.main.Push(top);
      }
    }

    method PushFixedElement(element: Element)
      requires Valid()
      modifies Repr
      ensures Valid() && Repr == old(Repr) && owned == old(owned) && saved == old(saved) && Outer() == old(Outer())
      ensures State() == Apply(old(State()), PushFixed(element))
    {
      current.fixed.Push(element);
    }

    method SetMeta(meta: Meta)
      requires Valid()
      modifies Repr
      ensures Valid() && Repr == old(Repr) && owned == old(owned) && saved == old(saved) && Outer() == old(Outer())
      ensures State() == Apply(old(State()), ChangeMeta(meta))
    {
      current.meta := meta;
    }

    /** The enclosing table is kept aside; the inner scope starts with the same stacks and an empty record of its own
        symbols. */
    method EnterScope()
      requires Valid()
      modifies Repr
      ensures Valid() && fresh(Repr - old(Repr)) && old(Repr) <= Repr && fresh(owned - old(owned))
      ensures State() == old(State()).(meta := old(State().meta).(newSymbols := [], declared := []))
      ensures Outer() == old(Outer()) + [Kept(old(State().main), old(State().fixed), old(State().meta))]
      ensures saved[..|saved| - 1] == old(saved) && saved[|saved| - 1].alt == current.alt == old(current.alt)
    {
      SaveTable();
      current.meta := current.meta.(newSymbols := [], declared := []);
    }

    /** A copy of the current table goes on top of the saved ones. */
    method SaveTable()
      requires Valid()
      modifies `saved, `Repr, `owned
      ensures Valid() && fresh(Repr - old(Repr)) && old(Repr) <= Repr && fresh(owned - old(owned))
      ensures current == old(current) && State() == old(State())
      ensures Outer() == old(Outer()) + [Kept(State().main, State().fixed, State().meta)]
      ensures |saved| == old(|saved|) + 1 && saved[..|saved| - 1] == old(saved)
      ensures saved[|saved| - 1].alt == current.alt
    {
      var copy := new SymbolTable.Copy(current);
      saved := saved + [copy];
      Repr := Repr + {copy, copy.main, copy.fixed};
      owned := owned + {copy.main, copy.fixed};
    }

    /** The current table becomes a copy of another one and shares its altstack. */
    method Adopt(other: SymbolTable)
      requires Valid() && other.Separate() && other.alt !in owned
      modifies current
      modifies `Repr, `owned
      ensures Valid() && fresh(Repr - old(Repr) - {other.alt}) && old(Repr) <= Repr && fresh(owned - old(owned))
      ensures other.alt in old(Repr) ==> fresh(Repr - old(Repr))
      ensures saved == old(saved) && current == old(current) && Outer() == old(Outer())
      ensures fresh(current.main) && fresh(current.fixed) && current.alt == old(other.alt)
      ensures State().main == old(other.main.items) && State().fixed == old(other.fixed.items)
      ensures State().meta == old(other.meta) && State().mainCombined == TotalSize(State().main)
      ensures State().alt == old(other.alt.items) && State().altCombined == old(other.alt.combined)
    {
      current.Assign(other);
      Repr := Repr + {current.main, current.fixed, current.alt};
      owned := owned + {current.main, current.fixed};
    }

    /** Content of the altstack and running sizes, set from a snapshot. */
    method Refill(mainCombined: nat, altStack: seq<Element>, altCombined: nat)
      requires Valid()
      modifies current.main`combined, current.alt
      ensures Valid() && Outer() == old(Outer())
      ensures State() == old(State()).(mainCombined := mainCombined, alt := altStack, altCombined := altCombined)
    {
      current.main.combined := mainCombined;
      current.alt.ReplaceContent(altStack);
      current.alt.combined := altCombined;
    }

    /** Leaves the current scope: main, fixed and metadata of the enclosing one are back, the altstack is its altstack.
        The table left is handed out as a copy of its own. Leaving the outermost scope starts from nothing. */
    method ExitScope() returns (left: SymbolTable)
      requires Valid()
      modifies Repr
      ensures Valid() && fresh(Repr - old(Repr)) && old(Repr) <= Repr && fresh(owned - old(owned))
      ensures old(saved) != [] ==>
                var last := |old(saved)| - 1;
                && saved == old(saved)[..last] && Outer() == old(Outer())[..last]
                && Kept(State().main, State().fixed, State().meta) == old(Outer())[last]
                && State().alt == old(saved[|saved| - 1].alt.items) && current.alt == old(saved[|saved| - 1].alt)
                && State().mainCombined == TotalSize(State().main)
      ensures old(saved) == [] ==>
                saved == [] && State() == View([], [], [], NO_META, 0, 0)
      ensures fresh(left) && fresh(left.main) && fresh(left.fixed) && left.Separate()
      ensures left !in Repr && left.main !in Repr && left.fixed !in Repr && left.alt == old(current.alt)
      ensures left.main.items == old(current.main.items) && left.fixed.items == old(current.fixed.items)
      ensures left.meta == old(current.meta)
    {
      left := new SymbolTable.Copy(current);
      if saved != [] {
        var top := saved[|saved| - 1];
        assert Owns(top);
        saved := saved[..|saved| - 1];
        Adopt(top);
      } else {
        var empty := new SymbolTable();
        Adopt(empty);
      }
    }

    method Execute(c: Command)
      requires Valid()
      modifies Repr
      ensures Valid() && fresh(Repr - old(Repr)) && old(Repr) <= Repr && fresh(owned - old(owned))
      ensures |saved| == DepthStep(old(|saved|), c)
      ensures !c.EnterScope? && !c.ExitScope? ==> State() == Apply(old(State()), c) && Outer() == old(Outer())
      ensures c.EnterScope? ==> Outer()[..|saved| - 1] == old(Outer())
      ensures c.ExitScope? && old(|saved|) > 0 ==> Outer() == old(Outer())[..|saved|]
    {
      match c {
        case PushMain(element) => Push(element);
        case PopMain => var _ := Pop();
        case RollMain(depth) => Roll(depth);
        case RenameMain(position, name) => Rename(position, name);
        case ToAlt => MoveToAlt();
        case FromAlt => MoveFromAlt();
        case PushFixed(element) => PushFixedElement(element);
        case ChangeMeta(meta) => SetMeta(meta);
        case EnterScope => EnterScope();
        case ExitScope => var _ := ExitScope();
      }
    }

    /** Any run of commands; what scopes further out than it ever closes will bring back does not change. */
    method ExecuteAll(commands: seq<Command>)
      requires Valid()
      modifies Repr
      ensures Valid() && fresh(Repr - old(Repr)) && old(Repr) <= Repr && fresh(owned - old(owned))
      ensures |saved| == DepthAfter(old(|saved|), commands)
      ensures Dip(commands) <= old(|saved|) ==>
                var low := old(|saved|) - Dip(commands);
                low <= |saved| && Outer()[..low] == old(Outer())[..low]
    {
      ghost var low: nat := if Dip(commands) <= |saved| then |saved| - Dip(commands) else 0;
      for i := 0 to |commands|
        invariant Valid() && fresh(Repr - old(Repr)) && old(Repr) <= Repr && fresh(owned - old(owned))
        invariant |saved| == DepthAfter(old(|saved|), commands[..i])
        invariant low <= |saved| && Outer()[..low] == old(Outer())[..low]
      {
        ghost var before := Outer();
        assert commands[..i + 1] == commands[..i] + [commands[i]];
        DepthOfConcat(old(|saved|), commands[..i], [commands[i]]);
        DipBounds(old(|saved|), commands, i + 1);
        Execute(commands[i]);
        assert Outer()[..low] == before[..low];
      }
      assert commands[..|commands|] == commands;
    }

    /** A balanced pair: whatever happens in a scope that closes what it opens, leaving it brings back main, fixed and
        metadata as they were on entry. */
    method RunInScope(commands: seq<Command>)
      requires Valid() && Net(commands) == 0 && Dip(commands) == 0
      modifies Repr
      ensures Valid() && fresh(Repr - old(Repr)) && old(Repr) <= Repr
      ensures State().main == old(State().main) && State().fixed == old(State().fixed)
      ensures State().meta == old(State().meta) && Outer() == old(Outer())
    {
      hide Valid, State, Outer, Dip, Net, DepthAfter;
      EnterScope();
      ghost var inside := Outer();
      DepthReached(|saved|, commands);
      ExecuteAll(commands);
      assert Outer()[..|saved|] == Outer() && inside[..|saved|] == inside;
      var _ := ExitScope();
    }

    // ----- snapshots -----

    method CaptureControlFlowState() returns (s: Snapshot)
      requires Valid()
      ensures fresh(s.table) && fresh(s.table.main) && fresh(s.table.fixed)
      ensures Holds(s, State()) && Isolated(s) && s.lexicalDepth == |saved|
    {
      var table := new SymbolTable.Copy(current);
      s := Snapshot(table, current.alt.items, current.main.combined, current.alt.combined, |saved|);
    }

    method CaptureControlFlowStateAndExitScope() returns (s: Snapshot)
      requires Valid()
      modifies Repr
      ensures Valid() && fresh(Repr - old(Repr)) && old(Repr) <= Repr && fresh(owned - old(owned))
      ensures Holds(s, old(State())) && Isolated(s) && s.lexicalDepth == |saved|
    {
      var before := CaptureControlFlowState();
      var left := ExitScope();
      s := before.(table := left, lexicalDepth := |saved|);
    }

    /** Refused at another lexical depth, changing nothing; otherwise the captured state is back, and the snapshot is
        as good as before. */
    method RestoreControlFlowState(s: Snapshot, ghost v: View) returns (ok: bool)
      requires Valid() && Isolated(s) && Holds(s, v)
      modifies Repr
      ensures Valid() && fresh(Repr - old(Repr)) && old(Repr) <= Repr && fresh(owned - old(owned))
      ensures saved == old(saved) && Outer() == old(Outer())
      ensures ok <==> |saved| == s.lexicalDepth
      ensures State() == if ok then v else old(State())
      ensures Isolated(s) && Holds(s, v)
    {
      if |saved| != s.lexicalDepth {
        return false;
      }
      Adopt(s.table);
      Refill(s.mainCombined, s.altStack, s.altCombined);
      return true;
    }

    /** One branch from a snapshot: it is taken back exactly when it ends at the captured depth, and the snapshot stays
        as good as before. */
    method RunBranch(s: Snapshot, ghost v: View, commands: seq<Command>) returns (ok: bool)
      requires Valid() && Isolated(s) && Holds(s, v)
      modifies Repr
      ensures Valid() && fresh(Repr - old(Repr)) && old(Repr) <= Repr && fresh(owned - old(owned))
      ensures |saved| == DepthAfter(old(|saved|), commands)
      ensures ok <==> |saved| == s.lexicalDepth
      ensures ok ==> State() == v
      ensures Isolated(s) && Holds(s, v)
    {
      ExecuteAll(commands);
      ok := RestoreControlFlowState(s, v);
    }

    /** Two branches from one snapshot: after balanced branches both restores succeed and both bring the captured state
        back, whatever the branches did in between; an unbalanced branch is noticed. */
    method RunBranches(first: seq<Command>, second: seq<Command>) returns (ok1: bool, ok2: bool, ghost between: View)
      requires Valid()
      modifies Repr
      ensures Valid()
      ensures ok1 <==> DepthAfter(old(|saved|), first) == old(|saved|)
      ensures ok2 <==> DepthAfter(old(|saved|), first + second) == old(|saved|)
      ensures ok1 ==> between == old(State())
      ensures ok2 ==> State() == old(State()) && |saved| == old(|saved|)
      ensures Balanced(old(|saved|), first) && Balanced(old(|saved|), second) ==>
                ok1 && ok2 && between == old(State()) && State() == old(State())
    {
      ghost var v := State();
      var s := CaptureControlFlowState();
      ghost var depth := |saved|;
      ok1 := RunBranch(s, v, first);
      between := State();
      ok2 := RunBranch(s, v, second);
      DepthOfConcat(depth, first, second);
      DepthReached(depth, first);
      DepthReached(depth, second);
    }
  }
}
