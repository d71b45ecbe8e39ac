/** A flat script machine: straight-line instructions acting on an abstract state, and IF / NOTIF / ELSE / ENDIF
    acting on a stack of conditions. What an ordinary instruction does is a parameter. */
module CondMachine {
  import opened Wrappers
  import opened Hex

  const OP_IF: Byte := 0x63
  const OP_NOTIF: Byte := 0x64
  const OP_ELSE: Byte := 0x67
  const OP_ENDIF: Byte := 0x68

  datatype Token = NoToken | IfToken | NotIfToken | ElseToken | EndIfToken

  function ControlToken(s: string): Token {
    if IsSingleOpcode(s, OP_IF) then IfToken
    else if IsSingleOpcode(s, OP_NOTIF) then NotIfToken
    else if IsSingleOpcode(s, OP_ELSE) then ElseToken
    else if IsSingleOpcode(s, OP_ENDIF) then EndIfToken
    else NoToken
  }

  predicate OpensRegion(s: string) {
    ControlToken(s) == IfToken || ControlToken(s) == NotIfToken
  }

  datatype Outcome<S> = Next(state: S) | Halt(state: S) | Fail

  /** exec runs one instruction at a given conditional depth; test pops the condition of an IF. */
  datatype Machine<!S> = Machine(exec: (string, nat, S) -> Outcome<S>, test: S -> Option<(bool, S)>)

  datatype Status<S> = Running(cond: seq<bool>, state: S) | Halted(state: S) | Failed

  function Lift<S>(cond: seq<bool>, o: Outcome<S>): Status<S> {
    match o
    case Next(s) => Running(cond, s)
    case Halt(s) => Halted(s)
    case Fail => Failed
  }

  function Open<S>(m: Machine<S>, want: bool, cond: seq<bool>, s: S): Status<S> {
    if false in cond then Running(cond + [false], s)
    else
      match m.test(s)
      case None => Failed
      case Some((b, t)) => Running(cond + [b == want], t)
  }

  function Step<S>(m: Machine<S>, instr: string, st: Status<S>): Status<S> {
    if !st.Running? then st
    else
      var cond, s := st.cond, st.state;
      match ControlToken(instr)
      case IfToken => Open(m, true, cond, s)
      case NotIfToken => Open(m, false, cond, s)
      case ElseToken =>
        if cond == [] then Failed else Running(cond[..|cond| - 1] + [!cond[|cond| - 1]], s)
      case EndIfToken =>
        if cond == [] then Failed else Running(cond[..|cond| - 1], s)
      case NoToken =>
        if false in cond then st else Lift(cond, m.exec(instr, |cond|, s))
  }

  function Run<S>(m: Machine<S>, prog: seq<string>, st: Status<S>): Status<S> {
    if prog == [] then st else Run(m, prog[1..], Step(m, prog[0], st))
  }

  lemma {:induction false} RunConcat<S>(m: Machine<S>, a: seq<string>, b: seq<string>, st: Status<S>)
    ensures Run(m, a + b, st) == Run(m, b, Run(m, a, st))
  {
    if a == [] {
      assert a + b == b;
    } else {
      assert (a + b)[1..] == a[1..] + b;
      RunConcat(m, a[1..], b, Step(m, a[0], st));
    }
  }

  lemma RunOne<S>(m: Machine<S>, a: string, st: Status<S>)
    ensures Run(m, [a], st) == Step(m, a, st)
  {
    assert Run(m, [a], st) == Run(m, [a][1..], Step(m, a, st));
  }

  lemma {:induction false} RunStopped<S>(m: Machine<S>, prog: seq<string>, st: Status<S>)
    requires !st.Running?
    ensures Run(m, prog, st) == st
  {
    if prog != [] {
      RunStopped(m, prog[1..], st);
    }
  }

  /** The token of an instruction depends only on its normalised form. */
  lemma TokenOfKey(a: string, b: string)
    requires Key(a) == Key(b)
    ensures ControlToken(a) == ControlToken(b)
  {
    KeyDeterminesBytes(a, b);
    forall op: Byte ensures IsSingleOpcode(a, op) <==> IsSingleOpcode(b, op) {
      SingleOpcodeBytes(a, op);
      SingleOpcodeBytes(b, op);
    }
  }
}
