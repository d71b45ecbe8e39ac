/** The typed instructions every back-end stage works on. */
module BytecodeIr {
  import opened Wrappers
  import opened Hex
  import IfTree

  datatype Region = Executable | Padding | ImmutableSuffix

  datatype Body =
    | OpcodeBody(code: nat)
    | PushDataBody(payload: seq<Byte>)
    | PlaceholderBody(name: string, expectedSize: Option<nat>)
    | RawSuffixBody(raw: string)
    | BarrierBody(raw: string)

  datatype Instruction =
    Instruction(id: nat, body: Body, region: Region, origins: seq<nat>, legacyEncoding: Option<string>)

  predicate IsReturn(i: Instruction) {
    i.body == OpcodeBody(IfTree.OP_RETURN)
  }

  /** An opcode that pushes a constant and the push of that constant are written alike; a reader sees the push. */
  function AsRead(body: Body): Body {
    match body
    case OpcodeBody(code) =>
      if code == 0x00 then PushDataBody([])
      else if code == 0x4f then PushDataBody([0x81])
      else if 0x51 <= code <= 0x60 then PushDataBody([code - 0x50])
      else body
    case _ => body
  }

  predicate UniqueIds(a: seq<Instruction>) {
    forall i, j :: 0 <= i < j < |a| ==> a[i].id != a[j].id
  }

  function Ids(a: seq<Instruction>): (r: seq<nat>)
    ensures |r| == |a|
  {
    seq(|a|, i requires 0 <= i < |a| => a[i].id)
  }

  /** How many instructions from a position on lie in a region. */
  function RunOf(code: seq<Instruction>, region: Region, from: nat): (n: nat)
    requires from <= |code|
    ensures from + n <= |code|
    ensures forall i :: from <= i < from + n ==> code[i].region == region
    ensures from + n < |code| ==> code[from + n].region != region
    decreases |code| - from
  {
    if from == |code| || code[from].region != region then 0 else 1 + RunOf(code, region, from + 1)
  }

  function ExecutableEnd(code: seq<Instruction>): nat {
    RunOf(code, Executable, 0)
  }

  lemma {:induction false} RunIs(code: seq<Instruction>, region: Region, from: nat, n: nat)
    requires from + n <= |code| && forall i :: from <= i < from + n ==> code[i].region == region
    requires from + n < |code| ==> code[from + n].region != region
    ensures RunOf(code, region, from) == n
    decreases n
  {
    if n > 0 {
      RunIs(code, region, from + 1, n - 1);
    }
  }

  /** The check both stages make while they collect identities. */
  lemma NextIdIsNew(a: seq<Instruction>, i: nat, seen: set<nat>)
    requires i < |a| && UniqueIds(a[..i]) && forall x: nat :: x in seen <==> x in Ids(a[..i])
    ensures UniqueIds(a[..i + 1]) <==> a[i].id !in seen
    ensures forall x: nat :: x in Ids(a[..i + 1]) <==> x in seen + {a[i].id}
  {
    var before, after := a[..i], a[..i + 1];
    assert after == before + [a[i]];
    assert Ids(after) == Ids(before) + [a[i].id];
    if a[i].id in seen {
      var j :| 0 <= j < |Ids(before)| && Ids(before)[j] == a[i].id;
      assert after[j].id == after[i].id;
    } else {
      forall p, q | 0 <= p < q < |after| ensures after[p].id != after[q].id {
        assert p < i && after[p] == before[p];
        assert Ids(before)[p] in Ids(before);
        if q < i {
          assert after[q] == before[q];
        }
      }
    }
  }
}
