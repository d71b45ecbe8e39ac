/** Python-style ranges over the whole of int64, counted and indexed in uint64 arithmetic. */
module RangePlan {
  import opened Wrappers
  import opened Arithmetic

  const SIGN_BIT: nat := 0x8000_0000_0000_0000
  const MODULUS: nat := 0x1_0000_0000_0000_0000
  const UINT64_MAX: nat := 0xffff_ffff_ffff_ffff

  type Int64 = x: int | -0x8000_0000_0000_0000 <= x < 0x8000_0000_0000_0000
  type UInt64 = x: int | 0 <= x < 0x1_0000_0000_0000_0000

  datatype RangeErrorCode =
    | ZeroStep
    | CountOverflow
    | IterationLimitExceeded
    | IndexOutOfRange
    | ValueOverflow
    | BudgetExceeded

  // ----- machine arithmetic -----

  /** Unsigned 64-bit operations wrap around. */
  function Wrap(x: int): UInt64 {
    x % MODULUS
  }

  function Bits(value: Int64): UInt64 {
    if value < 0 then value + MODULUS else value
  }

  function FromBits(bits: UInt64): Int64 {
    if bits >= SIGN_BIT then bits - MODULUS else bits
  }

  function FlipSign(bits: UInt64): UInt64 {
    if bits >= SIGN_BIT then bits - SIGN_BIT else bits + SIGN_BIT
  }

  function Ordered(value: Int64): UInt64 {
    FlipSign(Bits(value))
  }

  function FromOrdered(value: UInt64): Int64 {
    FromBits(FlipSign(value))
  }

  function StepMagnitude(step: Int64): UInt64 {
    if step >= 0 then step else Wrap(Bits(0 - (step + 1)) + 1)
  }

  // ----- plans -----

  datatype Plan = Plan(start: Int64, stop: Int64, step: Int64, count: UInt64)

  /** Iterations needed to cover a distance; None if they could not be counted. */
  function CountSteps(distance: UInt64, magnitude: UInt64): Option<UInt64>
    requires magnitude > 0
  {
    var quotient := distance / magnitude;
    var hasRemainder := distance % magnitude != 0;
    if hasRemainder && quotient == UINT64_MAX then None
    else Some(Wrap(quotient + if hasRemainder then 1 else 0))
  }

  function Build(start: Int64, stop: Int64, step: Int64, maxIterations: Option<UInt64>): Result<Plan, RangeErrorCode> {
    if step == 0 then Err(ZeroStep)
    else
      var progresses := if step > 0 then start < stop else start > stop;
      var distance := if step > 0 then Wrap(Ordered(stop) - Ordered(start)) else Wrap(Ordered(start) - Ordered(stop));
      MagnitudeIsExact(step);
      var count := if progresses then CountSteps(distance, StepMagnitude(step)) else Some(0);
      if count.None? then Err(CountOverflow)
      else if maxIterations.Some? && count.value > maxIterations.value then Err(IterationLimitExceeded)
      else Ok(Plan(start, stop, step, count.value))
  }

  function ValueAt(p: Plan, index: UInt64): Result<Int64, RangeErrorCode> {
    if index >= p.count then Err(IndexOutOfRange)
    else
      var magnitude := StepMagnitude(p.step);
      if index != 0 && magnitude > UINT64_MAX / index then Err(ValueOverflow)
      else
        var offset := Wrap(magnitude * index);
        var orderedStart := Ordered(p.start);
        if p.step > 0 then
          if offset > Wrap(UINT64_MAX - orderedStart) then Err(ValueOverflow)
          else Ok(FromOrdered(Wrap(orderedStart + offset)))
        else if offset > orderedStart then Err(ValueOverflow)
        else Ok(FromOrdered(Wrap(orderedStart - offset)))
  }

  // ----- the mathematical range -----

  predicate Progresses(at: int, stop: int, step: int) {
    if step > 0 then at < stop else at > stop
  }

  /** All terms from at, by step, before stop. */
  function Terms(at: int, stop: int, step: int): seq<int>
    requires step != 0
    decreases if step > 0 then stop - at else at - stop
  {
    if Progresses(at, stop, step) then [at] + Terms(at + step, stop, step) else []
  }

  function CeilingDivide(d: nat, m: nat): nat
    requires m > 0
  {
    d / m + if d % m != 0 then 1 else 0
  }

  function Magnitude(step: int): nat {
    if step > 0 then step else 0 - step
  }

  function Gap(at: int, stop: int, step: int): int {
    if step > 0 then stop - at else at - stop
  }

  lemma OrderedIsOffset(value: Int64)
    ensures Ordered(value) == value + SIGN_BIT && FromOrdered(Ordered(value)) == value
  {
  }

  lemma MagnitudeIsExact(step: Int64)
    ensures StepMagnitude(step) == Magnitude(step)
  {
  }

  lemma CeilingStep(d: nat, m: nat)
    requires m > 0
    ensures d == 0 ==> CeilingDivide(d, m) == 0
    ensures 0 < d <= m ==> CeilingDivide(d, m) == 1
    ensures d > m ==> CeilingDivide(d, m) == 1 + CeilingDivide(d - m, m)
  {
    if d == m {
      QuotientIs(d, m, 1, 0);
    } else if d < m {
      QuotientIs(d, m, 0, d);
    } else {
      DivisionBelow(d - m, m, d - m + 1) by { MultipleOrder(1, m, d - m + 1); }
      var q, r := (d - m) / m, (d - m) % m;
      assert (q + 1) * m == q * m + m;
      QuotientIs(d, m, q + 1, r);
    }
  }

  lemma CountIsCeiling(d: UInt64, m: UInt64)
    requires m > 0
    ensures CountSteps(d, m) == Some(CeilingDivide(d, m))
  {
    QuotientFits(d, m);
  }

  lemma QuotientFits(d: nat, m: nat)
    requires m > 0
    ensures d / m + d % m <= d
  {
    var q, r := d / m, d % m;
    MultipleOrder(1, m, q);
    assert d == q * m + r;
  }

  /** The i-th term, counted from at. */
  function Term(at: int, step: int, i: nat): int {
    at + i * step
  }

  lemma TermShifts(at: int, step: int, i: nat)
    ensures Term(at, step, 0) == at
    ensures Term(at + step, step, i) == Term(at, step, i + 1)
  {
    assert (i + 1) * step == i * step + step;
  }

  /** How many terms there are, and which; the one after the last reaches or passes stop. */
  lemma {:induction false} TermsAre(at: int, stop: int, step: int)
    requires step != 0
    ensures |Terms(at, stop, step)| ==
            if Progresses(at, stop, step) then CeilingDivide(Gap(at, stop, step), Magnitude(step)) else 0
    ensures forall i :: 0 <= i < |Terms(at, stop, step)| ==> Terms(at, stop, step)[i] == Term(at, step, i)
    ensures forall i :: 0 <= i < |Terms(at, stop, step)| ==> Progresses(Term(at, step, i), stop, step)
    ensures !Progresses(Term(at, step, |Terms(at, stop, step)|), stop, step)
    decreases if step > 0 then stop - at else at - stop
  {
    hide Term, CeilingDivide;
    TermShifts(at, step, 0);
    if Progresses(at, stop, step) {
      var rest := Terms(at + step, stop, step);
      TermsAre(at + step, stop, step);
      CeilingStep(Gap(at, stop, step), Magnitude(step));
      TermShifts(at, step, |rest|);
      forall i | 0 <= i < |rest| + 1
        ensures Terms(at, stop, step)[i] == Term(at, step, i) && Progresses(Term(at, step, i), stop, step)
      {
        if i > 0 {
          TermShifts(at, step, i - 1);
          assert rest[i - 1] == Term(at + step, step, i - 1);
        }
      }
    }
  }

  /** Counting never overflows: a plan is refused exactly for a zero step or a count above the limit, and otherwise
      its count is the number of terms of the mathematical range. */
  lemma BuildIsExact(start: Int64, stop: Int64, step: Int64, maxIterations: Option<UInt64>)
    ensures step == 0 <==> Build(start, stop, step, maxIterations) == Err(ZeroStep)
    ensures step != 0 ==> |Terms(start, stop, step)| <= UINT64_MAX
    ensures step != 0 ==>
              Build(start, stop, step, maxIterations) ==
              if maxIterations.Some? && |Terms(start, stop, step)| > maxIterations.value
              then Err(IterationLimitExceeded)
              else Ok(Plan(start, stop, step, |Terms(start, stop, step)|))
  {
    if step != 0 {
      hide CountSteps, CeilingDivide, StepMagnitude, Term, Terms, Wrap, Ordered, Magnitude;
      OrderedIsOffset(start);
      OrderedIsOffset(stop);
      MagnitudeIsExact(step);
      TermsAre(start, stop, step);
      if Progresses(start, stop, step) {
        var d := Gap(start, stop, step);
        WrapSmall(d);
        CountIsCeiling(d, StepMagnitude(step));
      }
    }
  }

  /** Below the count no index overflows and the value is the mathematical term; the next term is not before stop. */
  lemma ValueIsExact(p: Plan, maxIterations: Option<UInt64>, index: UInt64)
    requires Build(p.start, p.stop, p.step, maxIterations) == Ok(p)
    ensures index >= p.count <==> ValueAt(p, index) == Err(IndexOutOfRange)
    ensures p.step != 0 && p.count == |Terms(p.start, p.stop, p.step)|
    ensures index < p.count ==> IsInt64(Term(p.start, p.step, index))
    ensures index < p.count ==> ValueAt(p, index) == Ok(Term(p.start, p.step, index))
    ensures index < p.count ==> Term(p.start, p.step, index) == Terms(p.start, p.stop, p.step)[index]
    ensures !Progresses(Term(p.start, p.step, p.count), p.stop, p.step)
  {
    hide Build, Terms, ValueAt, Term, CeilingDivide, Progresses, Gap, Magnitude, IsInt64;
    BuildIsExact(p.start, p.stop, p.step, maxIterations);
    TermsAre(p.start, p.stop, p.step);
    IndexBeyond(p, index);
    if index < p.count {
      TermInside(p.start, p.stop, p.step, index);
      ValueOfTerm(p, index);
    }
  }

  predicate IsInt64(x: int) {
    -0x8000_0000_0000_0000 <= x < 0x8000_0000_0000_0000
  }

  lemma IndexBeyond(p: Plan, index: UInt64)
    ensures index >= p.count <==> ValueAt(p, index) == Err(IndexOutOfRange)
  {
    hide Wrap, StepMagnitude, Ordered, FromOrdered;
  }

  lemma TermInside(start: Int64, stop: Int64, step: Int64, index: UInt64)
    requires step != 0 && Progresses(Term(start, step, index), stop, step)
    ensures IsInt64(Term(start, step, index))
  {
    MultipleOrder(0, index, Magnitude(step));
    assert index * step == if step > 0 then index * Magnitude(step) else 0 - index * Magnitude(step);
  }

  lemma ValueOfTerm(p: Plan, index: UInt64)
    requires p.step != 0 && index < p.count
    requires IsInt64(Term(p.start, p.step, index))
    ensures ValueAt(p, index) == Ok(Term(p.start, p.step, index))
  {
    var offset := Offset(p, index);
    OrderedIsOffset(p.start);
    OrderedIsOffset(Term(p.start, p.step, index));
    hide StepMagnitude, Ordered, FromOrdered, Term, Magnitude, Wrap;
    var orderedStart := Ordered(p.start);
    WrapSmall(offset);
    WrapSmall(UINT64_MAX - orderedStart);
    WrapSmall(if p.step > 0 then orderedStart + offset else orderedStart - offset);
  }

  lemma WrapSmall(x: int)
    ensures 0 <= x < MODULUS ==> Wrap(x) == x
  {
  }

  /** How far the indexed term lies from the start, as the code computes it. */
  lemma Offset(p: Plan, index: UInt64) returns (offset: nat)
    requires p.step != 0
    requires IsInt64(Term(p.start, p.step, index))
    ensures offset <= UINT64_MAX && StepMagnitude(p.step) * index == offset
    ensures Term(p.start, p.step, index) == if p.step > 0 then p.start + offset else p.start - offset
    ensures index != 0 ==> StepMagnitude(p.step) <= UINT64_MAX / index
  {
    var m := Magnitude(p.step);
    MagnitudeIsExact(p.step);
    MultipleOrder(0, m, index);
    offset := m * index;
    assert index * p.step == if p.step > 0 then offset else 0 - offset;
    if index != 0 {
      QuotientBound(m, index);
    }
  }

  lemma QuotientBound(m: nat, index: nat)
    requires index > 0 && m * index <= UINT64_MAX
    ensures m <= UINT64_MAX / index
  {
    var q, r := UINT64_MAX / index, UINT64_MAX % index;
    MultipleOrder(q + 1, m, index);
    assert (q + 1) * index == q * index + index;
  }

  // ----- the shared expansion budget -----

  /** What a budget has consumed after a run of requests; refused requests change nothing. */
  function Spent(limit: nat, consumed: nat, requests: seq<UInt64>): nat
    decreases |requests|
  {
    if requests == [] then consumed
    else Spent(limit, if requests[0] > limit - consumed then consumed else consumed + requests[0], requests[1..])
  }

  /** The requests of a run that are not refused. */
  function Granted(limit: nat, consumed: nat, requests: seq<UInt64>): seq<UInt64>
    requires consumed <= limit
    decreases |requests|
  {
    if requests == [] then []
    else if requests[0] > limit - consumed then Granted(limit, consumed, requests[1..])
    else [requests[0]] + Granted(limit, consumed + requests[0], requests[1..])
  }

  function Sum(amounts: seq<UInt64>): nat {
    if amounts == [] then 0 else amounts[0] + Sum(amounts[1..])
  }

  /** Over any run of requests the consumed total is what was granted, and stays within the limit. */
  lemma {:induction false} GrantedFits(limit: nat, consumed: nat, requests: seq<UInt64>)
    requires consumed <= limit
    ensures Spent(limit, consumed, requests) == consumed + Sum(Granted(limit, consumed, requests)) <= limit
    decreases |requests|
  {
    if requests != [] {
      var refused := requests[0] > limit - consumed;
      var next := if refused then consumed else consumed + requests[0];
      GrantedFits(limit, next, requests[1..]);
      var rest := Granted(limit, next, requests[1..]);
      assert ([requests[0]] + rest)[1..] == rest;
    }
  }

  class RangeExpansionBudget {
    const limit: UInt64
    var consumed: UInt64

    ghost predicate Valid()
      reads this
    {
      consumed <= limit
    }

    constructor (limit: UInt64)
      ensures Valid() && this.limit == limit && consumed == 0
    {
      this.limit := limit;
      consumed := 0;
    }

    function Remaining(): UInt64
      requires Valid()
      reads this
    {
      limit - consumed
    }

    method Consume(amount: UInt64) returns (error: Option<RangeErrorCode>)
      requires Valid()
      modifies this`consumed
      ensures Valid() && consumed == Spent(limit, old(consumed), [amount])
      ensures error == if amount > old(Remaining()) then Some(BudgetExceeded) else None
      ensures consumed == if error.Some? then old(consumed) else old(consumed) + amount
    {
      assert [amount][1..] == [];
      if amount > Remaining() {
        return Some(BudgetExceeded);
      }
      consumed := consumed + amount;
      return None;
    }
  }
}
