/**
 The register-value cache: which registers are known to hold which constants, and
 the search for one operation on known registers that yields a wanted constant.
 */
module KnownValues {
  import opened Words
  import opened Arm
  import opened Immediates

  type Known = s: seq<Option<Word>> | |s| == 16 witness seq(16, _ => None)

  /** The cache describes the registers it has an entry for. */
  ghost predicate Agrees(known: Known, regs: Regs)
  {
    forall r: Reg :: known[r].Some? ==> regs[r] == known[r].value
  }

  /** No register but r differs. */
  ghost predicate OnlyChanges(was: Regs, now: Regs, r: Reg)
  {
    forall q: Reg :: q != r ==> now[q] == was[q]
  }

  datatype ShiftSpec = ShiftSpec(kind: ShiftKind, amount: Amount)

  const UNSHIFTED := ShiftSpec(LSL, 0)

  function Apply(s: ShiftSpec, x: Word): Word { ShiftBy(s.kind, x, s.amount) }

  function Shift(r: Reg, s: ShiftSpec): Operand { Shifted(r, s.kind, s.amount) }

  /** The forms of answer a caller is prepared to use. */
  datatype Ask = Ask(negated: bool, inverted: bool, orred: bool, kAdded: bool, regPair: bool)

  datatype Found =
    | NotFound
    | Exact(r: Reg, shift: ShiftSpec)
    | Negated(r: Reg, shift: ShiftSpec)
    | Inverted(r: Reg, shift: ShiftSpec)
    | Orred(r: Reg, shift: ShiftSpec)
    | KAdded(r: Reg, op: Op, k: Operand)
    | RegPair(r: Reg, op: Op, rm: Reg, shift: ShiftSpec)

  /** What an answer evaluates to in a register file. */
  function Meaning(f: Found, regs: Regs): Word
    requires !f.NotFound?
  {
    match f
    case Exact(r, s) => Apply(s, regs[r])
    case Negated(r, s) => Neg(Apply(s, regs[r]))
    case Inverted(r, s) => Not(Apply(s, regs[r]))
    case Orred(r, s) => Result(ORR, regs[r], Apply(s, regs[r]))
    case KAdded(r, op, k) => Result(op, regs[r], OperandValue(regs, k))
    case RegPair(r, op, rm, s) => Result(op, regs[r], Apply(s, regs[rm]))
  }

  /** The answer reads only cached registers, whose values give n. */
  ghost predicate Denotes(f: Found, known: Known, n: Word)
  {
    match f
    case NotFound => true
    case Exact(r, s) => known[r].Some? && Apply(s, known[r].value) == n
    case Negated(r, s) => known[r].Some? && Neg(Apply(s, known[r].value)) == n
    case Inverted(r, s) => known[r].Some? && Not(Apply(s, known[r].value)) == n
    case Orred(r, s) => known[r].Some? && Result(ORR, known[r].value, Apply(s, known[r].value)) == n
    case KAdded(r, op, k) =>
      known[r].Some? && k.Imm? && (op == ADD || op == SUB) && Result(op, known[r].value, ImmValue(k.rot, k.byte)) == n
    case RegPair(r, op, rm, s) =>
      known[r].Some? && known[rm].Some? && !Compares(op) && Result(op, known[r].value, Apply(s, known[rm].value)) == n
  }

  /** The answer belongs to the forms asked for. */
  predicate Answers(f: Found, ask: Ask)
  {
    match f
    case NotFound => true
    case Exact(_, _) => true
    case Negated(_, _) => ask.negated
    case Inverted(_, _) => ask.inverted
    case Orred(_, _) => ask.orred
    case KAdded(_, _, _) => ask.kAdded
    case RegPair(_, _, _, _) => ask.regPair
  }

  /** The smallest shift count from k on that turns value into target. */
  function FindShift(kind: ShiftKind, value: Word, target: Word, k: nat): (s: Option<ShiftSpec>)
    requires k <= 32
    ensures s.Some? ==> Apply(s.value, value) == target
    decreases 32 - k
  {
    if k == 32 then None
    else if ShiftBy(kind, value, k) == target then Some(ShiftSpec(kind, k))
    else FindShift(kind, value, target, k + 1)
  }

  function Buildable(value: Word, target: Word): (s: Option<ShiftSpec>)
    ensures s.Some? ==> Apply(s.value, value) == target
  {
    if value == target then Some(UNSHIFTED)
    else
      var a := FindShift(ASR, value, target, 1);
      if a.Some? then a else
      var b := FindShift(LSR, value, target, 1);
      if b.Some? then b else
      var c := FindShift(LSL, value, target, 1);
      if c.Some? then c else FindShift(ROR, value, target, 1)
  }

  function FindOrShift(kind: ShiftKind, value: Word, target: Word, k: nat): (s: Option<ShiftSpec>)
    requires k <= 32
    ensures s.Some? ==> Orr(value, Apply(s.value, value)) == target
    decreases 32 - k
  {
    if k == 32 then None
    else if Orr(value, ShiftBy(kind, value, k)) == target then Some(ShiftSpec(kind, k))
    else FindOrShift(kind, value, target, k + 1)
  }

  lemma {:induction false} OrrSelf(x: nat)
    ensures Orr(x, x) == x
    decreases x
  {
    if x > 0 { OrrSelf(x / 2); }
  }

  function BuildableOr(value: Word, target: Word): (s: Option<ShiftSpec>)
    ensures s.Some? ==> Result(ORR, value, Apply(s.value, value)) == target
  {
    OrrSelf(value);
    if value == target then Some(UNSHIFTED)
    else
      var a := FindOrShift(ASR, value, target, 1);
      if a.Some? then a else
      var b := FindOrShift(LSR, value, target, 1);
      if b.Some? then b else
      var c := FindOrShift(LSL, value, target, 1);
      if c.Some? then c else FindOrShift(ROR, value, target, 1)
  }

  datatype Pairing = Pairing(r: Reg, op: Op)

  /** A known register r and an operation with value(r) op n == target. */
  function AnyOp(known: Known, target: Word, n: Word, r: nat): (p: Option<Pairing>)
    requires r <= 16
    ensures p.Some? ==>
            known[p.value.r].Some? && !Compares(p.value.op) && Result(p.value.op, known[p.value.r].value, n) == target
    decreases 16 - r
  {
    if r == 16 then None
    else if known[r].None? then AnyOp(known, target, n, r + 1)
    else
      var v := known[r].value;
      if Result(AND, v, n) == target then Some(Pairing(r, AND))
      else if Result(BIC, v, n) == target then Some(Pairing(r, BIC))
      else if Result(ORR, v, n) == target then Some(Pairing(r, ORR))
      else if Result(EOR, v, n) == target then Some(Pairing(r, EOR))
      else if Result(SUB, v, n) == target then Some(Pairing(r, SUB))
      else if Result(RSB, v, n) == target then Some(Pairing(r, RSB))
      else if Result(ADD, v, n) == target then Some(Pairing(r, ADD))
      else AnyOp(known, target, n, r + 1)
  }

  function PairShift(known: Known, n: Word, rm: Reg, kind: ShiftKind, k: nat): (f: Found)
    requires k <= 32 && known[rm].Some?
    ensures f.NotFound? || f.RegPair?
    ensures f.RegPair? ==> f.rm == rm && known[f.r].Some? && !Compares(f.op)
    ensures f.RegPair? ==> Result(f.op, known[f.r].value, Apply(f.shift, known[rm].value)) == n
    decreases 32 - k
  {
    if k == 32 then NotFound
    else
      var p := AnyOp(known, n, ShiftBy(kind, known[rm].value, k), 0);
      if p.Some? then RegPair(p.value.r, p.value.op, rm, ShiftSpec(kind, k))
      else PairShift(known, n, rm, kind, k + 1)
  }

  function FindPair(known: Known, n: Word, rm: Reg): (f: Found)
    requires known[rm].Some?
    ensures f.NotFound? || f.RegPair?
    ensures f.RegPair? ==> f.rm == rm && known[f.r].Some? && !Compares(f.op)
    ensures f.RegPair? ==> Result(f.op, known[f.r].value, Apply(f.shift, known[rm].value)) == n
  {
    var p := AnyOp(known, n, known[rm].value, 0);
    if p.Some? then RegPair(p.value.r, p.value.op, rm, UNSHIFTED) else
    var a := PairShift(known, n, rm, ASR, 1);
    if !a.NotFound? then a else
    var b := PairShift(known, n, rm, LSR, 1);
    if !b.NotFound? then b else
    var c := PairShift(known, n, rm, LSL, 1);
    if !c.NotFound? then c else PairShift(known, n, rm, ROR, 1)
  }

  lemma AddThenSub(value: Word, n: Word)
    ensures Result(ADD, value, Wrap(n - value)) == n
    ensures Result(SUB, value, Wrap(value - n)) == n
  {
    AddBack(value, n);
    hide And, Eor, Orr, Bic, Wrap, Pow2;
  }

  lemma AddBack(value: Word, n: Word)
    ensures Wrap(value + Wrap(n - value)) == n && Wrap(value - Wrap(value - n)) == n
  {
  }

  /** A constant whose sum with value(r) is n; the source refuses the encoding 0. */
  function FindAdded(value: Word, n: Word, r: Reg): (f: Found)
    ensures f.NotFound? || (f.KAdded? && f.r == r && f.k.Imm? && (f.op == ADD || f.op == SUB))
    ensures f.KAdded? ==> Result(f.op, value, ImmValue(f.k.rot, f.k.byte)) == n
  {
    hide EightBits, ImmValue, Result;
    EightBitsSound(Wrap(n - value));
    EightBitsSound(Wrap(value - n));
    AddThenSub(value, n);
    var up := EightBits(Wrap(n - value));
    if up.Some? && !(up.value.rot == 0 && up.value.byte == 0) then KAdded(r, ADD, up.value) else
    var down := EightBits(Wrap(value - n));
    if down.Some? && !(down.value.rot == 0 && down.value.byte == 0) then KAdded(r, SUB, down.value)
    else NotFound
  }

  lemma NegNot(n: Word)
    ensures Neg(Neg(n)) == n && Not(Not(n)) == n
  {
  }

  /** One register's answer, in the order the source tries the forms. */
  function FindIn(known: Known, n: Word, ask: Ask, r: Reg): (f: Found)
    requires known[r].Some?
    ensures Denotes(f, known, n) && Answers(f, ask)
  {
    hide Result, Apply, ImmValue, Buildable, BuildableOr, FindAdded, FindPair, Neg, Not;
    NegNot(n);
    var value := known[r].value;
    var exact := Buildable(value, n);
    if exact.Some? then Exact(r, exact.value) else
    var negated := if ask.negated then Buildable(value, Neg(n)) else None;
    if negated.Some? then Negated(r, negated.value) else
    var inverted := if ask.inverted then Buildable(value, Not(n)) else None;
    if inverted.Some? then Inverted(r, inverted.value) else
    var orred := if ask.orred then BuildableOr(value, n) else None;
    if orred.Some? then Orred(r, orred.value) else
    var added := if ask.kAdded then FindAdded(value, n, r) else NotFound;
    if !added.NotFound? then added
    else if ask.regPair then FindPair(known, n, r) else NotFound
  }

  function FindFrom(known: Known, n: Word, ask: Ask, r: nat): (f: Found)
    requires r <= 16
    decreases 16 - r
  {
    if r == 16 then NotFound
    else if known[r].None? then FindFrom(known, n, ask, r + 1)
    else
      var f := FindIn(known, n, ask, r);
      if f.NotFound? then FindFrom(known, n, ask, r + 1) else f
  }

  /** A way to build n from one known register (two for RegPair). */
  function RegisterContainingValue(known: Known, n: Word, ask: Ask): Found
  {
    FindFrom(known, n, ask, 0)
  }

  lemma {:induction false} LookupSoundFrom(known: Known, n: Word, ask: Ask, r: nat)
    requires r <= 16
    ensures Denotes(FindFrom(known, n, ask, r), known, n) && Answers(FindFrom(known, n, ask, r), ask)
    decreases 16 - r
  {
    hide FindIn, Result, Apply, ImmValue;
    if r < 16 {
      LookupSoundFrom(known, n, ask, r + 1);
    }
  }

  /** Every answer is of a form asked for, reads only cached registers, and evaluates to n. */
  lemma LookupSound(known: Known, n: Word, ask: Ask)
    ensures Denotes(RegisterContainingValue(known, n, ask), known, n)
    ensures Answers(RegisterContainingValue(known, n, ask), ask)
  {
    LookupSoundFrom(known, n, ask, 0);
  }

  lemma MeaningOfDenotes(f: Found, known: Known, n: Word, regs: Regs)
    requires Agrees(known, regs) && Denotes(f, known, n) && !f.NotFound?
    ensures Meaning(f, regs) == n
  {
    hide Result, Apply, Neg, Not, ImmValue;
    assert regs[f.r] == known[f.r].value;
    if f.RegPair? { assert regs[f.rm] == known[f.rm].value; }
  }

  /** The table itself (`register_values`), updated as code is generated. */
  class RegisterValues {
    var known: Known

    constructor ()
      ensures known == seq(16, _ => None)
    {
      known := seq(16, _ => None);
    }

    /** Whatever is then put into r, the table stays in step with the registers. */
    method Kill(r: Reg)
      modifies this
      ensures known == old(known)[r := None]
      ensures forall was, now: Regs :: Agrees(old(known), was) && OnlyChanges(was, now, r) ==> Agrees(known, now)
    {
      known := known[r := None];
    }

    /** The table stays in step when n is put into r, and only then. */
    method Set(r: Reg, n: Word)
      modifies this
      ensures known == old(known)[r := Some(n)]
      ensures forall was, now: Regs :: Agrees(old(known), was) && OnlyChanges(was, now, r) ==>
                (Agrees(known, now) <==> now[r] == n)
    {
      known := known[r := Some(n)];
    }
  }
}
