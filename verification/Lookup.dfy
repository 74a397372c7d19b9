/**
 What the search for a known value finds (RegisterContainingValue in arm/gen.c): it answers
 whenever one of the forms asked for gives the value, with the lowest register, the first of the
 forms and the first of the shifts.
 */
module Lookup {
  import opened Words
  import opened Arm
  import opened Immediates
  import opened KnownValues
  import opened Shifts

  // ---- one register, shifted ----

  /** The shifts that are tried: none, and each kind by 1 to 31 places. */
  predicate Tried(s: ShiftSpec) { s == ShiftSpec(LSL, 0) || s.amount > 0 }

  /** The order in which they are tried. */
  function Turn(s: ShiftSpec): nat
  {
    if s.amount == 0 then 0
    else (match s.kind case ASR => 0 case LSR => 32 case LSL => 64 case ROR => 96) + s.amount
  }

  function Value(s: ShiftSpec, x: Word): int { ShiftValue(s.kind, x, s.amount) }

  predicate Makes(s: ShiftSpec, x: Word, n: Word) { Tried(s) && Value(s, x) == n }

  lemma {:induction false} FindShiftFirst(kind: ShiftKind, x: Word, n: Word, k: nat)
    requires 1 <= k <= 32
    ensures var f := FindShift(kind, x, n, k);
            if f.Some? then
              && f.value.kind == kind && k <= f.value.amount && Makes(f.value, x, n)
              && forall j :: k <= j < f.value.amount ==> ShiftValue(kind, x, j) != n
            else forall j :: k <= j < 32 ==> ShiftValue(kind, x, j) != n
    decreases 32 - k
  {
    hide ShiftBy, ShiftValue;
    if k < 32 {
      ShiftIs(kind, x, k);
      FindShiftFirst(kind, x, n, k + 1);
    }
  }

  ghost predicate FirstMakes(s: ShiftSpec, x: Word, n: Word)
  {
    Makes(s, x, n) && forall t :: Makes(t, x, n) ==> Turn(s) <= Turn(t)
  }

  /** Some shift of x gives n exactly when one is found, and the one found is the first. */
  lemma BuildableFirst(x: Word, n: Word)
    ensures var f := Buildable(x, n);
            (f.Some? <==> exists s :: Makes(s, x, n)) && (f.Some? ==> FirstMakes(f.value, x, n))
  {
    hide ShiftBy, ShiftValue, FindShift, Apply;
    ShiftIs(LSL, x, 0);
    NoShift(x);
    FindShiftFirst(ASR, x, n, 1);
    FindShiftFirst(LSR, x, n, 1);
    FindShiftFirst(LSL, x, n, 1);
    FindShiftFirst(ROR, x, n, 1);
    forall s | Makes(s, x, n) ensures Buildable(x, n).Some? && Turn(Buildable(x, n).value) <= Turn(s) {
      assert ShiftValue(s.kind, x, s.amount) == n;
    }
  }

  lemma NoShift(x: Word)
    ensures ShiftBy(LSL, x, 0) == x
  {
  }

  // ---- one register, OR-ed with itself shifted ----

  predicate OrMakes(s: ShiftSpec, x: Word, n: Word) { Tried(s) && Value(s, x) >= 0 && Orr(x, Value(s, x)) == n }

  lemma {:induction false} FindOrShiftFirst(kind: ShiftKind, x: Word, n: Word, k: nat)
    requires 1 <= k <= 32
    ensures var f := FindOrShift(kind, x, n, k);
            if f.Some? then
              && f.value.kind == kind && k <= f.value.amount && OrMakes(f.value, x, n)
              && forall j: Amount :: k <= j < f.value.amount ==> !OrMakes(ShiftSpec(kind, j), x, n)
            else forall j: Amount :: k <= j < 32 ==> !OrMakes(ShiftSpec(kind, j), x, n)
    decreases 32 - k
  {
    hide ShiftBy, ShiftValue, Orr;
    if k < 32 {
      ShiftIs(kind, x, k);
      FindOrShiftFirst(kind, x, n, k + 1);
    }
  }

  lemma BuildableOrFirst(x: Word, n: Word)
    ensures var f := BuildableOr(x, n);
            && (f.Some? <==> exists s :: OrMakes(s, x, n))
            && (f.Some? ==> OrMakes(f.value, x, n) && forall s :: OrMakes(s, x, n) ==> Turn(f.value) <= Turn(s))
  {
    hide ShiftBy, ShiftValue, FindOrShift, Apply, Orr;
    ShiftIs(LSL, x, 0);
    NoShift(x);
    OrrSelf(x);
    FindOrShiftFirst(ASR, x, n, 1);
    FindOrShiftFirst(LSR, x, n, 1);
    FindOrShiftFirst(LSL, x, n, 1);
    FindOrShiftFirst(ROR, x, n, 1);
    forall s | OrMakes(s, x, n) ensures BuildableOr(x, n).Some? && Turn(BuildableOr(x, n).value) <= Turn(s) {
      assert s == ShiftSpec(s.kind, s.amount);
    }
  }

  // ---- one register and a constant ----

  /** A field other than 0 that added to x, or taken from it, gives n. */
  predicate AddMakes(op: Op, k: Operand, x: Word, n: Word)
  {
    && k.Imm? && k.byte != 0
    && ((op == ADD && Wrap(x + ImmValue(k.rot, k.byte)) == n) || (op == SUB && Wrap(x - ImmValue(k.rot, k.byte)) == n))
  }

  lemma FieldOfZero(rot: Rotation, byte: Byte)
    ensures ImmValue(rot, byte) == 0 <==> byte == 0
  {
    RolRorPairs(byte, rot);
    ZeroTurned(rot);
  }

  lemma {:induction false} ZeroTurned(k: nat)
    ensures RolPairs(0, k) == 0 && RorPairs(0, k) == 0
  {
    if k > 0 { ZeroTurned(k - 1); }
  }

  lemma Difference(x: Word, n: Word, i: Word)
    ensures Wrap(x + i) == n <==> i == Wrap(n - x)
    ensures Wrap(x - i) == n <==> i == Wrap(x - n)
  {
  }

  /** The addition is preferred to the subtraction. */
  lemma AddedFirst(x: Word, n: Word, r: Reg)
    ensures var f := FindAdded(x, n, r);
            && (f.KAdded? <==> exists op, k :: AddMakes(op, k, x, n))
            && (f.KAdded? ==> AddMakes(f.op, f.k, x, n) && (f.op == SUB ==> forall k :: !AddMakes(ADD, k, x, n)))
  {
    hide EightBits, ImmValue;
    var up, down := Wrap(n - x), Wrap(x - n);
    EightBitsExact(up);
    EightBitsExact(down);
    if EightBits(up).Some? { FieldOfZero(EightBits(up).value.rot, EightBits(up).value.byte); }
    if EightBits(down).Some? { FieldOfZero(EightBits(down).value.rot, EightBits(down).value.byte); }
    FieldOfZero(0, 0);
    ZeroField();
    var f := FindAdded(x, n, r);
    forall op, k | AddMakes(op, k, x, n) ensures f.KAdded? && (op == ADD ==> f.op == ADD) {
      FieldOfZero(k.rot, k.byte);
      Difference(x, n, ImmValue(k.rot, k.byte));
      if op == ADD { assert Encodes(k, up); } else { assert Encodes(k, down); }
    }
    if f.KAdded? {
      Difference(x, n, ImmValue(f.k.rot, f.k.byte));
      assert AddMakes(f.op, f.k, x, n);
    }
  }

  lemma ZeroField()
    ensures EightBits(0) == Some(Imm(0, 0))
  {
  }

  // ---- two registers ----

  function OpTurn(op: Op): nat
  {
    match op
    case AND => 0
    case BIC => 1
    case ORR => 2
    case EOR => 3
    case SUB => 4
    case RSB => 5
    case ADD => 6
    case _ => 7
  }

  /** The recorded register q and a second operand b make n by one of the seven operations. */
  predicate Pairs(known: Known, q: Reg, op: Op, b: Word, n: Word)
  {
    OpTurn(op) < 7 && known[q].Some? && Result(op, known[q].value, b) == n
  }

  /** Register r is taken if it pairs at all, with the first operation that does. */
  lemma AnyOpHere(known: Known, n: Word, b: Word, r: Reg)
    requires known[r].Some?
    ensures var p := AnyOp(known, n, b, r);
            if exists op :: Pairs(known, r, op, b, n) then
              && p.Some? && p.value.r == r && Pairs(known, r, p.value.op, b, n)
              && forall op :: Pairs(known, r, op, b, n) ==> OpTurn(p.value.op) <= OpTurn(op)
            else p == AnyOp(known, n, b, r + 1)
  {
    hide Result;
    forall op: Op | op.AND? || op.BIC? || op.ORR? || op.EOR? || op.SUB? || op.RSB? || op.ADD?
      ensures Pairs(known, r, op, b, n) <==> Result(op, known[r].value, b) == n {}
    assert forall op: Op :: OpTurn(op) < 7 ==>
        op.AND? || op.BIC? || op.ORR? || op.EOR? || op.SUB? || op.RSB? || op.ADD?;
  }

  /** The lowest register is taken, and for it the first operation. */
  lemma {:induction false} AnyOpFirst(known: Known, n: Word, b: Word, r: nat)
    requires r <= 16
    ensures var p := AnyOp(known, n, b, r);
            && (p.Some? <==> exists q: Reg, op :: r <= q && Pairs(known, q, op, b, n))
            && (p.Some? ==>
                  && r <= p.value.r && Pairs(known, p.value.r, p.value.op, b, n)
                  && forall q: Reg, op :: r <= q && Pairs(known, q, op, b, n) ==>
                       p.value.r < q || (p.value.r == q && OpTurn(p.value.op) <= OpTurn(op)))
    decreases 16 - r
  {
    hide Result;
    if r < 16 {
      AnyOpFirst(known, n, b, r + 1);
      if known[r].Some? {
        hide AnyOp, Pairs;
        AnyOpHere(known, n, b, r);
      }
    }
  }

  /** Some recorded register pairs with x shifted by s. */
  ghost predicate PairMakes(known: Known, s: ShiftSpec, x: Word, n: Word)
  {
    Tried(s) && 0 <= Value(s, x) < M && exists q: Reg, op :: Pairs(known, q, op, Value(s, x), n)
  }

  lemma {:induction false} PairShiftFirst(known: Known, n: Word, rm: Reg, kind: ShiftKind, k: nat)
    requires 1 <= k <= 32 && known[rm].Some?
    ensures var f, x := PairShift(known, n, rm, kind, k), known[rm].value;
            if f.RegPair? then
              && f.rm == rm && f.shift.kind == kind && k <= f.shift.amount && PairMakes(known, f.shift, x, n)
              && Pairs(known, f.r, f.op, Value(f.shift, x), n)
              && forall j: Amount :: k <= j < f.shift.amount ==> !PairMakes(known, ShiftSpec(kind, j), x, n)
            else forall j: Amount :: k <= j < 32 ==> !PairMakes(known, ShiftSpec(kind, j), x, n)
    decreases 32 - k
  {
    hide ShiftBy, ShiftValue, AnyOp, Result;
    if k < 32 {
      ShiftIs(kind, known[rm].value, k);
      AnyOpFirst(known, n, ShiftBy(kind, known[rm].value, k), 0);
      PairShiftFirst(known, n, rm, kind, k + 1);
    }
  }

  lemma FindPairFirst(known: Known, n: Word, rm: Reg)
    requires known[rm].Some?
    ensures var f, x := FindPair(known, n, rm), known[rm].value;
            && (f.RegPair? <==> exists s :: PairMakes(known, s, x, n))
            && (f.RegPair? ==>
                  && PairMakes(known, f.shift, x, n) && Pairs(known, f.r, f.op, Value(f.shift, x), n)
                  && forall s :: PairMakes(known, s, x, n) ==> Turn(f.shift) <= Turn(s))
  {
    hide ShiftBy, ShiftValue, PairShift, Apply, AnyOp, Result;
    var x, f := known[rm].value, FindPair(known, n, rm);
    ShiftIs(LSL, x, 0);
    NoShift(x);
    AnyOpFirst(known, n, x, 0);
    PairShiftFirst(known, n, rm, ASR, 1);
    PairShiftFirst(known, n, rm, LSR, 1);
    PairShiftFirst(known, n, rm, LSL, 1);
    PairShiftFirst(known, n, rm, ROR, 1);
    forall s | PairMakes(known, s, x, n) ensures f.RegPair? && Turn(f.shift) <= Turn(s) {
      assert s == ShiftSpec(s.kind, s.amount);
    }
  }

  // ---- the search ----

  ghost predicate HasExact(x: Word, n: Word) { exists s :: Makes(s, x, n) }

  ghost predicate HasOr(x: Word, n: Word) { exists s :: OrMakes(s, x, n) }

  ghost predicate HasAdded(x: Word, n: Word) { exists op, k :: AddMakes(op, k, x, n) }

  ghost predicate HasPair(known: Known, x: Word, n: Word) { exists s :: PairMakes(known, s, x, n) }

  /** Register r offers n in some form that is asked for. */
  ghost predicate Offers(known: Known, n: Word, ask: Ask, r: Reg)
  {
    known[r].Some? &&
    var x := known[r].value;
    || HasExact(x, n)
    || (ask.negated && HasExact(x, Wrap(M - n)))
    || (ask.inverted && HasExact(x, M - 1 - n))
    || (ask.orred && HasOr(x, n))
    || (ask.kAdded && HasAdded(x, n))
    || (ask.regPair && HasPair(known, x, n))
  }

  /** The register an answer was found for: of a pair, the one that is shifted. */
  function Home(f: Found): Reg
    requires !f.NotFound?
  {
    if f.RegPair? then f.rm else f.r
  }

  /** The answer is the first of the forms that its register offers, and the first shift of that form. */
  ghost predicate FirstForm(f: Found, known: Known, n: Word, ask: Ask, x: Word)
  {
    var neg, inv := ask.negated && HasExact(x, Wrap(M - n)), ask.inverted && HasExact(x, M - 1 - n);
    var orr, add := ask.orred && HasOr(x, n), ask.kAdded && HasAdded(x, n);
    && (f.Exact? || !HasExact(x, n))
    && (f.Exact? || f.Negated? || !neg)
    && (f.Exact? || f.Negated? || f.Inverted? || !inv)
    && (f.KAdded? || f.RegPair? ==> !orr)
    && (f.RegPair? ==> !add)
    && match f
       case NotFound => false
       case Exact(_, s) => FirstMakes(s, x, n)
       case Negated(_, s) => ask.negated && FirstMakes(s, x, Wrap(M - n))
       case Inverted(_, s) => ask.inverted && FirstMakes(s, x, M - 1 - n)
       case Orred(_, s) => ask.orred && OrMakes(s, x, n) && forall t :: OrMakes(t, x, n) ==> Turn(s) <= Turn(t)
       case KAdded(_, op, k) => ask.kAdded && AddMakes(op, k, x, n)
       case RegPair(q, op, _, s) =>
         && ask.regPair && PairMakes(known, s, x, n) && Pairs(known, q, op, Value(s, x), n)
         && forall t :: PairMakes(known, t, x, n) ==> Turn(s) <= Turn(t)
  }

  lemma FindInFirst(known: Known, n: Word, ask: Ask, r: Reg)
    requires known[r].Some?
    ensures var f := FindIn(known, n, ask, r);
            && (f.NotFound? <==> !Offers(known, n, ask, r))
            && (!f.NotFound? ==> Home(f) == r && FirstForm(f, known, n, ask, known[r].value))
  {
    hide Makes, OrMakes, AddMakes, PairMakes, Buildable, BuildableOr, FindAdded, FindPair, Turn;
    var x := known[r].value;
    assert Neg(n) == Wrap(M - n) && Not(n) == M - 1 - n by { NegWraps(n); }
    BuildableFirst(x, n);
    BuildableFirst(x, Neg(n));
    BuildableFirst(x, Not(n));
    BuildableOrFirst(x, n);
    AddedFirst(x, n, r);
    FindPairFirst(known, n, r);
  }

  lemma NegWraps(n: Word)
    ensures Neg(n) == Wrap(M - n)
  {
  }

  lemma {:induction false} FindFromFirst(known: Known, n: Word, ask: Ask, r: nat)
    requires r <= 16
    ensures var f := FindFrom(known, n, ask, r);
            && (f.NotFound? <==> forall q: Reg :: r <= q ==> !Offers(known, n, ask, q))
            && (!f.NotFound? ==>
                  && r <= Home(f) && Offers(known, n, ask, Home(f)) && FirstForm(f, known, n, ask, known[Home(f)].value)
                  && forall q: Reg :: r <= q < Home(f) ==> !Offers(known, n, ask, q))
    decreases 16 - r
  {
    hide FindIn, Offers, FirstForm;
    if r < 16 {
      FindFromFirst(known, n, ask, r + 1);
      if known[r].Some? { FindInFirst(known, n, ask, r); } else { NoOffer(known, n, ask, r); }
    }
  }

  lemma NoOffer(known: Known, n: Word, ask: Ask, r: Reg)
    requires known[r].None?
    ensures !Offers(known, n, ask, r)
  {
  }

  /**
   The search answers exactly when a recorded register offers n in a form asked for; it answers
   with the lowest such register and the first form and shift that this register offers.
   */
  lemma LookupFirst(known: Known, n: Word, ask: Ask)
    ensures var f := RegisterContainingValue(known, n, ask);
            && (f.NotFound? <==> forall r: Reg :: !Offers(known, n, ask, r))
            && (!f.NotFound? ==>
                  && Offers(known, n, ask, Home(f)) && FirstForm(f, known, n, ask, known[Home(f)].value)
                  && forall r: Reg :: r < Home(f) ==> !Offers(known, n, ask, r))
  {
    hide FindFrom, Offers, FirstForm;
    FindFromFirst(known, n, ask, 0);
  }
}
