/**
 Comparing a register with a 32-bit constant (compare_integer_i in arm/gen.c).

 A constant that fits no immediate field is approached in steps: subtract an 8-bit
 approximation into a work register, setting flags, and go on comparing only if the
 flags do not settle the question.  Each later instruction is conditional.
 */
module CompareConstant {
  import opened Words
  import opened Arm
  import opened Immediates
  import opened KnownValues
  import opened AddConstant
  import opened LogicConstant
  import opened LoadConstant
  import opened Buffers

  const CMP_ASK := Ask(true, false, false, false, false)

  /** Which conditions will be tested afterwards; Unspecified when not known, or when the code is itself conditional. */
  datatype Test = Equality | SignedOrder | UnsignedOrder | Unspecified

  // ---- an 8-bit approximation from below ----

  function FloorFrom(n: Word, j: nat): (f: Word)
    ensures f <= n
    decreases j
  {
    if j == 0 || Above(n, j + 3) != 0 then
      FloorBelow(n, j);
      Scale(Above(n, j), j)
    else FloorFrom(n, j - 1)
  }

  lemma FloorBelow(n: Word, j: nat)
    ensures 0 <= Scale(Above(n, j), j) <= n
  {
    var h, l := SplitWord(n, j);
    ScaleNat(h, j);
  }

  /** The largest value not above n made of n's top eight bits (from an even position). */
  function EightBitFloor(n: Word): (f: Word)
    ensures f <= n
  {
    if n < 256 then n else FloorFrom(n, 12)
  }

  /** The position of the byte that EightBitFloor keeps. */
  function TopByte(n: Word, j: nat := 12): nat
  {
    if j == 0 || Above(n, j + 3) != 0 then j else TopByte(n, j - 1)
  }

  lemma {:induction false} AboveBound(n: Word, k: nat)
    ensures Above(n, k) == 0 <==> n < Scale(1, k)
  {
    if k > 0 { AboveBound(n / 4, k - 1); }
  }

  lemma {:induction false} AboveAbove(n: Word, j: nat, k: nat)
    ensures Above(n, j + k) == Above(Above(n, j), k)
  {
    if j > 0 { AboveAbove(n / 4, j - 1, k); }
  }

  /** The approximation fits an immediate field, is positive, and leaves only what lies below its byte. */
  lemma {:induction false} FloorFromIs(n: Word, j: nat)
    requires n > 0 && j <= 12 && Above(n, j + 4) == 0
    ensures FloorFrom(n, j) == Scale(Above(n, TopByte(n, j)), TopByte(n, j)) && TopByte(n, j) <= j
    ensures Above(n, TopByte(n, j)) < 256
    ensures FloorFrom(n, j) > 0
    decreases j
  {
    if j == 0 || Above(n, j + 3) != 0 {
      AboveAbove(n, j, 4);
      AboveBound(Above(n, j), 4);
      assert Scale(1, 4) == 256;
      AboveBound(n, 0);
      AboveAbove(n, j, 3);
      if Above(n, j) == 0 { ZeroAbove(3); }
    } else {
      FloorFromIs(n, j - 1);
    }
  }

  lemma {:induction false} ZeroAbove(k: nat)
    ensures Above(0, k) == 0
  {
    if k > 0 { ZeroAbove(k - 1); }
  }

  lemma FloorEncodable(n: Word)
    requires n >= 256
    ensures EightBits(EightBitFloor(n)).Some?
    ensures 0 < EightBitFloor(n) <= n
    ensures n - EightBitFloor(n) < Scale(1, TopByte(n)) && TopByte(n) <= 12
  {
    hide EightBits, Window, FloorFrom, TopByte;
    ScaleOfOne();
    AboveBound(n, 16);
    FloorFromIs(n, 12);
    hide Above, Scale;
    var j := TopByte(n);
    var h, l := SplitWord(n, j);
    ScaledWindow(EightBitFloor(n), h, j);
    WindowEncodable(EightBitFloor(n), j);
  }

  /**
   Among the values b * 4^i that an unwrapped field denotes, none lies between the
   approximation and n.
   */
  lemma FloorClosest(n: Word, b: nat, i: nat)
    requires n >= 256 && b < 256 && i <= 12 && Scale(b, i) <= n
    ensures Scale(b, i) <= EightBitFloor(n)
  {
    hide FloorFrom, TopByte, Above, Scale;
    ScaleOfOne();
    AboveBound(n, 16);
    FloorFromIs(n, 12);
    var j := TopByte(n);
    var h, l := SplitWord(n, j);
    if i >= j {
      ScaleScale(b, i - j, j);
      if Scale(b, i - j) > h {
        ScaleAdd(h, 1, j);
        ScaleMonotone(h + 1, Scale(b, i - j), j);
      } else {
        ScaleMonotone(Scale(b, i - j), h, j);
      }
    } else {
      TopByteHigh(n, 12);
      AboveAbove(n, j, 3);
      AboveBound(h, 3);
      ScaleScale(1, 3, j);
      ScaleMonotone(Scale(1, 3), h, j);
      ScaleByte(1, i);
      ScaleMonotone(b, 256, i);
      ScaleScale(1, j - i - 1, i + 4);
      ScaleGrows(1, j - i - 1);
      ScaleMonotone(1, Scale(1, j - i - 1), i + 4);
    }
  }

  /**
   A value that fits a field is an unwrapped one, or exceeds by less than 64 an unwrapped one
   whose low 26 bits are clear.
   */
  lemma FieldForms(x: Word) returns (y: Word, b: nat, i: nat)
    requires EightBits(x).Some?
    ensures y <= x < y + 64 && b < 256 && i <= 12 && y == Scale(b, i)
    ensures y != x ==> i == 12 && y % 0x400_0000 == 0
  {
    hide Scale, RolPairs, Above;
    var rot: nat, byte := EightBits(x).value.rot, EightBits(x).value.byte;
    RotatedByte(x);
    var h, l := SplitWord(x, 16 - rot);
    RolPairsForm(x, h, l, rot);
    if rot == 0 {
      ScaleZero(0);
      NoRotation(x);
      y, b, i := x, x, 0;
    } else if rot >= 4 {
      PlainForm(h, l, rot);
      y, b, i := x, h, 16 - rot;
    } else {
      y, b, i := x - l, Scale(h, 4 - rot), 12;
      WrappedForm(h, l, rot);
    }
  }

  /** A field that does not wrap round. */
  lemma PlainForm(h: nat, l: nat, rot: nat)
    requires 4 <= rot <= 15 && h + Scale(l, rot) < 256
    ensures l == 0 && h < 256
  {
    hide Scale;
    if l > 0 {
      ScaleMonotone(1, l, rot);
      SmallerScale(4, rot);
      FourPairs();
    } else {
      ScaleZero(rot);
    }
  }

  /** One that does. */
  lemma WrappedForm(h: nat, l: nat, rot: nat)
    requires 1 <= rot <= 3 && h + Scale(l, rot) < 256 && Scale(h, 16 - rot) < M
    ensures l < 64 && Scale(Scale(h, 4 - rot), 12) == Scale(h, 16 - rot) && Scale(h, 4 - rot) < 256
    ensures Scale(h, 16 - rot) % 0x400_0000 == 0
  {
    hide Scale;
    LowFew(l, rot);
    ScaleScale(h, 4 - rot, 12);
    ByteOnTop(Scale(h, 4 - rot));
    ScaleScale(h, 3 - rot, 13);
    TopScale(Scale(h, 3 - rot), 3);
  }

  lemma RotatedByte(x: Word)
    requires EightBits(x).Some?
    ensures EightBits(x).value.byte == RolPairs(x, EightBits(x).value.rot)
  {
  }

  lemma NoRotation(x: Word)
    ensures RolPairs(x, 0) == x && Scale(x, 0) == x
  {
  }

  lemma FourPairs()
    ensures Scale(1, 4) == 256
  {
  }

  lemma LowFew(l: nat, k: nat)
    requires 1 <= k <= 3
    ensures Scale(l, k) >= 4 * l
  {
    ScaleFew(l);
  }

  lemma ByteOnTop(b: nat)
    requires Scale(b, 12) < M
    ensures b < 256
  {
    hide Scale;
    ScaleOfOne();
    if b >= 256 { ScaleMonotone(256, b, 12); }
  }

  /** A nonzero approximation just above a value with clear low bits is that value. */
  lemma FloorAt(n: Word, b: nat)
    requires n >= 0x400_0000
    ensures var f, y := EightBitFloor(n), Scale(b, 12); y <= f < y + 64 ==> f == y
  {
    hide FloorFrom, TopByte, Above, Scale;
    ScaleOfOne();
    AboveBound(n, 16);
    FloorFromIs(n, 12);
    var j, y := TopByte(n), Scale(b, 12);
    var h, l := SplitWord(n, j);
    HighTop(n, j, h, l);
    ScaleScale(b, 12 - j, j);
    var m := h - Scale(b, 12 - j);
    ScaleSub(h, Scale(b, 12 - j), j);
    if m >= 1 {
      ScaleMonotone(1, m, j);
      SmallerScale(3, j);
      ScaleFew(1);
    } else if m < 0 {
      ScaleLess(m, 0, j);
      ScaleZero(j);
    } else {
      ScaleZero(j);
    }
  }

  lemma HighTop(n: Word, j: nat, h: nat, l: nat)
    requires n >= 0x400_0000 && n == Scale(h, j) + l && h < 256 && l < Scale(1, j)
    ensures j >= 3
  {
    if j < 3 { ScaleFew(h); ScaleFew(1); }
  }

  /** One more than a value whose low 26 bits are clear fits a field that goes round. */
  lemma OneMoreFits(f: Word)
    requires f % 0x400_0000 == 0 && f < M - 1
    ensures EightBits(f + 1).Some?
  {
    hide RolPairs, Scale;
    var t := f / 0x400_0000;
    TopScale(t, 3);
    TopScale(1, 3);
    RolPairsForm(f + 1, t, 1, 3);
    ScaleFew(1);
    assert RolPairs(f + 1, 3) < 256;
  }

  /**
   The approximation is the closest value from below that fits a field, wrapped ones included,
   if and only if it is n itself or does not have its low 26 bits clear.
   */
  lemma FloorExactIff(n: Word)
    requires n >= 256
    ensures (forall x: Word :: x <= n && EightBits(x).Some? ==> x <= EightBitFloor(n))
            <==> EightBitFloor(n) == n || EightBitFloor(n) % 0x400_0000 != 0
  {
    hide EightBits, FloorFrom, EightBitFloor, Scale;
    var f := EightBitFloor(n);
    if f != n && f % 0x400_0000 == 0 {
      OneMoreFits(f);
    } else {
      forall x: Word | x <= n && EightBits(x).Some? ensures x <= f {
        var y, b, i := FieldForms(x);
        FloorClosest(n, b, i);
        if x < 256 {
          NoRotation(x);
          FloorClosest(n, x, 0);
        } else if y != x && x > f {
          FloorAt(n, b);
        }
      }
    }
  }

  lemma ScaleMonotone(a: int, b: int, k: nat)
    requires a <= b
    ensures Scale(a, k) <= Scale(b, k)
  {
    if a < b { ScaleLess(a, b, k); }
  }

  lemma {:induction false} TopByteHigh(n: Word, j: nat)
    ensures TopByte(n, j) <= j && (TopByte(n, j) > 0 ==> Above(n, TopByte(n, j) + 3) != 0)
    decreases j
  {
    if j > 0 && Above(n, j + 3) == 0 { TopByteHigh(n, j - 1); }
  }

  /** How many subtractions a positive constant can need. */
  function Levels(n: Word): nat
  {
    if n < 256 then 0 else if n < 0x1_0000 then 1 else if n < 0x100_0000 then 2 else 3
  }

  lemma LevelsDrop(n: Word)
    requires n >= 256
    ensures Levels(n - EightBitFloor(n)) < Levels(n)
  {
    hide FloorFrom, EightBits;
    FloorEncodable(n);
    ScaleOfOne();
    assert Scale(1, 4) == 256 && Scale(1, 8) == 0x1_0000 by { ScaleScale(1, 4, 4); }
    var j := TopByte(n);
    TopByteBound(n, 12);
    if Levels(n) == 1 { SmallerScale(j, 4); }
    if Levels(n) == 2 { SmallerScale(j, 8); }
    if Levels(n) == 3 { SmallerScale(j, 12); }
  }

  lemma SmallerScale(j: nat, k: nat)
    requires j <= k
    ensures Scale(1, j) <= Scale(1, k)
  {
    ScaleScale(1, k - j, j);
    if Scale(1, k - j) > 1 { ScaleLess(1, Scale(1, k - j), j); }
  }

  /** A constant below 4^(k+4) has its top byte no higher than k. */
  lemma {:induction false} TopByteBound(n: Word, j: nat)
    requires j <= 12
    ensures n < 0x1_0000 ==> TopByte(n, j) <= 4
    ensures n < 0x100_0000 ==> TopByte(n, j) <= 8
    decreases j
  {
    if j > 0 {
      TopByteBound(n, j - 1);
      assert Scale(1, 8) == 0x1_0000 && Scale(1, 12) == 0x100_0000 by {
        ScaleOfOne();
        ScaleScale(1, 4, 4);
        assert Scale(1, 4) == 256;
      }
      if n < 0x1_0000 && j > 4 { SmallerScale(8, j + 3); AboveBound(n, j + 3); }
      if n < 0x100_0000 && j > 8 { SmallerScale(12, j + 3); AboveBound(n, j + 3); }
    }
  }

  // ---- the emitted code ----

  /** The size of n read as a signed integer. */
  function Size(n: Word): Word { if n < TOP then n else Neg(n) }

  /** The 8-bit approximation of n from the side of zero. */
  function Approach(n: Word): Word { if n < TOP then EightBitFloor(n) else Neg(EightBitFloor(Neg(n))) }

  function Beyond(n: Word): Word { Wrap(n - Approach(n)) }

  /** The condition under which the flags so far leave the comparison open. */
  function OpenCond(test: Test, n: Word): Cond
  {
    match test
    case SignedOrder => if n < TOP then GE else LE
    case UnsignedOrder => if n < TOP then HS else LS
    case _ => AL
  }

  lemma TopEncodable()
    ensures EightBits(TOP).Some?
  {
    hide EightBits, Window;
    ScaleOfOne();
    ScaleAdd(1, 1, 15);
    ScaledWindow(TOP, 2, 15);
    WindowEncodable(TOP, 15);
  }

  lemma SmallEncodable(n: Word)
    ensures n < 256 ==> EightBits(n).Some?
  {
  }

  lemma LargeSize(n: Word)
    requires EightBits(n).None? && EightBits(Neg(n)).None?
    ensures n != 0 && n != TOP && 256 <= Size(n) < TOP
    ensures EightBits(Size(n)).None?
  {
    hide EightBits;
    SmallEncodable(n);
    SmallEncodable(Neg(n));
    TopEncodable();
  }

  lemma BeyondIs(n: Word)
    requires n != 0 && n != TOP && 0 < EightBitFloor(Size(n)) < Size(n)
    ensures Size(Approach(n)) == EightBitFloor(Size(n))
    ensures (Approach(n) < TOP) == (n < TOP) && (Beyond(n) < TOP) == (n < TOP)
    ensures Size(Beyond(n)) == Size(n) - EightBitFloor(Size(n))
  {
    hide EightBitFloor;
  }

  /** What the emitter relies on when neither n nor -n fits an immediate field. */
  lemma StepFacts(n: Word)
    requires EightBits(n).None? && EightBits(Neg(n)).None?
    ensures n != 0 && n != TOP && 256 <= Size(n) < TOP
    ensures EightBits(Size(Approach(n))).Some? && 0 < Size(Approach(n)) < Size(n)
    ensures (Approach(n) < TOP) == (n < TOP) && (Beyond(n) < TOP) == (n < TOP)
    ensures Size(Beyond(n)) == Size(n) - Size(Approach(n))
    ensures Levels(Size(Beyond(n))) < Levels(Size(n))
  {
    hide EightBits, EightBitFloor, Levels, Size, Approach, Beyond;
    LargeSize(n);
    FloorEncodable(Size(n));
    BeyondIs(n);
    LevelsDrop(Size(n));
  }

  function CompareCode(r: Reg, n: Word, work: Reg, test: Test, when: Cond, known: Known): Code
    decreases Levels(Size(n))
  {
    hide EightBits, RegisterContainingValue, Approach, Beyond, Levels, Size, AddCode, Denotes;
    var direct, inverse := EightBits(n), EightBits(Neg(n));
    if direct.Some? then [Data(when, CMP, true, 0, r, direct.value)]
    else if inverse.Some? then [Data(when, CMN, true, 0, r, inverse.value)]
    else
      var f := RegisterContainingValue(known, n, CMP_ASK);
      LookupSound(known, n, CMP_ASK);
      if !f.NotFound? then [Data(when, if f.Negated? then CMN else CMP, true, 0, r, Shift(f.r, f.shift))]
      else if test == Unspecified then []
      else
        StepFacts(n);
        AddCode(work, r, Neg(Approach(n)), when, test != Equality, known)
        + CompareCode(work, Beyond(n), work, test, OpenCond(test, n), known)
  }

  /** One instruction does it. */
  predicate Direct(n: Word, known: Known)
  {
    EightBits(n).Some? || EightBits(Neg(n)).Some? || !RegisterContainingValue(known, n, CMP_ASK).NotFound?
  }

  /**
   The other thing that can go wrong: after the work register has been given a partial
   difference, the cache is asked again and offers the work register, whose recorded value
   is by then out of date.
   */
  predicate WorkReadBack(n: Word, work: Reg, known: Known, first: bool := true)
    decreases Levels(Size(n))
  {
    hide Approach, Beyond, Levels, Size;
    if EightBits(n).Some? || EightBits(Neg(n)).Some? then false
    else
      var f := RegisterContainingValue(known, n, CMP_ASK);
      if !f.NotFound? then !first && f.r == work
      else
        StepFacts(n);
        WorkReadBack(Beyond(n), work, known, false)
  }

  /** The comparison made with the register offered by the cache instead of with n. */
  function StaleFlags(a: Word, f: Found): Flags
    requires f.Exact? || f.Negated?
  {
    if f.Negated? then SumFlags(a, Apply(f.shift, a), 0) else CmpFlags(a, Apply(f.shift, a))
  }

  /** The flags at the end, for the value a of the register compared. */
  function EndFlags(a: Word, n: Word, work: Reg, known: Known, test: Test, first: bool := true): Flags
    requires test != Unspecified || Direct(n, known)
    decreases Levels(Size(n))
  {
    hide Approach, Beyond, Levels, Size, EightBits, RegisterContainingValue, Denotes;
    if EightBits(n).Some? || EightBits(Neg(n)).Some? then CmpFlags(a, n)
    else
      var f := RegisterContainingValue(known, n, CMP_ASK);
      LookupSound(known, n, CMP_ASK);
      if !f.NotFound? then if first || f.r != work then CmpFlags(a, n) else StaleFlags(a, f)
      else
        StepFacts(n);
        var g := CmpFlags(a, Approach(n));
        if Holds(OpenCond(test, n), g) then EndFlags(Wrap(a - Approach(n)), Beyond(n), work, known, test, false) else g
  }

  // ---- comparisons by flags ----

  function CmpFlags(a: Word, b: Word): Flags { SumFlags(a, Not(b), 1) }

  /** The conditions of each kind mean what their names say. */
  lemma CmpMeaning(a: Word, b: Word)
    ensures CmpFlags(a, b).z <==> a == b
    ensures CmpFlags(a, b).c <==> a >= b
    ensures (CmpFlags(a, b).n != CmpFlags(a, b).v) <==> Signed(a) < Signed(b)
  {
  }

  lemma AddIsCmp(a: Word, b: Word)
    requires b != 0 && b != TOP
    ensures SumFlags(a, Neg(b), 0) == CmpFlags(a, b)
  {
  }

  /** The flags f answer every condition of the test as g does. */
  predicate Agree(test: Test, f: Flags, g: Flags)
  {
    match test
    case Equality => f.z == g.z
    case SignedOrder => (f.n != f.v) == (g.n != g.v) && (f.z || f.n != f.v) == (g.z || g.n != g.v)
    case UnsignedOrder => f.c == g.c && (f.c && !f.z) == (g.c && !g.z)
    case Unspecified => f == g
  }

  /** Agreement is agreement on the conditions of the test. */
  lemma AgreeHolds(test: Test, f: Flags, g: Flags)
    ensures Agree(test, f, g) <==>
      match test
      case Equality => Holds(EQ, f) == Holds(EQ, g) && Holds(NE, f) == Holds(NE, g)
      case SignedOrder => forall c :: c in {LT, GE, GT, LE} ==> Holds(c, f) == Holds(c, g)
      case UnsignedOrder => forall c :: c in {HS, LO, HI, LS} ==> Holds(c, f) == Holds(c, g)
      case Unspecified => f == g
  {
    assert Holds(LT, f) == (f.n != f.v) && Holds(LE, f) == (f.z || f.n != f.v);
    assert Holds(HS, f) == f.c && Holds(HI, f) == (f.c && !f.z);
  }

  // ---- executing one step ----

  /** Only the work register and the flags may differ. */
  ghost predicate OnlyWork(st: State, end: State, work: Reg)
  {
    end.mem == st.mem && end.regs == st.regs[work := end.regs[work]]
  }

  /** If the condition holds, m is subtracted, with the flags of the comparison; if not, nothing happens. */
  ghost predicate Subtracts(c: Code, st: State, r: Reg, m: Word, work: Reg, when: Cond, s: bool)
  {
    if Holds(when, st.flags) then
      Run(c, st)
      == State(st.regs[work := Wrap(st.regs[r] - m)], if s then CmpFlags(st.regs[r], m) else st.flags, st.mem)
    else Run(c, st) == st
  }

  /** The approximation is subtracted by one conditional instruction, whose flags are those of the comparison. */
  lemma ApproachStep(st: State, r: Reg, n: Word, work: Reg, when: Cond, s: bool, known: Known)
    requires EightBits(n).None? && EightBits(Neg(n)).None?
    ensures var c := AddCode(work, r, Neg(Approach(n)), when, s, known);
            |c| == 1 && Subtracts(c, st, r, Approach(n), work, when, s)
  {
    hide EightBits, Approach, Beyond, Levels, RegisterContainingValue, Run, Exec, Holds;
    StepFacts(n);
    var m := Approach(n);
    NegNot(m);
    SizeCases(m);
    AddCodeDirect(work, r, Neg(m), when, s, known);
    EightBitsSound(m);
    EightBitsSound(Neg(m));
    var c := AddCode(work, r, Neg(m), when, s, known);
    RunOne(c[0], st);
    SubtractStep(st, r, m, work, when, s, c[0].op2, c[0].op);
  }

  lemma SizeCases(m: Word)
    ensures Size(m) == m || Size(m) == Neg(m)
    ensures 0 < Size(m) < TOP ==> m != 0 && m != TOP && Neg(m) != 0
  {
  }

  lemma SubtractStep(st: State, r: Reg, m: Word, work: Reg, when: Cond, s: bool, o: Operand, op: Op)
    requires m != 0 && m != TOP && o.Imm?
    requires (op == ADD && ImmValue(o.rot, o.byte) == Neg(m)) || (op == SUB && ImmValue(o.rot, o.byte) == m)
    ensures var i, a := Data(when, op, s, work, r, o), st.regs[r];
            && (!Holds(when, st.flags) ==> Exec(i, st) == st)
            && (Holds(when, st.flags) ==>
                  Exec(i, st) == State(st.regs[work := Wrap(a - m)], if s then CmpFlags(a, m) else st.flags, st.mem))
  {
    hide ImmValue, ShifterCarry, Result, ResultFlags, SumFlags, Holds, Neg;
    var a := st.regs[r];
    SubtractResult(a, m, ShifterCarry(st.regs, o, st.flags.c), st.flags);
  }

  lemma SubtractResult(a: Word, m: Word, c: bool, f: Flags)
    requires m != 0 && m != TOP
    ensures Result(ADD, a, Neg(m)) == Wrap(a - m) && Result(SUB, a, m) == Wrap(a - m)
    ensures ResultFlags(ADD, a, Neg(m), c, f) == CmpFlags(a, m) && ResultFlags(SUB, a, m, c, f) == CmpFlags(a, m)
  {
    hide And, Bic, Orr, Eor, SumFlags;
    AddIsCmp(a, m);
  }

  /** A comparison made by a single instruction sets the flags of r - n, or those of a stale register. */
  lemma DirectStep(st: State, r: Reg, n: Word, work: Reg, test: Test, when: Cond, known: Known, first: bool)
    requires Direct(n, known) && AgreesBut(known, st.regs, work, first) && (first || r == work)
    ensures var c := CompareCode(r, n, work, test, when, known);
            && |c| == 1
            && (!Holds(when, st.flags) ==> Run(c, st) == st)
            && (Holds(when, st.flags) ==> Run(c, st) == st.(flags := EndFlags(st.regs[r], n, work, known, test, first)))
  {
    hide EightBits, RegisterContainingValue, Run, Exec, Denotes, ImmValue, ShiftBy, SumFlags;
    var c := CompareCode(r, n, work, test, when, known);
    RunOne(c[0], st);
    EightBitsSound(n);
    EightBitsSound(Neg(n));
    if EightBits(n).Some? {
      CompareStep(st, r, n, when, c[0].op2, CMP);
    } else {
      SmallEncodable(n);
      TopEncodable();
      if EightBits(Neg(n)).Some? {
        CompareStep(st, r, n, when, c[0].op2, CMN);
      } else {
        var f := RegisterContainingValue(known, n, CMP_ASK);
        LookupSound(known, n, CMP_ASK);
        FoundKnown(f, known, n);
        if first || f.r != work {
          FoundValue(st, f, known, n);
          CompareStep(st, r, n, when, c[0].op2, c[0].op);
        } else {
          StaleStep(st, work, f, when);
        }
      }
    }
  }

  lemma StaleStep(st: State, work: Reg, f: Found, when: Cond)
    requires (f.Exact? || f.Negated?) && f.r == work
    ensures var i := Data(when, if f.Negated? then CMN else CMP, true, 0, work, Shift(f.r, f.shift));
            && (!Holds(when, st.flags) ==> Exec(i, st) == st)
            && (Holds(when, st.flags) ==> Exec(i, st) == st.(flags := StaleFlags(st.regs[work], f)))
  {
    hide ShiftBy, ShifterCarry, Result, SumFlags, Holds;
  }

  lemma FoundValue(st: State, f: Found, known: Known, n: Word)
    requires (f.Exact? || f.Negated?) && Denotes(f, known, n) && known[f.r].Some? && st.regs[f.r] == known[f.r].value
    ensures OperandValue(st.regs, Shift(f.r, f.shift)) == if f.Negated? then Neg(n) else n
  {
    hide ShiftBy;
    NegNot(Apply(f.shift, st.regs[f.r]));
  }

  lemma CompareStep(st: State, r: Reg, n: Word, when: Cond, o: Operand, op: Op)
    requires (op == CMP && OperandValue(st.regs, o) == n)
          || (op == CMN && OperandValue(st.regs, o) == Neg(n) && n != 0 && n != TOP)
    ensures var i := Data(when, op, true, 0, r, o);
            && (!Holds(when, st.flags) ==> Exec(i, st) == st)
            && (Holds(when, st.flags) ==> Exec(i, st) == st.(flags := CmpFlags(st.regs[r], n)))
  {
    hide OperandValue, ShifterCarry, Result, SumFlags, Holds, Neg;
    if op == CMN { AddIsCmp(st.regs[r], n); }
  }

  // ---- when the step preserves the answer ----

  lemma SignedStep(a: Word, n: Word, m: Word, n': Word)
    requires n != 0 && (m < TOP) == (n < TOP) && (n' < TOP) == (n < TOP) && n' == Wrap(n - m)
    requires if n < TOP then 0 < m < n else n < m < M
    ensures var g := CmpFlags(a, m);
            if Holds(if n < TOP then GE else LE, g)
            then Agree(SignedOrder, CmpFlags(Wrap(a - m), n'), CmpFlags(a, n))
            else Agree(SignedOrder, g, CmpFlags(a, n))
  {
    hide CmpFlags;
    CmpMeaning(a, m);
    CmpMeaning(a, n);
    CmpMeaning(Wrap(a - m), n');
  }

  /** For a negative n the unsigned guard also admits a == m, and there the answer is lost. */
  lemma UnsignedStep(a: Word, n: Word, m: Word, n': Word)
    requires n != 0 && (m < TOP) == (n < TOP) && (n' < TOP) == (n < TOP) && n' == Wrap(n - m)
    requires if n < TOP then 0 < m < n else n < m < M
    ensures var g := CmpFlags(a, m);
            if !Holds(if n < TOP then HS else LS, g) then Agree(UnsignedOrder, g, CmpFlags(a, n))
            else Agree(UnsignedOrder, CmpFlags(Wrap(a - m), n'), CmpFlags(a, n)) <==> (n < TOP || a != m)
  {
    hide CmpFlags;
    CmpMeaning(a, m);
    CmpMeaning(a, n);
    CmpMeaning(Wrap(a - m), n');
  }

  lemma EqualStep(a: Word, n: Word, m: Word)
    ensures Agree(Equality, CmpFlags(Wrap(a - m), Wrap(n - m)), CmpFlags(a, n))
  {
    hide CmpFlags;
    CmpMeaning(Wrap(a - m), Wrap(n - m));
    CmpMeaning(a, n);
  }

  // ---- the whole sequence ----

  /**
   The unsigned comparison of a with a constant at or above 2^31 goes wrong when a is
   exactly one of the values the partial subtractions compare with.
   */
  predicate Lost(a: Word, n: Word, known: Known)
    decreases Levels(Size(n))
  {
    hide EightBits, RegisterContainingValue, Approach, Beyond, Levels, Size;
    if Direct(n, known) || n < TOP then false
    else
      StepFacts(n);
      a == Approach(n) || (a < Approach(n) && Lost(Wrap(a - Approach(n)), Beyond(n), known))
  }

  lemma {:induction false} NotLostBelow(a: Word, n: Word, known: Known)
    requires a + Size(n) < TOP
    ensures !Lost(a, n, known)
    decreases Levels(Size(n))
  {
    hide EightBits, RegisterContainingValue, Beyond, Levels, Approach, Direct, Size, Wrap, Lost;
    LostAbove(a, n, known);
    if Direct(n, known) {
      LostDirect(a, n, known);
    } else if n >= TOP {
      NotDirect(n, known);
      StepFacts(n);
      LostStep(a, n, known);
      FurtherAway(a, n, Approach(n));
      NotLostBelow(Wrap(a - Approach(n)), Beyond(n), known);
    }
  }

  /** Taking away a negative number adds its size. */
  lemma FurtherAway(a: Word, n: Word, m: Word)
    requires m >= TOP && Size(m) < Size(n) && a + Size(n) < TOP
    ensures Wrap(a - m) == a + Size(m) && a < m
  {
  }

  /** Whether the final flags answer the test. */
  predicate Answered(a: Word, n: Word, test: Test, known: Known)
  {
    (test == Unspecified ==> Direct(n, known)) && (test == UnsignedOrder ==> !Lost(a, n, known))
  }

  lemma LostStep(a: Word, n: Word, known: Known)
    requires !Direct(n, known)
    ensures Lost(a, n, known) ==
      (n >= TOP && (a == Approach(n) || (a < Approach(n) && Lost(Wrap(a - Approach(n)), Beyond(n), known))))
  {
    hide EightBits, RegisterContainingValue, Approach, Beyond, Levels, Size, Direct;
  }

  lemma CompareCodeStep(r: Reg, n: Word, work: Reg, test: Test, when: Cond, known: Known)
    requires !Direct(n, known)
    ensures CompareCode(r, n, work, test, when, known) ==
      if test == Unspecified then []
      else AddCode(work, r, Neg(Approach(n)), when, test != Equality, known)
           + CompareCode(work, Beyond(n), work, test, OpenCond(test, n), known)
  {
    hide EightBits, RegisterContainingValue, Approach, Beyond, Levels, Size, AddCode;
  }

  lemma ApproachBounds(n: Word)
    requires EightBits(n).None? && EightBits(Neg(n)).None?
    ensures var m := Approach(n);
            (m < TOP) == (n < TOP) && m != 0 && (if n < TOP then 0 < m < n else n < m < M)
  {
    hide EightBits, Approach, Beyond, Levels;
    StepFacts(n);
  }

  /** One level of the comparison: what the flags say then is right exactly when the step preserves the answer. */
  lemma StepAnswer(a: Word, n: Word, test: Test, known: Known, g: Flags, end: Flags)
    requires !Direct(n, known) && test != Unspecified
    requires test != Equality ==> g == CmpFlags(a, Approach(n))
    requires Holds(OpenCond(test, n), g) ==>
               (Agree(test, end, CmpFlags(Wrap(a - Approach(n)), Beyond(n)))
                <==> Answered(Wrap(a - Approach(n)), Beyond(n), test, known))
    requires !Holds(OpenCond(test, n), g) ==> end == g
    ensures Agree(test, end, CmpFlags(a, n)) <==> Answered(a, n, test, known)
  {
    hide EightBits, RegisterContainingValue, Approach, Beyond, Levels, CmpFlags, Lost;
    ApproachBounds(n);
    StepFacts(n);
    var m, n' := Approach(n), Beyond(n);
    BeyondWraps(n);
    match test
    case Equality => EqualStep(a, n, m);
    case SignedOrder => SignedStep(a, n, m, n');
    case UnsignedOrder =>
      UnsignedStep(a, n, m, n');
      LostStep(a, n, known);
      LostAbove(Wrap(a - m), n', known);
      CmpMeaning(a, m);
      if n >= TOP && a == m {
        NotLostBelow(0, n', known);
      }
  }

  lemma BeyondWraps(n: Word)
    ensures Beyond(n) == Wrap(n - Approach(n))
  {
  }

  lemma LostAbove(a: Word, n: Word, known: Known)
    ensures n < TOP ==> !Lost(a, n, known)
  {
  }

  /** What the code does for any cache: only the work register and the flags change, and these are EndFlags. */
  lemma {:induction false} CompareRun(r: Reg, n: Word, work: Reg, test: Test, when: Cond, known: Known, st: State,
          first: bool)
    requires AgreesBut(known, st.regs, work, first) && (first || r == work)
    requires when == AL || when == OpenCond(test, n)
    ensures var end := Run(CompareCode(r, n, work, test, when, known), st);
            && OnlyWork(st, end, work)
            && (!Holds(when, st.flags) ==> end == st)
            && (Holds(when, st.flags) && (test != Unspecified || Direct(n, known)) ==>
                  end.flags == EndFlags(st.regs[r], n, work, known, test, first))
    decreases Levels(Size(n))
  {
    hide Run, Exec, EightBits, RegisterContainingValue, Approach, Beyond, Levels, Size, AddCode, CmpFlags, Direct,
        CompareCode, EndFlags;
    if Direct(n, known) {
      DirectStep(st, r, n, work, test, when, known, first);
      var end := Run(CompareCode(r, n, work, test, when, known), st);
      assert st.regs[work := end.regs[work]] == st.regs;
    } else {
      CompareCodeStep(r, n, work, test, when, known);
      if test == Unspecified {
        RunNone(st);
        assert st.regs[work := st.regs[work]] == st.regs;
      } else {
        CompareLater(r, n, work, test, when, known, st, first);
      }
    }
  }

  lemma EndFlagsStep(a: Word, n: Word, work: Reg, known: Known, test: Test, first: bool)
    requires !Direct(n, known) && test != Unspecified
    ensures var g := CmpFlags(a, Approach(n));
            EndFlags(a, n, work, known, test, first)
            == if Holds(OpenCond(test, n), g) then EndFlags(Wrap(a - Approach(n)), Beyond(n), work, known, test, false)
                else g
  {
    hide EightBits, RegisterContainingValue, Approach, Beyond, Levels, Size, CmpFlags, Denotes;
  }

  lemma NotDirect(n: Word, known: Known)
    requires !Direct(n, known)
    ensures EightBits(n).None? && EightBits(Neg(n)).None?
  {
  }

  lemma LostDirect(a: Word, n: Word, known: Known)
    requires Direct(n, known)
    ensures !Lost(a, n, known)
  {
  }

  lemma CompareLater(r: Reg, n: Word, work: Reg, test: Test, when: Cond, known: Known, st: State, first: bool)
    requires AgreesBut(known, st.regs, work, first) && (first || r == work)
    requires when == AL || when == OpenCond(test, n)
    requires !Direct(n, known) && test != Unspecified
    ensures var end := Run(CompareCode(r, n, work, test, when, known), st);
            && OnlyWork(st, end, work)
            && (!Holds(when, st.flags) ==> end == st)
            && (Holds(when, st.flags) ==> end.flags == EndFlags(st.regs[r], n, work, known, test, first))
    decreases Levels(Size(n)), 0
  {
    hide Run, Exec, EightBits, RegisterContainingValue, Approach, Beyond, Levels, Size, AddCode, CmpFlags, Direct,
        CompareCode, EndFlags, Holds;
    NotDirect(n, known);
    StepFacts(n);
    CompareCodeStep(r, n, work, test, when, known);
    EndFlagsStep(st.regs[r], n, work, known, test, first);
    var s, m, n' := test != Equality, Approach(n), Beyond(n);
    var code := AddCode(work, r, Neg(m), when, s, known);
    var rest := CompareCode(work, n', work, test, OpenCond(test, n), known);
    ApproachStep(st, r, n, work, when, s, known);
    RunAppend(code, rest, st);
    var mid := Run(code, st);
    assert OpenCond(test, n') == OpenCond(test, n);
    CompareRun(work, n', work, test, OpenCond(test, n), known, mid, false);
    AlwaysHolds(st.flags);
    AlwaysHolds(mid.flags);
    AlwaysHolds(CmpFlags(st.regs[r], m));
  }

  lemma AlwaysHolds(f: Flags)
    ensures Holds(AL, f)
  {
  }

  /** At most four instructions: the five-word buffers suffice. */
  lemma {:induction false} CompareLength(r: Reg, n: Word, work: Reg, test: Test, when: Cond, known: Known)
    ensures |CompareCode(r, n, work, test, when, known)| <= Levels(Size(n)) + 1 <= 4
    decreases Levels(Size(n))
  {
    hide EightBits, RegisterContainingValue, Approach, Beyond, AddCode, Size, Denotes;
    if !Direct(n, known) && test != Unspecified {
      StepFacts(n);
      CompareCodeStep(r, n, work, test, when, known);
      OneSubtraction(r, n, work, test, when, known);
      CompareLength(work, Beyond(n), work, test, OpenCond(test, n), known);
    }
  }

  lemma OneSubtraction(r: Reg, n: Word, work: Reg, test: Test, when: Cond, known: Known)
    requires EightBits(n).None? && EightBits(Neg(n)).None?
    ensures |AddCode(work, r, Neg(Approach(n)), when, test != Equality, known)| == 1
  {
    hide EightBits, AddCode, Approach;
    var st := State(seq(16, _ => 0), Flags(false, false, false, false), map[]);
    ApproachStep(st, r, n, work, when, test != Equality, known);
  }

  // ---- when the cache does not offer the work register ----

  /** Then only the unsigned guard can go wrong. */
  lemma {:induction false} FreshAnswer(a: Word, n: Word, work: Reg, known: Known, test: Test, first: bool)
    requires !WorkReadBack(n, work, known, first) && test != Unspecified
    ensures Agree(test, EndFlags(a, n, work, known, test, first), CmpFlags(a, n)) <==> Answered(a, n, test, known)
    decreases Levels(Size(n))
  {
    hide EightBits, RegisterContainingValue, Approach, Beyond, Levels, Size, CmpFlags, Denotes, Agree, Lost, StaleFlags;
    if Direct(n, known) {
      LookupSound(known, n, CMP_ASK);
      LostDirect(a, n, known);
      AgreeSelf(test, CmpFlags(a, n));
    } else {
      NotDirect(n, known);
      StepFacts(n);
      EndFlagsStep(a, n, work, known, test, first);
      FreshAnswer(Wrap(a - Approach(n)), Beyond(n), work, known, test, false);
      StepAnswer(a, n, test, known, CmpFlags(a, Approach(n)), EndFlags(a, n, work, known, test, first));
    }
  }

  lemma AgreeSelf(test: Test, f: Flags)
    ensures Agree(test, f, f)
  {
  }

  /** A comparison by one instruction is made before the work register is written. */
  lemma DirectIsFresh(a: Word, n: Word, work: Reg, known: Known, test: Test)
    requires Direct(n, known)
    ensures !WorkReadBack(n, work, known) && EndFlags(a, n, work, known, test) == CmpFlags(a, n)
  {
    hide EightBits, RegisterContainingValue, CmpFlags, Denotes;
  }

  /**
   Equality and signed order are answered, and unsigned order when the constant is below
   2^31 or needs one instruction, provided the cache does not offer the work register back.
   */
  lemma CompareCorrect(r: Reg, n: Word, work: Reg, test: Test, known: Known, st: State)
    requires Agrees(known, st.regs) && !WorkReadBack(n, work, known)
    requires test == UnsignedOrder ==> n < TOP || Direct(n, known)
    requires test == Unspecified ==> Direct(n, known)
    ensures var end := Run(CompareCode(r, n, work, test, AL, known), st);
            OnlyWork(st, end, work) && Agree(test, end.flags, CmpFlags(st.regs[r], n))
  {
    hide Run, CompareCode, CmpFlags, Direct, OnlyWork, EndFlags, WorkReadBack, Lost, Agree;
    CompareRun(r, n, work, test, AL, known, st, true);
    LostAbove(st.regs[r], n, known);
    AgreeSelf(test, CmpFlags(st.regs[r], n));
    if Direct(n, known) {
      DirectIsFresh(st.regs[r], n, work, known, test);
    } else {
      FreshAnswer(st.regs[r], n, work, known, test, true);
    }
  }

  /** It is enough that the cache says nothing about the work register. */
  lemma {:induction false} UnknownWork(n: Word, work: Reg, known: Known, first: bool)
    requires known[work].None?
    ensures !WorkReadBack(n, work, known, first)
    decreases Levels(Size(n))
  {
    hide EightBits, RegisterContainingValue, Approach, Beyond, Levels, Size;
    LookupSound(known, n, CMP_ASK);
    if !Direct(n, known) {
      NotDirect(n, known);
      StepFacts(n);
      UnknownWork(Beyond(n), work, known, false);
    }
  }

  // ---- when it does ----

  /** What is left of n when one instruction settles the comparison. */
  function Last(n: Word, known: Known): Word
    decreases Levels(Size(n))
  {
    hide Approach, Beyond, Levels, Size, EightBits, RegisterContainingValue;
    if Direct(n, known) then n
    else
      StepFacts(n);
      Last(Beyond(n), known)
  }

  function LastFound(n: Word, known: Known): Found { RegisterContainingValue(known, Last(n, known), CMP_ASK) }

  /** The value of the register compared for which the work register then holds x. */
  function Back(n: Word, known: Known, x: Word): Word
    decreases Levels(Size(n))
  {
    hide Approach, Beyond, Levels, Size, EightBits, RegisterContainingValue;
    if Direct(n, known) then x
    else
      StepFacts(n);
      Wrap(Back(Beyond(n), known, x) + Approach(n))
  }

  /** A value of the work register that a comparison with a stale register gets wrong. */
  function StaleValue(n: Word, test: Test, known: Known): Word
  {
    var f := LastFound(n, known);
    if test == UnsignedOrder && n < TOP && f.Negated? then
      if f.shift.kind == ASR && f.shift.amount > 0 then Last(n, known) else TOP
    else 0
  }

  lemma {:induction false} LastFacts(n: Word, work: Reg, known: Known, first: bool)
    requires WorkReadBack(n, work, known, first)
    ensures var l, f := Last(n, known), LastFound(n, known);
            && (f.Exact? || f.Negated?) && f.r == work
            && EightBits(l).None? && EightBits(Neg(l)).None? && l != 0 && l != TOP
            && (l < TOP) == (n < TOP) && Size(l) <= Size(n)
            && (Direct(n, known) ==> l == n && !first)
            && (!Direct(n, known) ==> Size(l) <= Size(Beyond(n)))
    decreases Levels(Size(n))
  {
    hide EightBits, RegisterContainingValue, Approach, Beyond, Levels, Size, Denotes;
    LookupSound(known, n, CMP_ASK);
    StepFacts(n);
    if !Direct(n, known) { LastFacts(Beyond(n), work, known, false); }
  }

  lemma {:induction false} BackIs(n: Word, known: Known, x: Word)
    requires n < TOP && x <= TOP
    ensures Last(n, known) <= n && Back(n, known, x) == x + n - Last(n, known)
    decreases Levels(Size(n))
  {
    hide EightBits, RegisterContainingValue, Approach, Beyond, Levels;
    if !Direct(n, known) {
      NotDirect(n, known);
      StepFacts(n);
      BackIs(Beyond(n), known, x);
    }
  }

  lemma {:induction false} BackBelow(n: Word, known: Known)
    requires n >= TOP
    ensures Last(n, known) >= TOP && Size(Last(n, known)) <= Size(n)
    ensures Back(n, known, 0) == Wrap(Size(Last(n, known)) - Size(n))
    decreases Levels(Size(n))
  {
    hide EightBits, RegisterContainingValue, Approach, Beyond, Levels;
    if !Direct(n, known) {
      NotDirect(n, known);
      StepFacts(n);
      BackBelow(Beyond(n), known);
      FurtherBelow(n, Approach(n), Size(Last(n, known)));
      hide Size;
    }
  }

  lemma FurtherBelow(n: Word, m: Word, l: nat)
    requires n >= TOP && m >= TOP && Size(m) < Size(n) && l <= Size(n) - Size(m)
    ensures Wrap(Wrap(l - (Size(n) - Size(m))) + m) == Wrap(l - Size(n))
  {
  }

  lemma {:induction false} TopShiftedLeft(k: nat)
    ensures Lsl(TOP, k) == if k == 0 then TOP else 0
  {
    if k > 0 { TopShiftedLeft(k - 1); }
  }

  lemma {:induction false} TopShiftedRight(k: nat)
    ensures Lsr(TOP, k) <= TOP && (k > 0 ==> Lsr(TOP, k) < TOP)
  {
    if k > 0 { TopShiftedRight(k - 1); }
  }

  lemma {:induction false} TopRotated(k: nat)
    requires k <= 31
    ensures Ror(TOP, k) == Pow2(31 - k)
  {
    hide Pow2, Ror;
    if k == 0 {
      Pow2At31();
      RotatedNone(TOP);
    } else {
      TopRotated(k - 1);
      DoublePower(31 - k);
      RotatedHalf(TOP, k, Pow2(31 - k));
    }
  }

  lemma RotatedNone(x: Word)
    ensures Ror(x, 0) == x
  {
  }

  lemma RotatedHalf(x: Word, k: nat, p: nat)
    requires k > 0 && Ror(x, k - 1) == 2 * p
    ensures Ror(x, k) == p
  {
  }

  lemma DoublePower(k: nat)
    ensures Pow2(k + 1) == 2 * Pow2(k)
  {
  }

  lemma {:induction false} AsrShrinks(x: Word, k: nat)
    requires x < TOP
    ensures Asr(x, k) <= x
  {
    if k > 0 { AsrShrinks(x, k - 1); }
  }

  lemma ZeroShifted(f: Found)
    requires f.Exact? || f.Negated?
    ensures StaleFlags(0, f) == if f.Negated? then SumFlags(0, 0, 0) else CmpFlags(0, 0)
  {
    hide SumFlags, CmpFlags;
    ShiftOfZero(f.shift.kind, f.shift.amount);
  }

  /** A stale comparison of 0 says "equal". */
  lemma StaleZero(f: Found, l: Word, test: Test)
    requires (f.Exact? || f.Negated?) && l != 0 && l != TOP && test != Unspecified
    ensures var s := StaleFlags(0, f); !(s.c && !s.z)
    ensures (test == UnsignedOrder && f.Negated?) || !Agree(test, StaleFlags(0, f), CmpFlags(0, l))
  {
    hide CmpFlags, StaleFlags;
    ZeroShifted(f);
    CmpMeaning(0, 0);
    CmpMeaning(0, l);
  }

  lemma StaleCarry(f: Found, l: Word, x: Word)
    requires f.Negated? && 0 < l < TOP && x == if f.shift.kind == ASR && f.shift.amount > 0 then l else TOP
    ensures !Agree(UnsignedOrder, StaleFlags(x, f), CmpFlags(x, l))
  {
    hide CmpFlags, Lsl, Lsr, Asr, Ror, Pow2;
    var k := f.shift.amount;
    CmpMeaning(x, l);
    AsrShrinks(l, k);
    TopShiftedLeft(k);
    TopShiftedRight(k);
    TopRotated(k);
    AsrNone(TOP);
    if k > 0 { PowerBelowTop(31 - k); }
  }

  lemma AsrNone(x: Word)
    ensures Asr(x, 0) == x && Lsr(x, 0) == x && Ror(x, 0) == x
  {
  }

  lemma {:induction false} PowerBelowTop(k: nat)
    requires k <= 30
    ensures Pow2(k) < TOP
    decreases 30 - k
  {
    if k == 30 {
      DoublePower(30);
      Pow2At31();
    } else {
      PowerBelowTop(k + 1);
      DoublePower(k);
    }
    hide Pow2;
  }

  lemma AgreeChain(test: Test, f: Flags, g: Flags, h: Flags)
    requires !Agree(test, f, g) && Agree(test, g, h)
    ensures !Agree(test, f, h)
  {
  }

  /** Where that value lies: on the far side of the first approximation. */
  lemma BackPlace(n: Word, work: Reg, known: Known, test: Test, first: bool)
    requires WorkReadBack(n, work, known, first) && !Direct(n, known) && (test == UnsignedOrder ==> n < TOP)
    ensures var a, m := Back(n, known, StaleValue(n, test, known)), Approach(n);
            if n < TOP then a >= m && (test != UnsignedOrder ==> a < TOP) else TOP <= a <= m
  {
    hide EightBits, RegisterContainingValue, Approach, Beyond, Levels, LastFound, WorkReadBack;
    NotDirect(n, known);
    StepFacts(n);
    LastFacts(n, work, known, first);
    if n < TOP { BackIs(n, known, StaleValue(n, test, known)); } else { BackBelow(n, known); }
  }

  /** On the way to x the comparison is never settled early, and the partial differences keep the answer. */
  lemma BackOpen(n: Word, work: Reg, known: Known, test: Test, first: bool)
    requires WorkReadBack(n, work, known, first) && !Direct(n, known) && test != Unspecified
             && (test == UnsignedOrder ==> n < TOP)
    ensures var a, m := Back(n, known, StaleValue(n, test, known)), Approach(n);
            && Holds(OpenCond(test, n), CmpFlags(a, m))
            && Wrap(a - m) == Back(Beyond(n), known, StaleValue(n, test, known))
            && Agree(test, CmpFlags(Wrap(a - m), Beyond(n)), CmpFlags(a, n))
  {
    hide EightBits, RegisterContainingValue, Approach, Beyond, Levels, CmpFlags, LastFound, WorkReadBack, StaleValue,
        Back, Size, Direct;
    var x, m, n' := StaleValue(n, test, known), Approach(n), Beyond(n);
    var a := Back(n, known, x);
    NotDirect(n, known);
    StepFacts(n);
    ApproachBounds(n);
    BeyondWraps(n);
    BackStep(n, known, x);
    BackPlace(n, work, known, test, first);
    CmpMeaning(a, m);
    match test
    case Equality => EqualStep(a, n, m);
    case SignedOrder => SignedStep(a, n, m, n');
    case UnsignedOrder => UnsignedStep(a, n, m, n');
  }

  lemma BackStep(n: Word, known: Known, x: Word)
    requires !Direct(n, known)
    ensures Wrap(Back(n, known, x) - Approach(n)) == Back(Beyond(n), known, x)
  {
    hide EightBits, RegisterContainingValue, Approach, Beyond, Levels, Size, Wrap;
    SumBack(Back(Beyond(n), known, x), Approach(n));
  }

  lemma SumBack(x: Word, m: Word)
    ensures Wrap(Wrap(x + m) - m) == x
  {
  }

  lemma StaleValueStep(n: Word, known: Known, test: Test)
    requires !Direct(n, known)
    ensures StaleValue(Beyond(n), test, known) == StaleValue(n, test, known)
  {
    hide EightBits, RegisterContainingValue, Approach, Beyond, Levels, Size;
    NotDirect(n, known);
    StepFacts(n);
  }

  lemma WorkReadBackStep(n: Word, work: Reg, known: Known, first: bool)
    requires WorkReadBack(n, work, known, first) && !Direct(n, known)
    ensures WorkReadBack(Beyond(n), work, known, false)
  {
    hide EightBits, RegisterContainingValue, Approach, Beyond, Levels, Size;
  }

  lemma StaleEnd(a: Word, n: Word, work: Reg, known: Known, test: Test, first: bool)
    requires WorkReadBack(n, work, known, first) && Direct(n, known)
    ensures LastFound(n, known).Exact? || LastFound(n, known).Negated?
    ensures EndFlags(a, n, work, known, test, first) == StaleFlags(a, LastFound(n, known))
  {
    hide EightBits, RegisterContainingValue, CmpFlags, StaleFlags, Denotes;
    LookupSound(known, n, CMP_ASK);
  }

  lemma {:induction false} ReadBackWrong(n: Word, work: Reg, known: Known, test: Test, first: bool)
    requires WorkReadBack(n, work, known, first) && test != Unspecified && (test == UnsignedOrder ==> n < TOP)
    ensures var a := Back(n, known, StaleValue(n, test, known));
            !Agree(test, EndFlags(a, n, work, known, test, first), CmpFlags(a, n))
    decreases Levels(Size(n))
  {
    hide EightBits, RegisterContainingValue, Approach, Beyond, Levels, Size, CmpFlags, Agree, EndFlags, StaleFlags,
        LastFound;
    var x := StaleValue(n, test, known);
    LastFacts(n, work, known, first);
    if Direct(n, known) {
      StaleEnd(x, n, work, known, test, first);
      StaleZero(LastFound(n, known), n, test);
      if x != 0 { StaleCarry(LastFound(n, known), n, x); }
    } else {
      var a, b := Back(n, known, x), Back(Beyond(n), known, x);
      NotDirect(n, known);
      StepFacts(n);
      WorkReadBackStep(n, work, known, first);
      StaleValueStep(n, known, test);
      ReadBackWrong(Beyond(n), work, known, test, false);
      BackOpen(n, work, known, test, first);
      EndFlagsStep(a, n, work, known, test, first);
      AgreeChain(test, EndFlags(b, Beyond(n), work, known, test, false), CmpFlags(b, Beyond(n)), CmpFlags(a, n));
    }
  }

  lemma BackPlaceBelow(n: Word, work: Reg, known: Known, first: bool)
    requires WorkReadBack(n, work, known, first) && !Direct(n, known) && n >= TOP
    ensures Back(n, known, 0) <= Approach(n)
  {
    hide EightBits, RegisterContainingValue, Approach, Beyond, Levels, LastFound, WorkReadBack;
    NotDirect(n, known);
    StepFacts(n);
    LastFacts(n, work, known, first);
    BackBelow(n, known);
    hide Back, Last, Direct;
    NoHigher(n, Approach(n), Size(Last(n, known)));
  }

  lemma NoHigher(n: Word, m: Word, l: nat)
    requires n >= TOP && m >= TOP && l <= Size(n) - Size(m)
    ensures Wrap(l - Size(n)) <= m
  {
  }

  /** A constant at or above 2^31: the answer is "higher", and the stale comparison of 0 does not say so. */
  lemma {:induction false} ReadBackHigh(n: Word, work: Reg, known: Known, first: bool)
    requires WorkReadBack(n, work, known, first) && n >= TOP
    ensures var e := EndFlags(Back(n, known, 0), n, work, known, UnsignedOrder, first); !(e.c && !e.z)
    decreases Levels(Size(n))
  {
    hide EightBits, RegisterContainingValue, Approach, Beyond, Levels, CmpFlags, EndFlags, StaleFlags, LastFound;
    LastFacts(n, work, known, first);
    if Direct(n, known) {
      StaleEnd(0, n, work, known, UnsignedOrder, first);
      StaleZero(LastFound(n, known), n, UnsignedOrder);
    } else {
      var a := Back(n, known, 0);
      NotDirect(n, known);
      StepFacts(n);
      BackPlaceBelow(n, work, known, first);
      BackStep(n, known, 0);
      WorkReadBackStep(n, work, known, first);
      hide WorkReadBack, Back, Direct, Size;
      CmpMeaning(a, Approach(n));
      EndFlagsStep(a, n, work, known, UnsignedOrder, first);
      ReadBackHigh(Beyond(n), work, known, false);
    }
  }

  /** Whenever the work register is read back, the answer is wrong for some value. */
  lemma ReadBackValue(n: Word, work: Reg, known: Known, test: Test) returns (a: Word)
    requires WorkReadBack(n, work, known) && test != Unspecified
    ensures !Agree(test, EndFlags(a, n, work, known, test), CmpFlags(a, n))
  {
    hide EightBits, RegisterContainingValue, Approach, Beyond, Levels, CmpFlags, EndFlags, LastFound, WorkReadBack;
    if test == UnsignedOrder && n >= TOP {
      a := Back(n, known, 0);
      LastFacts(n, work, known, true);
      ReadBackHigh(n, work, known, true);
      NotDirect(n, known);
      StepFacts(n);
      BackBelow(n, known);
      CmpMeaning(a, n);
    } else {
      a := Back(n, known, StaleValue(n, test, known));
      ReadBackWrong(n, work, known, test, true);
    }
  }

  lemma LostValue(n: Word, known: Known) returns (a: Word)
    requires n >= TOP && !Direct(n, known)
    ensures Lost(a, n, known)
  {
    hide Lost, Direct, Approach;
    a := Approach(n);
    LostStep(a, n, known);
  }

  /** What the compiler can check before it uses the chain. */
  predicate Answerable(n: Word, work: Reg, known: Known, test: Test)
  {
    !WorkReadBack(n, work, known) && (test == UnsignedOrder ==> n < TOP || Direct(n, known))
  }

  /** The values for which the answer can be wrong. */
  lemma AnswerableIff(n: Word, work: Reg, known: Known, test: Test)
    requires test != Unspecified
    ensures (forall a: Word :: Agree(test, EndFlags(a, n, work, known, test), CmpFlags(a, n)))
            <==> Answerable(n, work, known, test)
  {
    hide Direct, EndFlags, CmpFlags, Agree, Lost, WorkReadBack;
    if WorkReadBack(n, work, known) {
      var a := ReadBackValue(n, work, known, test);
    } else {
      forall a: Word
        ensures Agree(test, EndFlags(a, n, work, known, test), CmpFlags(a, n)) <==> Answered(a, n, test, known)
      {
        FreshAnswer(a, n, work, known, test, true);
      }
      if Answerable(n, work, known, test) {
        forall a: Word ensures Answered(a, n, test, known) {
          LostAbove(a, n, known);
          if Direct(n, known) { LostDirect(a, n, known); }
        }
      } else {
        var a := LostValue(n, known);
        assert !Answered(a, n, test, known);
      }
    }
  }

  // ---- a register whose value is known ----

  /** Is the comparison still open after the approximation has been taken from a? */
  predicate Open(a: Word, n: Word, test: Test)
  {
    var m := Approach(n);
    match test
    case SignedOrder => if n < TOP then Signed(a) >= Signed(m) else Signed(a) <= Signed(m)
    case UnsignedOrder => if n < TOP then a >= m else a <= m
    case _ => true
  }

  /** What is left of a for the last instruction, unless the comparison is settled before. */
  function Left(a: Word, n: Word, known: Known, test: Test): Option<Word>
    decreases Levels(Size(n))
  {
    hide Approach, Beyond, Levels, Size, EightBits, RegisterContainingValue, Open;
    if Direct(n, known) then Some(a)
    else if !Open(a, n, test) then None
    else
      StepFacts(n);
      Left(Wrap(a - Approach(n)), Beyond(n), known, test)
  }

  /** Does comparing x with the register offered instead, as it then is, say of x what holds of v against n? */
  predicate StaleRight(test: Test, x: Word, f: Found, v: Word, n: Word)
    requires f.Exact? || f.Negated?
  {
    var y := Apply(f.shift, x);
    var equal := if f.Negated? then Wrap(x + y) == 0 else x == y;
    match test
    case Equality => equal == (v == n)
    case SignedOrder =>
      var less := if f.Negated? then Signed(x) + Signed(y) < 0 else Signed(x) < Signed(y);
      less == (Signed(v) < Signed(n)) && (less || equal) == (Signed(v) <= Signed(n))
    case UnsignedOrder =>
      var least := if f.Negated? then x + y >= M else x >= y;
      least == (v >= n) && (least && !equal) == (v > n)
    case Unspecified => false
  }

  /**
   What the compiler can check when the cache holds the value v of the register compared: the
   work register is offered back only if v settles the comparison before or is then answered
   alike, and otherwise v is none of the values that an unsigned comparison loses.
   */
  predicate KnownAnswered(v: Word, n: Word, work: Reg, known: Known, test: Test)
  {
    if WorkReadBack(n, work, known) then
      LastFacts(n, work, known, true);
      var left := Left(v, n, known, test);
      left.Some? ==> StaleRight(test, left.value, LastFound(n, known), v, n)
    else test == UnsignedOrder ==> !Lost(v, n, known)
  }

  lemma CmnMeaning(x: Word, y: Word)
    ensures SumFlags(x, y, 0).z <==> Wrap(x + y) == 0
    ensures SumFlags(x, y, 0).c <==> x + y >= M
    ensures (SumFlags(x, y, 0).n != SumFlags(x, y, 0).v) <==> Signed(x) + Signed(y) < 0
  {
  }

  lemma StaleRightIff(test: Test, x: Word, f: Found, v: Word, n: Word)
    requires (f.Exact? || f.Negated?) && test != Unspecified
    ensures StaleRight(test, x, f, v, n) <==> Agree(test, StaleFlags(x, f), CmpFlags(v, n))
  {
    hide CmpFlags, SumFlags, Apply;
    var y := Apply(f.shift, x);
    CmpMeaning(v, n);
    CmpMeaning(x, y);
    CmnMeaning(x, y);
    SignedSame(v, n);
  }

  lemma SignedSame(v: Word, n: Word)
    ensures v == n <==> Signed(v) == Signed(n)
  {
  }

  lemma OpenIff(a: Word, n: Word, test: Test)
    requires test != Unspecified
    ensures Open(a, n, test) <==> Holds(OpenCond(test, n), CmpFlags(a, Approach(n)))
  {
    hide CmpFlags, Approach;
    CmpMeaning(a, Approach(n));
    SignedSame(a, Approach(n));
  }

  lemma LeftStep(a: Word, n: Word, known: Known, test: Test)
    requires !Direct(n, known)
    ensures Left(a, n, known, test)
            == if Open(a, n, test) then Left(Wrap(a - Approach(n)), Beyond(n), known, test) else None
  {
    hide Approach, Beyond, Levels, Size, EightBits, RegisterContainingValue, Open;
  }

  lemma LastStep(n: Word, known: Known)
    requires !Direct(n, known)
    ensures LastFound(Beyond(n), known) == LastFound(n, known)
  {
    hide Approach, Beyond, Levels, Size, EightBits, RegisterContainingValue;
  }

  /** A comparison not settled before ends with the stale one. */
  lemma {:induction false} LeftEnd(a: Word, n: Word, work: Reg, known: Known, test: Test, first: bool)
    requires WorkReadBack(n, work, known, first) && test != Unspecified && Left(a, n, known, test).Some?
    ensures var f := LastFound(n, known);
            && (f.Exact? || f.Negated?)
            && EndFlags(a, n, work, known, test, first) == StaleFlags(Left(a, n, known, test).value, f)
    decreases Levels(Size(n))
  {
    hide EightBits, RegisterContainingValue, Approach, Beyond, Levels, Size, CmpFlags, StaleFlags, Open, LastFound,
        EndFlags, WorkReadBack, Direct;
    if Direct(n, known) {
      StaleEnd(a, n, work, known, test, first);
    } else {
      NotDirect(n, known);
      StepFacts(n);
      LeftStep(a, n, known, test);
      LastStep(n, known);
      OpenIff(a, n, test);
      WorkReadBackStep(n, work, known, first);
      EndFlagsStep(a, n, work, known, test, first);
      LeftEnd(Wrap(a - Approach(n)), Beyond(n), work, known, test, false);
    }
  }

  /** Once the unsigned guard has let a value through wrongly, the chain goes on to the end. */
  lemma {:induction false} LowReaches(a: Word, n: Word, known: Known)
    requires n >= TOP && a + Size(n) < TOP
    ensures Left(a, n, known, UnsignedOrder).Some?
    decreases Levels(Size(n))
  {
    hide EightBits, RegisterContainingValue, Beyond, Levels, Approach, Direct, Size, Wrap;
    if !Direct(n, known) {
      NotDirect(n, known);
      StepFacts(n);
      LeftStep(a, n, known, UnsignedOrder);
      FurtherAway(a, n, Approach(n));
      LowReaches(Wrap(a - Approach(n)), Beyond(n), known);
    }
  }

  /** One step: an open comparison keeps its answer unless the next chain then runs to the end, a closed one has it. */
  lemma OpenStep(a: Word, n: Word, known: Known, test: Test)
    requires !Direct(n, known) && test != Unspecified && Left(a, n, known, test).None?
    ensures var m := Approach(n);
            if Open(a, n, test) then Agree(test, CmpFlags(Wrap(a - m), Beyond(n)), CmpFlags(a, n))
            else Agree(test, CmpFlags(a, m), CmpFlags(a, n))
  {
    hide EightBits, RegisterContainingValue, Approach, Beyond, Levels, CmpFlags, Direct, Open;
    NotDirect(n, known);
    ApproachBounds(n);
    StepFacts(n);
    BeyondWraps(n);
    LeftStep(a, n, known, test);
    OpenIff(a, n, test);
    var m, n' := Approach(n), Beyond(n);
    match test
    case Equality => EqualStep(a, n, m);
    case SignedOrder => SignedStep(a, n, m, n');
    case UnsignedOrder =>
      UnsignedStep(a, n, m, n');
      if n >= TOP && a == m { LowReaches(0, n', known); }
  }

  /** A comparison settled before its last instruction is settled rightly. */
  lemma {:induction false} SettledEarly(a: Word, n: Word, work: Reg, known: Known, test: Test, first: bool)
    requires test != Unspecified && Left(a, n, known, test).None?
    ensures Agree(test, EndFlags(a, n, work, known, test, first), CmpFlags(a, n))
    decreases Levels(Size(n))
  {
    hide EightBits, RegisterContainingValue, Approach, Beyond, Levels, Size, CmpFlags, StaleFlags, Open, EndFlags,
        Agree;
    NotDirect(n, known);
    StepFacts(n);
    LeftStep(a, n, known, test);
    OpenIff(a, n, test);
    OpenStep(a, n, known, test);
    EndFlagsStep(a, n, work, known, test, first);
    if Open(a, n, test) {
      var b := Wrap(a - Approach(n));
      SettledEarly(b, Beyond(n), work, known, test, false);
      AgreeOn(test, EndFlags(b, Beyond(n), work, known, test, false), CmpFlags(b, Beyond(n)), CmpFlags(a, n));
    }
  }

  lemma AgreeOn(test: Test, f: Flags, g: Flags, h: Flags)
    requires Agree(test, f, g) && Agree(test, g, h)
    ensures Agree(test, f, h)
  {
  }

  lemma KnownAnsweredIff(v: Word, n: Word, work: Reg, known: Known, test: Test)
    requires test != Unspecified
    ensures KnownAnswered(v, n, work, known, test)
            <==> Agree(test, EndFlags(v, n, work, known, test), CmpFlags(v, n))
  {
    hide EndFlags, CmpFlags, Agree, Lost, WorkReadBack, Left, LastFound, StaleFlags, StaleRight;
    if !WorkReadBack(n, work, known) {
      FreshAnswer(v, n, work, known, test, true);
    } else if Left(v, n, known, test).Some? {
      LeftEnd(v, n, work, known, test, true);
      StaleRightIff(test, Left(v, n, known, test).value, LastFound(n, known), v, n);
    } else {
      SettledEarly(v, n, work, known, test, true);
    }
  }

  /**
   In every state that matches the cache the conditions of the test are answered, exactly
   when the work register is not read back and, for unsigned order, the constant is below
   2^31 or needs one instruction.  Of a register whose value is in the cache that one value
   is what counts: whether it is lost on the way, or what is left of it against the register
   offered back.
   */
  lemma CompareIff(r: Reg, n: Word, work: Reg, test: Test, known: Known)
    requires test != Unspecified
    ensures (forall st: State :: Agrees(known, st.regs) ==>
               Agree(test, Run(CompareCode(r, n, work, test, AL, known), st).flags, CmpFlags(st.regs[r], n)))
            <==> match known[r]
                 case None => Answerable(n, work, known, test)
                 case Some(v) => KnownAnswered(v, n, work, known, test)
  {
    hide Run, CompareCode, CmpFlags, Direct, EndFlags, WorkReadBack, Agree, Answerable, KnownAnswered;
    forall st: State | Agrees(known, st.regs)
      ensures Run(CompareCode(r, n, work, test, AL, known), st).flags == EndFlags(st.regs[r], n, work, known, test)
    {
      hide Agrees;
      AgreesFirst(known, st.regs, work);
      CompareRun(r, n, work, test, AL, known, st, true);
      AlwaysHolds(st.flags);
    }
    AnswerableIff(n, work, known, test);
    var a: Word := if known[r].Some? then known[r].value else 0;
    if known[r].Some? { KnownAnsweredIff(a, n, work, known, test); }
    if known[r].None? && !Answerable(n, work, known, test) {
      a :| !Agree(test, EndFlags(a, n, work, known, test), CmpFlags(a, n));
    }
    var st := StateWith(known, r, a);
    assert Agrees(known, st.regs) && st.regs[r] == a;
  }

  lemma AgreesFirst(known: Known, regs: Regs, work: Reg)
    requires Agrees(known, regs)
    ensures AgreesBut(known, regs, work, true)
  {
  }

  // ---- as the source writes it ----

  /** Slide an eight-bit window down from the top of n until its top pair is not 00. */
  method FindFloor(n: Word) returns (f: Word)
    ensures f == EightBitFloor(n)
  {
    hide Above, Scale;
    if n < 256 { return n; }
    var j := 12;
    while j > 0 && Above(n, j + 3) == 0
      invariant 0 <= j <= 12
      invariant FloorFrom(n, j) == FloorFrom(n, 12)
    {
      j := j - 1;
    }
    FloorBelow(n, j);
    f := Scale(Above(n, j), j);
  }

  method CompareIntegerI(r: Reg, n: Word, work: Reg, test: Test, when: Cond, known: Known, out: InstrBuffer)
    requires out.Valid() && out.len + |CompareCode(r, n, work, test, when, known)| <= out.slots.Length
    modifies out`len, out.slots
    ensures out.Valid() && out.Contents() == old(out.Contents()) + CompareCode(r, n, work, test, when, known)
    decreases Levels(Size(n))
  {
    hide EightBits, RegisterContainingValue, EightBitFloor, Beyond, Levels, Size, AddCode, Denotes, Neg;
    var op := CMP;
    var packed := FindEightBits(n);
    if packed.None? {
      op := CMN;
      packed := FindEightBits(Neg(n));
    }
    if packed.Some? {
      out.Emit(Data(when, op, true, 0, r, packed.value));
      return;
    }
    var f := RegisterContainingValue(known, n, CMP_ASK);
    LookupSound(known, n, CMP_ASK);
    if !f.NotFound? {
      out.Emit(Data(when, if f.Negated? then CMN else CMP, true, 0, r, Shift(f.r, f.shift)));
      return;
    }
    if test == Unspecified { return; }
    StepFacts(n);
    var m: Word;
    if n < TOP {
      m := FindFloor(n);
    } else {
      m := FindFloor(Neg(n));
      m := Neg(m);
    }
    ghost var before := out.Contents();
    ArmAddInteger(work, r, Neg(m), when, test != Equality, known, out);
    assert out.len == |before| + |AddCode(work, r, Neg(m), when, test != Equality, known)|;
    CompareIntegerI(work, Beyond(n), work, test, OpenCond(test, n), known, out);
  }
}
