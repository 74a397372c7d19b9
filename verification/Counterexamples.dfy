/**
 Concrete inputs on which the code does not do what is asked of it, one for each of the
 conditions in the exact theorems.  Those of the combiner are in CombinerFaults.
 */
module Counterexamples {
  import opened Words
  import opened Arm
  import opened Immediates
  import opened KnownValues
  import opened AddConstant
  import opened LogicConstant
  import opened LoadConstant
  import opened CompareConstant
  import opened Transfers
  import opened FlushExact
  import Combiner
  import opened CombinerPlan
  import BlockMove
  import BlockLength
  import FpMap
  import Int64

  // ---- a constant too wide for an immediate field, as is its negation ----

  const SPREAD: Word := 0x1_01ff

  const TWO_BITS: Word := 0x101

  const THREE_BITS: Word := 0x1_0101

  /** A byte moved under rotation by two places keeps its bits within eight places of one another. */
  lemma BitOfFours(y: nat, t: nat, i: nat)
    requires t < 4
    ensures Bit(4 * y + t, i + 2) == Bit(y, i)
  {
    var x := 4 * y + t;
    assert Bit(x, i + 2) == Bit(x / 2, i + 1) == Bit(x / 2 / 2, i);
    assert x / 2 / 2 == y;
  }

  lemma {:induction false} BitOfLow(x: nat, m: nat, i: nat)
    requires i < m
    ensures Bit(x % Pow2(m), i) == Bit(x, i)
  {
    LowHalves(x, Pow2(m - 1));
    if i > 0 { BitOfLow(x / 2, m - 1, i - 1); }
  }

  lemma LowHalves(x: nat, p: nat)
    requires p > 0
    ensures x % (2 * p) % 2 == x % 2 && x % (2 * p) / 2 == x / 2 % p
  {
    var q, r := x / 2 / p, x / 2 % p;
    assert x / 2 == p * q + r;
    assert x == 2 * p * q + (2 * r + x % 2);
    DivUnique(x, 2 * p, q, 2 * r + x % 2);
  }

  lemma {:induction false} BitDown(x: Word, k: nat, e: nat)
    ensures Bit(x, k + e) == Bit(Lsr(x, k), e)
    decreases k
  {
    if k > 0 { BitDown(x, k - 1, e + 1); }
  }

  lemma BitTurns(x: Word, i: nat)
    requires i < 32
    ensures Bit(Rol2(x), if i < 30 then i + 2 else i - 30) == Bit(x, i)
  {
    hide Bit, Rol2, Lsr, Pow2;
    var y, t := TurnParts(x);
    if i < 30 {
      BitOfFours(y, t, i);
      BitOfLow(x, 30, i);
    } else {
      BitDown(x, 30, i - 30);
      LastBits(y, t);
    }
  }

  lemma TurnParts(x: Word) returns (y: nat, t: Word)
    ensures y == x % Pow2(30) && t == Lsr(x, 30) && t < 4 && Rol2(x) == 4 * y + t
  {
    ThirtyPlaces();
    LsrIsQuotient(x, 30);
    hide Lsr, Pow2;
    y, t := x % 0x4000_0000, x / 0x4000_0000;
  }

  lemma ThirtyPlaces()
    ensures Pow2(30) == 0x4000_0000
  {
    Pow2At31();
    DoublePower(30);
  }

  lemma LastBits(y: nat, t: nat)
    requires t < 4
    ensures Bit(4 * y + t, 0) == Bit(t, 0) && Bit(4 * y + t, 1) == Bit(t, 1)
  {
    hide Bit;
    SecondBit(4 * y + t);
    SecondBit(t);
    DivUnique(4 * y + t, 2, 2 * y + t / 2, t % 2);
    DivUnique(2 * y + t / 2, 2, y, t / 2);
    DivUnique(t / 2, 2, 0, t / 2);
  }

  lemma SecondBit(x: nat)
    ensures Bit(x, 0) == x % 2 && Bit(x, 1) == x / 2 % 2
  {
    assert Bit(x, 1) == Bit(x / 2, 0);
  }

  lemma HighBits(x: Word, i: nat)
    requires x < 256 && i >= 8
    ensures Bit(x, i) == 0
  {
    EightPlaces();
    LsrIsQuotient(x, 8);
    BitDown(x, 8, i - 8);
    ZeroBits(i - 8);
  }

  lemma {:induction false} ZeroBits(i: nat)
    ensures Bit(0, i) == 0
  {
    if i > 0 { ZeroBits(i - 1); }
  }

  /** Two bits at least eight places apart, whichever way round, fit no field. */
  lemma {:induction false} FarBits(n: Word, i: nat, j: nat, rot: nat)
    requires rot <= 16 && i < 32 && j < 32 && Bit(n, i) == 1 && Bit(n, j) == 1 && 8 <= (j + 32 - i) % 32 <= 24
    ensures EightBitsFrom(n, rot).None?
    decreases 16 - rot
  {
    hide Rol2, Bit;
    if rot < 16 {
      if n < 256 {
        if i >= 8 { HighBits(n, i); }
        if j >= 8 { HighBits(n, j); }
      }
      BitTurns(n, i);
      BitTurns(n, j);
      FarBits(Rol2(n), if i < 30 then i + 2 else i - 30, if j < 30 then j + 2 else j - 30, rot + 1);
    }
  }

  lemma BitIs(x: Word, k: nat, d: nat)
    requires d == Pow2(k)
    ensures Bit(x, k) == x / d % 2
  {
    BitDown(x, k, 0);
    LsrIsQuotient(x, k);
  }

  lemma BitsFromEight(n: Word)
    ensures Bit(n, 0) == n % 2 && Bit(n, 8) == n / 256 % 2 && Bit(n, 9) == n / 512 % 2
    ensures Bit(n, 16) == n / 0x1_0000 % 2 && Bit(n, 17) == n / 0x2_0000 % 2
  {
    EightPlaces();
    hide Bit, Pow2;
    SecondBit(n);
    BitIs(n, 8, 256);
    BitIs(n, 9, 512);
    BitIs(n, 16, 0x1_0000);
    BitIs(n, 17, 0x2_0000);
  }

  lemma EightPlaces()
    ensures Pow2(8) == 256 && Pow2(9) == 512 && Pow2(16) == 0x1_0000 && Pow2(17) == 0x2_0000
  {
    assert Pow2(8) == 256;
    Pow2Add(8, 8);
    Pow2Add(16, 1);
    Pow2Add(8, 1);
  }

  /** Bits 0 and 8, or 0 and 9, or 8 and 16, or 8 and 17. */
  lemma NoFieldFor(n: Word)
    requires n % 2 == 1 || n / 256 % 2 == 1
    requires n % 2 == 1 ==> n / 256 % 2 == 1 || n / 512 % 2 == 1
    requires n % 2 == 0 ==> n / 0x1_0000 % 2 == 1 || n / 0x2_0000 % 2 == 1
    ensures EightBits(n).None?
  {
    hide EightBitsFrom, Bit;
    BitsFromEight(n);
    if n % 2 == 1 {
      FarBits(n, 0, if n / 256 % 2 == 1 then 8 else 9, 0);
    } else {
      FarBits(n, 8, if n / 0x1_0000 % 2 == 1 then 16 else 17, 0);
    }
  }

  lemma NoField()
    ensures EightBits(SPREAD).None? && EightBits(Neg(SPREAD)).None?
    ensures EightBits(0x1_0100).None? && EightBits(Neg(0x1_0100)).None?
    ensures EightBits(TWO_BITS).None? && EightBits(Neg(TWO_BITS)).None?
    ensures EightBits(THREE_BITS).None? && EightBits(Neg(THREE_BITS)).None?
  {
    hide EightBits;
    NoFieldFor(SPREAD);
    NoFieldFor(Neg(SPREAD));
    NoFieldFor(0x1_0100);
    NoFieldFor(Neg(0x1_0100));
    NoFieldFor(TWO_BITS);
    NoFieldFor(Neg(TWO_BITS));
    NoFieldFor(THREE_BITS);
    NoFieldFor(Neg(THREE_BITS));
  }

  // ---- comparing ----

  lemma NothingAbove(n: Word, p: nat, j: nat)
    requires p <= j && Above(n, p) == 0
    ensures Above(n, j) == 0
  {
    AboveAbove(n, p, j - p);
    ZeroAbove(j - p);
  }

  lemma {:induction false} FloorSkips(n: Word, k: nat, j: nat)
    requires k <= j && Above(n, k + 4) == 0
    ensures FloorFrom(n, j) == FloorFrom(n, k)
    decreases j
  {
    if k < j {
      NothingAbove(n, k + 4, j + 3);
      FloorSkips(n, k, j - 1);
    }
  }

  lemma PairsAbove(n: Word)
    requires n / 256 == 0x101
    ensures Above(n, 4) % 4 == 1 && Above(n, 5) == 64 && Above(n, 8) == 1 && Above(n, 9) == 0
  {
    AboveSteps(n);
    AboveAbove(n, 3, 1);
    AboveSteps(0x101);
    AboveAbove(n, 4, 1);
    AboveAbove(n, 4, 3);
    AboveAbove(n, 7, 2);
    AboveAbove(n, 7, 1);
    AboveSteps(4);
  }

  lemma FloorIs(n: Word)
    requires n / 256 == 0x101
    ensures EightBitFloor(n) == 0x1_0000
  {
    hide Above;
    PairsAbove(n);
    FloorSkips(n, 5, 12);
    assert Scale(64, 5) == 0x1_0000;
  }

  lemma NothingFound(n: Word)
    ensures RegisterContainingValue(UNKNOWN, n, CMP_ASK).NotFound?
  {
    NothingFrom(UNKNOWN, n, CMP_ASK, 0);
  }

  /** With r0 = 0xffff0000 the code for comparing it with -0x101ff reports "lower or same"; r0 is higher. */
  lemma HigherTakenForLower(st: State)
    requires st.regs[0] == 0xffff_0000
    ensures Holds(LS, Run(CompareCode(0, Neg(SPREAD), IP, UnsignedOrder, AL, UNKNOWN), st).flags)
    ensures st.regs[0] > Neg(SPREAD)
  {
    hide Run, CompareCode, CmpFlags, EightBits, EightBitFloor, RegisterContainingValue, WorkReadBack, EndFlags, Lost;
    var n := Neg(SPREAD);
    NoField();
    FloorIs(SPREAD);
    NothingFound(n);
    LostStep(st.regs[0], n, UNKNOWN);
    UnknownWork(n, IP, UNKNOWN, true);
    CompareRun(0, n, IP, UnsignedOrder, AL, UNKNOWN, st, true);
    FreshAnswer(st.regs[0], n, IP, UNKNOWN, UnsignedOrder, true);
    CmpMeaning(st.regs[0], n);
  }

  /** IP, the work register of every comparison, is known to hold 0x101. */
  const WORK_KNOWN: Known := UNKNOWN[IP := Some(TWO_BITS)]

  lemma WorkLookups()
    ensures RegisterContainingValue(WORK_KNOWN, THREE_BITS, CMP_ASK).NotFound?
    ensures RegisterContainingValue(WORK_KNOWN, TWO_BITS, CMP_ASK) == Exact(IP, UNSHIFTED)
  {
    hide FindShift, RegisterContainingValue;
    OneKnown(WORK_KNOWN, IP, THREE_BITS, CMP_ASK);
    OneKnown(WORK_KNOWN, IP, TWO_BITS, CMP_ASK);
    forall kind, target | target == THREE_BITS || target == Neg(THREE_BITS)
      ensures FindShift(kind, TWO_BITS, target, 1).None?
    {
      NoAmountForPair(kind, 0, target);
    }
  }

  /** Comparing r0 with 0x10101 then ends in CMP IP, IP: every value of r0 is found equal. */
  lemma EveryValueEqual(st: State)
    requires Agrees(WORK_KNOWN, st.regs)
    ensures Holds(EQ, Run(CompareCode(0, THREE_BITS, IP, Equality, AL, WORK_KNOWN), st).flags)
  {
    hide Run, CompareCode, CmpFlags, EightBits, EightBitFloor, RegisterContainingValue, EndFlags;
    var n, a := THREE_BITS, st.regs[0];
    NoField();
    FloorIs(n);
    WorkLookups();
    CompareRun(0, n, IP, Equality, AL, WORK_KNOWN, st, true);
    EndFlagsStep(a, n, IP, WORK_KNOWN, Equality, true);
    var b := Wrap(a - Approach(n));
    StaleEnd(b, TWO_BITS, IP, WORK_KNOWN, Equality, false);
    CmpMeaning(b, b);
  }

  /** 0x4000003f fits a field and lies between 0x40000041 and the approximation chosen for it. */
  lemma CloserField()
    ensures EightBits(0x4000_003f).Some? && EightBitFloor(0x4000_0041) < 0x4000_003f
  {
    assert Rol2(0x4000_003f) == 0xfd;
    FloorOfTop(0x4000_0041);
  }

  lemma FloorOfTop(n: Word)
    requires 0x4000_0000 <= n < 0x4100_0000
    ensures EightBitFloor(n) <= 0x4000_0000
  {
    hide Above, Scale;
    ScaleOfOne();
    AboveBound(n, 15);
    var h, l := SplitWord(n, 12);
    ScaleOfByte();
    if h > 0x40 { ScaleMonotone(0x41, h, 12); } else { ScaleMonotone(h, 0x40, 12); }
  }

  lemma ScaleOfByte()
    ensures Scale(0x40, 12) == 0x4000_0000 && Scale(0x41, 12) == 0x4100_0000
  {
    ScaleOfOne();
    ScaleScale(0x40, 4, 8);
    ScaleScale(0x41, 4, 8);
    ScaleScale(0x4000, 4, 4);
    ScaleScale(0x4100, 4, 4);
  }

  // ---- the map of frame-pointer offsets ----

  /** One change, 64 kilobytes into a procedure: the code after it has no fragment. */
  lemma LastChangeLost(little: bool)
    ensures var d := FpMap.Desc(0, 4, 0x2_0000, 0, [FpMap.Entry(0x1_0000, 4)]);
            !FpMap.Covers(FpMap.FragmentsOf(d, little), 0x1_0000)
  {
    var d := FpMap.Desc(0, 4, 0x2_0000, 0, [FpMap.Entry(0x1_0000, 4)]);
    assert d.entries[1..] == [];
    assert FpMap.Scan(d.entries, 0, 0) == 0;
    assert FpMap.Ascending(d.entries, 0);
    assert FpMap.LastBreaks(d.entries, 0);
    assert FpMap.Ascending([], 0x1_0000);
    FpMap.NothingBeyond(d.entries, d, little, 0x1_0000);
  }

  // ---- the signed shift ----

  lemma MinusOneShifted()
    ensures Int64.SVal(Int64.SShiftR(Int64.Dword(0xffff_ffff, 0xffff_ffff), 33)) == -0x8000_0001
  {
  }

  // ---- adding ----

  /** r1 is known to hold 0x10100 before it is given the sum. */
  const SUM_KNOWN: Known := UNKNOWN[1 := Some(0x1_0100)]

  lemma {:induction false} NoAmountGives(kind: ShiftKind, value: Word, target: Word, k: nat)
    requires k <= 32 && forall j: Amount :: k <= j ==> ShiftBy(kind, value, j) != target
    ensures FindShift(kind, value, target, k).None?
    decreases 32 - k
  {
    hide ShiftBy;
    if k < 32 { NoAmountGives(kind, value, target, k + 1); }
  }

  /** 0x101 and 0x10100: two bits eight places apart. */
  function Pair(a: nat): Word { if a == 0 then TWO_BITS else 0x1_0100 }

  /** Shifted right, such a number gets no larger; shifted left it becomes even. */
  lemma {:induction false} PlainShifts(x: Word, k: nat)
    requires x < TOP
    ensures Lsr(x, k) == Asr(x, k) <= x && (k > 0 ==> Lsl(x, k) % 2 == 0)
  {
    if k > 0 { PlainShifts(x, k - 1); }
  }

  /** Rotated, it stays two bits eight places apart. */
  lemma {:induction false} Rotated(start: nat, k: nat) returns (a: nat)
    requires start == 0 || start == 8
    ensures a < 32 && Ror(Pair(start), k) == Pow2(a) + Pow2((a + 8) % 32)
  {
    if k == 0 {
      a := start;
      FewPowers();
    } else {
      var b := Rotated(start, k - 1);
      a := (b + 31) % 32;
      TwoBitsTurn(b);
    }
  }

  lemma HalfBit(b: nat)
    requires b < 32
    ensures Pow2(b) / 2 + (Pow2(b) % 2) * TOP == Pow2((b + 31) % 32)
    ensures Pow2(b) % 2 == 1 <==> b == 0
  {
    Pow2At31();
  }

  lemma TwoBitsTurn(b: nat)
    requires b < 32
    ensures var x, a := Pow2(b) + Pow2((b + 8) % 32), (b + 31) % 32;
            x / 2 + (x % 2) * TOP == Pow2(a) + Pow2((a + 8) % 32)
  {
    hide Pow2;
    HalfBit(b);
    HalfBit((b + 8) % 32);
    assert ((b + 8) % 32 + 31) % 32 == ((b + 31) % 32 + 8) % 32;
  }

  lemma RotatedOdd(start: nat, k: nat)
    requires (start == 0 || start == 8) && Ror(Pair(start), k) % 2 == 1
    ensures Ror(Pair(start), k) == 0x101 || Ror(Pair(start), k) == 0x100_0001
  {
    hide Ror, Pow2;
    var a := Rotated(start, k);
    HalfBit(a);
    HalfBit((a + 8) % 32);
    FewPowers();
  }

  lemma FewPowers()
    ensures Pow2(0) == 1 && Pow2(8) == 0x100 && Pow2(16) == 0x1_0000 && Pow2(24) == 0x100_0000
  {
    Pow2Add(8, 8);
    Pow2Add(16, 8);
    assert Pow2(8) == 0x100;
  }

  lemma NoAmountForPair(kind: ShiftKind, start: nat, target: Word)
    requires start == 0 || start == 8
    requires target % 2 == 1 && target > 0x1_0100 && target != 0x100_0001
    ensures FindShift(kind, Pair(start), target, 1).None?
  {
    hide Ror, Lsl, Lsr, Asr, FindShift;
    var x := Pair(start);
    forall j: Amount | 1 <= j ensures ShiftBy(kind, x, j) != target {
      PlainShifts(x, j);
      if kind == ROR && ShiftBy(kind, x, j) == target { RotatedOdd(start, j); }
    }
    NoAmountGives(kind, x, target, 1);
  }

  lemma {:induction false} NothingFrom(known: Known, n: Word, ask: Ask, r: nat)
    requires r <= 16 && forall q: Reg :: r <= q ==> known[q].None?
    ensures FindFrom(known, n, ask, r).NotFound?
    decreases 16 - r
  {
    if r < 16 { NothingFrom(known, n, ask, r + 1); }
  }

  /** Only one register is known. */
  lemma OneKnown(known: Known, r: Reg, n: Word, ask: Ask)
    requires known[r].Some? && forall q: Reg :: q != r ==> known[q].None?
    ensures RegisterContainingValue(known, n, ask)
            == var f := FindIn(known, n, ask, r); f
  {
    hide FindIn;
    NothingFrom(known, n, ask, r + 1);
    NothingBefore(known, n, ask, r, 0);
  }

  lemma {:induction false} NothingBefore(known: Known, n: Word, ask: Ask, r: Reg, k: nat)
    requires k <= r && forall q: Reg :: k <= q < r ==> known[q].None?
    ensures FindFrom(known, n, ask, k) == FindFrom(known, n, ask, r)
    decreases r - k
  {
    if k < r { NothingBefore(known, n, ask, r, k + 1); }
  }

  /** A full byte at the bottom, followed by a pair that is not 11, is split off as it is. */
  lemma SplitFullByte(r: Reg, n: Word)
    requires r != SP && n % 256 == 255 && Above(n, 4) % 4 != 3
    ensures LowPair(n) == 0 && SplitForAdd(r, n) == Split(false, 255)
  {
  }

  /** The first lookup finds nothing; the second finds r1, by then out of date. */
  lemma FoundSecondTime()
    ensures RegisterContainingValue(SUM_KNOWN, SPREAD, ADD_ASK).NotFound?
    ensures RegisterContainingValue(SUM_KNOWN, 0x1_0100, ADD_ASK) == Exact(1, UNSHIFTED)
  {
    hide FindShift, RegisterContainingValue, Lsl, Lsr, Asr, Ror;
    OneKnown(SUM_KNOWN, 1, SPREAD, ADD_ASK);
    OneKnown(SUM_KNOWN, 1, 0x1_0100, ADD_ASK);
    forall kind, target | target == SPREAD || target == Neg(SPREAD)
      ensures FindShift(kind, 0x1_0100, target, 1).None?
    {
      NoAmountForPair(kind, 8, target);
    }
  }

  /** r1 = r0 + 0x101ff with r0 = 0xffffff01: adding 255 makes r1 0, and r1 is then added to itself. */
  lemma ReadBackGoesWrong(st: State)
    requires Agrees(SUM_KNOWN, st.regs) && st.regs[0] == 0xffff_ff01
    ensures Run(AddCode(1, 0, SPREAD, AL, false, SUM_KNOWN), st).regs[1] == 0
    ensures Wrap(st.regs[0] + SPREAD) == 0x1_0100
  {
    hide RegisterContainingValue, EightBits, SplitForAdd, Run, AddCode, Zeros;
    NoField();
    FoundSecondTime();
    PairsAbove(SPREAD);
    SplitFullByte(1, SPREAD);
    StaleRun(1, 0, SPREAD, SUM_KNOWN, st, true);
  }

  // ---- copying a block ----

  /** Four words, four work registers, but at most three registers to an LDM. */
  const FOUR_WORDS: BlockMove.Request := BlockMove.Request(BlockMove.Copy, 0, 1, 16, false, false, {4, 5}, 3)

  lemma FourWorkRegisters()
    ensures Count(BlockMove.WorkRegs(FOUR_WORDS)) == 4
  {
    hide Rank;
    assert BlockMove.WorkRegs(FOUR_WORDS) == {} + {3} + {4} + {5} + {IP};
    RankNone({}, 16);
    BlockMove.CountMore({}, 3);
    BlockMove.CountMore({} + {3}, 4);
    BlockMove.CountMore({} + {3} + {4}, 5);
    BlockMove.CountMore({} + {3} + {4} + {5}, IP);
  }

  /** movc_preserving_r1r2 says that r0 is preserved, but it is moved on. */
  lemma DestinationMoves(known: Known, st: State)
    requires BlockMove.Sensible(FOUR_WORDS) ==> BlockMove.Separate(FOUR_WORDS, BlockMove.BlocksOf(FOUR_WORDS, st))
    ensures BlockMove.Sensible(FOUR_WORDS) && BlockMove.Preserving(FOUR_WORDS)
    ensures var x := BlockMove.Expand(FOUR_WORDS, known); x.Line? && Run(x.code, st).regs[0] != st.regs[0]
  {
    hide Run, BlockMove.Separate, BlockMove.Expand, BlockMove.BlocksOf, Count;
    FourWorkRegisters();
    BlockMove.DestinationAfter(FOUR_WORDS, known, st);
  }

  /** Sixteen words through the four registers that are always there. */
  const SIXTEEN_WORDS: BlockMove.Request := BlockMove.Request(BlockMove.Copy, 0, 4, 64, false, false, {}, 16)

  lemma SixteenWordRegisters()
    ensures Count(BlockMove.WorkRegs(SIXTEEN_WORDS)) == 4
  {
    hide Rank;
    assert BlockMove.WorkRegs(SIXTEEN_WORDS) == {} + {1} + {2} + {3} + {IP};
    RankNone({}, 16);
    BlockMove.CountMore({}, 1);
    BlockMove.CountMore({} + {1}, 2);
    BlockMove.CountMore({} + {1} + {2}, 3);
    BlockMove.CountMore({} + {1} + {2} + {3}, IP);
  }

  /** The copy is a line of eight instructions, where seven are reserved. */
  lemma EightInstructions(known: Known)
    ensures BlockMove.Sensible(SIXTEEN_WORDS) && BlockLength.Emitted(BlockMove.Expand(SIXTEEN_WORDS, known)) == 8
    ensures BlockLength.Reserved(SIXTEEN_WORDS) == 7
  {
    hide BlockMove.Expand, Count, BlockMove.DataRegs;
    SixteenWordRegisters();
    BlockLength.LineLength(SIXTEEN_WORDS, known);
  }

  /** Four words, three work registers and a dying source that must end up after its block. */
  const POST_COPY: BlockMove.Request := BlockMove.Request(BlockMove.Copy, 0, 1, 16, true, true, {4}, 16)

  lemma ThreeWorkRegisters()
    ensures Count(BlockMove.WorkRegs(POST_COPY)) == 3
  {
    hide Rank;
    assert BlockMove.WorkRegs(POST_COPY) == {} + {3} + {4} + {IP};
    RankNone({}, 16);
    BlockMove.CountMore({}, 3);
    BlockMove.CountMore({} + {3}, 4);
    BlockMove.CountMore({} + {3} + {4}, IP);
  }

  /** Here the limit is no obstacle, but the fourth word needs a second transfer. */
  lemma DestinationMovesPost(known: Known, st: State)
    requires BlockMove.Sensible(POST_COPY) ==> BlockMove.Separate(POST_COPY, BlockMove.BlocksOf(POST_COPY, st))
    ensures BlockMove.Sensible(POST_COPY) && BlockMove.Preserving(POST_COPY)
    ensures BlockMove.WordCount(POST_COPY) <= POST_COPY.limit
    ensures var x := BlockMove.Expand(POST_COPY, known); x.Line? && Run(x.code, st).regs[0] != st.regs[0]
  {
    hide Run, BlockMove.Separate, BlockMove.Expand, BlockMove.BlocksOf, Count;
    ThreeWorkRegisters();
    BlockMove.DestinationAfter(POST_COPY, known, st);
  }

  /** Fifty words from r5 to r4, with r0 added as a spare register. */
  const FIFTY_WORDS: BlockMove.Request := BlockMove.Request(BlockMove.Copy, 4, 5, 200, false, false, {0}, 4)

  lemma FiveWorkRegisters()
    ensures BlockMove.WorkRegs(FIFTY_WORDS) == {0, 1, 2, 3, IP} && Count({0, 1, 2, 3, IP}) == 5
  {
    hide Rank;
    assert {0, 1, 2, 3, IP} == {} + {0} + {1} + {2} + {3} + {IP};
    RankNone({}, 16);
    BlockMove.CountMore({}, 0);
    BlockMove.CountMore({} + {0}, 1);
    BlockMove.CountMore({} + {0} + {1}, 2);
    BlockMove.CountMore({} + {0} + {1} + {2}, 3);
    BlockMove.CountMore({} + {0} + {1} + {2} + {3}, IP);
  }

  /** The counter is r0, which is recorded with the number of rounds, ends as 0, and is not forgotten. */
  lemma CounterStale(known: Known, st: State, end: State)
    requires BlockMove.Sensible(FIFTY_WORDS) ==>
               && BlockMove.Separate(FIFTY_WORDS, BlockMove.BlocksOf(FIFTY_WORDS, st))
               && BlockMove.RunsTo(BlockMove.Expand(FIFTY_WORDS, known), st, end)
    requires Agrees(known, st.regs)
    ensures BlockMove.Sensible(FIFTY_WORDS) && 0 !in BlockMove.Usage(FIFTY_WORDS, {})
    ensures !Agrees(Combiner.Forget(BlockMove.Recorded(FIFTY_WORDS, known), BlockMove.Usage(FIFTY_WORDS, {})), end.regs)
  {
    hide BlockMove.Separate, BlockMove.Expand, BlockMove.BlocksOf, BlockMove.RunsTo, BlockMove.Recorded, Count, Rank,
        Agrees, BlockMove.PointersKept;
    FiveWorkRegisters();
    BlockMove.BlockCacheIff(FIFTY_WORDS, known, BlockMove.Usage(FIFTY_WORDS, {}), st, end);
  }
}
