/**
 AND, ORR and EOR of a register with a 32-bit constant (and_integer, orr_integer and
 eor_integer in arm/gen.c), outside the special treatment of a result that is dead or
 only tested for zero.
 */
module LogicConstant {
  import opened Words
  import opened Arm
  import opened Immediates
  import opened KnownValues
  import opened AddConstant
  import opened Buffers

  const AND_ASK := Ask(false, true, false, false, false)
  const OR_ASK := Ask(false, false, false, false, false)

  // ---- splitting a constant into disjoint bits ----

  lemma {:induction false} OrrSplit(x: nat, a: nat, c: nat)
    requires And(a, c) == 0
    ensures Orr(Orr(x, a), c) == Orr(x, a + c)
    decreases x + a + c
  {
    hide And, Orr;
    OrrNothing();
    if x != 0 || a != 0 || c != 0 {
      AndHalves(a, c);
      AndBits(a, c);
      OrrSplit(x / 2, a / 2, c / 2);
      OrrHalves(x, a);
      OrrHalves(x, a + c);
      OrrHalves(Orr(x, a), c);
      SameHalves(Orr(Orr(x, a), c), Orr(x, a + c));
    }
  }

  lemma {:induction false} EorSplit(x: nat, a: nat, c: nat)
    requires And(a, c) == 0
    ensures Eor(Eor(x, a), c) == Eor(x, a + c)
    decreases x + a + c
  {
    hide And, Eor;
    OrrNothing();
    if x != 0 || a != 0 || c != 0 {
      AndHalves(a, c);
      AndBits(a, c);
      EorSplit(x / 2, a / 2, c / 2);
      EorHalves(x, a);
      EorHalves(x, a + c);
      EorHalves(Eor(x, a), c);
      SameHalves(Eor(Eor(x, a), c), Eor(x, a + c));
    }
  }

  lemma OrrNothing()
    ensures Orr(0, 0) == 0 && Eor(0, 0) == 0
  {
  }

  lemma SameHalves(x: nat, y: nat)
    ensures x / 2 == y / 2 && x % 2 == y % 2 ==> x == y
  {
  }

  lemma {:induction false} BicSplit(x: nat, n: nat, c: nat)
    requires And(n, c) == 0
    ensures Bic(And(x, n + c), c) == And(x, n)
    decreases x
  {
    if x != 0 {
      AndHalves(n, c);
      BicSplit(x / 2, n / 2, c / 2);
      AndParts(x, n + c);
      AndParts(x, n);
      BicParts(And(x, n + c), c);
      AndBits(n, c);
      hide And, Bic;
    }
  }

  lemma AndHalves(a: nat, c: nat)
    requires And(a, c) == 0
    ensures And(a / 2, c / 2) == 0
    ensures (a + c) / 2 == a / 2 + c / 2
    ensures (a + c) % 2 == a % 2 + c % 2
  {
  }

  lemma AndBits(a: nat, c: nat)
    requires And(a, c) == 0
    ensures !(a % 2 == 1 && c % 2 == 1)
  {
  }

  lemma OrrHalves(x: nat, a: nat)
    ensures Orr(x, a) / 2 == Orr(x / 2, a / 2)
    ensures Orr(x, a) % 2 == if x % 2 == 1 || a % 2 == 1 then 1 else 0
  {
  }

  lemma EorHalves(x: nat, a: nat)
    ensures Eor(x, a) / 2 == Eor(x / 2, a / 2)
    ensures Eor(x, a) % 2 == if x % 2 != a % 2 then 1 else 0
  {
  }

  lemma AndParts(x: nat, a: nat)
    ensures And(x, a) / 2 == And(x / 2, a / 2)
    ensures And(x, a) % 2 == if x % 2 == 1 && a % 2 == 1 then 1 else 0
  {
  }

  lemma BicParts(x: nat, y: nat)
    ensures Bic(x, y) == 2 * Bic(x / 2, y / 2) + (if x % 2 == 1 && y % 2 == 0 then 1 else 0)
  {
  }

  // ---- the window of a constant is disjoint from the rest of it ----

  lemma {:induction false} AndScale(a: nat, b: nat, k: nat)
    ensures And(Scale(a, k), Scale(b, k)) == Scale(And(a, b), k)
  {
    if k > 0 {
      AndScale(a, b, k - 1);
      AndFour(Scale(a, k - 1), Scale(b, k - 1));
    }
  }

  lemma AndTwo(a: nat, b: nat)
    ensures And(2 * a, 2 * b) == 2 * And(a, b)
  {
    AndParts(2 * a, 2 * b);
  }

  lemma AndFour(a: nat, b: nat)
    ensures And(4 * a, 4 * b) == 4 * And(a, b)
  {
    hide And;
    AndTwo(2 * a, 2 * b);
    AndTwo(a, b);
  }

  /** d shifted left by k bits, without wrapping. */
  function Shl(d: nat, k: nat): nat { if k == 0 then d else 2 * Shl(d, k - 1) }

  lemma {:induction false} AndBelow(d: nat, m: nat, k: nat)
    requires m < Pow2(k)
    ensures And(Shl(d, k), m) == 0
  {
    if k > 0 {
      AndParts(Shl(d, k), m);
      AndBelow(d, m / 2, k - 1);
    }
  }

  lemma ShlByte(d: nat)
    ensures Shl(d, 8) == 256 * d && Pow2(8) == 256
  {
    assert Shl(d, 1) == 2 * d;
    assert Shl(d, 3) == 8 * d;
    assert Shl(d, 5) == 32 * d;
    assert Shl(d, 7) == 128 * d;
  }

  /** n without its window, and the window: what is peeled off at each level. */
  lemma WindowDisjoint(n: Word) returns (m: nat)
    requires n > 0 && LowPair(n) <= 11
    ensures var c := Window(n, LowPair(n));
            c <= n && n - c == Scale(m, LowPair(n) + 4) && And(n - c, c) == 0
  {
    hide Window, LowPair, Strip, Scale, And;
    var i, q := LowPair(n), Strip(n);
    m := ChunkProgress(n, q, i, 0);
    NarrowWindow(n, q, i, 0);
    ScaleByte(m, i);
    ScaleAdd(q - q % 256, q % 256, i);
    ShlByte(q / 256);
    AndBelow(q / 256, q % 256, 8);
    AndScale(256 * (q / 256), q % 256, i);
    ScaleZero(i);
  }

  lemma {:induction false} AndNot(n: nat, k: nat)
    requires n < Pow2(k)
    ensures And(n, Pow2(k) - 1 - n) == 0
  {
    if k > 0 {
      AndNot(n / 2, k - 1);
      AndParts(n, Pow2(k) - 1 - n);
    }
  }

  lemma {:induction false} AndSubset(n: nat, a: nat, c: nat)
    requires And(n, a + c) == 0 && And(a, c) == 0
    ensures And(n, c) == 0
    decreases n
  {
    if n > 0 {
      AndHalves(a, c);
      AndParts(n, a + c);
      AndParts(n, c);
      AndSubset(n / 2, a / 2, c / 2);
    }
  }

  // ---- masks of low or high bits as double shifts ----

  function Ones(j: nat): nat { if j == 0 then 0 else 2 * Ones(j - 1) + 1 }

  lemma {:induction false} OnesIsPow2(j: nat)
    ensures Ones(j) == Pow2(j) - 1
  {
    if j > 0 { OnesIsPow2(j - 1); }
  }

  function LowBits(x: nat, j: nat): (v: nat)
    ensures v < Pow2(j)
  {
    if j == 0 then 0 else 2 * LowBits(x / 2, j - 1) + x % 2
  }

  lemma {:induction false} AndOnes(x: nat, j: nat)
    ensures And(x, Ones(j)) == LowBits(x, j)
  {
    if j > 0 {
      AndOnes(x / 2, j - 1);
      AndParts(x, Ones(j));
    }
  }

  /** Bit j of x. */
  function Bit(x: nat, j: nat): nat { if j == 0 then x % 2 else Bit(x / 2, j - 1) }

  lemma {:induction false} LowBitsTop(x: nat, j: nat)
    ensures LowBits(x, j + 1) == LowBits(x, j) + (if Bit(x, j) == 1 then Pow2(j) else 0)
    ensures Bit(x, j) <= 1
  {
    if j > 0 { LowBitsTop(x / 2, j - 1); }
  }

  lemma {:induction false} ShlAdd(a: nat, b: nat, k: nat)
    ensures Shl(a + b, k) == Shl(a, k) + Shl(b, k)
  {
    if k > 0 { ShlAdd(a, b, k - 1); }
  }

  lemma {:induction false} ShlPow2(j: nat, k: nat)
    ensures Shl(Pow2(j), k) == Pow2(j + k)
  {
    if k > 0 { ShlPow2(j, k - 1); }
  }

  lemma {:induction false} ShlLess(a: nat, b: nat, k: nat)
    requires a < b
    ensures Shl(a, k) < Shl(b, k)
  {
    if k > 0 { ShlLess(a, b, k - 1); }
  }

  lemma {:induction false} LowBitsAll(x: nat, j: nat)
    requires x < Pow2(j)
    ensures LowBits(x, j) == x
  {
    if j > 0 { LowBitsAll(x / 2, j - 1); }
  }

  /** Shifting left drops the top bits. */
  lemma {:induction false} LslIsShl(x: Word, k: nat)
    requires k <= 32
    ensures Lsl(x, k) == Shl(LowBits(x, 32 - k), k)
  {
    Pow2At32();
    if k == 0 {
      LowBitsAll(x, 32);
    } else {
      LslIsShl(x, k - 1);
      var a := LowBits(x, 32 - k);
      LowBitsTop(x, 32 - k);
      ShlAdd(a, if Bit(x, 32 - k) == 1 then Pow2(32 - k) else 0, k - 1);
      ShlPow2(32 - k, k - 1);
      ShlLess(a, Pow2(32 - k), k);
      ShlPow2(32 - k, k);
      ShlNothing(k - 1);
      DoubleWraps(Shl(a, k - 1), Bit(x, 32 - k) == 1);
    }
  }

  lemma DoubleWraps(y: nat, top: bool)
    requires 2 * y < M && Pow2(31) == TOP
    ensures (y + (if top then Pow2(31) else 0)) * 2 % M == 2 * y
  {
  }

  lemma {:induction false} ShlNothing(k: nat)
    ensures Shl(0, k) == 0
    ensures Pow2(31) == TOP
  {
    Pow2At32();
    if k > 0 { ShlNothing(k - 1); }
  }

  lemma {:induction false} LsrOfShl(a: nat, k: nat, j: nat)
    requires Shl(a, j + k) < M
    ensures Lsr(Shl(a, j + k), k) == Shl(a, j)
  {
    if k > 0 { LsrOfShl(a, k - 1, j + 1); }
  }

  /** r2 & (2^(32-k) - 1) by shifting the high bits out and back. */
  lemma HighBitsCleared(x: Word, k: nat)
    requires k <= 32
    ensures Lsr(Lsl(x, k), k) == And(x, Pow2(32 - k) - 1)
  {
    hide Lsl, Lsr, Pow2, Ones, And;
    LslIsShl(x, k);
    LsrOfShl(LowBits(x, 32 - k), k, 0);
    OnesIsPow2(32 - k);
    AndOnes(x, 32 - k);
  }

  lemma {:induction false} AndShl(x: nat, m: nat, k: nat) returns (y: nat)
    ensures And(x, Shl(m, k)) == Shl(And(y, m), k)
    ensures x < M ==> y == Lsr(x, k)
    decreases k
  {
    if k == 0 {
      y := x;
    } else {
      AndParts(x, Shl(m, k));
      y := AndShl(x / 2, m, k - 1);
      if x < M { LsrFirst(x, k); }
    }
  }

  lemma {:induction false} LsrFirst(x: Word, k: nat)
    requires k > 0
    ensures Lsr(x, k) == Lsr(x / 2, k - 1)
  {
    if k > 1 { LsrFirst(x, k - 1); }
  }

  lemma {:induction false} LsrBound(x: Word, k: nat)
    requires k <= 32
    ensures Lsr(x, k) < Pow2(32 - k)
  {
    Pow2At32();
    if k > 0 { LsrBound(x, k - 1); }
  }

  lemma Pow2Fits(k: nat)
    requires k <= 32
    ensures Pow2(k) <= M
  {
    Pow2At32();
    ShlPow2(k, 32 - k);
    ShlGrows(Pow2(k), 32 - k);
  }

  lemma ShlGrows(d: nat, k: nat)
    ensures Shl(d, k) >= d
  {
  }

  lemma OnesShifted(k: nat)
    requires k <= 32
    ensures Shl(Ones(32 - k), k) == M - Pow2(k)
  {
    hide Shl, Pow2, Ones;
    OnesIsPow2(32 - k);
    Pow2At32();
    ShlPow2(32 - k, k);
    ShlOne(k);
    ShlAdd(Ones(32 - k), 1, k);
  }

  lemma ShlOne(k: nat)
    ensures Shl(1, k) == Pow2(k)
  {
    ShlPow2(0, k);
  }

  /** r2 & ~(2^k - 1) by shifting the low bits out and back. */
  lemma LowBitsCleared(x: Word, k: nat)
    requires k <= 32
    ensures 0 <= M - Pow2(k)
    ensures Lsl(Lsr(x, k), k) == And(x, M - Pow2(k))
  {
    hide Lsl, Lsr, Shl, Pow2, Ones, And;
    Pow2Fits(k);
    OnesShifted(k);
    var y := AndShl(x, Ones(32 - k), k);
    LsrBound(x, k);
    AndOnes(y, 32 - k);
    LslIsShl(y, k);
  }

  // ---- the emitted code ----

  /** The shift that clears the top bits to leave n, or 0. */
  function ClearsHiBits(n: Word, shift: nat := 1): (k: nat)
    requires shift <= 32
    ensures k != 0 ==> shift <= k < 32 && n == Pow2(32 - k) - 1
    decreases 32 - shift
  {
    if shift == 32 then 0
    else if n == Pow2(32 - shift) - 1 then shift
    else ClearsHiBits(n, shift + 1)
  }

  function ClearsLoBits(n: Word, shift: nat := 1): (k: nat)
    requires shift <= 32
    ensures k != 0 ==> shift <= k < 32 && n == M - Pow2(k)
    decreases 32 - shift
  {
    if shift == 32 then 0
    else if n == M - Pow2(shift) then shift
    else ClearsLoBits(n, shift + 1)
  }

  function MoveCode(r1: Reg, r2: Reg, s: bool): Code
  {
    if r1 != r2 || s then [Data(AL, MOV, s, r1, 0, Shifted(r2, LSL, 0))] else []
  }

  function ShiftsCode(r1: Reg, r2: Reg, first: ShiftKind, second: ShiftKind, k: Amount, s: bool): Code
  {
    [Data(AL, MOV, false, r1, 0, Shifted(r2, first, k)), Data(AL, MOV, s, r1, 0, Shifted(r1, second, k))]
  }

  /** The lowest byte of a constant that fits no immediate field. */
  function Chunk(n: Word): Word
    requires n > 0 && LowPair(n) <= 11
  {
    Window(n, LowPair(n))
  }

  lemma ChunkStep(n: Word)
    requires EightBits(n).None?
    ensures n > 0 && LowPair(n) <= 11 && Chunk(n) <= n
    ensures EightBits(Chunk(n)).Some? && And(n - Chunk(n), Chunk(n)) == 0
    ensures Zeros(n) + 4 <= Zeros(n - Chunk(n)) <= 16
    ensures Zeros(n) <= 11
  {
    hide Window, Scale, Strip;
    ZeroFits(n);
    if n > 0 && LowPair(n) >= 12 { HighEncodable(n); }
    hide EightBits;
    var m := WindowDisjoint(n);
    WindowEncodable(n, LowPair(n));
    var rest := n - Chunk(n);
    if rest > 0 { LowPairOfMultiple(rest, m, LowPair(n) + 4); }
    ZerosFit(rest);
  }

  function AndCode(r1: Reg, r2: Reg, n: Word, s: bool, known: Known): Code
    decreases 16 - Zeros(Not(n))
  {
    hide EightBits, RegisterContainingValue, Chunk, ClearsHiBits, ClearsLoBits, MoveCode, ShiftsCode, Zeros;
    var direct, inverse := EightBits(n), EightBits(Not(n));
    if n == M - 1 then MoveCode(r1, r2, s)
    else if direct.Some? then [Data(AL, AND, s, r1, r2, direct.value)]
    else if inverse.Some? then [Data(AL, BIC, s, r1, r2, inverse.value)]
    else
      var f := RegisterContainingValue(known, n, AND_ASK);
      LookupSound(known, n, AND_ASK);
      if f.Inverted? then [Data(AL, BIC, s, r1, r2, Shift(f.r, f.shift))]
      else if !f.NotFound? then [Data(AL, AND, s, r1, r2, Shift(f.r, f.shift))]
      else if ClearsHiBits(n) != 0 then ShiftsCode(r1, r2, LSL, LSR, ClearsHiBits(n), s)
      else if ClearsLoBits(n) != 0 then ShiftsCode(r1, r2, LSR, LSL, ClearsLoBits(n), s)
      else
        ChunkStep(Not(n));
        AndCode(r1, r2, n + Chunk(Not(n)), false, known)
        + [Data(AL, BIC, s, r1, r1, EightBits(Chunk(Not(n))).value)]
  }

  /** orr_integer (op is ORR) and eor_integer (op is EOR), which differ in nothing else. */
  function OrCode(op: Op, r1: Reg, r2: Reg, n: Word, s: bool, known: Known): Code
    requires op == ORR || op == EOR
    decreases 16 - Zeros(n)
  {
    var direct := EightBits(n);
    if n == 0 then MoveCode(r1, r2, s)
    else if direct.Some? then [Data(AL, op, s, r1, r2, direct.value)]
    else
      var f := RegisterContainingValue(known, n, OR_ASK);
      LookupSound(known, n, OR_ASK);
      if !f.NotFound? then [Data(AL, op, s, r1, r2, Shift(f.r, f.shift))]
      else
        ChunkStep(n);
        OrCode(op, r1, r2, n - Chunk(n), false, known) + [Data(AL, op, s, r1, r1, EightBits(Chunk(n)).value)]
  }

  lemma {:induction false} AndCodeLength(r1: Reg, r2: Reg, n: Word, s: bool, known: Known)
    ensures |AndCode(r1, r2, n, s, known)| <= MostInstructions(Zeros(Not(n))) <= 4
    decreases 16 - Zeros(Not(n))
  {
    hide EightBits, Chunk, RegisterContainingValue, Denotes, Answers, ClearsHiBits, ClearsLoBits, Zeros;
    if n != M - 1 && EightBits(n).None? && EightBits(Not(n)).None? {
      ChunkStep(Not(n));
      AndCodeLength(r1, r2, n + Chunk(Not(n)), false, known);
    }
  }

  lemma {:induction false} OrCodeLength(op: Op, r1: Reg, r2: Reg, n: Word, s: bool, known: Known)
    requires op == ORR || op == EOR
    ensures |OrCode(op, r1, r2, n, s, known)| <= MostInstructions(Zeros(n)) <= 4
    decreases 16 - Zeros(n)
  {
    hide EightBits, Chunk, RegisterContainingValue, Denotes, Zeros;
    if n != 0 && EightBits(n).None? {
      ChunkStep(n);
      OrCodeLength(op, r1, r2, n - Chunk(n), false, known);
    }
  }

  // ---- what the code computes ----

  /** r1 receives the value; nothing else changes but the flags when s asks for them. */
  ghost predicate Gives(st: State, end: State, r1: Reg, value: Word, s: bool)
  {
    && end.regs == st.regs[r1 := value]
    && end.mem == st.mem
    && (if s then end.flags.z == (value == 0) && end.flags.n == (value >= TOP) else end.flags == st.flags)
  }

  predicate Logical(op: Op) { op == AND || op == BIC || op == ORR || op == EOR || op == MOV }

  lemma LogicStep(st: State, op: Op, s: bool, r1: Reg, r2: Reg, o: Operand, v: Word)
    requires Logical(op) && OperandValue(st.regs, o) == v
    ensures Gives(st, Exec(Data(AL, op, s, r1, r2, o), st), r1, Result(op, st.regs[r2], v), s)
  {
    hide OperandValue, ShifterCarry, Result, ExecTransfer, ExecBlock, SumFlags;
  }

  lemma GivesThen(st: State, mid: State, end: State, r1: Reg, v: Word, w: Word, s: bool)
    requires Gives(st, mid, r1, v, false) && Gives(mid, end, r1, w, s)
    ensures Gives(st, end, r1, w, s)
  {
  }

  lemma ResultIs(x: Word, y: Word)
    ensures Result(AND, x, y) == And(x, y) && Result(BIC, x, y) == Bic(x, y)
    ensures Result(ORR, x, y) == Orr(x, y) && Result(EOR, x, y) == Eor(x, y)
    ensures Result(MOV, x, y) == y
  {
  }

  lemma MoveGives(st: State, r1: Reg, r2: Reg, s: bool)
    ensures Gives(st, Run(MoveCode(r1, r2, s), st), r1, st.regs[r2], s)
  {
    hide Exec, Result;
    if r1 != r2 || s {
      LogicStep(st, MOV, s, r1, 0, Shifted(r2, LSL, 0), st.regs[r2]);
      ResultIs(st.regs[0], st.regs[r2]);
      RunOne(MoveCode(r1, r2, s)[0], st);
    }
  }

  lemma ShiftsGive(st: State, r1: Reg, r2: Reg, first: ShiftKind, second: ShiftKind, k: Amount, s: bool)
    ensures Gives(st, Run(ShiftsCode(r1, r2, first, second, k, s), st), r1,
            ShiftBy(second, ShiftBy(first, st.regs[r2], k), k), s)
  {
    hide Exec, Result, ShiftBy, Gives;
    var c := ShiftsCode(r1, r2, first, second, k, s);
    var mid := Exec(c[0], st);
    var v := ShiftBy(first, st.regs[r2], k);
    LogicStep(st, MOV, false, r1, 0, Shifted(r2, first, k), v);
    ResultIs(st.regs[0], v);
    GivesValue(st, mid, r1, v, false);
    LogicStep(mid, MOV, s, r1, 0, Shifted(r1, second, k), ShiftBy(second, v, k));
    ResultIs(mid.regs[0], ShiftBy(second, v, k));
    GivesThen(st, mid, Exec(c[1], mid), r1, v, ShiftBy(second, v, k), s);
    assert c[1..] == [c[1]];
    RunOne(c[1], mid);
  }

  lemma GivesValue(st: State, end: State, r1: Reg, v: Word, s: bool)
    requires Gives(st, end, r1, v, s)
    ensures end.regs[r1] == v
  {
  }

  /** A sequence followed by one more operation on r1. */
  lemma ThenLogic(st: State, c: Code, op: Op, s: bool, r1: Reg, n: Word, v: Word)
    requires Logical(op) && EightBits(n).Some?
    requires Gives(st, Run(c, st), r1, v, false)
    ensures Gives(st, Run(c + [Data(AL, op, s, r1, r1, EightBits(n).value)], st), r1, Result(op, v, n), s)
  {
    hide Exec, Run, Result, Gives, EightBits;
    var i := Data(AL, op, s, r1, r1, EightBits(n).value);
    EightBitsSound(n);
    RunSnoc(c, i, st);
    GivesValue(st, Run(c, st), r1, v, false);
    LogicStep(Run(c, st), op, s, r1, r1, EightBits(n).value, n);
    GivesThen(st, Run(c, st), Exec(i, Run(c, st)), r1, v, Result(op, v, n), s);
  }

  lemma OneLogic(st: State, op: Op, s: bool, r1: Reg, r2: Reg, o: Operand, v: Word)
    requires Logical(op) && OperandValue(st.regs, o) == v
    ensures Gives(st, Run([Data(AL, op, s, r1, r2, o)], st), r1, Result(op, st.regs[r2], v), s)
  {
    hide Exec, Run, Result, Gives, OperandValue;
    LogicStep(st, op, s, r1, r2, o, v);
    RunOne(Data(AL, op, s, r1, r2, o), st);
  }

  lemma OrIdentity(op: Op, x: Word, a: Word, c: Word)
    requires (op == ORR || op == EOR) && And(a, c) == 0 && a + c < M
    ensures Result(op, Result(op, x, a), c) == Result(op, x, a + c)
  {
    hide Result;
    ResultIs(x, a);
    ResultIs(Result(op, x, a), c);
    ResultIs(x, a + c);
    OrrSplit(x, a, c);
    EorSplit(x, a, c);
  }

  /** Executing the sequence gives r2 | n or r2 ^ n, for every constant. */
  lemma {:induction false} OrCorrect(op: Op, r1: Reg, r2: Reg, n: Word, s: bool, known: Known, st: State)
    requires (op == ORR || op == EOR) && Agrees(known, st.regs)
    ensures Gives(st, Run(OrCode(op, r1, r2, n, s, known), st), r1, Result(op, st.regs[r2], n), s)
    decreases 16 - Zeros(n)
  {
    hide Exec, Run, Result, Gives, EightBits, Chunk, RegisterContainingValue, Denotes, Zeros, MoveCode, OperandValue,
        Agrees, Orr, Eor, And, LowPair, ImmValue;
    var f := RegisterContainingValue(known, n, OR_ASK);
    LookupSound(known, n, OR_ASK);
    if n == 0 {
      MoveGives(st, r1, r2, s);
      OrZero(st.regs[r2]);
      ResultIs(st.regs[r2], 0);
    } else if EightBits(n).Some? {
      EightBitsSound(n);
      ImmOperand(st.regs, EightBits(n).value);
      OneLogic(st, op, s, r1, r2, EightBits(n).value, n);
    } else if !f.NotFound? {
      MeaningOfDenotes(f, known, n, st.regs);
      ShiftOperand(st.regs, f.r, f.shift);
      OneLogic(st, op, s, r1, r2, Shift(f.r, f.shift), n);
    } else {
      ChunkStep(n);
      var c := Chunk(n);
      OrCorrect(op, r1, r2, n - c, false, known, st);
      ThenLogic(st, OrCode(op, r1, r2, n - c, false, known), op, s, r1, c, Result(op, st.regs[r2], n - c));
      OrIdentity(op, st.regs[r2], n - c, c);
    }
  }

  lemma {:induction false} BicNot(x: nat, n: nat, k: nat)
    requires x < Pow2(k) && n < Pow2(k)
    ensures Bic(x, Pow2(k) - 1 - n) == And(x, n)
    decreases k
  {
    hide And, Bic;
    if k == 0 {
      BicParts(0, 0);
      AndParts(0, 0);
    } else {
      NotParts(n, Pow2(k - 1));
      BicNot(x / 2, n / 2, k - 1);
      AndParts(x, n);
      BicParts(x, Pow2(k) - 1 - n);
    }
  }

  lemma NotParts(n: nat, p: nat)
    requires n < 2 * p
    ensures (2 * p - 1 - n) / 2 == p - 1 - n / 2 && (2 * p - 1 - n) % 2 == 1 - n % 2
  {
  }

  lemma BicIsAnd(x: Word, n: Word)
    ensures Result(BIC, x, Not(n)) == Result(AND, x, n)
  {
    hide Result;
    ResultIs(x, n);
    ResultIs(x, Not(n));
    Pow2At32();
    BicNot(x, n, 32);
  }

  lemma {:induction false} AndAll(x: nat, k: nat)
    requires x < Pow2(k)
    ensures And(x, Pow2(k) - 1) == x
  {
    if k > 0 {
      AndAll(x / 2, k - 1);
      AndParts(x, Pow2(k) - 1);
    }
  }

  lemma AndIdentity(x: Word, n: Word)
    requires EightBits(Not(n)).None?
    ensures Not(n) > 0 && LowPair(Not(n)) <= 11 && n + Chunk(Not(n)) < M
    ensures Result(BIC, Result(AND, x, n + Chunk(Not(n))), Chunk(Not(n))) == Result(AND, x, n)
  {
    hide Result, EightBits, Chunk, And, Bic, LowPair, Strip, Zeros;
    ChunkStep(Not(n));
    var c := Chunk(Not(n));
    Pow2At32();
    AndNot(n, 32);
    AndSubset(n, Not(n) - c, c);
    BicSplit(x, n, c);
    ResultIs(x, n);
    ResultIs(x, n + c);
    ResultIs(Result(AND, x, n + c), c);
  }

  /** Executing the sequence gives r2 & n, for every constant. */
  lemma {:induction false} AndCorrect(r1: Reg, r2: Reg, n: Word, s: bool, known: Known, st: State)
    requires Agrees(known, st.regs)
    ensures Gives(st, Run(AndCode(r1, r2, n, s, known), st), r1, Result(AND, st.regs[r2], n), s)
    decreases 16 - Zeros(Not(n))
  {
    hide Exec, Run, Result, Gives, EightBits, Chunk, RegisterContainingValue, Denotes, Zeros, MoveCode, OperandValue,
        Agrees, ShiftsCode, Pow2, ClearsHiBits, ClearsLoBits;
    var x := st.regs[r2];
    var f := RegisterContainingValue(known, n, AND_ASK);
    LookupSound(known, n, AND_ASK);
    if n == M - 1 {
      MoveGives(st, r1, r2, s);
      Pow2At32();
      AndAll(x, 32);
      ResultIs(x, n);
    } else if EightBits(n).Some? {
      EightBitsSound(n);
      ImmOperand(st.regs, EightBits(n).value);
      OneLogic(st, AND, s, r1, r2, EightBits(n).value, n);
    } else if EightBits(Not(n)).Some? {
      EightBitsSound(Not(n));
      ImmOperand(st.regs, EightBits(Not(n)).value);
      OneLogic(st, BIC, s, r1, r2, EightBits(Not(n)).value, Not(n));
      BicIsAnd(x, n);
    } else if !f.NotFound? {
      MeaningOfDenotes(f, known, n, st.regs);
      ShiftOperand(st.regs, f.r, f.shift);
      var v := Apply(f.shift, st.regs[f.r]);
      OneLogic(st, if f.Inverted? then BIC else AND, s, r1, r2, Shift(f.r, f.shift), v);
      NegNot(v);
      BicIsAnd(x, n);
    } else if ClearsHiBits(n) != 0 {
      ShiftsGive(st, r1, r2, LSL, LSR, ClearsHiBits(n), s);
      HighBitsCleared(x, ClearsHiBits(n));
      ResultIs(x, n);
    } else if ClearsLoBits(n) != 0 {
      ShiftsGive(st, r1, r2, LSR, LSL, ClearsLoBits(n), s);
      LowBitsCleared(x, ClearsLoBits(n));
      ResultIs(x, n);
    } else {
      ChunkStep(Not(n));
      var c := Chunk(Not(n));
      AndCorrect(r1, r2, n + c, false, known, st);
      ThenLogic(st, AndCode(r1, r2, n + c, false, known), BIC, s, r1, c, Result(AND, x, n + c));
      AndIdentity(x, n);
    }
  }

  // ---- as the source writes it ----

  /** The byte at the lowest pair that is not 00, found by moving `mask` and `tail` up over n. */
  method FindChunk(n: Word) returns (chunk: Word)
    requires n > 0 && LowPair(n) <= 11
    ensures chunk == Chunk(n)
  {
    hide Window, Scale, Strip;
    var i, q := 0, n;
    while q % 4 == 0
      invariant q > 0 && i <= LowPair(n)
      invariant LowPair(n) == i + LowPair(q)
      decreases q
    {
      q := q / 4;
      i := i + 1;
    }
    chunk := Window(n, i);
  }

  lemma AndCodeDirect(r1: Reg, r2: Reg, n: Word, s: bool, known: Known)
    ensures var c, f := AndCode(r1, r2, n, s, known), RegisterContainingValue(known, n, AND_ASK);
            if n == M - 1 then c == MoveCode(r1, r2, s)
            else if EightBits(n).Some? then c == [Data(AL, AND, s, r1, r2, EightBits(n).value)]
            else if EightBits(Not(n)).Some? then c == [Data(AL, BIC, s, r1, r2, EightBits(Not(n)).value)]
            else !f.NotFound? ==>
              (f.Exact? || f.Inverted?)
                  && c == [Data(AL, if f.Inverted? then BIC else AND, s, r1, r2, Shift(f.r, f.shift))]
    ensures EightBits(n).None? && EightBits(Not(n)).None? ==> Not(n) > 0 && LowPair(Not(n)) <= 11
  {
    hide EightBits, RegisterContainingValue, Chunk, ClearsHiBits, ClearsLoBits, Zeros, Denotes, MoveCode, ShiftsCode;
    LookupSound(known, n, AND_ASK);
    if EightBits(Not(n)).None? { ChunkStep(Not(n)); }
  }

  lemma AndCodeSplit(r1: Reg, r2: Reg, n: Word, s: bool, known: Known)
    requires n != M - 1 && EightBits(n).None? && EightBits(Not(n)).None?
    requires RegisterContainingValue(known, n, AND_ASK).NotFound?
    ensures Not(n) > 0 && LowPair(Not(n)) <= 11 && n + Chunk(Not(n)) < M
    ensures EightBits(Chunk(Not(n))).Some?
    ensures Zeros(Not(n)) + 4 <= Zeros(Not(n + Chunk(Not(n)))) <= 16 && Zeros(Not(n)) <= 11
    ensures var c, hi, lo, low := AndCode(r1, r2, n, s, known), ClearsHiBits(n), ClearsLoBits(n), Chunk(Not(n));
            if hi != 0 then c == ShiftsCode(r1, r2, LSL, LSR, hi, s)
            else if lo != 0 then c == ShiftsCode(r1, r2, LSR, LSL, lo, s)
            else c == AndCode(r1, r2, n + low, false, known) + [Data(AL, BIC, s, r1, r1, EightBits(low).value)]
  {
    hide EightBits, RegisterContainingValue, Chunk, ClearsHiBits, ClearsLoBits, Zeros, ShiftsCode, LowPair, Strip, And;
    ChunkStep(Not(n));
  }

  method AndInteger(r1: Reg, r2: Reg, n: Word, s: bool, known: Known, out: InstrBuffer)
    requires out.Valid() && out.len + |AndCode(r1, r2, n, s, known)| <= out.slots.Length
    modifies out`len, out.slots
    ensures out.Valid() && out.Contents() == old(out.Contents()) + AndCode(r1, r2, n, s, known)
    decreases 16 - Zeros(Not(n))
  {
    hide AndCode, EightBits, RegisterContainingValue, Chunk, ClearsHiBits, ClearsLoBits, Zeros, Not, LowPair;
    AndCodeDirect(r1, r2, n, s, known);
    if n == M - 1 {
      if r1 != r2 || s { out.Emit(Data(AL, MOV, s, r1, 0, Shifted(r2, LSL, 0))); }
      return;
    }
    var op := AND;
    var packed := FindEightBits(n);
    if packed.None? {
      op := BIC;
      packed := FindEightBits(Not(n));
    }
    if packed.Some? {
      out.Emit(Data(AL, op, s, r1, r2, packed.value));
      return;
    }
    var f := RegisterContainingValue(known, n, AND_ASK);
    if !f.NotFound? {
      out.Emit(Data(AL, if f.Inverted? then BIC else AND, s, r1, r2, Shift(f.r, f.shift)));
      return;
    }
    AndCodeSplit(r1, r2, n, s, known);
    var shift, first, second := ClearsHiBits(n), LSL, LSR;
    if shift == 0 {
      shift, first, second := ClearsLoBits(n), LSR, LSL;
    }
    if shift != 0 {
      out.Emit(Data(AL, MOV, false, r1, 0, Shifted(r2, first, shift)));
      out.Emit(Data(AL, MOV, s, r1, 0, Shifted(r1, second, shift)));
      return;
    }
    var chunk := FindChunk(Not(n));
    ghost var before := out.Contents();
    AndInteger(r1, r2, n + chunk, false, known, out);
    assert out.len == |before| + |AndCode(r1, r2, n + chunk, false, known)|;
    packed := FindEightBits(chunk);
    out.Emit(Data(AL, BIC, s, r1, r1, packed.value));
  }

  /** orr_integer and eor_integer. */
  method OrInteger(op: Op, r1: Reg, r2: Reg, n: Word, s: bool, known: Known, out: InstrBuffer)
    requires op == ORR || op == EOR
    requires out.Valid() && out.len + |OrCode(op, r1, r2, n, s, known)| <= out.slots.Length
    modifies out`len, out.slots
    ensures out.Valid() && out.Contents() == old(out.Contents()) + OrCode(op, r1, r2, n, s, known)
    decreases 16 - Zeros(n)
  {
    hide EightBits, RegisterContainingValue, Chunk, Zeros, Denotes;
    if n == 0 {
      if r1 != r2 || s { out.Emit(Data(AL, MOV, s, r1, 0, Shifted(r2, LSL, 0))); }
      return;
    }
    var packed := FindEightBits(n);
    if packed.Some? {
      out.Emit(Data(AL, op, s, r1, r2, packed.value));
      return;
    }
    var f := RegisterContainingValue(known, n, OR_ASK);
    LookupSound(known, n, OR_ASK);
    if !f.NotFound? {
      out.Emit(Data(AL, op, s, r1, r2, Shift(f.r, f.shift)));
      return;
    }
    ChunkStep(n);
    var chunk := FindChunk(n);
    ghost var before := out.Contents();
    OrInteger(op, r1, r2, n - chunk, false, known, out);
    assert out.len == |before| + |OrCode(op, r1, r2, n - chunk, false, known)|;
    packed := FindEightBits(chunk);
    out.Emit(Data(AL, op, s, r1, r1, packed.value));
  }
}
