/**
 Multiplying a register by a constant without a multiply instruction (multiply_1,
 multiply_2, multiply_3 and multiply_i in arm/gen.c).

 Constants are `int32`; the code is correct modulo 2^32.
 */
module Multiply {
  import opened Words
  import opened Arm
  import opened Immediates

  // ---- int32 arithmetic ----

  function Int32(i: int): (r: int)
    ensures -TOP <= r < TOP
    ensures Wrap(r) == Wrap(i)
  {
    Signed(Wrap(i))
  }

  /** The power whose value is n modulo 2^32, if there is one. */
  function PowerOfTwo(n: int, k: nat := 0): (s: Option<Amount>)
    requires k <= 32
    ensures s.Some? ==> Wrap(n) == Pow2(s.value)
    ensures s.None? ==> forall e :: k <= e < 32 ==> Wrap(n) != Pow2(e)
    decreases 32 - k
  {
    if k == 32 then None
    else if Wrap(n) == Pow2(k) then Some(k)
    else PowerOfTwo(n, k + 1)
  }

  /** k & -k for a word. */
  function LowBit(k: Word): (s: Word)
    ensures k > 0 ==> 0 < s <= k
    ensures k == 0 ==> s == 0
  {
    if k == 0 then 0 else if k % 2 == 1 then 1 else 2 * LowBit(k / 2)
  }

  function TrailingZeros(k: Word): (t: nat)
    requires k > 0
    ensures LowBit(k) == Pow2(t)
  {
    if k % 2 == 1 then 0 else 1 + TrailingZeros(k / 2)
  }

  lemma {:induction false} TrailingZerosFit(k: Word, j: nat)
    requires 0 < k < Pow2(j)
    ensures TrailingZeros(k) < j
  {
    if k % 2 == 0 { TrailingZerosFit(k / 2, j - 1); }
  }

  /** The bit above the lowest one: k & (s << 1). */
  predicate NextBit(k: Word)
    requires k > 0
  {
    if k % 2 == 1 then k / 2 % 2 == 1 else NextBit(k / 2)
  }

  /** Moving to the nearest multiple of four times the lowest bit raises the lowest bit. */
  lemma {:induction false} NextK(k: Word)
    requires k > 0
    ensures var s := LowBit(k);
            if NextBit(k)
            then k + s <= M ==> k + s == M || TrailingZeros(k + s) >= TrailingZeros(k) + 2
            else k == s || TrailingZeros(k - s) >= TrailingZeros(k) + 2
  {
    if k % 2 == 0 {
      NextK(k / 2);
    }
  }

  // ---- what a sequence computes ----

  /** r1 = r2 * n modulo 2^32; besides r1 only registers in `work` change, and flags only if s. */
  ghost predicate Product(st: State, end: State, r1: Reg, r2: Reg, n: int, work: set<Reg>, s: bool)
  {
    && end.regs[r1] == Wrap(st.regs[r2] * n)
    && (forall q: Reg :: q != r1 && q !in work ==> end.regs[q] == st.regs[q])
    && end.mem == st.mem
    && (if s then end.flags.z == (end.regs[r1] == 0) && end.flags.n == (end.regs[r1] >= TOP)
        else end.flags == st.flags)
  }

  ghost predicate Multiplies(c: Code, r1: Reg, r2: Reg, n: int, work: set<Reg>, s: bool)
  {
    forall st :: Product(st, Run(c, st), r1, r2, n, work, s)
  }

  /** Congruent multipliers give equal products. */
  lemma WrapFactor(x: int, a: int, b: int)
    requires Wrap(a) == Wrap(b)
    ensures Wrap(x * a) == Wrap(x * b)
  {
    var k := a / M - b / M;
    assert a == b + k * M;
    assert x * a == x * b + x * k * M;
    WrapMultiple(x * b, x * k);
  }

  lemma WrapMultiple(i: int, k: int)
    ensures Wrap(i + k * M) == Wrap(i)
  {
  }

  lemma WrapRight(a: int, b: int)
    ensures Wrap(a + Wrap(b)) == Wrap(a + b)
    ensures Wrap(a - Wrap(b)) == Wrap(a - b)
    ensures Wrap(Wrap(b) - a) == Wrap(b - a)
  {
    var k := b / M;
    assert Wrap(b) == b - k * M;
    hide Wrap;
    WrapMultiple(a + b, -k);
    WrapMultiple(a - b, k);
    WrapMultiple(b - a, -k);
  }

  /** op rd, rn, rm LSL k as arithmetic on the two source registers. */
  lemma ShiftedOp(st: State, op: Op, s: bool, rd: Reg, rn: Reg, rm: Reg, k: Amount)
    requires op == MOV || op == ADD || op == SUB || op == RSB
    ensures var e, x, y := Exec(Data(AL, op, s, rd, rn, Shifted(rm, LSL, k)), st), st.regs[rn], st.regs[rm] * Pow2(k);
            && e.regs == st.regs[rd := Wrap(match op case MOV => y case ADD => x + y case SUB => x - y case _ => y - x)]
            && e.mem == st.mem
            && (if s then e.flags.z == (e.regs[rd] == 0) && e.flags.n == (e.regs[rd] >= TOP) else e.flags == st.flags)
  {
    hide Lsl, ShifterCarry, Pow2, Wrap, Result, ResultFlags, ExecTransfer, ExecBlock;
    var x, y := st.regs[rn], st.regs[rm] * Pow2(k);
    LslIsProduct(st.regs[rm], k);
    WrapRight(x, y);
    OpResult(op, x, Wrap(y), ShifterCarry(st.regs, Shifted(rm, LSL, k), st.flags.c), st.flags);
  }

  lemma OpResult(op: Op, a: Word, b: Word, c: bool, f: Flags)
    requires op == MOV || op == ADD || op == SUB || op == RSB
    ensures Result(op, a, b)
            == match op case MOV => b case ADD => Wrap(a + b) case SUB => Wrap(a - b) case _ => Wrap(b - a)
    ensures ResultFlags(op, a, b, c, f).z == (Result(op, a, b) == 0)
    ensures ResultFlags(op, a, b, c, f).n == (Result(op, a, b) >= TOP)
  {
    hide And, Bic, Orr, Eor;
  }

  // ---- one instruction ----

  /** A multiplier of one of the forms 2^s, 2^s + 1, 1 - 2^s, 2^s - 1. */
  function Multiply1(r1: Reg, r2: Reg, n: int, s: bool): Option<Instr>
  {
    var a := PowerOfTwo(n);
    if a.Some? then Some(Data(AL, MOV, s, r1, 0, Shifted(r2, LSL, a.value))) else
    var b := PowerOfTwo(n - 1);
    if b.Some? then Some(Data(AL, ADD, s, r1, r2, Shifted(r2, LSL, b.value))) else
    var c := PowerOfTwo(1 - n);
    if c.Some? then Some(Data(AL, SUB, s, r1, r2, Shifted(r2, LSL, c.value))) else
    var d := PowerOfTwo(n + 1);
    if d.Some? then Some(Data(AL, RSB, s, r1, r2, Shifted(r2, LSL, d.value))) else None
  }

  lemma Multiply1Exec(r1: Reg, r2: Reg, n: int, s: bool, st: State)
    requires Multiply1(r1, r2, n, s).Some?
    ensures Product(st, Exec(Multiply1(r1, r2, n, s).value, st), r1, r2, n, {}, s)
  {
    hide PowerOfTwo, Exec, Pow2, Wrap;
    var x := st.regs[r2];
    var i := Multiply1(r1, r2, n, s).value;
    var k := i.op2.amount;
    ShiftedOp(st, i.op, s, r1, i.rn, r2, k);
    if i.op == MOV {
      Factor(x, n, n, k);
    } else if i.op == ADD {
      Factor(x, n - 1, n, k);
      assert x * (n - 1) == x * n - x;
      SumOfParts(x, x * Pow2(k), x * (n - 1), x * n);
    } else if i.op == SUB {
      Factor(x, 1 - n, n, k);
      assert x * (1 - n) == x - x * n;
      DifferenceOfParts(x, x * Pow2(k), x * (1 - n), x * n);
    } else {
      Factor(x, n + 1, n, k);
      assert x * (n + 1) == x * n + x;
      SumOfParts(-x, x * Pow2(k), x * (n + 1), x * n);
    }
  }

  lemma Factor(x: int, m: int, n: int, k: nat)
    requires k < 32 && Wrap(m) == Pow2(k)
    ensures Wrap(x * Pow2(k)) == Wrap(x * m)
  {
    Pow2Below(k);
    WrapFactor(x, m, Pow2(k));
  }

  lemma Pow2Below(k: nat)
    requires k < 32
    ensures Pow2(k) < M && Wrap(Pow2(k)) == Pow2(k)
  {
    Pow2Grows(k, 32 - k);
    Pow2At32();
  }

  lemma {:induction false} Pow2Grows(j: nat, k: nat)
    requires k > 0
    ensures Pow2(j) < Pow2(j + k)
  {
    if k > 1 { Pow2Grows(j, k - 1); }
  }

  lemma SumOfParts(a: int, p: int, q: int, whole: int)
    requires Wrap(p) == Wrap(q) && a + q == whole
    ensures Wrap(a + p) == Wrap(whole) && Wrap(p + a) == Wrap(whole)
  {
    hide Wrap;
    WrapRight(a, p);
    WrapRight(a, q);
  }

  lemma DifferenceOfParts(a: int, p: int, q: int, whole: int)
    requires Wrap(p) == Wrap(q) && a - q == whole
    ensures Wrap(a - p) == Wrap(whole)
  {
    hide Wrap;
    WrapRight(a, p);
    WrapRight(a, q);
  }

  lemma Multiply1Multiplies(r1: Reg, r2: Reg, n: int, s: bool)
    requires Multiply1(r1, r2, n, s).Some?
    ensures Multiplies([Multiply1(r1, r2, n, s).value], r1, r2, n, {}, s)
  {
    hide Multiply1, Exec, Run, Product;
    var c := [Multiply1(r1, r2, n, s).value];
    forall st ensures Product(st, Run(c, st), r1, r2, n, {}, s) {
      RunOne(c[0], st);
      Multiply1Exec(r1, r2, n, s, st);
    }
  }

  /** The multipliers that one instruction does. */
  predicate One(n: int)
  {
    PowerOfTwo(n).Some? || PowerOfTwo(n - 1).Some? || PowerOfTwo(1 - n).Some? || PowerOfTwo(n + 1).Some?
  }

  /** Exactly the multipliers that are, modulo 2^32, a power of two, one next to it, or one less a power of two. */
  lemma OneIff(r1: Reg, r2: Reg, n: int, s: bool)
    ensures Multiply1(r1, r2, n, s).Some? <==> One(n)
    ensures One(n) <==>
              exists e: Amount ::
                Wrap(n) == Pow2(e) || Wrap(n - 1) == Pow2(e) || Wrap(1 - n) == Pow2(e) || Wrap(n + 1) == Pow2(e)
  {
    hide PowerOfTwo;
    var a, b, c, d := PowerOfTwo(n), PowerOfTwo(n - 1), PowerOfTwo(1 - n), PowerOfTwo(n + 1);
    if One(n) {
      var e: Amount := if a.Some? then a.value else if b.Some? then b.value else if c.Some? then c.value else d.value;
      assert Wrap(n) == Pow2(e) || Wrap(n - 1) == Pow2(e) || Wrap(1 - n) == Pow2(e) || Wrap(n + 1) == Pow2(e);
    }
  }

  /** Powers of two and their neighbours always have a one-instruction form. */
  lemma NearPower(r1: Reg, r2: Reg, n: int, s: bool, k: nat)
    requires k < 32 && (Wrap(n) == Pow2(k) || Wrap(n - 1) == Pow2(k) || Wrap(n + 1) == Pow2(k))
    ensures Multiply1(r1, r2, n, s).Some?
  {
  }

  // ---- longer sequences ----

  /** A product followed by a multiplication of r1 in place. */
  lemma ThenTimes(c: Code, r1: Reg, r2: Reg, a: int, b: int, n: int, work: set<Reg>, s: bool)
    requires Multiplies(c, r1, r2, a, work, false) && Multiply1(r1, r1, b, s).Some? && n == a * b
    ensures Multiplies(c + [Multiply1(r1, r1, b, s).value], r1, r2, n, work, s)
  {
    hide Multiply1, Exec, Run, Product;
    var i := Multiply1(r1, r1, b, s).value;
    forall st ensures Product(st, Run(c + [i], st), r1, r2, n, work, s) {
      RunSnoc(c, i, st);
      Multiply1Exec(r1, r1, b, s, Run(c, st));
      ProductThen(st, Run(c, st), Exec(i, Run(c, st)), r1, r2, a, b, work, s);
    }
  }

  lemma ProductThen(st: State, mid: State, end: State, r1: Reg, r2: Reg, a: int, b: int, work: set<Reg>, s: bool)
    requires Product(st, mid, r1, r2, a, work, false) && Product(mid, end, r1, r1, b, {}, s)
    ensures Product(st, end, r1, r2, a * b, work, s)
  {
    WrapLeftFactor(st.regs[r2] * a, b);
    assert st.regs[r2] * a * b == st.regs[r2] * (a * b);
  }

  lemma WrapLeftFactor(y: int, b: int)
    ensures Wrap(Wrap(y) * b) == Wrap(y * b)
  {
    var k := y / M;
    assert Wrap(y) == y - k * M;
    assert (y - k * M) * b == y * b + (-(k * b)) * M;
    hide Wrap;
    WrapMultiple(y * b, -(k * b));
  }

  /** What is combined with a shifted r2: r3 + r2 << k, r3 - r2 << k or r2 << k - r3. */
  function Combined(op: Op, a: int, k: nat): int
  {
    match op
    case ADD => a + Pow2(k)
    case SUB => a - Pow2(k)
    case _ => Pow2(k) - a
  }

  /** A product in the work register combined with r2 shifted. */
  lemma ThenCombine(c: Code, op: Op, r1: Reg, r2: Reg, r3: Reg, a: int, k: Amount, n: int, work: set<Reg>, s: bool)
    requires op == ADD || op == SUB || op == RSB
    requires r3 != r2 && work <= {r3} && Multiplies(c, r3, r2, a, work, false)
    requires Wrap(Combined(op, a, k)) == Wrap(n)
    ensures Multiplies(c + [Data(AL, op, s, r1, r3, Shifted(r2, LSL, k))], r1, r2, n, {r3}, s)
  {
    hide Exec, Run, Product, Wrap;
    var i := Data(AL, op, s, r1, r3, Shifted(r2, LSL, k));
    forall st ensures Product(st, Run(c + [i], st), r1, r2, n, {r3}, s) {
      RunSnoc(c, i, st);
      CombineExec(st, Run(c, st), op, r1, r2, r3, a, k, n, work, s);
    }
  }

  lemma CombineExec(st: State, mid: State, op: Op, r1: Reg, r2: Reg, r3: Reg, a: int, k: Amount, n: int, work: set<Reg>,
          s: bool)
    requires op == ADD || op == SUB || op == RSB
    requires r3 != r2 && work <= {r3} && Product(st, mid, r3, r2, a, work, false)
    requires Wrap(Combined(op, a, k)) == Wrap(n)
    ensures Product(st, Exec(Data(AL, op, s, r1, r3, Shifted(r2, LSL, k)), mid), r1, r2, n, {r3}, s)
  {
    hide Exec, Wrap, Pow2;
    var x := st.regs[r2];
    ShiftedOp(mid, op, s, r1, r3, r2, k);
    CombineValue(op, x, a, k);
    WrapFactor(x, Combined(op, a, k), n);
  }

  lemma CombineValue(op: Op, x: Word, a: int, k: nat)
    requires op == ADD || op == SUB || op == RSB
    ensures var y := x * Pow2(k);
            Wrap(x * Combined(op, a, k)) ==
            if op == ADD then Wrap(Wrap(x * a) + y) else if op == SUB then Wrap(Wrap(x * a) - y)
                else Wrap(y - Wrap(x * a))
  {
    hide Wrap;
    var p := Pow2(k);
    var y := x * p;
    WrapRight(y, x * a);
    if op == ADD {
      assert x * (a + p) == y + x * a;
      assert Wrap(x * a) + y == y + Wrap(x * a);
    } else if op == SUB {
      assert x * (a - p) == x * a - y;
    } else {
      assert x * (p - a) == y - x * a;
    }
  }

  /** r2 + (product << k), or (product << k) - r2, with the product in the work register. */
  lemma ThenShiftProduct(c: Code, op: Op, r1: Reg, r2: Reg, r3: Reg, a: int, k: Amount, n: int, s: bool)
    requires op == ADD || op == RSB
    requires r3 != r2 && Multiplies(c, r3, r2, a, {r3}, false)
    requires n == a * Pow2(k) + (if op == ADD then 1 else -1)
    ensures Multiplies(c + [Data(AL, op, s, r1, r2, Shifted(r3, LSL, k))], r1, r2, n, {r3}, s)
  {
    hide Exec, Run, Product, Pow2;
    var i := Data(AL, op, s, r1, r2, Shifted(r3, LSL, k));
    forall st ensures Product(st, Run(c + [i], st), r1, r2, n, {r3}, s) {
      RunSnoc(c, i, st);
      ShiftProductExec(st, Run(c, st), op, r1, r2, r3, a, k, n, s);
    }
  }

  lemma ShiftProductExec(st: State, mid: State, op: Op, r1: Reg, r2: Reg, r3: Reg, a: int, k: Amount, n: int, s: bool)
    requires op == ADD || op == RSB
    requires r3 != r2 && Product(st, mid, r3, r2, a, {r3}, false)
    requires n == a * Pow2(k) + (if op == ADD then 1 else -1)
    ensures Product(st, Exec(Data(AL, op, s, r1, r2, Shifted(r3, LSL, k)), mid), r1, r2, n, {r3}, s)
  {
    hide Exec, Wrap, Pow2;
    var x, p := st.regs[r2], Pow2(k);
    ShiftedOp(mid, op, s, r1, r2, r3, k);
    WrapLeftFactor(x * a, p);
    WrapRight(x, x * a * p);
    assert x * a * p == x * (a * p);
    if op == ADD {
      assert x * (a * p + 1) == x + x * (a * p);
      SumOfParts(x, Wrap(x * a) * p, x * a * p, x * n);
    } else {
      assert x * (a * p - 1) == x * (a * p) - x;
      SumOfParts(-x, Wrap(x * a) * p, x * a * p, x * n);
    }
  }

  lemma MoreWork(c: Code, r1: Reg, r2: Reg, n: int, work: set<Reg>, more: set<Reg>, s: bool)
    requires Multiplies(c, r1, r2, n, work, s) && work <= more
    ensures Multiplies(c, r1, r2, n, more, s)
  {
    hide Run;
    forall st ensures Product(st, Run(c, st), r1, r2, n, more, s) {
      assert Product(st, Run(c, st), r1, r2, n, work, s);
    }
  }

  // ---- arithmetic of the search ----

  lemma OddQuotient(n: int, f: int)
    requires n % 2 == 1 && f != 0 && n % f == 0
    ensures n == f * (n / f) && (n / f) % 2 == 1
  {
    assert n == f * (n / f);
    EvenProduct(f, n / f);
  }

  lemma EvenProduct(f: int, q: int)
    ensures q % 2 == 0 ==> f * q % 2 == 0
  {
    if q % 2 == 0 { assert f * q == 2 * (f * (q / 2)); }
  }

  function Size(n: int): nat { if n < 0 then -n else n }

  lemma SmallerBy(n: int, f: int, d: nat)
    requires f >= d > 0 && n % f == 0
    ensures Size(n / f) <= Size(n) / d
  {
    var q := n / f;
    assert n == f * q;
    var a := Size(q);
    assert Size(n) == f * a by { if q < 0 { assert f * -q == -(f * q); } }
    MulMono(d, f, a);
    assert d * a <= Size(n);
    if a > Size(n) / d {
      MulMono(Size(n) / d + 1, a, d);
    }
  }

  lemma {:induction false} LowBitRoom(k: Word, j: nat)
    requires k < Pow2(j)
    ensures k + LowBit(k) <= Pow2(j)
  {
    if k > 0 && k % 2 == 0 { LowBitRoom(k / 2, j - 1); }
  }

  lemma {:induction false} LowBitDivides(k: Word) returns (q: nat)
    requires k > 0
    ensures k == q * LowBit(k) && q % 2 == 1
  {
    if k % 2 == 1 {
      q := k;
    } else {
      q := LowBitDivides(k / 2);
      assert k == q * (2 * LowBit(k / 2));
    }
  }

  /** What the loops of this file need to know about the lowest set bit of k. */
  lemma LowBitIs(k: Word)
    requires k > 0
    ensures TrailingZeros(k) < 32
    ensures LowBit(k) == Pow2(TrailingZeros(k)) && PowerOfTwo(LowBit(k)).Some?
  {
    Pow2At32();
    TrailingZerosFit(k, 32);
    var t := TrailingZeros(k);
    Pow2Below(t);
  }

  // ---- the two-instruction forms ----

  /** n moved to the nearest multiple of four. */
  function Nearest(n: int): (k: int)
    ensures -TOP <= k < TOP
    ensures Wrap(k) == Wrap(if n % 4 == 1 || n % 4 == 0 then n - 1 else n + 1)
  {
    Int32(if n % 4 == 1 || n % 4 == 0 then n - 1 else n + 1)
  }

  /** A neighbour of a power of two, in int32 arithmetic. */
  lemma NeighbourForm(r1: Reg, r2: Reg, k: Word, up: bool, s: bool)
    ensures Multiply1(r1, r2, Int32(LowBit(k) + (if up then 1 else -1)), s).Some?
  {
    hide Multiply1, PowerOfTwo, Wrap;
    var f := LowBit(k) + (if up then 1 else -1);
    if k == 0 {
      ZeroNeighbour(up);
      NearPower(r1, r2, if up then 1 else 0, s, 0);
      NegativeOne(r1, r2, s);
    } else {
      LowBitIs(k);
      WrapStep(LowBit(k), up);
      NearPower(r1, r2, Int32(f), s, TrailingZeros(k));
    }
  }

  lemma ZeroNeighbour(up: bool)
    ensures Int32(1) == 1 && Int32(-1) == -1 && Wrap(1) == Pow2(0)
  {
  }

  lemma NegativeOne(r1: Reg, r2: Reg, s: bool)
    ensures Multiply1(r1, r2, -1, s).Some?
  {
    assert Wrap(2) == Pow2(1);
  }

  lemma WrapStep(p: Word, up: bool)
    ensures var f := Int32(p + (if up then 1 else -1)); Wrap(if up then f - 1 else f + 1) == p
  {
    var d := if up then 1 else -1;
    var f := Int32(p + d);
    assert Wrap(p) == p;
    hide Int32, Wrap;
    WrapRight(d, f);
    WrapRight(d, p + d);
    assert p + d - d == p;
    assert Wrap(f - d) == p;
  }

  // ---- when the searches succeed ----

  predicate Splits(n: int, f: int) { f != 0 && n % f == 0 && One(n / f) }

  /** The multipliers for which Multiply2 finds a form. */
  predicate Two(n: int, work: bool)
  {
    var k := Nearest(n);
    var p: int := LowBit(Wrap(k));
    || Splits(n, Int32(p - 1)) || Splits(n, Int32(p + 1))
    || (work && (PowerOfTwo(k - p).Some? || PowerOfTwo(k + p).Some?))
  }

  /** What needs no work register can also be done with one. */
  lemma TwoWithout(n: int)
    ensures Two(n, false) ==> Two(n, true)
  {
    hide Splits, PowerOfTwo, LowBit, Nearest, Int32;
  }

  /** A factor 2^u - 1 or 2^u + 1, u at most t, that leaves a form of two instructions. */
  predicate TwoLeft(n: int, t: nat, work: bool)
    requires t <= 16
  {
    t >= 2 &&
    (TwoAfter(n, Pow2(t) - 1, work) || TwoAfter(n, Pow2(t) + 1, work) || TwoLeft(n, t - 1, work))
  }

  predicate TwoAfter(n: int, f: int, work: bool) { f != 0 && n % f == 0 && Two(n / f, work) }

  /** How far the lowest bit of k can still move up. */
  function Room(k: Word): nat { if k == 0 || TrailingZeros(k) > 32 then 0 else 33 - TrailingZeros(k) }

  /** k rounded to the nearest multiple of four times its lowest bit. */
  function Rounded(k: Word): (m: Word)
    requires k > 0 && k % 2 == 0
    ensures m % 2 == 0 && Room(m) < Room(k)
  {
    hide LowBit, NextBit, TrailingZeros;
    LowBitIs(k);
    NextRound(k);
    if NextBit(k) then Wrap(k + LowBit(k)) else k - LowBit(k)
  }

  /** One of the sums tried by the second loop of Multiply3, from the lowest bit of k on. */
  predicate SumLeft(n: int, k: Word)
    requires k % 2 == 0
    decreases Room(k)
  {
    hide Room, LowBit, Rounded, Two;
    k != 0 && (Two(Int32(n - LowBit(k)), true) || Two(Int32(n + LowBit(k)), true) || SumLeft(n, Rounded(k)))
  }

  /** The multipliers for which Multiply3 finds a form. */
  predicate Three(n: int, work: bool)
    requires n % 2 == 1
  {
    NearestEven(n);
    TwoLeft(n, 16, work) || (work && SumLeft(n, Wrap(Nearest(n))))
  }

  /** The first factor of n of the form 2^u - 1 or 2^u + 1, from 2^t down; 0 if there is none. */
  function FirstFactor(n: int, t: nat): (f: nat)
    ensures f > 0 ==> f >= 3 && n % f == 0
  {
    if t < 2 then 0
    else
      assert Pow2(t) >= 4 by { Pow2AtLeast(t); }
      if n % (Pow2(t) - 1) == 0 then Pow2(t) - 1
      else if n % (Pow2(t) + 1) == 0 then Pow2(t) + 1
      else FirstFactor(n, t - 1)
  }

  lemma Pow2AtLeast(t: nat)
    requires t >= 2
    ensures Pow2(t) >= 4
  {
    if t > 2 { Pow2Grows(2, t - 2); }
    assert Pow2(2) == 4;
  }

  class InstDesc {
    const i: array<Instr>
    var workreg: Option<Reg>
    var n: nat

    ghost predicate Valid()
      reads this
    {
      i.Length == 32 && n <= 32
    }

    ghost function Code(): Code
      reads this, i
      requires Valid()
    {
      i[..n]
    }

    constructor (work: Reg)
      ensures Valid() && fresh(i) && Code() == [] && workreg == Some(work)
    {
      i := new Instr[32](_ => Transfer(true, 0, 0, 0, Offset));
      workreg := Some(work);
      n := 0;
    }

    method Put(x: Instr)
      requires Valid() && n < 32
      modifies this`n, i
      ensures Valid() && Code() == old(Code()) + [x] && n == old(n) + 1
    {
      i[n] := x;
      n := n + 1;
    }
  }

  function WorkSet(w: Option<Reg>): set<Reg> { if w.Some? then {w.value} else {} }

  /** What the instructions appended to `old` compute, with the scratch register named by `w`. */
  ghost predicate Appended(before: Code, after: Code, r1: Reg, r2: Reg, n: int, w: Option<Reg>, s: bool)
  {
    before <= after && Multiplies(after[|before|..], r1, r2, n, WorkSet(w), s)
  }

  lemma AppendedOne(before: Code, x: Instr, r1: Reg, r2: Reg, n: int, w: Option<Reg>, s: bool)
    requires Multiply1(r1, r2, n, s) == Some(x)
    ensures Appended(before, before + [x], r1, r2, n, w, s)
  {
    hide Multiplies, Multiply1;
    assert (before + [x])[|before|..] == [x];
    Multiply1Multiplies(r1, r2, n, s);
    MoreWork([x], r1, r2, n, {}, WorkSet(w), s);
  }

  lemma AppendedTimes(before: Code, after: Code, x: Instr, r1: Reg, r2: Reg, a: int, b: int, n: int, w: Option<Reg>,
          s: bool)
    requires Appended(before, after, r1, r2, a, w, false)
    requires Multiply1(r1, r1, b, s) == Some(x) && Wrap(a * b) == Wrap(n)
    ensures Appended(before, after + [x], r1, r2, n, w, s)
  {
    hide Multiplies, Multiply1, Wrap;
    var c := after[|before|..];
    assert (after + [x])[|before|..] == c + [x];
    ThenTimes(c, r1, r2, a, b, a * b, WorkSet(w), s);
    SameProduct(c + [x], r1, r2, a * b, n, WorkSet(w), s);
  }

  lemma SameProduct(c: Code, r1: Reg, r2: Reg, m: int, n: int, work: set<Reg>, s: bool)
    requires Multiplies(c, r1, r2, m, work, s) && Wrap(m) == Wrap(n)
    ensures Multiplies(c, r1, r2, n, work, s)
  {
    hide Run, Wrap;
    forall st ensures Product(st, Run(c, st), r1, r2, n, work, s) {
      assert Product(st, Run(c, st), r1, r2, m, work, s);
      WrapFactor(st.regs[r2], m, n);
    }
  }

  lemma AppendedCombine(before: Code, after: Code, op: Op, r1: Reg, r2: Reg, r3: Reg, a: int, k: Amount, n: int,
          w: Option<Reg>, s: bool)
    requires op == ADD || op == SUB || op == RSB
    requires r3 != r2 && (w == None || w == Some(r3)) && Appended(before, after, r3, r2, a, w, false)
    requires Wrap(Combined(op, a, k)) == Wrap(n)
    ensures Appended(before, after + [Data(AL, op, s, r1, r3, Shifted(r2, LSL, k))], r1, r2, n, Some(r3), s)
  {
    hide Multiplies, Wrap;
    var c, x := after[|before|..], Data(AL, op, s, r1, r3, Shifted(r2, LSL, k));
    assert (after + [x])[|before|..] == c + [x];
    ThenCombine(c, op, r1, r2, r3, a, k, n, WorkSet(w), s);
  }

  lemma AppendedShiftProduct(before: Code, after: Code, op: Op, r1: Reg, r2: Reg, r3: Reg, a: int, k: Amount, n: int,
          w: Option<Reg>, s: bool)
    requires op == ADD || op == RSB
    requires r3 != r2 && (w == None || w == Some(r3)) && Appended(before, after, r3, r2, a, w, false)
    requires n == a * Pow2(k) + (if op == ADD then 1 else -1)
    ensures Appended(before, after + [Data(AL, op, s, r1, r2, Shifted(r3, LSL, k))], r1, r2, n, Some(r3), s)
  {
    hide Multiplies, Wrap;
    var c, x := after[|before|..], Data(AL, op, s, r1, r2, Shifted(r3, LSL, k));
    assert (after + [x])[|before|..] == c + [x];
    MoreWork(c, r3, r2, a, WorkSet(w), {r3}, false);
    ThenShiftProduct(c, op, r1, r2, r3, a, k, n, s);
  }

  /** Try one factor of a product of two one-instruction forms. */
  method TryFactor(r1: Reg, r2: Reg, n: int, factor: int, s: bool, d: InstDesc) returns (ok: bool)
    requires d.Valid() && d.n + 2 <= 32
    requires -TOP <= n < TOP && n % 2 == 1 && factor != 0 && Multiply1(r1, r1, factor, s).Some?
    modifies d, d.i
    ensures d.Valid() && d.n == old(d.n) + if ok then 2 else 0
    ensures ok <==> Splits(n, factor)
    ensures ok ==> d.workreg == None && Appended(old(d.Code()), d.Code(), r1, r2, n, None, s)
    ensures !ok ==> d.Code() == old(d.Code()) && d.workreg == old(d.workreg)
  {
    hide Multiply1, Appended, One;
    if n % factor != 0 { return false; }
    var i0 := Multiply1(r1, r2, n / factor, false);
    OneIff(r1, r2, n / factor, false);
    if i0.None? { return false; }
    OddQuotient(n, factor);
    AppendedOne(d.Code(), i0.value, r1, r2, n / factor, None, false);
    d.Put(i0.value);
    var i1 := Multiply1(r1, r1, factor, s).value;
    AppendedTimes(old(d.Code()), d.Code(), i1, r1, r2, n / factor, factor, n, None, s);
    d.Put(i1);
    d.workreg := None;
    return true;
  }

  lemma WrapMinus(n: int, k: int, p: Word, c: int)
    requires Wrap(k - p) == c
    ensures Wrap(c + Int32(p + n - k)) == Wrap(n)
  {
    var a := Int32(p + n - k);
    hide Int32;
    WrapRight(a, k - p);
    WrapRight(k - p, p + n - k);
    WrapRight(k - p, a);
  }

  lemma WrapPlus(n: int, k: int, p: Word, c: int)
    requires Wrap(k + p) == c
    ensures Wrap(c - Int32(p - n + k)) == Wrap(n)
  {
    var a := Int32(p - n + k);
    hide Int32;
    WrapRight(a, k + p);
    WrapRight(k + p, p - n + k);
    WrapRight(k + p, a);
  }

  /** n - Nearest(n) is 1 or -1, so the other operand of the work-register form is a neighbour of s. */
  lemma WorkOperand(r1: Reg, r2: Reg, n: int, s: bool)
    requires -TOP <= n < TOP && n % 2 == 1
    ensures var k := Nearest(n);
            var p := LowBit(Wrap(k));
            Multiply1(r1, r2, Int32(p + n - k), s).Some? && Multiply1(r1, r2, Int32(p - n + k), s).Some?
  {
    hide Multiply1, LowBit, Int32, Nearest, Wrap;
    var k := Nearest(n);
    var p: int := LowBit(Wrap(k));
    NeighbourForm(r1, r2, Wrap(k), true, s);
    NeighbourForm(r1, r2, Wrap(k), false, s);
    var e := if n % 4 == 1 then 1 else -1;
    SameWord(p + n, k, n - e);
    SameWord(p - n, -k, -(n - e));
    assert p - n - -k == p - n + k;
    SameInt32(p + n - k, p + e);
    SameInt32(p - n + k, p - e);
  }

  lemma SameWord(a: int, k: int, j: int)
    requires Wrap(k) == Wrap(j) || Wrap(-k) == Wrap(-j)
    ensures Wrap(a - k) == Wrap(a - j)
  {
    if Wrap(k) == Wrap(j) {
      WrapRight(a, k);
      WrapRight(a, j);
    } else {
      WrapRight(a, -k);
      WrapRight(a, -j);
    }
  }

  lemma SameInt32(a: int, b: int)
    requires Wrap(a) == Wrap(b)
    ensures Int32(a) == Int32(b)
  {
  }

  /** n = (2^p +- 1)(2^q +- 1), or 2^a +- 2^b +- 1 with a work register. */
  method Multiply2(r1: Reg, r2: Reg, n: int, s: bool, d: InstDesc) returns (ok: bool)
    requires d.Valid() && d.n + 2 <= 32 && d.workreg != Some(r2)
    requires -TOP <= n < TOP && n % 2 == 1
    modifies d, d.i
    ensures d.Valid() && d.n == old(d.n) + if ok then 2 else 0
    ensures ok <==> Two(n, old(d.workreg).Some?)
    ensures ok ==> (d.workreg.Some? <==> old(d.workreg).Some? && !Two(n, false))
    ensures ok ==> (d.workreg == None || d.workreg == old(d.workreg))
                   && Appended(old(d.Code()), d.Code(), r1, r2, n, d.workreg, s)
    ensures !ok ==> d.Code() == old(d.Code()) && d.workreg == old(d.workreg)
  {
    hide Multiply1, Appended, PowerOfTwo, LowBit, Splits;
    var k := Nearest(n);
    var p: int := LowBit(Wrap(k));
    FactorForms(r1, n, s);
    ok := TryFactor(r1, r2, n, Int32(p - 1), s, d);
    if ok { return; }
    ok := TryFactor(r1, r2, n, Int32(p + 1), s, d);
    if ok || d.workreg.None? { return; }
    ok := AddOrReverse(r1, r2, n, k, p, s, d);
  }

  /** The two candidate factors are nonzero and one-instruction forms. */
  lemma FactorForms(r1: Reg, n: int, s: bool)
    requires n % 2 == 1
    ensures var p := LowBit(Wrap(Nearest(n)));
            && Int32(p - 1) != 0 && Multiply1(r1, r1, Int32(p - 1), s).Some?
            && Int32(p + 1) != 0 && Multiply1(r1, r1, Int32(p + 1), s).Some?
  {
    hide Multiply1, LowBit;
    var k := Wrap(Nearest(n));
    NeighbourForm(r1, r1, k, true, s);
    NeighbourForm(r1, r1, k, false, s);
    NearestEven(n);
    LowBitOfEven(k);
  }

  lemma NearestEven(n: int)
    requires n % 2 == 1
    ensures Wrap(Nearest(n)) % 2 == 0
  {
  }

  lemma LowBitOfEven(k: Word)
    requires k % 2 == 0
    ensures LowBit(k) % 2 == 0
  {
  }

  method AddOrReverse(r1: Reg, r2: Reg, n: int, k: int, p: Word, s: bool, d: InstDesc) returns (ok: bool)
    requires d.Valid() && d.n + 2 <= 32 && d.workreg.Some? && d.workreg != Some(r2)
    requires -TOP <= n < TOP && n % 2 == 1 && k == Nearest(n) && p == LowBit(Wrap(k))
    modifies d, d.i
    ensures d.Valid() && d.n == old(d.n) + (if ok then 2 else 0) && d.workreg == old(d.workreg)
    ensures ok <==> PowerOfTwo(k - p).Some? || PowerOfTwo(k + p).Some?
    ensures ok ==> Appended(old(d.Code()), d.Code(), r1, r2, n, d.workreg, s)
    ensures !ok ==> d.Code() == old(d.Code())
  {
    hide Multiply1, Appended, PowerOfTwo, Nearest, LowBit, Int32;
    var r3 := d.workreg.value;
    WorkOperand(r3, r2, n, false);
    var sh := PowerOfTwo(k - p);
    if sh.Some? {
      var a := Int32(p + n - k);
      AppendedOne(d.Code(), Multiply1(r3, r2, a, false).value, r3, r2, a, None, false);
      d.Put(Multiply1(r3, r2, a, false).value);
      WrapMinus(n, k, p, Pow2(sh.value));
      AppendedCombine(old(d.Code()), d.Code(), ADD, r1, r2, r3, a, sh.value, n, None, s);
      d.Put(Data(AL, ADD, s, r1, r3, Shifted(r2, LSL, sh.value)));
      return true;
    }
    sh := PowerOfTwo(k + p);
    if sh.Some? {
      var a := Int32(p - n + k);
      AppendedOne(d.Code(), Multiply1(r3, r2, a, false).value, r3, r2, a, None, false);
      d.Put(Multiply1(r3, r2, a, false).value);
      WrapPlus(n, k, p, Pow2(sh.value));
      AppendedCombine(old(d.Code()), d.Code(), RSB, r1, r2, r3, a, sh.value, n, None, s);
      d.Put(Data(AL, RSB, s, r1, r3, Shifted(r2, LSL, sh.value)));
      return true;
    }
    return false;
  }

  /** One step of the factor loop of Multiply3. */
  method TimesFactor(r1: Reg, r2: Reg, n: int, f: int, s: bool, d: InstDesc) returns (ok: bool)
    requires d.Valid() && d.n + 3 <= 32 && d.workreg != Some(r2)
    requires -TOP <= n < TOP && n % 2 == 1 && f >= 3 && Multiply1(r1, r1, f, s).Some?
    modifies d, d.i
    ensures d.Valid() && d.n == old(d.n) + if ok then 3 else 0
    ensures ok <==> TwoAfter(n, f, old(d.workreg).Some?)
    ensures ok ==> (d.workreg == None || d.workreg == old(d.workreg))
                   && Appended(old(d.Code()), d.Code(), r1, r2, n, d.workreg, s)
    ensures !ok ==> d.Code() == old(d.Code()) && d.workreg == old(d.workreg)
  {
    hide Multiply1, Appended, Two;
    if n % f != 0 { return false; }
    var q := n / f;
    QuotientOf(n, f);
    ok := Multiply2(r1, r2, q, false, d);
    if ok {
      AppendedTimes(old(d.Code()), d.Code(), Multiply1(r1, r1, f, s).value, r1, r2, q, f, n, d.workreg, s);
      d.Put(Multiply1(r1, r1, f, s).value);
    }
  }

  lemma QuotientOf(n: int, f: int)
    requires -TOP <= n < TOP && n % 2 == 1 && f >= 3 && n % f == 0
    ensures var q := n / f; -TOP <= q < TOP && q % 2 == 1 && Wrap(q * f) == Wrap(n)
  {
    hide Wrap;
    OddQuotient(n, f);
    QuotientRange(n, f, n / f);
  }

  lemma QuotientRange(n: int, f: int, q: int)
    requires -TOP <= n < TOP && f >= 3 && n == f * q
    ensures -TOP <= q < TOP && q * f == n
  {
  }

  lemma LoopFactor(r: Reg, t: nat, s: bool)
    requires 2 <= t <= 16
    ensures Pow2(t) >= 4 && Pow2(t) == 2 * Pow2(t - 1)
    ensures Multiply1(r, r, Pow2(t) - 1, s).Some? && Multiply1(r, r, Pow2(t) + 1, s).Some?
  {
    hide Multiply1;
    Pow2Below(t);
    NearPower(r, r, Pow2(t) - 1, s, t);
    NearPower(r, r, Pow2(t) + 1, s, t);
    if t > 2 { Pow2Grows(2, t - 2); }
    assert Pow2(2) == 4;
  }

  lemma Pow2Sixteen()
    ensures Pow2(16) == 0x1_0000 && Pow2(1) == 2
  {
    assert Pow2(8) == 256;
    Pow2Add(8, 8);
  }

  /** (2^p +- 1) m or m +- 2^p, where m takes two instructions. */
  method Multiply3(r1: Reg, r2: Reg, n: int, s: bool, d: InstDesc) returns (ok: bool)
    requires d.Valid() && d.n + 3 <= 32 && d.workreg != Some(r2)
    requires -TOP <= n < TOP && n % 2 == 1
    modifies d, d.i
    ensures d.Valid() && d.n == old(d.n) + if ok then 3 else 0
    ensures ok <==> Three(n, old(d.workreg).Some?)
    ensures ok ==> (d.workreg == None || d.workreg == old(d.workreg))
                   && Appended(old(d.Code()), d.Code(), r1, r2, n, d.workreg, s)
    ensures !ok ==> d.Code() == old(d.Code()) && d.workreg == old(d.workreg)
  {
    hide Multiply1, Appended, Pow2, TwoAfter, SumLeft;
    Pow2Sixteen();
    var k := 0x1_0000;
    ghost var t := 16;
    while k >= 4
      invariant 1 <= t <= 16 && k == Pow2(t)
      invariant d.Valid() && d.n == old(d.n) && d.Code() == old(d.Code()) && d.workreg == old(d.workreg)
      invariant TwoLeft(n, 16, d.workreg.Some?) <==> TwoLeft(n, t, d.workreg.Some?)
    {
      LoopFactor(r1, t, s);
      ok := TimesFactor(r1, r2, n, k - 1, s, d);
      if ok { return; }
      SameLength(d.Code(), old(d.Code()));
      ok := TimesFactor(r1, r2, n, k + 1, s, d);
      if ok { return; }
      SameLength(d.Code(), old(d.Code()));
      k := k / 2;
      t := t - 1;
    }
    ok := false;
    if t > 1 { LoopFactor(r1, t, s); }
    NearestEven(n);
    if d.workreg.Some? { ok := SumForms(r1, r2, n, s, d); }
  }

  lemma SameLength(a: Code, b: Code)
    requires a == b
    ensures |a| == |b|
  {
  }

  /** n = m + 2^p or m - 2^p for p found in n by rounding it, lowest bit first. */
  method SumForms(r1: Reg, r2: Reg, n: int, s: bool, d: InstDesc) returns (ok: bool)
    requires d.Valid() && d.n + 3 <= 32 && d.workreg.Some? && d.workreg != Some(r2)
    requires -TOP <= n < TOP && n % 2 == 1
    modifies d, d.i
    ensures d.Valid() && d.n == old(d.n) + (if ok then 3 else 0) && d.workreg == old(d.workreg)
    ensures Wrap(Nearest(n)) % 2 == 0 && (ok <==> SumLeft(n, Wrap(Nearest(n))))
    ensures ok ==> Appended(old(d.Code()), d.Code(), r1, r2, n, d.workreg, s)
    ensures !ok ==> d.Code() == old(d.Code())
  {
    hide Multiply1, Appended, Pow2, LowBit, NextBit, Nearest, PowerOfTwo, Int32, Two, Room, Rounded;
    var r3 := d.workreg.value;
    var k: Word := Wrap(Nearest(n));
    NearestEven(n);
    while k != 0
      invariant k % 2 == 0 && (SumLeft(n, Wrap(Nearest(n))) <==> SumLeft(n, k))
      invariant d.Valid() && d.n == old(d.n) && d.Code() == old(d.Code()) && d.workreg == old(d.workreg)
      decreases Room(k)
    {
      var p: int := LowBit(k);
      LowBitIs(k);
      LowBitOfEven(k);
      OddNeighbours(n, p);
      ok := Multiply2(r3, r2, Int32(n - p), false, d);
      var e := PowerOfTwo(p);
      if ok {
        SumValue(n, p, e.value);
        AppendedCombine(old(d.Code()), d.Code(), ADD, r1, r2, r3, Int32(n - p), e.value, n, d.workreg, s);
        d.Put(Data(AL, ADD, s, r1, r3, Shifted(r2, LSL, e.value)));
        d.workreg := Some(r3);
        return;
      }
      SameLength(d.Code(), old(d.Code()));
      ok := Multiply2(r3, r2, Int32(n + p), false, d);
      if ok {
        SumValue(n, p, e.value);
        AppendedCombine(old(d.Code()), d.Code(), SUB, r1, r2, r3, Int32(n + p), e.value, n, d.workreg, s);
        d.Put(Data(AL, SUB, s, r1, r3, Shifted(r2, LSL, e.value)));
        d.workreg := Some(r3);
        return;
      }
      SameLength(d.Code(), old(d.Code()));
      RoundedIs(k);
      k := if NextBit(k) then Wrap(k + p) else k - p;
    }
    ok := false;
  }

  lemma RoundedIs(k: Word)
    requires k > 0 && k % 2 == 0
    ensures Rounded(k) == if NextBit(k) then Wrap(k + LowBit(k)) else k - LowBit(k)
  {
    hide LowBit, NextBit, TrailingZeros;
    NextRound(k);
  }

  lemma OddNeighbours(n: int, p: int)
    requires n % 2 == 1 && p % 2 == 0
    ensures Int32(n - p) % 2 == 1 && Int32(n + p) % 2 == 1
  {
  }

  lemma SumValue(n: int, p: Word, e: Amount)
    requires Wrap(p) == Pow2(e)
    ensures Wrap(Combined(ADD, Int32(n - p), e)) == Wrap(n)
    ensures Wrap(Combined(SUB, Int32(n + p), e)) == Wrap(n)
  {
    hide Int32, Pow2, Wrap;
    var a, b := Int32(n - p), Int32(n + p);
    Pow2Below(e);
    WrapRight(a, p);
    WrapRight(a, Pow2(e));
    Rebuilt(p, n - p);
    WrapRight(b, p);
    WrapRight(b, Pow2(e));
    Reduced(p, n + p);
  }

  lemma Rebuilt(p: int, m: int)
    ensures Wrap(Int32(m) + p) == Wrap(m + p)
  {
    WrapRight(p, Int32(m));
    WrapRight(p, m);
  }

  lemma Reduced(p: int, m: int)
    ensures Wrap(Int32(m) - p) == Wrap(m - p)
  {
    WrapRight(p, Int32(m));
    WrapRight(p, m);
  }

  /** The loop of multiply_3 ends: each round clears the lowest bit or moves it up. */
  lemma NextRound(k: Word)
    requires k > 0 && k % 2 == 0
    ensures var p := LowBit(k);
            var m: Word := if NextBit(k) then Wrap(k + p) else k - p;
            m % 2 == 0 && (m == 0 || 32 > TrailingZeros(m) > TrailingZeros(k))
  {
    hide LowBit, NextBit, TrailingZeros, Pow2;
    Pow2At32();
    LowBitRoom(k, 32);
    LowBitOfEven(k);
    NextK(k);
    var p := LowBit(k);
    var m: Word := if NextBit(k) then Wrap(k + p) else k - p;
    if NextBit(k) { WrapAtMost(k + p); }
    if m > 0 { LowBitIs(m); }
  }

  lemma WrapAtMost(i: int)
    requires 0 <= i <= M
    ensures Wrap(i) == if i == M then 0 else i
  {
  }

  // ---- two instructions are enough ----

  lemma {:induction false} LowBitOfShifted(m: nat, b: nat)
    requires m % 2 == 1 && m * Pow2(b) < M
    ensures LowBit(m * Pow2(b)) == Pow2(b)
  {
    if b > 0 {
      hide Pow2;
      var w := m * Pow2(b - 1);
      Twice(b - 1);
      assert m * Pow2(b) == 2 * w;
      LowBitOfShifted(m, b - 1);
      LowBitOfTwice(w);
    } else {
      assert Pow2(0) == 1;
    }
  }

  lemma LowBitOfTwice(w: nat)
    requires 2 * w < M
    ensures LowBit(2 * w) == 2 * LowBit(w)
  {
  }

  /** 2^a + g * 2^b as an odd multiple of 2^b. */
  lemma SumFactored(a: nat, b: nat, g: int) returns (m: nat)
    requires b < a < 32 && (g == 1 || g == -1)
    ensures m % 2 == 1 && m * Pow2(b) == Pow2(a) + g * Pow2(b) && 0 < m * Pow2(b) < M
  {
    hide Pow2;
    EvenPower(a - b);
    AtMostTop(a);
    Pow2Grows(b, a - b);
    Pow2Add(a - b, b);
    m := Pow2(a - b) + g;
    MinusTimes(Pow2(a - b), -g, Pow2(b));
    PlusOrMinus(Pow2(a), Pow2(b), g);
  }

  lemma PlusOrMinus(x: int, y: int, g: int)
    requires g == 1 || g == -1
    ensures g * y == (if g == 1 then y else -y) && x - -g * y == x + g * y
  {
  }

  lemma EvenPower(d: nat)
    requires d > 0
    ensures Pow2(d) % 2 == 0 && Pow2(d) >= 2
  {
    hide Pow2;
    Twice(d - 1);
  }

  lemma AtMostTop(a: nat)
    requires a < 32
    ensures Pow2(a) <= TOP
  {
    Pow2At31();
    if a < 31 { Pow2Grows(a, 31 - a); }
  }

  lemma MultipleOfFour(b: nat)
    requires b >= 2
    ensures Pow2(b) % 4 == 0
  {
    hide Pow2;
    Twice(b - 2);
    Twice(b - 1);
  }

  /** The neighbour of n that is divisible by four, and its lowest bit. */
  lemma NeighbourOf(n: int, k: int, e: int)
    requires -TOP <= n < TOP && (e == 1 || e == -1) && k % 4 == 0 && Wrap(n) == Wrap(k + e)
    ensures n % 2 == 1 && Wrap(Nearest(n)) == Wrap(k)
  {
    hide Nearest, Wrap;
    LowBitsOf(n);
    LowBitsOf(k + e);
    NextToFours(k, e);
    WrapRight(-e, n);
    WrapRight(-e, k + e);
    assert -e + n == n - e && -e + (k + e) == k;
  }

  lemma NextToFours(k: int, e: int)
    requires k % 4 == 0 && (e == 1 || e == -1)
    ensures (k + e) % 4 == if e == 1 then 1 else 3
  {
  }

  lemma LowBitsOf(n: int)
    ensures Wrap(n) % 4 == n % 4
  {
  }

  /**
   Every 2^a + 2^b + 1, 2^a + 2^b - 1, 2^a - 2^b + 1 and 2^a - 2^b - 1, modulo 2^32, takes two
   instructions with a work register.
   */
  lemma SumsFound(n: int, a: nat, b: nat, g: int, e: int)
    requires -TOP <= n < TOP && 2 <= b < a < 32 && (g == 1 || g == -1) && (e == 1 || e == -1)
    requires Wrap(n) == Wrap(Pow2(a) + g * Pow2(b) + e)
    ensures n % 2 == 1 && Two(n, true)
  {
    hide Nearest, LowBit, PowerOfTwo, Splits, Pow2, Int32;
    var p, k := Pow2(b), Pow2(a) + g * Pow2(b);
    SumInFours(a, b, g);
    NeighbourOf(n, k, e);
    var m := SumFactored(a, b, g);
    LowBitOfShifted(m, b);
    assert Wrap(k) == k by { WrapSmall(k); }
    hide Wrap;
    PowerFound(Nearest(n), k, p, a, g);
  }

  lemma SumInFours(a: nat, b: nat, g: int)
    requires 2 <= b < a && (g == 1 || g == -1)
    ensures (Pow2(a) + g * Pow2(b)) % 4 == 0
  {
    hide Pow2;
    MultipleOfFour(a);
    MultipleOfFour(b);
    PlusOrMinus(Pow2(a), Pow2(b), g);
  }

  lemma WrapSmall(k: int)
    requires 0 <= k < M
    ensures Wrap(k) == k
  {
  }

  lemma PowerFound(x: int, k: int, p: int, a: nat, g: int)
    requires a < 32 && (g == 1 || g == -1) && Wrap(x) == Wrap(k) && k == Pow2(a) + g * p
    ensures if g == 1 then PowerOfTwo(x - p).Some? else PowerOfTwo(x + p).Some?
  {
    hide Wrap, Pow2, PowerOfTwo;
    Pow2Below(a);
    WrapRight(-g * p, x);
    WrapRight(-g * p, k);
    assert Wrap(x - g * p) == Pow2(a);
    PowerHas(x - g * p, a);
  }

  lemma PowerHas(n: int, a: nat)
    requires a < 32 && Wrap(n) == Pow2(a)
    ensures PowerOfTwo(n).Some?
  {
  }

  /**
   Every product of two factors 2^p + 1 or 2^p - 1 takes two instructions, without a work
   register unless the exponents are the same.
   */
  lemma ProductsFound(n: int, p: nat, q: nat, e: int, f: int, work: bool)
    requires 2 <= p <= q <= 30 && (e == 1 || e == -1) && (f == 1 || f == -1) && (p == q ==> work)
    requires n == (Pow2(p) + e) * (Pow2(q) + f) && n < TOP
    ensures One(n) || (n % 2 == 1 && Two(n, work))
  {
    hide One, Two, Pow2;
    if p == q { SquareFound(n, p, e, f); } else { DifferentFound(n, p, q, e, f, work); }
  }

  lemma SquareFound(n: int, p: nat, e: int, f: int)
    requires 2 <= p && (e == 1 || e == -1) && (f == 1 || f == -1) && n == (Pow2(p) + e) * (Pow2(p) + f) && n < TOP
    ensures One(n) || (n % 2 == 1 && Two(n, true))
  {
    hide One, Two, Pow2, Wrap;
    SmallSquare(p, e, f);
    Pow2Add(p, p);
    Twice(p);
    var x := Pow2(p);
    AtLeastFour(p, p + 1);
    PositiveProduct(x + e, x + f);
    if e == f {
      SquareOf(x, e);
      assert n == Pow2(2 * p) + e * Pow2(p + 1) + 1;
      SumsFound(n, 2 * p, p + 1, e, 1);
    } else {
      ProductOfNeighbours(x, e, f);
      NextToPower(n, 2 * p, -1);
    }
  }

  lemma Twice(p: nat)
    ensures Pow2(p + 1) == 2 * Pow2(p)
  {
  }

  lemma SquareOf(x: int, e: int)
    requires e == 1 || e == -1
    ensures (x + e) * (x + e) == x * x + e * (2 * x) + 1
  {
  }

  lemma ProductOfNeighbours(x: int, e: int, f: int)
    requires (e == 1 || e == -1) && (f == 1 || f == -1) && e != f
    ensures (x + e) * (x + f) == x * x - 1
  {
  }

  /** Such a square fits an int32 only for exponents up to 15. */
  lemma SmallSquare(p: nat, e: int, f: int)
    requires (e == 1 || e == -1) && (f == 1 || f == -1) && (Pow2(p) + e) * (Pow2(p) + f) < TOP
    ensures p <= 15
  {
    hide Pow2;
    if p >= 16 { LargeSquare(p, e, f); }
  }

  lemma LargeSquare(p: nat, e: int, f: int)
    requires (e == 1 || e == -1) && (f == 1 || f == -1) && p >= 16
    ensures (Pow2(p) + e) * (Pow2(p) + f) >= TOP
  {
    Pow2Sixteen();
    if p > 16 { Pow2Grows(16, p - 16); }
    hide Pow2;
    var x, y := Pow2(p) + e, Pow2(p) + f;
    MulMono(0xffff, x, y);
    MulMono(0xffff, y, 0xffff);
  }

  lemma NextToPower(n: int, q: nat, f: int)
    requires q < 32 && (f == 1 || f == -1) && n == Pow2(q) + f
    ensures One(n)
  {
    hide PowerOfTwo;
    Pow2Below(q);
    PowerHas(n - f, q);
  }

  lemma DifferentFound(n: int, p: nat, q: nat, e: int, f: int, work: bool)
    requires 2 <= p < q <= 30 && (e == 1 || e == -1) && (f == 1 || f == -1)
    requires n == (Pow2(p) + e) * (Pow2(q) + f) && n < TOP
    ensures n % 2 == 1 && Two(n, work)
  {
    hide Nearest, LowBit, PowerOfTwo, Pow2, Int32, One, Wrap, Splits;
    LowBitOfDifferent(n, p, q, e, f);
    SplitsDifferent(n, p, q, e, f);
  }

  lemma LowBitOfDifferent(n: int, p: nat, q: nat, e: int, f: int)
    requires 2 <= p < q <= 30 && (e == 1 || e == -1) && (f == 1 || f == -1)
    requires n == (Pow2(p) + e) * (Pow2(q) + f) && n < TOP
    ensures -TOP <= n && n % 2 == 1 && LowBit(Wrap(Nearest(n))) == Pow2(p)
  {
    hide Nearest, LowBit, Pow2, Wrap;
    AtLeastFour(p, q);
    PositiveProduct(Pow2(p) + e, Pow2(q) + f);
    var m := DifferentFactored(p, q, e, f);
    var k, s := m * Pow2(p), e * f;
    assert s == 1 || s == -1;
    assert k == n - s;
    NeighbourOf(n, k, s);
    WrapSmall(k);
    LowBitOfShifted(m, p);
  }

  /** The product without its last bit, as an odd multiple of 2^p. */
  lemma DifferentFactored(p: nat, q: nat, e: int, f: int) returns (m: nat)
    requires 2 <= p < q && (e == 1 || e == -1) && (f == 1 || f == -1)
    ensures m % 2 == 1 && m * Pow2(p) == (Pow2(p) + e) * (Pow2(q) + f) - e * f && m * Pow2(p) % 4 == 0
  {
    hide Pow2;
    var x, y, r := Pow2(p), Pow2(q), Pow2(q - p);
    Pow2Add(q - p, p);
    EvenPower(q - p);
    EvenPower(q);
    Pow2Grows(q - p, p);
    OddSum(y, f, e, r);
    m := y + f + e * r;
    Expanded(x, y, r, e, f);
    MultipleOfFour(p);
    FoursTimes(m, x);
  }

  lemma SplitsDifferent(n: int, p: nat, q: nat, e: int, f: int)
    requires 2 <= p < q <= 30 && (e == 1 || e == -1) && (f == 1 || f == -1)
    requires n == (Pow2(p) + e) * (Pow2(q) + f) && n < TOP
    ensures Splits(n, Int32(Pow2(p) + e))
  {
    hide Pow2, Int32, One;
    AtLeastFour(p, q);
    AtMostTop(p + 1);
    Twice(p);
    SmallInt32(Pow2(p) + e);
    NextToPower(Pow2(q) + f, q, f);
    SplitsBy(Pow2(q) + f, Pow2(p) + e);
  }

  lemma SplitsBy(a: int, b: int)
    requires b > 0 && One(a)
    ensures Splits(b * a, b)
  {
    hide One;
    ExactQuotient(a, b);
    assert a * b == b * a;
  }

  lemma AtLeastFour(p: nat, q: nat)
    requires 2 <= p < q
    ensures Pow2(p) >= 4 && Pow2(q) >= 8
  {
    Pow2AtLeast(p);
    Pow2AtLeast(q - 1);
  }

  lemma Expanded(x: int, y: int, r: int, e: int, f: int)
    requires r * x == y
    ensures (x + e) * (y + f) - e * f == (y + f + e * r) * x
  {
    assert e * r * x == e * y;
  }

  lemma PositiveProduct(a: int, b: int)
    requires a > 0 && b > 0
    ensures a * b > 0
  {
  }

  lemma FoursTimes(m: int, x: int)
    requires x % 4 == 0
    ensures m * x % 4 == 0
  {
    assert m * x == 4 * (m * (x / 4));
  }

  lemma OddSum(y: int, f: int, e: int, r: int)
    requires y % 2 == 0 && r % 2 == 0 && y > r > 0 && (f == 1 || f == -1) && (e == 1 || e == -1)
    ensures (y + f + e * r) % 2 == 1 && y + f + e * r >= 0
  {
    PlusOrMinus(y, r, e);
  }

  lemma SmallInt32(x: int)
    requires -TOP <= x < TOP
    ensures Int32(x) == x
  {
  }

  // ---- any constant ----

  /** An upper bound on the sequence for an odd constant of this size. */
  function OddLength(size: nat): (l: nat)
    ensures l >= 3
  {
    if size == 0 then 3 else 1 + OddLength(size / 3)
  }

  lemma {:induction false} OddLengthMonotone(a: nat, b: nat)
    requires a <= b
    ensures OddLength(a) <= OddLength(b)
  {
    if a > 0 { OddLengthMonotone(a / 3, b / 3); }
  }

  function MostLength(n: int): nat
  {
    if n % 2 == 1 then OddLength(Size(n)) else 1 + OddLength(Size(n) / 2)
  }

  /** No constant needs the 32 slots of an InstDesc. */
  lemma MostFits(n: int)
    requires -TOP <= n < TOP
    ensures MostLength(n) <= 24
  {
    hide OddLength;
    OddLengthMonotone(Size(n), TOP);
    OddLengthMonotone(Size(n) / 2, TOP);
    OddLengthOfTop();
  }

  /** Five divisions by three. */
  lemma OddLengthFive(a: nat, b: nat)
    requires b > 0 && a / 3 / 3 / 3 / 3 / 3 == b
    ensures OddLength(a) == 5 + OddLength(b)
  {
    OneThird(a);
    OneThird(a / 3);
    OneThird(a / 3 / 3);
    OneThird(a / 3 / 3 / 3);
    OneThird(a / 3 / 3 / 3 / 3);
  }

  lemma OneThird(a: nat)
    ensures a > 0 ==> OddLength(a) == 1 + OddLength(a / 3)
  {
  }

  lemma OddLengthOfTop()
    ensures OddLength(0x8000_0000) == 23
  {
    hide OddLength;
    OddLengthFive(0x8000_0000, 8837381);
    OddLengthFive(8837381, 36367);
    OddLengthFive(36367, 149);
    FewLengths();
  }

  lemma FewLengths()
    ensures OddLength(149) == 8
  {
  }

  /** The lowest set bit of an int32 divides it exactly. */
  lemma LowBitOfSigned(n: int)
    requires -TOP <= n < TOP && n != 0 && n != -TOP
    ensures var p := LowBit(Wrap(n));
            && 0 < p < TOP && PowerOfTwo(p).Some? && Wrap(p) == p
            && n % p == 0 && n / p * p == n && n / p % 2 == 1
            && (n % 2 == 0 ==> p >= 2) && (n % 4 == 0 ==> p >= 4)
  {
    hide PowerOfTwo, LowBit, TrailingZeros, Pow2;
    var w := Wrap(n);
    var p := LowBit(w);
    WordOf(n);
    hide Wrap;
    var q := LowBitDivides(w);
    LowBitIs(w);
    LowBitFour(w);
    LowBitBelowTop(w, q);
    WordOf(p);
    var r: int := q;
    if n < 0 { r := SignedQuotient(q, TrailingZeros(w)); }
    assert n == r * p;
    ExactQuotient(r, p);
  }

  lemma WordOf(n: int)
    requires -TOP <= n < TOP
    ensures Wrap(n) == (if n < 0 then n + M else n) && Wrap(n) % 2 == n % 2 && Wrap(n) % 4 == n % 4
  {
  }

  lemma SignedQuotient(q: nat, t: nat) returns (r: int)
    requires q % 2 == 1 && t < 32
    ensures r % 2 == 1 && r * Pow2(t) == q * Pow2(t) - M
  {
    Pow2At32();
    Pow2Add(32 - t, t);
    r := q - Pow2(32 - t);
    assert Pow2(32 - t) == 2 * Pow2(31 - t);
    hide Pow2;
    MinusTimes(q, Pow2(32 - t), Pow2(t));
  }

  lemma MinusTimes(a: int, b: int, c: int)
    ensures (a - b) * c == a * c - b * c
  {
  }

  lemma LowBitBelowTop(w: Word, q: nat)
    requires 0 < w && w != TOP && w == q * LowBit(w) && TrailingZeros(w) < 32
    ensures LowBit(w) < TOP
  {
    var t := TrailingZeros(w);
    Pow2At31();
    if t == 31 {
      TopBitAlone(w, q);
    } else {
      Pow2Grows(t, 31 - t);
    }
  }

  lemma TopBitAlone(w: Word, q: nat)
    requires 0 < w && w == q * LowBit(w) && TrailingZeros(w) == 31
    ensures w == TOP
  {
    Pow2At31();
    if q == 0 || q >= 2 { MulMono(2, q, TOP); }
  }

  lemma LowBitFour(k: Word)
    requires k > 0
    ensures k % 2 == 0 ==> LowBit(k) >= 2
    ensures k % 4 == 0 ==> LowBit(k) >= 4
  {
  }

  lemma ExactQuotient(a: int, p: int)
    requires p > 0
    ensures a * p % p == 0 && a * p / p == a
  {
    var x := a * p;
    var e, f := x / p, x % p;
    assert x == e * p + f;
    if e < a { MulMono(1, a - e, p); }
  }

  predicate NoFactor(n: int, t: nat)
    requires t >= 2
  {
    n % (Pow2(t) - 1) != 0 && n % (Pow2(t) + 1) != 0
  }

  /**
   The number of instructions for n: one if a single one does it, one more than for the odd part,
   two or three where the searches succeed, and otherwise one more than for what is left by the
   largest factor next to a power of two, or by the neighbour divisible by four.
   */
  function Length(n: int): nat
    requires -TOP <= n < TOP
    decreases Size(n)
  {
    hide One, Two, Three, LowBit, FirstFactor, Size, MostLength;
    if One(n) then 1
    else
      NotOne(n);
      if n % 2 == 0 then
        EvenPart(n);
        1 + Length(n / LowBit(Wrap(n)))
      else if Two(n, true) then 2
      else if Three(n, true) then 3
      else
        var f := FirstFactor(n, 16);
        if f > 0 then
          FactorShrinks(n, f);
          1 + Length(n / f)
        else
          var k := if n % 4 == 1 then n - 1 else n + 1;
          NearPart(n, k);
          1 + Length(k / LowBit(Wrap(k)))
  }

  lemma NotOne(n: int)
    requires -TOP <= n < TOP && !One(n)
    ensures n != 0 && -TOP + 1 < n < TOP - 1 && (n % 2 == 1 ==> Size(n) >= 3)
  {
    hide One;
    OneIff(0, 0, n, false);
    NoForm(0, 0, n, false);
  }

  lemma EvenPart(n: int)
    requires -TOP < n < TOP && n != 0 && n % 2 == 0
    ensures var p: int := LowBit(Wrap(n)); p > 0 && -TOP <= n / p < TOP && Size(n / p) < Size(n)
  {
    hide LowBit, PowerOfTwo, OddLength;
    LowBitOfSigned(n);
    EvenShrinks(n, LowBit(Wrap(n)));
  }

  lemma NearPart(n: int, k: int)
    requires -TOP + 1 < n < TOP - 1 && n % 2 == 1 && Size(n) >= 3 && k == (if n % 4 == 1 then n - 1 else n + 1)
    ensures var p: int := LowBit(Wrap(k)); p > 0 && -TOP <= k / p < TOP && Size(k / p) < Size(n)
  {
    hide LowBit, PowerOfTwo, OddLength;
    NearParts(n, k, LowBit(Wrap(k)));
  }

  /** The first factor of n of the form 2^s - 1 or 2^s + 1, from 2^16 down. */
  method FindFactor(n: int, r: Reg, s: bool) returns (k: int)
    requires -TOP <= n < TOP
    ensures if FirstFactor(n, 16) > 0 then k == FirstFactor(n, 16) else k <= 2
    ensures k > 2 ==> n % k == 0 && Multiply1(r, r, k, s).Some?
    ensures k > 2 || forall t :: 2 <= t <= 16 ==> NoFactor(n, t)
  {
    hide Multiply1, Pow2, FirstFactor, NoFactor;
    Pow2Sixteen();
    k := 0x1_0000;
    ghost var t := 16;
    NoneFirst(n, 16);
    while k >= 4
      invariant 1 <= t <= 16 && k == Pow2(t) && FirstFactor(n, 16) == FirstFactor(n, t)
    {
      LoopFactor(r, t, s);
      FactorStep(n, t);
      if n % (k - 1) == 0 { return k - 1; }
      if n % (k + 1) == 0 { return k + 1; }
      k := k / 2;
      t := t - 1;
    }
    if t > 1 { LoopFactor(r, t, s); }
    NoneBelowTwo(n, t);
  }

  lemma NoneBelowTwo(n: int, t: nat)
    ensures t < 2 ==> FirstFactor(n, t) == 0
  {
  }

  lemma FactorStep(n: int, t: nat)
    requires t >= 2
    ensures Pow2(t) >= 4
    ensures FirstFactor(n, t) == if n % (Pow2(t) - 1) == 0 then Pow2(t) - 1 else
                                 if n % (Pow2(t) + 1) == 0 then Pow2(t) + 1 else FirstFactor(n, t - 1)
  {
    Pow2AtLeast(t);
  }

  /** There is no first factor exactly when there is none. */
  lemma {:induction false} NoneFirst(n: int, t: nat)
    ensures FirstFactor(n, t) == 0 <==> forall u :: 2 <= u <= t ==> NoFactor(n, u)
  {
    hide FirstFactor, Pow2;
    NoneBelowTwo(n, t);
    if t >= 2 {
      NoneFirst(n, t - 1);
      FactorStep(n, t);
      assert NoFactor(n, t) <==> n % (Pow2(t) - 1) != 0 && n % (Pow2(t) + 1) != 0;
    }
  }

  /** The instructions for r1 = r2 * n: correct modulo 2^32 for every n, in at most MostLength(n). */
  method MultiplyI(r1: Reg, r2: Reg, n: int, s: bool, d: InstDesc)
    requires d.Valid() && d.n + MostLength(n) <= 32 && d.workreg.Some? && d.workreg != Some(r2)
    requires -TOP <= n < TOP
    modifies d, d.i
    ensures d.Valid() && d.n <= old(d.n) + MostLength(n) && d.n == old(d.n) + Length(n)
    ensures d.workreg == None || d.workreg == old(d.workreg)
    ensures One(n) || (n % 2 == 1 && Two(n, false)) ==> d.workreg == None
    ensures Appended(old(d.Code()), d.Code(), r1, r2, n, d.workreg, s)
    decreases Size(n)
  {
    hide Multiply1, Appended, PowerOfTwo, LowBit, OddLength, One, Three, FirstFactor;
    TwoWithout(n);
    hide Two;
    var i := Multiply1(r1, r2, n, s);
    OneIff(r1, r2, n, s);
    if i.Some? {
      AppendedOne(d.Code(), i.value, r1, r2, n, None, s);
      d.Put(i.value);
      d.workreg := None;
      return;
    }
    NoForm(r1, r2, n, s);
    if n % 2 == 0 {
      MultiplyEven(r1, r2, n, s, d);
      return;
    }
    var ok := Multiply2(r1, r2, n, s, d);
    if ok { return; }
    SameLength(d.Code(), old(d.Code()));
    ok := Multiply3(r1, r2, n, s, d);
    if ok { return; }
    SameLength(d.Code(), old(d.Code()));
    var k := FindFactor(n, r1, s);
    if k > 2 {
      FactorShrinks(n, k);
      MultiplyI(r1, r2, n / k, false, d);
      AppendedTimes(old(d.Code()), d.Code(), Multiply1(r1, r1, k, s).value, r1, r2, n / k, k, n, d.workreg, s);
      d.Put(Multiply1(r1, r1, k, s).value);
    } else {
      MultiplyNear(r1, r2, n, s, d);
    }
  }

  /** n is a power of two times an odd number. */
  method MultiplyEven(r1: Reg, r2: Reg, n: int, s: bool, d: InstDesc)
    requires d.Valid() && d.n + MostLength(n) <= 32 && d.workreg.Some? && d.workreg != Some(r2)
    requires -TOP < n < TOP && n != 0 && n % 2 == 0 && !One(n)
    modifies d, d.i
    ensures d.Valid() && d.n <= old(d.n) + MostLength(n) && d.n == old(d.n) + Length(n)
    ensures d.workreg == None || d.workreg == old(d.workreg)
    ensures Appended(old(d.Code()), d.Code(), r1, r2, n, d.workreg, s)
    decreases Size(n), 0
  {
    hide Multiply1, Appended, PowerOfTwo, LowBit, OddLength, One, Two, Three, FirstFactor;
    var p: int := LowBit(Wrap(n));
    LowBitOfSigned(n);
    EvenShrinks(n, p);
    MultiplyI(r1, r2, n / p, false, d);
    NearPower(r1, r1, p, s, PowerOfTwo(p).value);
    var x := Multiply1(r1, r1, p, s).value;
    AppendedTimes(old(d.Code()), d.Code(), x, r1, r2, n / p, p, n, d.workreg, s);
    d.Put(x);
  }

  /** n is one more, or one less, than a power of two times an odd number. */
  method MultiplyNear(r1: Reg, r2: Reg, n: int, s: bool, d: InstDesc)
    requires d.Valid() && d.n + MostLength(n) <= 32 && d.workreg.Some? && d.workreg != Some(r2)
    requires -TOP + 1 < n < TOP - 1 && n % 2 == 1 && Size(n) >= 3
    requires !One(n) && !Two(n, true) && !Three(n, true) && FirstFactor(n, 16) == 0
    modifies d, d.i
    ensures d.Valid() && d.n <= old(d.n) + MostLength(n) && d.n == old(d.n) + Length(n)
    ensures d.workreg == old(d.workreg)
    ensures Appended(old(d.Code()), d.Code(), r1, r2, n, d.workreg, s)
    decreases Size(n), 0
  {
    hide Multiply1, Appended, PowerOfTwo, LowBit, OddLength, Pow2, One, Two, Three, FirstFactor;
    var r3 := d.workreg.value;
    var op := if n % 4 == 1 then ADD else RSB;
    var k := if n % 4 == 1 then n - 1 else n + 1;
    var p: int := LowBit(Wrap(k));
    NearParts(n, k, p);
    MultiplyI(r3, r2, k / p, false, d);
    var e := PowerOfTwo(p).value;
    AppendedShiftProduct(old(d.Code()), d.Code(), op, r1, r2, r3, k / p, e, n, d.workreg, s);
    d.Put(Data(AL, op, s, r1, r2, Shifted(r3, LSL, e)));
    d.workreg := Some(r3);
  }

  /** n is the odd part of its neighbour k, shifted, with one more or less; and that part is smaller. */
  lemma NearParts(n: int, k: int, p: int)
    requires -TOP + 1 < n < TOP - 1 && n % 2 == 1 && Size(n) >= 3 && k == (if n % 4 == 1 then n - 1 else n + 1)
    requires p == LowBit(Wrap(k))
    ensures p > 0 && PowerOfTwo(p).Some? && n == k / p * Pow2(PowerOfTwo(p).value) + (n - k) && -TOP <= k / p < TOP
    ensures Size(k / p) < Size(n) && MostLength(k / p) + 1 <= MostLength(n)
  {
    hide PowerOfTwo, LowBit, OddLength, Pow2;
    LowBitOfSigned(k);
    NearShrinks(n, k, p);
  }

  /** Constants with no one-instruction form are not near a power of two. */
  lemma NoForm(r1: Reg, r2: Reg, n: int, s: bool)
    requires -TOP <= n < TOP && Multiply1(r1, r2, n, s).None?
    ensures n != 0 && -TOP + 1 < n < TOP - 1 && (n % 2 == 1 ==> Size(n) >= 3)
  {
    hide Multiply1;
    if n == 0 || n == 1 { NearPower(r1, r2, n, s, 0); }
    if n == -1 { NegativeOne(r1, r2, s); }
    if n <= -TOP + 1 || n == TOP - 1 { ExtremeForm(r1, r2, n, s); }
  }

  lemma ExtremeForm(r1: Reg, r2: Reg, n: int, s: bool)
    requires n == -TOP || n == -TOP + 1 || n == TOP - 1
    ensures Multiply1(r1, r2, n, s).Some?
  {
    hide Multiply1;
    Pow2At31();
    NearPower(r1, r2, n, s, 31);
  }

  lemma FactorShrinks(n: int, k: int)
    requires -TOP <= n < TOP && n % 2 == 1 && k > 2 && n % k == 0
    ensures -TOP <= n / k < TOP && n / k % 2 == 1 && Wrap(n / k * k) == Wrap(n)
    ensures Size(n / k) < Size(n) && MostLength(n / k) + 1 <= MostLength(n)
  {
    QuotientOf(n, k);
    SmallerBy(n, k, 3);
    OddLengthMonotone(Size(n / k), Size(n) / 3);
  }

  lemma EvenShrinks(n: int, p: int)
    requires -TOP <= n < TOP && n != 0 && n % 2 == 0 && p >= 2 && n % p == 0 && n / p % 2 == 1
    ensures -TOP <= n / p < TOP
    ensures Size(n / p) < Size(n) && MostLength(n / p) + 1 <= MostLength(n)
  {
    SmallerBy(n, p, 2);
    OddLengthMonotone(Size(n / p), Size(n) / 2);
  }

  lemma NearShrinks(n: int, k: int, p: int)
    requires n % 2 == 1 && Size(n) >= 3 && (k == n - 1 || k == n + 1) && -TOP <= k < TOP
    requires p >= 4 && k % p == 0 && k / p % 2 == 1
    ensures -TOP <= k / p < TOP
    ensures Size(k / p) < Size(n) && MostLength(k / p) + 1 <= MostLength(n)
  {
    SmallerBy(k, p, 4);
    OddLengthMonotone(Size(k / p), Size(n) / 3);
  }

  /** The call made by multiply_integer: a fresh InstDesc always has room. */
  method MultiplyInteger(r1: Reg, r2: Reg, n: int, s: bool) returns (d: InstDesc)
    requires -TOP <= n < TOP
    requires r1 == r2 ==> r2 != IP
    ensures fresh(d) && d.Valid() && d.n == Length(n) <= 24
    ensures d.workreg == None || d.workreg == Some(if r1 != r2 then r1 else IP)
    ensures Multiplies(d.Code(), r1, r2, n, WorkSet(d.workreg), s)
  {
    hide Multiplies, MostLength, Length;
    d := new InstDesc(if r1 != r2 then r1 else IP);
    MostFits(n);
    MultiplyI(r1, r2, n, s, d);
    assert d.Code()[0..] == d.Code();
  }

}
