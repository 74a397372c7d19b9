/**
 The part of the ARM instruction set the code generator uses, with an interpreter.

 Sections A3.2, A5.1, A5.2 and A5.4 of the ARM Architecture Reference Manual
 (ARM DDI 0100) give the meaning of conditions, data-processing operands, LDR/STR
 and LDM/STM addressing.  Memory is a map from addresses to words: word transfers are
 taken to be at word-aligned addresses.  Register 15 is an ordinary cell here: a
 transfer of control is a write to it.
 */
module Arm {
  import opened Words

  type Reg = r: nat | r < 16
  type Byte = b: nat | b < 256
  type Rotation = r: nat | r < 16
  type Amount = a: nat | a < 32

  const FP: Reg := 11
  const IP: Reg := 12
  const SP: Reg := 13
  const LR: Reg := 14
  const PC: Reg := 15

  type Regs = s: seq<Word> | |s| == 16 witness seq(16, _ => 0)

  /** Memory; a cell never written reads as 0. */
  type Mem = map<Word, Word>

  datatype Flags = Flags(n: bool, z: bool, c: bool, v: bool)

  datatype State = State(regs: Regs, flags: Flags, mem: Mem)

  datatype Cond = EQ | NE | HS | LO | MI | PL | VS | VC | HI | LS | GE | LT | GT | LE | AL

  datatype ShiftKind = LSL | LSR | ASR | ROR

  /** The second operand: an 8-bit value rotated right by twice `rot`, or a shifted register. */
  datatype Operand = Imm(rot: Rotation, byte: Byte) | Shifted(rm: Reg, kind: ShiftKind, amount: Amount)

  datatype Op = AND | EOR | SUB | RSB | ADD | CMP | CMN | ORR | MOV | BIC | MVN

  datatype Index = Offset | PreIndex | PostIndex

  datatype Mode = IA | IB | DA | DB

  datatype Instr =
    | Data(cond: Cond, op: Op, s: bool, rd: Reg, rn: Reg, op2: Operand)
    | Transfer(load: bool, rd: Reg, rn: Reg, off: int, index: Index)
    | Block(load: bool, rn: Reg, mode: Mode, wb: bool, regs: set<Reg>)

  type Code = seq<Instr>

  predicate Holds(cond: Cond, f: Flags)
  {
    match cond
    case EQ => f.z
    case NE => !f.z
    case HS => f.c
    case LO => !f.c
    case MI => f.n
    case PL => !f.n
    case VS => f.v
    case VC => !f.v
    case HI => f.c && !f.z
    case LS => !f.c || f.z
    case GE => f.n == f.v
    case LT => f.n != f.v
    case GT => !f.z && f.n == f.v
    case LE => f.z || f.n != f.v
    case AL => true
  }

  // ---- data processing ----

  function ImmValue(rot: Rotation, byte: Byte): Word { RorPairs(byte, rot) }

  function ShiftBy(kind: ShiftKind, x: Word, k: Amount): Word
  {
    match kind
    case LSL => Lsl(x, k)
    case LSR => Lsr(x, k)
    case ASR => Asr(x, k)
    case ROR => Ror(x, k)
  }

  function OperandValue(regs: Regs, o: Operand): Word
  {
    match o
    case Imm(rot, byte) => ImmValue(rot, byte)
    case Shifted(rm, kind, k) => ShiftBy(kind, regs[rm], k)
  }

  /** The carry out of the shifter, which a flag-setting logical operation copies to C. */
  function ShifterCarry(regs: Regs, o: Operand, c: bool): bool
  {
    match o
    case Imm(rot, byte) => if rot == 0 then c else ImmValue(rot, byte) >= TOP
    case Shifted(rm, kind, k) =>
      if k == 0 then c
      else match kind
        case LSL => Lsl(regs[rm], k - 1) >= TOP
        case LSR => Lsr(regs[rm], k - 1) % 2 == 1
        case ASR => Asr(regs[rm], k - 1) % 2 == 1
        case ROR => Ror(regs[rm], k) >= TOP
  }

  function Sum(a: Word, b: Word, carry: nat): Word { (a + b + carry) % M }

  function SumFlags(a: Word, b: Word, carry: nat): Flags
  {
    var r := Sum(a, b, carry);
    Flags(r >= TOP, r == 0, a + b + carry >= M, (a >= TOP) == (b >= TOP) && (r >= TOP) != (a >= TOP))
  }

  function Result(op: Op, a: Word, b: Word): Word
  {
    Pow2At32();
    OrrBound(a, b, 32);
    match op
    case AND => And(a, b)
    case EOR => Eor(a, b)
    case SUB => Wrap(a - b)
    case RSB => Wrap(b - a)
    case ADD => Wrap(a + b)
    case CMP => Wrap(a - b)
    case CMN => Wrap(a + b)
    case ORR => Orr(a, b)
    case MOV => b
    case BIC => Bic(a, b)
    case MVN => Not(b)
  }

  function ResultFlags(op: Op, a: Word, b: Word, carry: bool, f: Flags): Flags
  {
    match op
    case SUB => SumFlags(a, Not(b), 1)
    case CMP => SumFlags(a, Not(b), 1)
    case RSB => SumFlags(b, Not(a), 1)
    case ADD => SumFlags(a, b, 0)
    case CMN => SumFlags(a, b, 0)
    case _ => Flags(Result(op, a, b) >= TOP, Result(op, a, b) == 0, carry, f.v)
  }

  predicate Compares(op: Op) { op == CMP || op == CMN }

  // ---- memory ----

  function Addr(base: Word, off: int): Word { Wrap(base + off) }

  function Read(mem: Mem, a: Word): Word { if a in mem then mem[a] else 0 }

  function Write(mem: Mem, a: Word, v: Word): Mem { mem[a := v] }

  /** Store register r at base + q[r], for each r < k in q. */
  function StoreAll(q: map<Reg, int>, base: Word, regs: Regs, mem: Mem, k: nat := 16): Mem
    requires k <= 16
  {
    if k == 0 then mem
    else
      var m := StoreAll(q, base, regs, mem, k - 1);
      if k - 1 in q then Write(m, Addr(base, q[k - 1]), regs[k - 1]) else m
  }

  /** Load each register r in q from base + q[r]. */
  function LoadAll(q: map<Reg, int>, base: Word, mem: Mem, regs: Regs): Regs
  {
    seq(16, r requires 0 <= r < 16 => if r in q then Read(mem, Addr(base, q[r])) else regs[r])
  }

  /** The number of registers below k in the list. */
  function Rank(s: set<Reg>, k: nat): (n: nat)
    ensures n <= k
  {
    if k == 0 then 0 else Rank(s, k - 1) + (if k - 1 < 16 && k - 1 in s then 1 else 0)
  }

  function Count(s: set<Reg>): nat { Rank(s, 16) }

  /** Where the lowest word of an n-word block lies relative to the base. */
  function BlockStart(mode: Mode, n: nat): int
  {
    match mode
    case IA => 0
    case IB => 4
    case DA => 4 - 4 * n
    case DB => -4 * n
  }

  function BlockStep(mode: Mode, n: nat): int { if mode.IA? || mode.IB? then 4 * n else -4 * n }

  /** The lowest-numbered register of a block is at the lowest address. */
  function BlockOffsets(mode: Mode, s: set<Reg>): map<Reg, int>
  {
    map r: Reg | r in s :: BlockStart(mode, Count(s)) + 4 * Rank(s, r)
  }

  // ---- execution ----

  function ExecData(st: State, op: Op, s: bool, rd: Reg, rn: Reg, op2: Operand): State
  {
    var a, b := st.regs[rn], OperandValue(st.regs, op2);
    var flags :=
      if s || Compares(op)
      then ResultFlags(op, a, b, ShifterCarry(st.regs, op2, st.flags.c), st.flags)
      else st.flags;
    State(if Compares(op) then st.regs else st.regs[rd := Result(op, a, b)], flags, st.mem)
  }

  function ExecTransfer(st: State, load: bool, rd: Reg, rn: Reg, off: int, index: Index): State
  {
    var base := st.regs[rn];
    var a := if index.PostIndex? then base else Addr(base, off);
    var regs := if index.Offset? then st.regs else st.regs[rn := Addr(base, off)];
    if load then State(regs[rd := Read(st.mem, a)], st.flags, st.mem)
    else State(regs, st.flags, Write(st.mem, a, st.regs[rd]))
  }

  function ExecBlock(st: State, load: bool, rn: Reg, mode: Mode, wb: bool, s: set<Reg>): State
  {
    var base := st.regs[rn];
    var regs := if wb then st.regs[rn := Addr(base, BlockStep(mode, Count(s)))] else st.regs;
    var q := BlockOffsets(mode, s);
    if load then State(LoadAll(q, base, st.mem, regs), st.flags, st.mem)
    else State(regs, st.flags, StoreAll(q, base, st.regs, st.mem))
  }

  function Exec(i: Instr, st: State): State
  {
    match i
    case Data(cond, op, s, rd, rn, op2) =>
      if Holds(cond, st.flags) then ExecData(st, op, s, rd, rn, op2) else st
    case Transfer(load, rd, rn, off, index) => ExecTransfer(st, load, rd, rn, off, index)
    case Block(load, rn, mode, wb, s) => ExecBlock(st, load, rn, mode, wb, s)
  }

  function Run(code: Code, st: State): State
  {
    if |code| == 0 then st else Run(code[1..], Exec(code[0], st))
  }

  lemma {:induction false} RunAppend(c: Code, d: Code, st: State)
    ensures Run(c + d, st) == Run(d, Run(c, st))
  {
    hide Exec;
    if |c| == 0 {
      assert c + d == d;
    } else {
      assert (c + d)[1..] == c[1..] + d;
      RunAppend(c[1..], d, Exec(c[0], st));
    }
  }

  lemma RunNone(st: State)
    ensures Run([], st) == st
  {
  }

  lemma RunOne(i: Instr, st: State)
    ensures Run([i], st) == Exec(i, st)
  {
    assert [i][1..] == [];
  }

  lemma RunSnoc(c: Code, i: Instr, st: State)
    ensures Run(c + [i], st) == Exec(i, Run(c, st))
  {
    RunAppend(c, [i], st);
    RunOne(i, Run(c, st));
  }

  /** An instruction whose fields fit: only the offset of LDR/STR can be too wide here. */
  predicate Encodable(i: Instr)
  {
    match i
    case Transfer(_, _, _, off, _) => -0xfff <= off <= 0xfff
    case Block(_, _, _, _, s) => s != {}
    case Data(_, _, _, _, _, _) => true
  }

  ghost predicate AllEncodable(code: Code) { forall i :: 0 <= i < |code| ==> Encodable(code[i]) }

  lemma EncodableAppend(a: Code, b: Code)
    ensures AllEncodable(a + b) <==> AllEncodable(a) && AllEncodable(b)
  {
    hide Encodable;
    if AllEncodable(a + b) {
      forall i | 0 <= i < |a| ensures Encodable(a[i]) { assert (a + b)[i] == a[i]; }
      forall i | 0 <= i < |b| ensures Encodable(b[i]) { assert (a + b)[|a| + i] == b[i]; }
    }
  }

  // ---- addresses ----

  lemma AddrAddr(base: Word, d: int, off: int)
    ensures Addr(Addr(base, d), off) == Addr(base, d + off)
  {
  }

  lemma AddrSame(base: Word, i: int, j: int)
    requires Addr(base, i) == Addr(base, j)
    requires -M < i - j < M
    ensures i == j
  {
  }
}
