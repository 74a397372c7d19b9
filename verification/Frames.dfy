/**
 Entry, exit and argument addresses of integer-only functions (routine_saveregs,
 routine_exit, ReturnIsSingleInstruction and local_addr_a in arm/gen.c).
 */
module Frames {
  import opened Words
  import opened Arm
  import opened Immediates
  import opened KnownValues
  import AddConstant
  import opened Transfers
  import opened Combiner
  import opened CombinerPlan
  import opened Flush
  import opened PushPop

  const VARS: set<Reg> := {4, 5, 6, 7, 8, 9, 10, 11}

  type Limit = l: nat | l >= 1 witness 1

  /** What the code of entry and exit depends on. */
  datatype Routine = Routine(
    used: set<Reg>,      // regmask
    nonleaf: bool,       // procflags & NONLEAF
    noFp: bool,          // pcs_flags & PCS_NOFP
    argPush: bool,       // procflags & PROC_ARGPUSH
    saveName: bool,      // FEATURE_SAVENAME
    noLink: bool,        // FEATURE_DONTUSE_LINKREG
    space: bool,         // CONFIG_OPTIMISE_SPACE
    argWords: nat,       // nargwords
    limit: Limit,        // ldm_regs_max
    movesOnce: bool,     // target_stack_moves_once
    depth: int)          // greatest_stackdepth

  /** The file-level variables that routine_saveregs leaves. */
  datatype Layout = Layout(used: set<Reg>, argBelow: nat, realBelow: nat, intSave: nat, savedAbove: nat, popAbove: nat)

  function IntRegs(p: Routine): nat { if p.argWords < 4 then p.argWords else 4 }

  const ARGREGS: set<Reg> := {0, 1, 2, 3}

  function Args(n: nat): set<Reg> { set r | r in ARGREGS && r < n }

  predicate Framed(p: Routine) { p.nonleaf && !p.noFp }

  predicate SavesArgs(p: Routine) { p.argPush || (Framed(p) && p.saveName) }

  /** Register arguments are pushed on their own, next to the stack arguments. */
  predicate Contiguous(p: Routine) { SavesArgs(p) && IntRegs(p) < p.argWords }

  /** regmask once routine_saveregs has settled whether the link register is saved. */
  function Used(p: Routine): set<Reg>
  {
    if Framed(p) then p.used
    else p.used + (if p.noLink || (p.used * VARS != {} && p.space) then {LR} else {})
  }

  function Vars(p: Routine): set<Reg> { p.used * VARS }

  /** Register arguments saved in the same push as everything else. */
  function ArgsBelow(p: Routine): nat { if SavesArgs(p) && !Contiguous(p) then IntRegs(p) else 0 }

  function Saved(p: Routine): set<Reg>
  {
    if Framed(p) then Vars(p) + {FP, IP, LR, PC} else Vars(p) + Used(p) * {LR}
  }

  function PushMask(p: Routine): set<Reg> { Args(ArgsBelow(p)) + Saved(p) }

  function LayoutOf(p: Routine): Layout
  {
    Layout(Used(p), if Contiguous(p) then 0 else IntRegs(p), ArgsBelow(p),
           if Framed(p) then Count(Saved(p)) - 1 else Count(Saved(p)),
           if Framed(p) then 1 else 0, if Contiguous(p) && !Framed(p) then 4 else 0)
  }

  function PushIf(s: set<Reg>, limit: Limit): Code { if s == {} then [] else PushCode(s, limit) }

  /** routine_saveregs */
  function SaveCode(p: Routine): Code
  {
    var pushes := (if Contiguous(p) then PushCode(Args(4), p.limit) else []) + PushIf(PushMask(p), p.limit);
    if Framed(p) then
      [Data(AL, MOV, false, IP, 0, Shifted(SP, LSL, 0))] + pushes
          + MoveBy(FP, IP, if Contiguous(p) then -20 else -4, UNKNOWN)
    else pushes
  }

  function Link(toPc: bool): Reg { if toPc then PC else LR }

  function Restored(p: Routine, toPc: bool): set<Reg> { Vars(p) + {FP, SP, Link(toPc)} }

  /** The frame case of routine_exit. */
  function FrameExit(p: Routine, toPc: bool): Code
  {
    var count := Count(Vars(p));
    if count + 3 <= p.limit then [Block(true, FP, DB, false, Restored(p, toPc))]
    else [Data(AL, SUB, false, SP, FP, Imm(0, 4 * (count + 3)))] + PopCode(Restored(p, toPc), p.limit)
  }

  function ReturnToLink(toPc: bool): Code { if toPc then [Data(AL, MOV, false, PC, 0, Shifted(LR, LSL, 0))] else [] }

  function PopIf(s: set<Reg>, limit: Limit): Code { if s == {} then [] else PopCode(s, limit) }

  /** What the stack pointer has to be moved up by before anything is popped. */
  function BeforePop(p: Routine, adjustSp: int, known: Known): Code
  {
    (if p.movesOnce && !p.nonleaf then MoveBy(SP, SP, p.depth, known) else [])
    + (if ArgsBelow(p) == 0 then if adjustSp != 0 then MoveBy(SP, SP, adjustSp, known) else []
       else MoveBy(SP, SP, 4 * ArgsBelow(p) + adjustSp, known))
  }

  /** The frameless case. */
  function PlainExit(p: Routine, toPc: bool, adjustSp: int, known: Known): Code
  {
    var l := LayoutOf(p);
    BeforePop(p, adjustSp, known) +
    (if LR !in l.used || l.popAbove != 0 then
       PopIf(Vars(p) + l.used * {LR}, p.limit)
       + (if l.popAbove != 0 then [Data(AL, ADD, false, SP, SP, Imm(0, 16))] else [])
       + ReturnToLink(toPc)
     else PopCode(Vars(p) + {Link(toPc)}, p.limit))
  }

  /** routine_exit */
  function ExitCode(p: Routine, toPc: bool, adjustSp: int, known: Known): Code
  {
    if Framed(p) then FrameExit(p, toPc) else PlainExit(p, toPc, adjustSp, known)
  }

  predicate ReturnIsSingle(p: Routine)
  {
    if p.movesOnce && !p.nonleaf then false
    else if Framed(p) then Count(Vars(p)) + 3 <= p.limit
    else
      var l := LayoutOf(p);
      !(l.realBelow != 0 || l.popAbove != 0 || (LR !in l.used && Vars(p) != {}) || Count(Vars(p)) + 1 > p.limit)
  }

  /** local_addr_a for the argument at byte offset `arg`; fpMinusSp is what the body has pushed. */
  function LocalAddr(p: Routine, arg: int, fpMinusSp: int): int
  {
    var l := LayoutOf(p);
    var q := arg - (if arg >= 4 * l.argBelow then 4 * (l.argBelow - l.savedAbove) else 4 * (l.argBelow + l.intSave));
    if Framed(p) then q else q + fpMinusSp + 4 * (l.intSave + l.realBelow)
  }

  // ---- counting ----

  /** Low registers count first. */
  lemma {:induction false} RankWithArgs(n: nat, s: set<Reg>, j: nat)
    requires n <= 4 && 4 <= j <= 16 && forall r: Reg :: r in s ==> r >= 4
    ensures Rank(Args(n) + s, j) == n + Rank(s, j)
  {
    var both := Args(n) + s;
    if j > 4 {
      RankWithArgs(n, s, j - 1);
    } else {
      RankNoneBelow(s, 4);
      RankLow(both, n);
    }
  }

  lemma RankLow(s: set<Reg>, n: nat)
    requires n <= 4 && forall r: Reg :: r < 4 ==> (r in s <==> r < n)
    ensures Rank(s, 4) == n
  {
    assert Rank(s, 2) == (if n >= 1 then 1 else 0) + (if n >= 2 then 1 else 0);
    assert Rank(s, 3) == Rank(s, 2) + (if n >= 3 then 1 else 0);
  }

  // ---- what entry does ----

  lemma PushIfRefines(s: set<Reg>, limit: Limit, st: State)
    requires SP !in s
    ensures Run(PushIf(s, limit), st) == Exec(Push(s), st)
  {
    hide Run, Exec, StoreAll, Addr;
    if s == {} {
      RunNone(st);
      PushExec({}, st);
      RankNoneBelow({}, 16);
      assert BlockOffsets(DB, {}) == map[];
      StoreNothing(st.regs[SP], st.regs, st.mem, 16);
      AddrZero(st.regs[SP]);
    } else {
      PushRefines(s, limit, st);
    }
  }

  function Extra(p: Routine): int { if Contiguous(p) then 16 else 0 }

  /** The state after both pushes of an entry that starts at `st`. */
  function AfterPushes(p: Routine, st: State): State
  {
    Exec(Push(PushMask(p)), if Contiguous(p) then Exec(Push(Args(4)), st) else st)
  }

  lemma MaskHasNoSp(p: Routine)
    ensures SP !in PushMask(p) && SP !in Args(4)
    ensures forall r: Reg :: r in Saved(p) ==> r >= 4
  {
  }

  lemma PushesRun(p: Routine, st: State)
    ensures Run((if Contiguous(p) then PushCode(Args(4), p.limit) else []) + PushIf(PushMask(p), p.limit), st)
            == AfterPushes(p, st)
  {
    hide Run, Exec, PushCode, PushMask, Push, Args, Contiguous;
    MaskHasNoSp(p);
    if Contiguous(p) {
      PushRefines(Args(4), p.limit, st);
      PushIfRefines(PushMask(p), p.limit, Exec(Push(Args(4)), st));
      RunAppend(PushCode(Args(4), p.limit), PushIf(PushMask(p), p.limit), st);
    } else {
      PushIfRefines(PushMask(p), p.limit, st);
      assert [] + PushIf(PushMask(p), p.limit) == PushIf(PushMask(p), p.limit);
    }
  }

  /** Everything pushed can be read back from the stack pointer. */
  lemma PushesStore(p: Routine, st: State)
    ensures var end, mask, b := AfterPushes(p, st), PushMask(p), st.regs[SP];
            && end.regs == st.regs[SP := Addr(b, -Extra(p) - 4 * Count(mask))]
            && end.flags == st.flags
            && (forall r: Reg :: r in mask ==> Read(end.mem, Addr(end.regs[SP], 4 * Rank(mask, r))) == st.regs[r])
  {
    hide Exec, StoreAll, Addr, Count, Rank, PushMask, Push, Read, Args, Contiguous;
    MaskHasNoSp(p);
    var b, mask := st.regs[SP], PushMask(p);
    var mid := if Contiguous(p) then Exec(Push(Args(4)), st) else st;
    if Contiguous(p) {
      PushExec(Args(4), st);
      CountArgs();
    }
    AddrZero(b);
    PushExec(mask, mid);
    AddrAddr(b, -Extra(p), -4 * Count(mask));
    assert mid.regs == st.regs[SP := Addr(b, -Extra(p))];
    forall r: Reg | r in mask
      ensures Read(AfterPushes(p, st).mem, Addr(AfterPushes(p, st).regs[SP], 4 * Rank(mask, r))) == st.regs[r]
    {
      PushedWord(mask, mid, r);
    }
  }

  lemma CountArgs()
    ensures Count(Args(4)) == 4
    ensures forall i: Reg :: i < 4 ==> i in Args(4) && Rank(Args(4), i) == i
  {
    RankLow(Args(4), 4);
    RankAll(Args(4), 4, 16);
    forall i: Reg | i < 4 ensures Rank(Args(4), i) == i {
      assert Rank(Args(4), 1) == 1 && Rank(Args(4), 2) == 2 && Rank(Args(4), 3) == 3;
    }
  }

  /** The register arguments pushed on their own stay where they are. */
  lemma ArgsStored(p: Routine, st: State, i: Reg)
    requires Contiguous(p) && i < 4
    ensures Read(AfterPushes(p, st).mem, Addr(st.regs[SP], -16 + 4 * i)) == st.regs[i]
  {
    hide Exec, StoreAll, Addr, Count, Rank, PushMask, Push, Args, BlockOffsets, Apart;
    MaskHasNoSp(p);
    var b, mask := st.regs[SP], PushMask(p);
    var mid := Exec(Push(Args(4)), st);
    CountArgs();
    PushExec(Args(4), st);
    PushedWord(Args(4), st, i);
    AddrAddr(b, -16, 4 * i);
    PushExec(mask, mid);
    BlockApart(DB, mask);
    BelowMisses(mask, b, i);
    StoreMisses(BlockOffsets(DB, mask), mid.regs[SP], mid.regs, mid.mem, Addr(b, -16 + 4 * i));
  }

  lemma BelowMisses(s: set<Reg>, b: Word, i: Reg)
    requires i < 4
    ensures Untouched(BlockOffsets(DB, s), Addr(b, -16), Addr(b, -16 + 4 * i))
  {
    hide Addr, Rank;
    forall r: Reg | r in s ensures Addr(Addr(b, -16), -4 * Count(s) + 4 * Rank(s, r)) != Addr(b, -16 + 4 * i) {
      AddrAddr(b, -16, -4 * Count(s) + 4 * Rank(s, r));
      RankBelow(s, r);
      var x, y := -16 - 4 * Count(s) + 4 * Rank(s, r), -16 + 4 * i;
      if Addr(b, x) == Addr(b, y) { AddrSame(b, x, y); }
    }
    assert BlockOffsets(DB, s).Keys == s;
  }

  lemma RankBelow(s: set<Reg>, r: Reg)
    requires r in s
    ensures Rank(s, r) < Count(s) <= 16
  {
    RankMonotone(s, r + 1, 16);
  }

  /** The state in which the pushes are made: a frame keeps the old stack pointer in IP. */
  function Entered(p: Routine, st: State): State { if Framed(p) then With(st, IP, st.regs[SP]) else st }

  /** routine_saveregs as the two pushes and, in a frame, the new frame pointer. */
  lemma SaveRun(p: Routine, st: State)
    ensures var pushed := AfterPushes(p, Entered(p, st));
            Run(SaveCode(p), st)
            == if Framed(p) then With(pushed, FP, Addr(st.regs[SP], -4 - Extra(p))) else pushed
  {
    hide Run, Exec, PushCode, PushIf, Push, Args, PushMask, MoveBy, Addr;
    var pushes := (if Contiguous(p) then PushCode(Args(4), p.limit) else []) + PushIf(PushMask(p), p.limit);
    PushesRun(p, Entered(p, st));
    if Framed(p) {
      var copy := Data(AL, MOV, false, IP, 0, Shifted(SP, LSL, 0));
      var pushed := AfterPushes(p, Entered(p, st));
      CopyRegister(IP, SP, st);
      RunOne(copy, st);
      RunAppend([copy], pushes, st);
      RunAppend([copy] + pushes, MoveBy(FP, IP, if Contiguous(p) then -20 else -4, UNKNOWN), st);
      MovesExactly(FP, IP, if Contiguous(p) then -20 else -4, UNKNOWN, pushed);
      PushesStore(p, Entered(p, st));
    }
  }

  /** A register that is not recorded is moved by just the amount asked for. */
  lemma MovesExactly(r1: Reg, r2: Reg, d: int, known: Known, st: State)
    requires Agrees(known, st.regs) && known[r1].None?
    ensures Run(MoveBy(r1, r2, d, known), st) == With(st, r1, Addr(st.regs[r2], d))
  {
    hide Run, MoveBy, Addr, Slip;
    MoveByAdds(r1, r2, d, known, st);
    NoSlip(r1, r2, d, known, st.regs);
  }

  lemma CopyRegister(rd: Reg, rm: Reg, st: State)
    ensures Exec(Data(AL, MOV, false, rd, 0, Shifted(rm, LSL, 0)), st) == With(st, rd, st.regs[rm])
  {
    hide ShifterCarry, ResultFlags, And, Orr, Eor, Bic;
  }

  /** Where the stack pointer is after entry, and what can be read from there. */
  lemma SaveEffect(p: Routine, st: State)
    ensures var end, mask, b := Run(SaveCode(p), st), PushMask(p), st.regs[SP];
            && end.regs[SP] == Addr(b, -Extra(p) - 4 * Count(mask))
            && (Framed(p) ==> end.regs[FP] == Addr(b, -4 - Extra(p)))
            && (forall r: Reg :: r != SP && (Framed(p) ==> r != FP && r != IP) ==> end.regs[r] == st.regs[r])
            && (forall r: Reg :: r in mask ==>
                  Read(end.mem, Addr(end.regs[SP], 4 * Rank(mask, r))) == if Framed(p) && r == IP then b
                      else st.regs[r])
            && (Contiguous(p) ==> forall i: Reg :: i < 4 ==> Read(end.mem, Addr(b, -16 + 4 * i)) == st.regs[i])
  {
    hide Run, SaveCode, AfterPushes, Count, Rank, Addr, Read, PushMask, Contiguous;
    SaveRun(p, st);
    PushesStore(p, Entered(p, st));
    if Contiguous(p) {
      forall i: Reg | i < 4
        ensures Read(AfterPushes(p, Entered(p, st)).mem, Addr(st.regs[SP], -16 + 4 * i)) == st.regs[i]
      {
        ArgsStored(p, Entered(p, st), i);
      }
    }
  }

  // ---- argument addresses ----

  /** Where the caller leaves, or entry stores, argument word i. */
  function ArgHome(p: Routine, i: nat, entrySp: Word, afterSp: Word): Word
  {
    if p.argWords > 4 then Addr(entrySp, 4 * (i - 4)) else Addr(afterSp, 4 * i)
  }

  lemma MaskCount(p: Routine)
    ensures Count(PushMask(p)) == ArgsBelow(p) + Count(Saved(p))
    ensures forall r: Reg :: r in Saved(p) ==> Rank(PushMask(p), r) == ArgsBelow(p) + Rank(Saved(p), r)
    ensures forall r: Reg :: r < ArgsBelow(p) ==> r in PushMask(p) && Rank(PushMask(p), r) == r
    ensures Framed(p) ==> Count(Saved(p)) >= 1
  {
    hide Saved, ArgsBelow, Rank;
    MaskHasNoSp(p);
    ArgsAtMostFour(p);
    RankWithArgs(ArgsBelow(p), Saved(p), 16);
    forall r: Reg | r in Saved(p) ensures Rank(PushMask(p), r) == ArgsBelow(p) + Rank(Saved(p), r) {
      RankWithArgs(ArgsBelow(p), Saved(p), r);
    }
    forall r: Reg | r < ArgsBelow(p) ensures r in PushMask(p) && Rank(PushMask(p), r) == r {
      LowArgs(PushMask(p), ArgsBelow(p), r);
    }
    if Framed(p) {
      FrameHasPc(p);
      RankBelow(Saved(p), PC);
    }
  }

  lemma FrameHasPc(p: Routine)
    requires Framed(p)
    ensures PC in Saved(p)
  {
  }

  lemma ArgsAtMostFour(p: Routine)
    ensures ArgsBelow(p) <= 4
  {
  }

  lemma LowArgs(s: set<Reg>, n: nat, r: Reg)
    requires n <= 4 && r < n && forall x: Reg :: x < n ==> x in s
    ensures Rank(s, r) == r
  {
    assert Rank(s, 1) == 1 || 0 !in s;
    assert Rank(s, 2) == 2 || 0 !in s || 1 !in s;
    assert Rank(s, 3) == 3 || 0 !in s || 1 !in s || 2 !in s;
  }

  /**
   For every frame shape and every argument, base register plus local_addr_a is where the
   caller left a stack argument or where entry stored a register argument: with more than four
   words all of them form one array that ends with the caller's.
   */
  lemma ArgumentAddress(p: Routine, i: nat, fpMinusSp: int, st: State, now: State)
    requires i < p.argWords && (i < 4 ==> p.argPush || (p.nonleaf && !p.noFp && p.saveName))
    requires var after := Run(SaveCode(p), st);
             if Framed(p) then now.regs[FP] == after.regs[FP] else now.regs[SP] == Addr(after.regs[SP], -fpMinusSp)
    ensures var after := Run(SaveCode(p), st);
            var a := Addr(now.regs[if Framed(p) then FP else SP], LocalAddr(p, 4 * i, fpMinusSp));
            && a == ArgHome(p, i, st.regs[SP], after.regs[SP])
            && (i < 4 ==> Read(after.mem, a) == st.regs[i])
  {
    hide Run, SaveCode, Saved, PushMask, Addr, Read, Count, Rank;
    var after, b := Run(SaveCode(p), st), st.regs[SP];
    SaveEffect(p, st);
    MaskCount(p);
    var n := Count(PushMask(p));
    var k := LocalAddr(p, 4 * i, fpMinusSp);
    if Framed(p) {
      AddrAddr(b, -4 - Extra(p), k);
    } else {
      AddrAddr(b, -Extra(p) - 4 * n, -fpMinusSp);
      AddrAddr(b, -Extra(p) - 4 * n - fpMinusSp, k);
    }
    AddrAddr(b, -Extra(p) - 4 * n, 4 * i);
  }

  // ---- exit from a frame ----

  /** When the body of a function without a frame pointer may change the link register. */
  predicate MayUseLink(p: Routine)
  {
    LR in p.used || p.noLink || (p.space && exists r: Reg :: 4 <= r <= 11 && r in p.used)
  }

  /**
   What the body of a function must leave alone between entry and exit: the words saved, the
   frame or stack pointer, and every variable register that it is not said to use.
   */
  ghost predicate BodyKeeps(p: Routine, st: State, now: State, adjustSp: int)
  {
    var after, mask := Run(SaveCode(p), st), PushMask(p);
    && (forall r: Reg :: r in Saved(p) && r != PC ==>
          Read(now.mem, Addr(after.regs[SP], 4 * Rank(mask, r)))
              == Read(after.mem, Addr(after.regs[SP], 4 * Rank(mask, r))))
    && (forall r: Reg :: 4 <= r <= 11 && r !in p.used ==> now.regs[r] == after.regs[r])
    && (if Framed(p) then now.regs[FP] == after.regs[FP]
        else now.regs[SP] == Addr(after.regs[SP], -adjustSp - if p.movesOnce && !p.nonleaf then p.depth else 0)
             && (MayUseLink(p) || now.regs[LR] == after.regs[LR]))
  }

  /**
   The caller's registers, stack pointer and return address are back; the registers that carry
   results, the flags and memory are as the body left them.
   */
  ghost predicate Returned(st: State, now: State, end: State, toPc: bool)
  {
    && (forall r: Reg :: 4 <= r <= 11 ==> end.regs[r] == st.regs[r])
    && (forall r: Reg :: r <= 3 || r == IP ==> end.regs[r] == now.regs[r])
    && end.regs[SP] == st.regs[SP]
    && end.regs[if toPc then PC else LR] == st.regs[LR]
    && end.flags == now.flags && end.mem == now.mem
  }

  lemma RankTop(s: set<Reg>)
    ensures Rank(s, 13) == Rank(s, 12) + (if 12 in s then 1 else 0)
    ensures Rank(s, 14) == Rank(s, 13) + (if 13 in s then 1 else 0)
    ensures Rank(s, 15) == Rank(s, 14) + (if 14 in s then 1 else 0)
    ensures Count(s) == Rank(s, 15) + (if 15 in s then 1 else 0)
    ensures Rank(s, 12) == Rank(s, 11) + (if 11 in s then 1 else 0)
  {
  }

  /** Which slot of the frame each restored register comes from. */
  function SlotOf(r: Reg, toPc: bool): Reg { if r == SP then IP else if r == Link(toPc) then LR else r }

  lemma FrameRanks(p: Routine, toPc: bool, r: Reg)
    requires Framed(p) && FP !in p.used && r in Restored(p, toPc)
    ensures Count(Restored(p, toPc)) == Count(Vars(p)) + 3 && Count(Saved(p)) == Count(Vars(p)) + 4
    ensures SlotOf(r, toPc) in Saved(p) && Rank(Saved(p), SlotOf(r, toPc)) == Rank(Restored(p, toPc), r)
  {
    hide Rank;
    var m, f, v := Restored(p, toPc), Saved(p), Vars(p);
    RankAgree(m, f, 12);
    RankAgree(v, f, 11);
    RankTop(v);
    RankTop(m);
    RankTop(f);
    if r < 12 { RankAgree(m, f, r); }
  }

  lemma DbLoadAt(s: set<Reg>, st: State, r: Reg)
    ensures var end := Exec(Block(true, FP, DB, false, s), st);
            && end.regs[r]
               == (if r in s then Read(st.mem, Addr(st.regs[FP], -4 * Count(s) + 4 * Rank(s, r))) else st.regs[r])
            && end.flags == st.flags && end.mem == st.mem
  {
    hide Addr, Read, Rank, Count;
  }

  lemma SubtractFp(n: int, st: State)
    requires 0 <= n < 256
    ensures Exec(Data(AL, SUB, false, SP, FP, Imm(0, n)), st) == With(st, SP, Addr(st.regs[FP], -n))
  {
    hide ShifterCarry, ResultFlags, And, Orr, Eor, Bic;
  }

  lemma AddSp(n: nat, st: State)
    requires n < 256
    ensures Exec(Data(AL, ADD, false, SP, SP, Imm(0, n)), st) == With(st, SP, Addr(st.regs[SP], n))
  {
    hide ShifterCarry, ResultFlags, And, Orr, Eor, Bic;
  }

  /** Both forms of the frame exit load the same words. */
  lemma FrameExitAt(p: Routine, toPc: bool, st: State, r: Reg)
    requires Framed(p) && FP !in p.used
    ensures var end, m := Run(FrameExit(p, toPc), st), Restored(p, toPc);
            && end.regs[r]
               == (if r in m then Read(st.mem, Addr(st.regs[FP], -4 * Count(m) + 4 * Rank(m, r))) else st.regs[r])
            && end.flags == st.flags && end.mem == st.mem
  {
    hide Addr, Read, Rank, Count, Exec, Run, PopCode, Restored;
    var m, n := Restored(p, toPc), Count(Vars(p)) + 3;
    RestoresSp(p, toPc);
    FrameRanks(p, toPc, SP);
    if n <= p.limit {
      RunOne(Block(true, FP, DB, false, m), st);
      DbLoadAt(m, st, r);
    } else {
      VarsAtMostSeven(p);
      var mid := With(st, SP, Addr(st.regs[FP], -4 * n));
      var sub := Data(AL, SUB, false, SP, FP, Imm(0, 4 * n));
      SubtractFp(4 * n, st);
      RunOne(sub, st);
      RunAppend([sub], PopCode(m, p.limit), st);
      PopRefines(m, p.limit, mid);
      LoadUpAt(m, false, mid, r);
      LoadUpFrame(m, false, mid);
      AddrAddr(st.regs[FP], -4 * n, 4 * Rank(m, r));
    }
  }

  lemma RestoresSp(p: Routine, toPc: bool)
    ensures SP in Restored(p, toPc)
  {
  }

  lemma VarsAtMostSeven(p: Routine)
    ensures Count(Vars(p)) <= 8
  {
    hide Rank;
    var v := Vars(p);
    RankNoneBelow(v, 4);
    RankSteps(v, 4, 12);
    RankAll(v, 12, 16);
  }

  lemma {:induction false} RankSteps(s: set<Reg>, j: nat, k: nat)
    requires j <= k <= 16
    ensures Rank(s, k) <= Rank(s, j) + (k - j)
  {
    if j < k { RankSteps(s, j, k - 1); }
  }

  lemma FrameSlot(p: Routine, toPc: bool, st: State, now: State, r: Reg)
    requires Framed(p) && FP !in p.used && r in Restored(p, toPc)
    requires now.regs[FP] == Run(SaveCode(p), st).regs[FP]
    ensures var after, m := Run(SaveCode(p), st), Restored(p, toPc);
            Addr(now.regs[FP], -4 * Count(m) + 4 * Rank(m, r))
            == Addr(after.regs[SP], 4 * Rank(PushMask(p), SlotOf(r, toPc)))
  {
    hide Run, SaveCode, Addr, Rank, Count, PushMask, Saved, Restored, Read, Contiguous;
    var b, m := st.regs[SP], Restored(p, toPc);
    SaveEffect(p, st);
    MaskCount(p);
    FrameRanks(p, toPc, r);
    AddrAddr(b, -4 - Extra(p), -4 * Count(m) + 4 * Rank(m, r));
    AddrAddr(b, -Extra(p) - 4 * Count(PushMask(p)), 4 * Rank(PushMask(p), SlotOf(r, toPc)));
  }

  lemma FrameRoundTrip(p: Routine, toPc: bool, st: State, now: State)
    requires Framed(p) && FP !in p.used && BodyKeeps(p, st, now, 0)
    ensures Returned(st, now, Run(FrameExit(p, toPc), now), toPc)
  {
    hide Run, SaveCode, Addr, Rank, Count, PushMask, Read, FrameExit, Contiguous;
    var end, m := Run(FrameExit(p, toPc), now), Restored(p, toPc);
    SaveEffect(p, st);
    SavedIn(p);
    forall r: Reg ensures
      && (r in m ==> end.regs[r] == if r == SP then st.regs[SP] else st.regs[SlotOf(r, toPc)])
      && (r !in m ==> end.regs[r] == now.regs[r])
      && end.flags == now.flags && end.mem == now.mem
    {
      FrameExitAt(p, toPc, now, r);
      if r in m {
        FrameRanks(p, toPc, r);
        FrameSlot(p, toPc, st, now, r);
      }
    }
  }

  lemma SavedIn(p: Routine)
    ensures Saved(p) <= PushMask(p)
  {
  }

  // ---- exit without a frame ----

  /** How far the stack pointer is below the saved registers when exit begins. */
  function Below(p: Routine, adjustSp: int): int
  {
    4 * ArgsBelow(p) + adjustSp + if p.movesOnce && !p.nonleaf then p.depth else 0
  }

  lemma BeforePopRun(p: Routine, adjustSp: int, known: Known, st: State)
    requires Agrees(known, st.regs) && known[SP].None?
    ensures Run(BeforePop(p, adjustSp, known), st) == With(st, SP, Addr(st.regs[SP], Below(p, adjustSp)))
  {
    hide Run, MoveBy, Addr, ArgsBelow;
    var d := if p.movesOnce && !p.nonleaf then p.depth else 0;
    var first := if p.movesOnce && !p.nonleaf then MoveBy(SP, SP, p.depth, known) else [];
    var second := if ArgsBelow(p) == 0 then if adjustSp != 0 then MoveBy(SP, SP, adjustSp, known) else []
                  else MoveBy(SP, SP, 4 * ArgsBelow(p) + adjustSp, known);
    MovesBy(first, d, known, st);
    var mid := Run(first, st);
    MovesBy(second, 4 * ArgsBelow(p) + adjustSp, known, mid);
    RunAppend(first, second, st);
    AddrAddr(st.regs[SP], d, 4 * ArgsBelow(p) + adjustSp);
  }

  lemma MovesBy(c: Code, d: int, known: Known, st: State)
    requires (c == MoveBy(SP, SP, d, known) || (c == [] && d == 0)) && Agrees(known, st.regs) && known[SP].None?
    ensures Run(c, st) == With(st, SP, Addr(st.regs[SP], d)) && Agrees(known, Run(c, st).regs)
  {
    hide Run, MoveBy, Addr;
    MovesExactly(SP, SP, d, known, st);
    AddrZero(st.regs[SP]);
    RunNone(st);
  }

  lemma PopIfRefines(s: set<Reg>, limit: Limit, st: State)
    requires SP !in s
    ensures Run(PopIf(s, limit), st) == Exec(Pop(s), st)
  {
    hide Run, Exec;
    if s == {} {
      RunNone(st);
      RankNoneBelow({}, 16);
      NothingPopped({}, st);
    } else {
      PopRefines(s, limit, st);
    }
  }

  /** The words popped are the words pushed. */
  lemma PlainSlot(p: Routine, st: State, now: State, adjustSp: int, r: Reg)
    requires !Framed(p) && r in Saved(p) && BodyKeeps(p, st, now, adjustSp)
    ensures Read(now.mem, Addr(Addr(now.regs[SP], Below(p, adjustSp)), 4 * Rank(Saved(p), r))) == st.regs[r]
  {
    hide Run, SaveCode, Addr, Rank, Count, PushMask, Read, Saved, Contiguous, ArgsBelow;
    var b, after := st.regs[SP], Run(SaveCode(p), st);
    SaveEffect(p, st);
    MaskCount(p);
    SavedIn(p);
    MaskHasNoPc(p);
    PlainSp(p, st, now, adjustSp);
    AddrAddr(b, -Extra(p) - 4 * Count(Saved(p)), 4 * Rank(Saved(p), r));
    AddrAddr(b, -Extra(p) - 4 * Count(PushMask(p)), 4 * Rank(PushMask(p), r));
  }

  lemma MaskHasNoPc(p: Routine)
    requires !Framed(p)
    ensures PC !in Saved(p) && SP !in Saved(p) && IP !in Saved(p) && forall r: Reg :: r <= 3 ==> r !in Saved(p)
  {
  }

  lemma PlainSp(p: Routine, st: State, now: State, adjustSp: int)
    requires !Framed(p) && BodyKeeps(p, st, now, adjustSp)
    ensures Addr(now.regs[SP], Below(p, adjustSp)) == Addr(st.regs[SP], -Extra(p) - 4 * Count(Saved(p)))
  {
    hide Run, SaveCode, Addr, Rank, Count, PushMask, Read, Saved, Contiguous, ArgsBelow;
    var b, after := st.regs[SP], Run(SaveCode(p), st);
    var d := if p.movesOnce && !p.nonleaf then p.depth else 0;
    SaveEffect(p, st);
    MaskCount(p);
    AddrAddr(after.regs[SP], -adjustSp - d, Below(p, adjustSp));
    AddrAddr(b, -Extra(p) - 4 * Count(PushMask(p)), Below(p, adjustSp) - adjustSp - d);
  }

  /** The registers popped by the last case, and where they come from. */
  lemma LinkRanks(p: Routine, toPc: bool, r: Reg)
    requires !Framed(p) && LR in Saved(p) && r in Vars(p) + {Link(toPc)}
    ensures Count(Vars(p) + {Link(toPc)}) == Count(Saved(p))
    ensures var slot := if r == Link(toPc) then LR else r;
            slot in Saved(p) && Rank(Vars(p) + {Link(toPc)}, r) == Rank(Saved(p), slot)
  {
    hide Rank;
    var m, f := Vars(p) + {Link(toPc)}, Saved(p);
    RankAgree(m, f, 12);
    RankTop(m);
    RankTop(f);
    if r < 12 { RankAgree(m, f, r); }
  }

  function Back(contiguous: bool, toPc: bool): Code
  {
    (if contiguous then [Data(AL, ADD, false, SP, SP, Imm(0, 16))] else []) + ReturnToLink(toPc)
  }

  lemma BackRun(contiguous: bool, toPc: bool, st: State)
    ensures var mid := With(st, SP, Addr(st.regs[SP], if contiguous then 16 else 0));
            Run(Back(contiguous, toPc), st) == if toPc then With(mid, PC, mid.regs[LR]) else mid
  {
    hide Run, Addr, Exec;
    var add, move := Data(AL, ADD, false, SP, SP, Imm(0, 16)), Data(AL, MOV, false, PC, 0, Shifted(LR, LSL, 0));
    AddrZero(st.regs[SP]);
    AddSp(16, st);
    RunOne(add, st);
    RunNone(st);
    var mid := With(st, SP, Addr(st.regs[SP], if contiguous then 16 else 0));
    RunNone(mid);
    assert !contiguous ==> mid.regs == st.regs;
    CopyRegister(PC, LR, mid);
    RunOne(move, mid);
    RunAppend(if contiguous then [add] else [], ReturnToLink(toPc), st);
  }

  /** What the body leaves of the registers that were not saved. */
  lemma Unsaved(p: Routine, st: State, now: State, adjustSp: int)
    requires !Framed(p) && BodyKeeps(p, st, now, adjustSp)
    ensures forall r: Reg :: (r in VARS || r == LR) && r !in Saved(p) ==> now.regs[r] == st.regs[r]
  {
    hide Run, SaveCode, Addr, Rank, Count, PushMask, Read, Saved, Contiguous, MayUseLink;
    SaveEffect(p, st);
    PlainSaved(p);
  }

  /** Without a frame pointer just the registers that the body may change are saved. */
  lemma PlainSaved(p: Routine)
    requires !Framed(p)
    ensures forall r: Reg :: 4 <= r <= 11 ==> (r in Saved(p) <==> r in p.used)
    ensures LR in Saved(p) <==> MayUseLink(p)
  {
    assert (p.used * VARS != {}) == (exists r: Reg :: 4 <= r <= 11 && r in p.used) by {
      if r: Reg :| 4 <= r <= 11 && r in p.used { assert r in p.used * VARS; }
      if r :| r in p.used * VARS { assert 4 <= r <= 11; }
    }
  }

  /** The registers after everything saved has been popped. */
  lemma PoppedAll(p: Routine, st: State, now: State, adjustSp: int)
    requires !Framed(p) && BodyKeeps(p, st, now, adjustSp)
    ensures var mid := With(now, SP, Addr(now.regs[SP], Below(p, adjustSp)));
            var end := Exec(LoadUp(Saved(p), true), mid);
            && (forall r: Reg :: r in VARS || r == LR ==> end.regs[r] == st.regs[r])
            && (forall r: Reg :: r <= 3 || r == IP ==> end.regs[r] == now.regs[r])
            && end.regs[SP] == Addr(st.regs[SP], -Extra(p)) && end.flags == now.flags && end.mem == now.mem
  {
    hide Run, SaveCode, Addr, Rank, Count, PushMask, Read, Saved, Contiguous, ArgsBelow, BodyKeeps, Below, Exec;
    var mid := With(now, SP, Addr(now.regs[SP], Below(p, adjustSp)));
    MaskHasNoPc(p);
    Unsaved(p, st, now, adjustSp);
    PlainSp(p, st, now, adjustSp);
    LoadUpFrame(Saved(p), true, mid);
    LoadUpAt(Saved(p), true, mid, SP);
    AddrAddr(st.regs[SP], -Extra(p) - 4 * Count(Saved(p)), 4 * Count(Saved(p)));
    forall r: Reg | r in VARS || r == LR ensures Exec(LoadUp(Saved(p), true), mid).regs[r] == st.regs[r] {
      LoadUpAt(Saved(p), true, mid, r);
      if r in Saved(p) { PlainSlot(p, st, now, adjustSp, r); }
    }
    forall r: Reg | r <= 3 || r == IP ensures Exec(LoadUp(Saved(p), true), mid).regs[r] == now.regs[r] {
      LoadUpAt(Saved(p), true, mid, r);
    }
  }

  lemma PopThenReturn(p: Routine, toPc: bool, st: State, now: State, adjustSp: int)
    requires !Framed(p) && BodyKeeps(p, st, now, adjustSp)
    ensures var mid := With(now, SP, Addr(now.regs[SP], Below(p, adjustSp)));
            Returned(st, now, Run(Back(Contiguous(p), toPc), Run(PopIf(Saved(p), p.limit), mid)), toPc)
  {
    hide Run, SaveCode, Addr, Rank, Count, PushMask, Read, Saved, Contiguous, ArgsBelow, PopIf, BodyKeeps, Below,
        Exec, Back;
    var mid := With(now, SP, Addr(now.regs[SP], Below(p, adjustSp)));
    MaskHasNoPc(p);
    PopIfRefines(Saved(p), p.limit, mid);
    PoppedAll(p, st, now, adjustSp);
    var popped := Exec(LoadUp(Saved(p), true), mid);
    BackRun(Contiguous(p), toPc, popped);
    AddrAddr(st.regs[SP], -Extra(p), Extra(p));
    AddrZero(st.regs[SP]);
  }

  lemma PopReturns(p: Routine, toPc: bool, st: State, now: State, adjustSp: int)
    requires !Framed(p) && BodyKeeps(p, st, now, adjustSp) && LR in Saved(p) && !Contiguous(p)
    ensures var mid := With(now, SP, Addr(now.regs[SP], Below(p, adjustSp)));
            Returned(st, now, Run(PopCode(Vars(p) + {Link(toPc)}, p.limit), mid), toPc)
  {
    hide Run, SaveCode, Addr, Rank, Count, PushMask, Read, Saved, Contiguous, ArgsBelow, PopCode, BodyKeeps, Below,
        Exec;
    var mid, m := With(now, SP, Addr(now.regs[SP], Below(p, adjustSp))), Vars(p) + {Link(toPc)};
    var end := Exec(LoadUp(m, true), mid);
    PopRefines(m, p.limit, mid);
    PlainSp(p, st, now, adjustSp);
    Unsaved(p, st, now, adjustSp);
    LoadUpFrame(m, true, mid);
    LinkRanks(p, toPc, Link(toPc));
    LoadUpAt(m, true, mid, SP);
    AddrAddr(st.regs[SP], -4 * Count(Saved(p)), 4 * Count(Saved(p)));
    AddrZero(st.regs[SP]);
    forall r: Reg | r in VARS || r == Link(toPc) ensures end.regs[r] == if r in VARS then st.regs[r] else st.regs[LR] {
      LoadUpAt(m, true, mid, r);
      if r in m {
        LinkRanks(p, toPc, r);
        PlainSlot(p, st, now, adjustSp, if r == Link(toPc) then LR else r);
      } else {
        VarsSaved(p, r);
      }
    }
    forall r: Reg | r <= 3 || r == IP ensures end.regs[r] == now.regs[r] {
      LoadUpAt(m, true, mid, r);
    }
  }

  lemma VarsSaved(p: Routine, r: Reg)
    requires !Framed(p) && r in VARS
    ensures r in Saved(p) <==> r in Vars(p)
  {
  }

  lemma PlainRoundTrip(p: Routine, toPc: bool, st: State, now: State, adjustSp: int, known: Known)
    requires !Framed(p) && BodyKeeps(p, st, now, adjustSp) && Agrees(known, now.regs) && known[SP].None?
    ensures Returned(st, now, Run(PlainExit(p, toPc, adjustSp, known), now), toPc)
  {
    hide Run, SaveCode, Addr, Rank, Count, PushMask, Read, Contiguous, ArgsBelow, BeforePop, PopCode, PopIf,
        BodyKeeps, Saved, Below;
    var l := LayoutOf(p);
    var mid := With(now, SP, Addr(now.regs[SP], Below(p, adjustSp)));
    BeforePopRun(p, adjustSp, known, now);
    UsedIs(p);
    if LR !in l.used || l.popAbove != 0 {
      var saved := Vars(p) + l.used * {LR};
      var back := Back(Contiguous(p), toPc);
      assert PlainExit(p, toPc, adjustSp, known) == BeforePop(p, adjustSp, known) + (PopIf(saved, p.limit) + back);
      RunAppend(BeforePop(p, adjustSp, known), PopIf(saved, p.limit) + back, now);
      RunAppend(PopIf(saved, p.limit), back, mid);
      PopThenReturn(p, toPc, st, now, adjustSp);
    } else {
      RunAppend(BeforePop(p, adjustSp, known), PopCode(Vars(p) + {Link(toPc)}, p.limit), now);
      PopReturns(p, toPc, st, now, adjustSp);
    }
  }

  lemma UsedIs(p: Routine)
    requires !Framed(p)
    ensures Saved(p) == Vars(p) + LayoutOf(p).used * {LR}
    ensures LR in LayoutOf(p).used <==> LR in Saved(p)
    ensures LayoutOf(p).popAbove == if Contiguous(p) then 4 else 0
  {
  }

  // ---- the whole round trip ----

  /**
   Entry, a body that keeps the saved slots and the frame or stack pointer, then exit:
   every callee-saved register, FP and SP come back, and the entry LR is in PC (or in LR,
   before a tail call).  At the exit the cache may hold any registers but SP.
   */
  lemma RoundTrip(p: Routine, toPc: bool, adjustSp: int, known: Known, st: State, now: State)
    requires BodyKeeps(p, st, now, adjustSp) && Agrees(known, now.regs) && known[SP].None?
    requires Framed(p) ==> FP !in p.used
    ensures Returned(st, now, Run(ExitCode(p, toPc, adjustSp, known), now), toPc)
  {
    hide Run, SaveCode, PushMask, FrameExit, PlainExit, Returned, BodyKeeps;
    if Framed(p) {
      KeepsFrame(p, st, now, adjustSp);
      FrameRoundTrip(p, toPc, st, now);
    } else {
      PlainRoundTrip(p, toPc, st, now, adjustSp, known);
    }
  }

  lemma KeepsFrame(p: Routine, st: State, now: State, adjustSp: int)
    requires Framed(p) && BodyKeeps(p, st, now, adjustSp)
    ensures BodyKeeps(p, st, now, 0)
  {
    hide Run, SaveCode, PushMask, Saved, Addr, Read, Rank;
  }

  /** Exactly when a return is one instruction. */
  lemma OneInstruction(p: Routine, known: Known)
    ensures |ExitCode(p, true, 0, known)| == 1 <==>
              if p.nonleaf && !p.noFp then Count(p.used * VARS) + 3 <= p.limit
              else
                && (p.movesOnce && !p.nonleaf ==> Wrap(p.depth) == 0)
                && !(p.argPush && p.argWords > 0)
                && (if MayUseLink(p) then Count(p.used * VARS) < (if p.limit < 3 then 3 else p.limit)
                    else p.used * VARS == {})
  {
    hide MoveBy, Count, PopCode, Used, MayUseLink, BeforePop;
    if Framed(p) {
      PopSome(Restored(p, true), p.limit);
    } else {
      BeforePopLength(p, known);
      UsedIs(p);
      PlainSaved(p);
      if LR in Saved(p) {
        CountWithPc(Vars(p));
        PopSome(Vars(p) + {PC}, p.limit);
      }
      PopSome(Saved(p), p.limit);
    }
  }

  /** A pop takes one instruction for as many registers as the limit, or three, allows. */
  lemma PopSome(s: set<Reg>, limit: Limit)
    ensures |PopCode(s, limit)| >= 1
    ensures |PopCode(s, limit)| == 1 <==> Count(s) <= if limit < 3 then 3 else limit
  {
    hide Count, Rank;
    var most := MaxPop(limit);
    if most < Count(s) { PieceCounts(s, Count(s) - most); }
  }

  lemma BeforePopLength(p: Routine, known: Known)
    ensures BeforePop(p, 0, known) == [] <==> (p.movesOnce && !p.nonleaf ==> Wrap(p.depth) == 0) && ArgsBelow(p) == 0
  {
    hide MoveBy, ArgsBelow;
    MoveByLength(SP, p.depth, known);
    MoveByLength(SP, 4 * ArgsBelow(p), known);
    ArgsAtMostFour(p);
  }

  lemma MoveByLength(r: Reg, d: int, known: Known)
    ensures MoveBy(r, r, d, known) == [] <==> Wrap(d) == 0
  {
    hide AddConstant.SplitForAdd, EightBits, RegisterContainingValue, Zeros;
    AddConstant.AddCodeDirect(r, r, Wrap(d), AL, false, known);
    if AddConstant.Splits(Wrap(d), known) { AddConstant.AddCodeSplits(r, r, Wrap(d), AL, false, known); }
  }

  /**
   ReturnIsSingleInstruction never says yes to more than one instruction.  It says no to one
   only without a frame pointer, for a stack movement of nothing or for a pop that goes over the
   limit although it is not split.
   */
  lemma SingleReturn(p: Routine, known: Known)
    ensures ReturnIsSingle(p) <==>
              && |ExitCode(p, true, 0, known)| == 1
              && ((p.nonleaf && !p.noFp) || (!(p.movesOnce && !p.nonleaf) && Count(p.used * VARS) + 1 <= p.limit))
  {
    hide MoveBy, Count, ExitCode, MayUseLink, Used;
    OneInstruction(p, known);
    if !Framed(p) {
      UsedIs(p);
      PlainSaved(p);
      if p.used * VARS == {} { EmptyCount(); }
    }
  }

  lemma EmptyCount()
    ensures Count({}) == 0
  {
    RankNoneBelow({}, 16);
  }

  lemma CountWithPc(s: set<Reg>)
    requires PC !in s
    ensures Count(s + {PC}) == Count(s) + 1
  {
    RankAdd(s, PC, 16);
  }

  // ---- what entry and exit transfer ----

  lemma NotEmpty(s: set<Reg>)
    requires s != {}
    ensures Count(s) >= 1
  {
    hide Rank;
    var r :| r in s;
    RankBelow(s, r);
  }

  lemma DataOnly(code: Code, n: nat)
    requires forall i :: 0 <= i < |code| ==> code[i].Data?
    ensures Bounded(code, n) && forall r: Reg :: !Names(code, r)
  {
  }

  lemma PushIfParts(s: set<Reg>, limit: Limit)
    ensures Bounded(PushIf(s, limit), limit) && forall r: Reg :: Names(PushIf(s, limit), r) <==> r in s
  {
    hide PushCode, Count;
    if s != {} {
      NotEmpty(s);
      PushBounded(s, limit);
      forall r: Reg ensures Names(PushCode(s, limit), r) <==> r in s { PushNames(s, limit, r); }
    }
  }

  /**
   Entry transfers no more registers at once than the limit, and it saves just the registers
   that have to be: the variable registers in use, the argument words that arrive in registers
   where they are wanted in memory, and the link register where the body may change it, or with
   a frame pointer what makes up a frame.
   */
  lemma SaveBlocks(p: Routine, r: Reg)
    ensures Bounded(SaveCode(p), p.limit)
    ensures var framed := p.nonleaf && !p.noFp;
            Names(SaveCode(p), r) <==>
              || (r <= 3 && r < p.argWords && (p.argPush || (framed && p.saveName)))
              || (4 <= r <= 11 && r in p.used)
              || (if framed then r == FP || r == IP || r == LR || r == PC else r == LR && MayUseLink(p))
  {
    hide PushCode, PushIf, MoveBy, Count, MayUseLink, Bounded, Names;
    var args, rest := if Contiguous(p) then PushCode(Args(4), p.limit) else [], PushIf(PushMask(p), p.limit);
    var copy, move := [Data(AL, MOV, false, IP, 0, Shifted(SP, LSL, 0))],
        MoveBy(FP, IP, if Contiguous(p) then -20 else -4, UNKNOWN);
    ArgsPart(p, r);
    PushIfParts(PushMask(p), p.limit);
    BoundedAppend(args, rest, p.limit);
    NamesAppend(args, rest, r);
    DataOnly(copy, p.limit);
    MoveByData(FP, IP, if Contiguous(p) then -20 else -4, UNKNOWN, p.limit);
    BoundedAppend(copy, args + rest, p.limit);
    NamesAppend(copy, args + rest, r);
    BoundedAppend(copy + (args + rest), move, p.limit);
    NamesAppend(copy + (args + rest), move, r);
    if !Framed(p) { PlainSaved(p); }
    MaskMembers(p, r);
  }

  lemma ArgsPart(p: Routine, r: Reg)
    ensures var args := if Contiguous(p) then PushCode(Args(4), p.limit) else [];
            Bounded(args, p.limit) && (Names(args, r) <==> Contiguous(p) && r <= 3)
  {
    hide PushCode, Count;
    assert 0 in Args(4);
    NotEmpty(Args(4));
    PushBounded(Args(4), p.limit);
    PushNames(Args(4), p.limit, r);
  }

  lemma MoveByData(r1: Reg, r2: Reg, d: int, known: Known, n: nat)
    ensures Bounded(MoveBy(r1, r2, d, known), n) && forall r: Reg :: !Names(MoveBy(r1, r2, d, known), r)
  {
    hide AddConstant.AddCode;
    AddConstant.AddCodeData(r1, r2, Wrap(d), AL, false, known);
    DataOnly(MoveBy(r1, r2, d, known), n);
  }

  lemma MaskMembers(p: Routine, r: Reg)
    ensures r in PushMask(p) <==>
              || (r <= 3 && SavesArgs(p) && !Contiguous(p) && r < p.argWords)
              || r in Saved(p)
    ensures Contiguous(p) && r <= 3 ==> r < p.argWords
    ensures 4 <= r ==> (r in Args(4) <==> false)
    ensures r <= 3 ==> r !in Saved(p)
    ensures Framed(p) ==> (r in Saved(p) <==> (4 <= r <= 11 && r in p.used) || r == FP || r == IP || r == LR || r == PC)
    ensures r == SP ==> r !in Saved(p)
  {
  }

  /** Exit keeps the limit as well, with three for one or two. */
  lemma ExitBlocks(p: Routine, toPc: bool, adjustSp: int, known: Known)
    ensures Bounded(ExitCode(p, toPc, adjustSp, known), if p.limit < 3 then 3 else p.limit)
  {
    hide PopCode, MoveBy, Count, Bounded, LayoutOf, BeforePop, PopIf, FrameExit;
    var most := if p.limit < 3 then 3 else p.limit;
    if Framed(p) {
      FrameExitBlocks(p, toPc);
    } else {
      var l, before := LayoutOf(p), BeforePop(p, adjustSp, known);
      BeforePopBlocks(p, adjustSp, known, most);
      if LR !in l.used || l.popAbove != 0 {
        var saved, back := Vars(p) + l.used * {LR}, Back(l.popAbove != 0, toPc);
        PopIfBlocks(saved, p.limit);
        DataOnly(back, most);
        BoundedAppend(PopIf(saved, p.limit), back, most);
        BoundedAppend(before, PopIf(saved, p.limit) + back, most);
        assert PlainExit(p, toPc, adjustSp, known) == before + (PopIf(saved, p.limit) + back);
      } else {
        var saved := Vars(p) + {Link(toPc)};
        NotEmpty(saved);
        PopBounded(saved, p.limit);
        BoundedAppend(before, PopCode(saved, p.limit), most);
      }
    }
  }

  lemma PopIfBlocks(s: set<Reg>, limit: Limit)
    ensures Bounded(PopIf(s, limit), if limit < 3 then 3 else limit)
  {
    hide PopCode, Count;
    if s != {} {
      NotEmpty(s);
      PopBounded(s, limit);
    }
  }

  lemma FrameExitBlocks(p: Routine, toPc: bool)
    requires Framed(p)
    ensures Bounded(FrameExit(p, toPc), if p.limit < 3 then 3 else p.limit)
  {
    hide PopCode, Rank;
    var m := Restored(p, toPc);
    RestoresSp(p, toPc);
    NotEmpty(m);
    RestoredCount(p, toPc);
    PopBounded(m, p.limit);
    if Count(Vars(p)) + 3 > p.limit {
      VarsAtMostSeven(p);
      BoundedAppend([Data(AL, SUB, false, SP, FP, Imm(0, 4 * (Count(Vars(p)) + 3)))], PopCode(m, p.limit),
                    if p.limit < 3 then 3 else p.limit);
    }
  }

  lemma RestoredCount(p: Routine, toPc: bool)
    ensures Count(Restored(p, toPc)) <= Count(Vars(p)) + 3
  {
    hide Rank;
    var m, v := Restored(p, toPc), Vars(p);
    RankAgree(m, v, 11);
    RankTop(v);
    RankTop(m);
  }

  lemma BeforePopBlocks(p: Routine, adjustSp: int, known: Known, n: nat)
    ensures Bounded(BeforePop(p, adjustSp, known), n)
  {
    hide MoveBy;
    var first := if p.movesOnce && !p.nonleaf then MoveBy(SP, SP, p.depth, known) else [];
    var second := if ArgsBelow(p) == 0 then if adjustSp != 0 then MoveBy(SP, SP, adjustSp, known) else []
                  else MoveBy(SP, SP, 4 * ArgsBelow(p) + adjustSp, known);
    MoveByData(SP, SP, p.depth, known, n);
    MoveByData(SP, SP, adjustSp, known, n);
    MoveByData(SP, SP, 4 * ArgsBelow(p) + adjustSp, known, n);
    BoundedAppend(first, second, n);
  }
}
