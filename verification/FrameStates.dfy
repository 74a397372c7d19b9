/**
 Entry and exit as the compiler generates them: instructions are appended to the output
 and the frame variables (regmask, argwordsbelowfp, ...) are set on entry and read again
 by argument addresses and exits (arm/gen.c).
 */
module FrameStates {
  import opened Arm
  import opened Immediates
  import opened KnownValues
  import opened Transfers
  import opened PushPop
  import opened Frames

  class FrameState {
    const p: Routine
    var code: Code
    var regmask: set<Reg>
    var argwordsbelowfp: nat
    var realargwordsbelowfp: nat
    var intsavewordsbelowfp: nat
    var savewordsabovefp: nat
    var argstopopabovefp: nat

    function Value(): Layout
      reads this
    {
      Layout(regmask, argwordsbelowfp, realargwordsbelowfp, intsavewordsbelowfp, savewordsabovefp, argstopopabovefp)
    }

    /** The part of routine_entry that clears the frame variables. */
    constructor (p: Routine)
      ensures this.p == p && code == [] && Value() == Layout(p.used, 0, 0, 0, 0, 0)
    {
      this.p := p;
      code := [];
      regmask := p.used;
      argwordsbelowfp, realargwordsbelowfp := 0, 0;
      intsavewordsbelowfp, savewordsabovefp, argstopopabovefp := 0, 0, 0;
    }

    method Put(c: Code)
      modifies `code
      ensures code == old(code) + c
    {
      code := code + c;
    }

    method PushRegs(s: set<Reg>)
      modifies `code
      ensures code == old(code) + PushCode(s, p.limit)
    {
      hide Count, Upper, Lower, Push;
      var mask, count: int := s, Count(s);
      while count > p.limit
        invariant count == Count(mask)
        invariant code + PushCode(mask, p.limit) == old(code) + PushCode(s, p.limit)
        decreases count
      {
        var mask1 := MSBits(mask, p.limit);
        ghost var before, rest := code, PushCode(mask, p.limit);
        PieceCounts(mask, count - p.limit);
        mask := mask - mask1;
        Put([Push(mask1)]);
        count := count - p.limit;
        assert before + rest == code + PushCode(mask, p.limit);
      }
      Put([Push(mask)]);
    }

    method PopRegs(s: set<Reg>)
      modifies `code
      ensures code == old(code) + PopCode(s, p.limit)
    {
      hide Count, Upper, Lower, PopLow;
      var count: int := Count(s);
      var maxcount: nat := if p.limit < 3 then 3 else p.limit;
      var last := s;
      if maxcount < count {
        last := MSBits(s, maxcount);
        PieceCounts(s, count - maxcount);
        var mask := s - last;
        count := count - maxcount;
        PutLow(mask, count, maxcount);
      }
      Put([Block(true, SP, IA, SP !in last, last)]);
    }

    /** The loop of PopRegs over the registers that do not fit the last piece. */
    method PutLow(s: set<Reg>, n: nat, maxcount: nat)
      requires maxcount >= 1 && n == Count(s) && n > 0
      modifies `code
      ensures code == old(code) + PopLow(s, maxcount)
    {
      hide Count, Upper, Lower;
      var mask, count: int := s, n;
      while count != 0
        invariant count == Count(mask) && count >= 0
        invariant code + PopLow(mask, maxcount) == old(code) + PopLow(s, maxcount)
        decreases count
      {
        var k: nat := if count > maxcount then maxcount else count;
        var mask1 := LSBits(mask, k);
        ghost var before, rest := code, PopLow(mask, maxcount);
        PieceCounts(mask, k);
        mask := mask - mask1;
        Put([Block(true, SP, IA, true, mask1)]);
        count := count - k;
        assert before + rest == code + PopLow(mask, maxcount);
      }
    }

    /** routine_saveregs for a function without a frame pointer. */
    method PlainSave()
      requires !Framed(p) && Value() == Layout(p.used, 0, 0, 0, 0, 0)
      modifies this
      ensures code == old(code) + SaveCode(p) && Value() == LayoutOf(p)
    {
      hide Count, PushCode, MoveBy, Args, Rank, Used, PushMask, Saved, LayoutOf, SaveCode;
      if p.noLink { regmask := regmask + {LR}; }
      if regmask * VARS != {} && p.space { regmask := regmask + {LR}; }
      SameVarsWithLink(p);
      UsedPlain(p, regmask);
      var mask := regmask * (VARS + {LR});
      var args := PlainArgs(IntRegs(p));
      mask := mask + args;
      PlainMask(p, mask);
      PlainParts(p);
      ghost var pushed := code;
      if mask != {} { PushRegs(mask); }
      assert code == pushed + PushIf(mask, p.limit);
      intsavewordsbelowfp := Count(mask - Args(4));
    }

    /** The arguments: pushed with the caller's, to be pushed with the saved registers, or left alone. */
    method PlainArgs(nregargwords: nat) returns (args: set<Reg>)
      requires argwordsbelowfp == realargwordsbelowfp == argstopopabovefp == 0
      modifies `code, `argwordsbelowfp, `realargwordsbelowfp, `argstopopabovefp
      ensures var together := p.argPush && nregargwords < p.argWords;
              && code == old(code) + (if together then PushCode(Args(4), p.limit) else [])
              && argstopopabovefp == (if together then 4 else 0)
              && argwordsbelowfp == (if together then 0 else nregargwords)
              && realargwordsbelowfp == (if p.argPush && !together then nregargwords else 0)
              && args == if p.argPush && !together then Args(nregargwords) else {}
    {
      hide PushCode;
      args := {};
      if p.argPush {
        if nregargwords < p.argWords {
          PushRegs(Args(4));
          argstopopabovefp := 4;
        } else {
          argwordsbelowfp := nregargwords;
          args := Args(nregargwords);
          realargwordsbelowfp := nregargwords;
        }
      } else {
        argwordsbelowfp := nregargwords;
      }
    }

    /** routine_saveregs for a function with a frame pointer. */
    method FrameSave()
      requires Framed(p) && Value() == Layout(p.used, 0, 0, 0, 0, 0)
      modifies this
      ensures code == old(code) + SaveCode(p) && Value() == LayoutOf(p)
    {
      hide Count, PushCode, MoveBy, Args, Rank, PushMask, Saved, PushIf, ArgsBelow, Contiguous;
      var nregargwords := IntRegs(p);
      var saveargs := p.saveName || p.argPush;
      var maybevariadic := nregargwords < p.argWords && saveargs;
      savewordsabovefp := 1;
      var fpoff := 4;
      var mask := regmask * VARS + {FP, IP, LR, PC};
      FrameMask(p, mask);
      intsavewordsbelowfp := Count(mask) - 1;
      Put([Data(AL, MOV, false, IP, 0, Shifted(SP, LSL, 0))]);
      ghost var before := code;
      if !maybevariadic {
        argwordsbelowfp := nregargwords;
        if saveargs {
          mask := mask + Args(nregargwords);
          realargwordsbelowfp := nregargwords;
        }
      } else {
        fpoff := fpoff + 16;
        PushRegs(Args(4));
      }
      PushRegs(mask);
      assert code
          == before + ((if Contiguous(p) then PushCode(Args(4), p.limit) else []) + PushIf(PushMask(p), p.limit));
      Put(MoveBy(FP, IP, -fpoff, UNKNOWN));
    }

    /** routine_saveregs */
    method RoutineSaveRegs()
      requires Value() == Layout(p.used, 0, 0, 0, 0, 0)
      modifies this
      ensures code == old(code) + SaveCode(p) && Value() == LayoutOf(p)
      ensures regmask == p.used + if (!p.nonleaf || p.noFp) && MayUseLink(p) then {LR} else {}
    {
      hide SaveCode, PushMask;
      UsedBy(p);
      hide LayoutOf;
      if !p.nonleaf || p.noFp { PlainSave(); } else { FrameSave(); }
    }

    method FrameExitTo(toPc: bool)
      requires Framed(p) && Value() == LayoutOf(p)
      modifies `code
      ensures code == old(code) + FrameExit(p, toPc)
    {
      hide Count, PopCode, Used;
      var link: Reg := if toPc then PC else LR;
      SameVars(p);
      var mask := regmask * VARS;
      var count := Count(mask);
      mask := mask + {FP, SP, link};
      if count + 3 <= p.limit {
        Put([Block(true, FP, DB, false, mask)]);
      } else {
        VarsAtMostSeven(p);
        Put([Data(AL, SUB, false, SP, FP, Imm(0, 4 * (count + 3)))]);
        PopRegs(mask);
      }
    }

    method PlainExitTo(toPc: bool, adjustsp: int, known: Known)
      requires !Framed(p) && Value() == LayoutOf(p)
      modifies `code
      ensures code == old(code) + PlainExit(p, toPc, adjustsp, known)
    {
      hide Count, PopCode, MoveBy, Contiguous, ArgsBelow, Used;
      var link: Reg := if toPc then PC else LR;
      SameVars(p);
      MoveSp(adjustsp, known);
      var mask := regmask * VARS;
      if LR !in regmask || argstopopabovefp != 0 {
        PopThenReturn(mask + regmask * {LR}, toPc);
      } else {
        PopRegs(mask + {link});
      }
    }

    /** Pop what was saved, drop pushed arguments, and return through LR. */
    method PopThenReturn(mask: set<Reg>, toPc: bool)
      modifies `code
      ensures code == old(code) + (PopIf(mask, p.limit)
                + (if argstopopabovefp != 0 then [Data(AL, ADD, false, SP, SP, Imm(0, 16))] else [])
                + ReturnToLink(toPc))
    {
      hide PopCode;
      if mask != {} { PopRegs(mask); }
      if argstopopabovefp != 0 { Put([Data(AL, ADD, false, SP, SP, Imm(0, 16))]); }
      if toPc { Put([Data(AL, MOV, false, PC, 0, Shifted(LR, LSL, 0))]); }
    }

    method MoveSp(adjustsp: int, known: Known)
      requires Value() == LayoutOf(p)
      modifies `code
      ensures code == old(code) + BeforePop(p, adjustsp, known)
    {
      hide Count, MoveBy, ArgsBelow, Used, Contiguous;
      if !p.nonleaf && p.movesOnce { Put(MoveBy(SP, SP, p.depth, known)); }
      ghost var before := code;
      var adjust := adjustsp;
      if realargwordsbelowfp == 0 && adjust != 0 {
        Put(MoveBy(SP, SP, adjust, known));
        adjust := 0;
      }
      if realargwordsbelowfp != 0 || adjust != 0 {
        Put(MoveBy(SP, SP, 4 * realargwordsbelowfp + adjust, known));
      }
      assert realargwordsbelowfp == ArgsBelow(p);
    }

    /** routine_exit, unconditional. */
    method RoutineExit(toPc: bool, adjustsp: int, known: Known)
      requires Value() == LayoutOf(p)
      modifies `code
      ensures code == old(code) + ExitCode(p, toPc, adjustsp, known)
    {
      hide FrameExit, PlainExit, LayoutOf;
      if p.nonleaf && !p.noFp { FrameExitTo(toPc); } else { PlainExitTo(toPc, adjustsp, known); }
    }

    /** local_addr_a for an argument. */
    method LocalAddress(arg: int, fpMinusSp: int) returns (a: int)
      requires Value() == LayoutOf(p)
      ensures a == LocalAddr(p, arg, fpMinusSp)
    {
      hide Count;
      a := arg;
      if a >= 4 * argwordsbelowfp {
        a := a - 4 * (argwordsbelowfp - savewordsabovefp);
      } else {
        a := a - 4 * (argwordsbelowfp + intsavewordsbelowfp);
      }
      if !p.nonleaf || p.noFp {
        a := a + fpMinusSp + 4 * (intsavewordsbelowfp + realargwordsbelowfp);
      }
    }
  }

  lemma UsedBy(p: Routine)
    ensures LayoutOf(p).used == p.used + if (!p.nonleaf || p.noFp) && MayUseLink(p) then {LR} else {}
  {
    hide Count;
    if r: Reg :| 4 <= r <= 11 && r in p.used { assert r in p.used * VARS; }
    if r :| r in p.used * VARS { assert 4 <= r <= 11 && r in p.used; }
  }

  lemma SameVarsWithLink(p: Routine)
    ensures (p.used + {LR}) * VARS == p.used * VARS
  {
  }

  lemma UsedPlain(p: Routine, s: set<Reg>)
    requires !Framed(p) && s == p.used + (if p.noLink || (p.used * VARS != {} && p.space) then {LR} else {})
    ensures s == Used(p)
  {
  }

  /** Code and layout of a function without a frame pointer. */
  lemma PlainParts(p: Routine)
    requires !Framed(p)
    ensures var together := p.argPush && IntRegs(p) < p.argWords;
            && SaveCode(p) == (if together then PushCode(Args(4), p.limit) else []) + PushIf(PushMask(p), p.limit)
            && LayoutOf(p) == Layout(Used(p), if together then 0 else IntRegs(p),
                                     if p.argPush && !together then IntRegs(p) else 0, Count(Saved(p)), 0,
                                     if together then 4 else 0)
  {
    hide Count, PushCode, Args, Used, PushMask, Saved, PushIf;
  }

  lemma PlainMask(p: Routine, mask: set<Reg>)
    requires !Framed(p)
             && mask == Used(p) * (VARS + {LR}) + (if p.argPush && !Contiguous(p) then Args(IntRegs(p)) else {})
    ensures mask == PushMask(p) && mask - Args(4) == Saved(p)
  {
  }

  lemma FrameMask(p: Routine, mask: set<Reg>)
    requires Framed(p) && mask == Vars(p) + {FP, IP, LR, PC}
    ensures mask == Saved(p) && Count(mask) >= 1
    ensures Contiguous(p) <==> IntRegs(p) < p.argWords && (p.saveName || p.argPush)
    ensures var separate := (p.saveName || p.argPush) && !Contiguous(p);
            && PushMask(p) == (if separate then mask + Args(IntRegs(p)) else mask)
            && ArgsBelow(p) == (if separate then IntRegs(p) else 0)
            && PushIf(PushMask(p), p.limit) == PushCode(PushMask(p), p.limit)
  {
    hide Rank, PushCode;
    MaskCount(p);
    assert PC in PushMask(p);
  }

  lemma SameVars(p: Routine)
    ensures LayoutOf(p).used * VARS == Vars(p)
  {
    hide Count;
  }
}
