/**
 Two short programs whose flushes read a register back: it is recorded, an addition changes
 it in two steps, and the second step takes it for what it held before the first.  In one it
 is the base of two stores; in the other the last of two registers loaded, in which their
 address is made, and whose record is kept until it has been loaded.
 */
module ReadBackRun {
  import opened Words
  import opened Arm
  import opened Immediates
  import opened KnownValues
  import opened AddConstant
  import opened Transfers
  import opened Combiner
  import opened CombinerPlan
  import opened Traces
  import opened Flush
  import opened FlushExact
  import LoadConstant
  import C = Combining
  import F = CombinerFaults
  import opened LogicConstant
  import opened Counterexamples

  const HIGH: Word := 0x0fff_f000

  const DOWN: Word := 0xffff_f004

  const HIGH_KNOWN: Known := UNKNOWN[0 := Some(HIGH)]

  /** MOV r0, #0x0ffff000; STR r1, [r0, #-4092]; STR r2, [r0, #-4088] */
  const READ_BACK: seq<C.Event> := [C.Set(0, HIGH), F.StoreOn(0, 1, -4092, false), F.StoreOn(0, 2, -4088, false)]

  const BELOW: Comb := Comb(true, false, 0, map[1 := -4092, 2 := -4088], {}, 0, false, {}, HIGH_KNOWN)

  // ---- no field for any of the constants ----

  lemma Powers()
    ensures Pow2(1) == 2 && Pow2(2) == 4 && Pow2(3) == 8 && Pow2(11) == 0x800 && Pow2(12) == 0x1000
    ensures Pow2(20) == 0x10_0000 && Pow2(28) == 0x1000_0000
  {
    EightPlaces();
    Pow2Add(8, 3);
    Pow2Add(8, 4);
    Pow2Add(16, 4);
    Pow2Add(16, 12);
  }

  lemma NoFieldBits(n: Word, i: nat, j: nat)
    requires i < 32 && j < 32 && 8 <= (j + 32 - i) % 32 <= 24 && n / Pow2(i) % 2 == 1 && n / Pow2(j) % 2 == 1
    ensures EightBits(n).None?
  {
    hide EightBitsFrom, Bit, Pow2;
    BitIs(n, i, Pow2(i));
    BitIs(n, j, Pow2(j));
    FarBits(n, i, j, 0);
  }

  lemma NoFields()
    ensures EightBits(Wrap(-4092)).None? && EightBits(Wrap(-4096)).None?
    ensures EightBits(Wrap(-4088)).None? && EightBits(Wrap(-4084)).None?
    ensures EightBits(Neg(DOWN)).None? && EightBits(HIGH).None? && EightBits(Neg(HIGH)).None?
  {
    hide EightBits, Pow2;
    Powers();
    NoFieldBits(DOWN, 2, 12);
    NoFieldBits(0xffff_f000, 12, 20);
    NoFieldBits(0xffff_f008, 3, 12);
    NoFieldBits(0xffff_f00c, 2, 12);
    NoFieldBits(0xffc, 2, 11);
    NoFieldBits(HIGH, 12, 20);
    NoFieldBits(0xf000_1000, 12, 28);
  }

  // ---- no shift of the recorded value gives the constant ----

  /** j ones above m zeros. */
  function Ones(j: nat, m: nat): nat
  {
    if m > 0 then 2 * Ones(j, m - 1) else if j > 0 then 2 * Ones(j - 1, 0) + 1 else 0
  }

  lemma {:induction false} OnesAt(j: nat, m: nat, i: nat)
    ensures Bit(Ones(j, m), i) == if m <= i < m + j then 1 else 0
    decreases m, j
  {
    if m > 0 {
      OnesAt(j, m - 1, if i > 0 then i - 1 else 0);
    } else if j > 0 {
      OnesAt(j - 1, 0, if i > 0 then i - 1 else 0);
    } else {
      ZeroBits(i);
    }
  }

  lemma SixteenOnes()
    ensures Ones(16, 12) == HIGH
  {
    assert Ones(4, 0) == 0xf;
    assert Ones(8, 0) == 0xff;
    assert Ones(12, 0) == 0xfff;
    assert Ones(16, 0) == 0xffff;
    assert Ones(16, 4) == 0xf_fff0;
    assert Ones(16, 8) == 0xff_ff00;
  }

  /** The sixteen ones of the recorded value. */
  lemma HighBitsAre(i: nat)
    ensures Bit(HIGH, i) == if 12 <= i < 28 then 1 else 0
  {
    hide Bit;
    OnesAt(16, 12, i);
    SixteenOnes();
  }

  /** One place to the right. */
  lemma TurnOnce(y: Word, i: nat)
    requires i < 32
    ensures Bit(y / 2 + (y % 2) * TOP, i) == Bit(y, (i + 1) % 32)
  {
    hide Bit, Lsr, Pow2;
    var z := y / 2 + (y % 2) * TOP;
    Pow2At31();
    if i < 31 {
      BitOfLow(z, 31, i);
      assert z % TOP == y / 2;
      NextBit(y, i);
    } else {
      BitIs(z, 31, TOP);
      assert z / TOP == y % 2;
      SecondBit(y);
    }
  }

  lemma NextBit(y: nat, i: nat)
    ensures Bit(y / 2, i) == Bit(y, i + 1)
  {
  }

  lemma {:induction false} RorBit(x: Word, k: nat, i: nat)
    requires i < 32
    ensures Bit(Ror(x, k), i) == Bit(x, (i + k) % 32)
  {
    hide Bit;
    if k > 0 {
      TurnOnce(Ror(x, k - 1), i);
      RorBit(x, k - 1, (i + 1) % 32);
      assert ((i + 1) % 32 + (k - 1)) % 32 == (i + k) % 32;
    }
  }

  lemma {:induction false} LslLow(x: Word, k: nat)
    requires x % 4096 == 0
    ensures Lsl(x, k) % 4096 == 0
  {
    if k > 0 {
      LslLow(x, k - 1);
      DoubledLow(Lsl(x, k - 1));
    }
  }

  lemma DoubledLow(y: Word)
    requires y % 4096 == 0
    ensures y * 2 % M % 4096 == 0
  {
    assert y * 2 % M == if y < TOP then 2 * y else 2 * y - M;
  }

  /** The bits by which the two constants looked for can be told from a run of sixteen ones. */
  lemma TargetBits()
    ensures Bit(DOWN, 2) == 1 && Bit(DOWN, 3) == 0 && Bit(DOWN, 12) == 1
    ensures Bit(0xffc, 1) == 0 && Bit(0xffc, 2) == 1 && Bit(0xffc, 12) == 0
  {
    hide Bit, Pow2;
    Powers();
    BitIs(DOWN, 2, 4);
    BitIs(DOWN, 3, 8);
    BitIs(DOWN, 12, 0x1000);
    BitIs(0xffc, 1, 2);
    BitIs(0xffc, 2, 4);
    BitIs(0xffc, 12, 0x1000);
  }

  lemma NotRotated(k: nat)
    requires 1 <= k < 32
    ensures Ror(HIGH, k) != DOWN && Ror(HIGH, k) != 0xffc
  {
    hide Bit, Ror;
    TargetBits();
    forall i: nat | i <= 12 ensures Bit(Ror(HIGH, k), i) == Bit(HIGH, (i + k) % 32) { RorBit(HIGH, k, i); }
    forall i: nat | i < 64 ensures Bit(HIGH, i) == if 12 <= i < 28 then 1 else 0 { HighBitsAre(i); }
  }

  lemma NotShifted(k: nat)
    requires 1 <= k < 32
    ensures Lsr(HIGH, k) != 0xffc && Lsr(HIGH, k) < DOWN && Asr(HIGH, k) == Lsr(HIGH, k)
    ensures Lsl(HIGH, k) != DOWN && Lsl(HIGH, k) != 0xffc
  {
    hide Bit, Lsl, Lsr, Asr;
    TargetBits();
    PlainShifts(HIGH, k);
    LslLow(HIGH, k);
    forall i: nat | i <= 12 ensures Bit(Lsr(HIGH, k), i) == Bit(HIGH, k + i) { BitDown(HIGH, k, i); }
    forall i: nat | i < 64 ensures Bit(HIGH, i) == if 12 <= i < 28 then 1 else 0 { HighBitsAre(i); }
  }

  lemma HighLookups(r: Reg)
    ensures RegisterContainingValue(UNKNOWN[r := Some(HIGH)], DOWN, ADD_ASK).NotFound?
    ensures RegisterContainingValue(UNKNOWN[r := Some(HIGH)], HIGH, ADD_ASK) == Exact(r, UNSHIFTED)
  {
    hide FindShift, RegisterContainingValue, Lsl, Lsr, Asr, Ror;
    OneKnown(UNKNOWN[r := Some(HIGH)], r, DOWN, ADD_ASK);
    OneKnown(UNKNOWN[r := Some(HIGH)], r, HIGH, ADD_ASK);
    forall kind, target | target == DOWN || target == Neg(DOWN) ensures FindShift(kind, HIGH, target, 1).None? {
      forall j: Amount | 1 <= j ensures ShiftBy(kind, HIGH, j) != target {
        NotRotated(j);
        NotShifted(j);
      }
      NoAmountGives(kind, HIGH, target, 1);
    }
  }

  // ---- the two steps of the addition ----

  /** The window goes round bit 31: the top nibble and bit 2. */
  lemma FirstStep(r: Reg)
    requires r != SP
    ensures LowPair(DOWN) == 1 && SplitForAdd(r, DOWN) == Split(false, 0xf000_0004)
  {
    hide Window;
    AboveDown();
    WindowWrapped(DOWN, 2);
    TopScale(15, 2);
    assert Window(DOWN, 14) == 0xf000_0004;
    assert Window(DOWN, 1) == 4 by { OneWindow(); }
    assert Scale(255, 1) == 1020;
    assert SlideOf(DOWN, 1) == 3;
  }

  lemma OneWindow()
    ensures Window(DOWN, 1) == 4
  {
    assert RorPairs(DOWN, 1) % 256 == 1;
    assert RolPairs(1, 1) == 4;
  }

  lemma AboveDown()
    ensures Above(DOWN, 5) == 0x3f_fffc && Above(DOWN, 4) == 0xff_fff0
    ensures Above(DOWN, 3) == 0x3ff_ffc0 && Above(DOWN, 2) == 0xfff_ff00
  {
  }

  /** The second step adds r1 to itself, whatever r2 holds. */
  lemma AddedTwice(r1: Reg, r2: Reg, regs: Regs)
    requires r1 != SP
    ensures Added(r1, r2, DOWN, UNKNOWN[r1 := Some(HIGH)], regs) == Addr(regs[r2], 0xe000_0008)
    ensures ReadsBack(r1, DOWN, UNKNOWN[r1 := Some(HIGH)])
  {
    hide EightBits, RegisterContainingValue, SplitForAdd, Added, LowPair;
    var known := UNKNOWN[r1 := Some(HIGH)];
    NoFields();
    HighLookups(r1);
    FirstStep(r1);
    AddedCases(r1, r2, DOWN, known, regs);
    var mid := regs[r1 := Addr(regs[r2], 0xf000_0004)];
    assert Remaining(DOWN, Split(false, 0xf000_0004)) == HIGH;
    AddedCases(r1, r1, HIGH, known, mid);
    AddrAddr(regs[r2], 0xf000_0004, 0xf000_0004);
  }

  lemma SlipTwice(r1: Reg, r2: Reg, regs: Regs)
    requires r1 != SP
    ensures Slip(r1, r2, -4092, UNKNOWN[r1 := Some(HIGH)], regs) == Addr(regs[r2], 0xe000_1004)
  {
    hide Added, Addr;
    AddedTwice(r1, r2, regs);
    AddrAddr(regs[r2], 0xe000_0008, 4092);
    SlipAmount(r1, r2, -4092, UNKNOWN[r1 := Some(HIGH)], regs);
    AddrIsWrap(Addr(regs[r2], 0xe000_0008), 4092);
  }

  lemma AddrIsWrap(x: Word, i: int)
    ensures Addr(x, i) == Wrap(x + i)
  {
  }

  lemma HighSlip(regs: Regs)
    requires regs[0] == HIGH
    ensures Slip(0, 0, -4092, HIGH_KNOWN, regs) == 0xf000_0004
  {
    hide Slip;
    SlipTwice(0, 0, regs);
  }

  // ---- the flush ----

  lemma BelowMove(cfg: Config)
    requires 0 !in cfg.globals
    ensures MoveOf(KindOf(cfg, BELOW), Saved(-4092, -4088, {1, 2}, 2), 0, 0, {}) == Moves(0, -4092, false)
    ensures !RunTooFar(KindOf(cfg, BELOW), Saved(-4092, -4088, {1, 2}, 2), None, 0, 0, {})
  {
    hide EightBits, Wrap;
    NoFields();
  }

  lemma BelowErrors(cfg: Config)
    requires cfg.limit >= 3 && 0 !in cfg.globals
    ensures Errors(cfg, BELOW, ALL, HIGH) == map[1 := 0xf000_0004, 2 := 0xf000_0004]
    ensures !FlushStraddles(cfg, BELOW, ALL) && !FlushOverreaches(cfg, BELOW, ALL) && FlushSlips(cfg, BELOW, ALL)
  {
    hide PlanOf, Generate, Slip, MoveOf, RunTooFar, KnownAfter;
    var k, p := KindOf(cfg, BELOW), Saved(-4092, -4088, {1, 2}, 2);
    F.PlanPair(-4092, 0, cfg.limit);
    F.OneRun(k, p, 0, {}, {}, HIGH_KNOWN);
    BelowMove(cfg);
    var regs := CachedRegs(HIGH_KNOWN)[0 := Addr(HIGH, 0)];
    HighSlip(regs);
    assert RunSlip(k, p, 0, 0, {}, HIGH_KNOWN, HIGH, 0) == 0xf000_0004;
    assert CachedRegs(HIGH_KNOWN)[0] == HIGH;
    var t := TraceOf(k, [p], 0, 0, {}, {}, false, HIGH_KNOWN, HIGH, 0);
    assert [p][1..] == [];
    assert t.err == map[] + Constant({1, 2}, 0xf000_0004);
  }

  lemma BelowGood(cfg: Config)
    requires cfg.limit >= 1
    ensures Good(cfg, BELOW)
  {
  }

  lemma FeedReadBack(cfg: Config)
    ensures C.Feed(cfg, true, F.NOTHING, READ_BACK)
            == Flushed(LoadConstant.LoadCode(0, HIGH, false, UNKNOWN), BELOW)
  {
    hide C.Step, LoadConstant.LoadCode;
    var c1 := F.NOTHING.(known := HIGH_KNOWN);
    var c2 := BELOW.(q := map[1 := -4092]);
    FeedSet(cfg, c1);
    FeedFirst(cfg, c1, c2);
    F.StoreQueued(cfg, c2, 2, -4088);
    var code := LoadConstant.LoadCode(0, HIGH, false, UNKNOWN);
    var es := READ_BACK;
    assert es[1..] == [es[1], es[2]];
    assert es[1..][1..] == [es[2]];
    assert es[1..][1..][1..] == [];
    assert C.Feed(cfg, true, BELOW, []) == Flushed([], BELOW);
    assert C.Feed(cfg, true, c2, [es[2]]) == Flushed([], BELOW);
    assert C.Feed(cfg, true, c1, es[1..]) == Flushed([], BELOW);
    assert code + [] == code;
  }

  lemma FeedSet(cfg: Config, c1: Comb)
    requires c1 == F.NOTHING.(known := HIGH_KNOWN)
    ensures C.Step(cfg, true, F.NOTHING, READ_BACK[0])
            == Flushed(LoadConstant.LoadCode(0, HIGH, false, UNKNOWN), c1)
  {
    hide LoadConstant.LoadCode;
    var code := LoadConstant.LoadCode(0, HIGH, false, UNKNOWN);
    assert [] + code == code;
  }

  lemma FeedFirst(cfg: Config, c1: Comb, c2: Comb)
    requires c1 == F.NOTHING.(known := HIGH_KNOWN) && c2 == BELOW.(q := map[1 := -4092])
    ensures C.Step(cfg, true, c1, READ_BACK[1]) == Flushed([], c2)
  {
    C.DiscardOf(map[], -4092, 0);
    assert C.Discard(map[], -4092) == map[];
    assert Forget(HIGH_KNOWN, {}) == HIGH_KNOWN;
  }

  /** What the program leaves where the first store should go. */
  lemma ReadBackProgram(st: State)
    ensures var m := C.Program(READ_BACK, st).mem; 0x0fff_e004 in m && m[0x0fff_e004] == st.regs[1]
  {
    var es1, s1 := READ_BACK[1..], C.Meaning(READ_BACK[0], st);
    var es2, s2 := es1[1..], C.Meaning(es1[0], s1);
    var es3, s3 := es2[1..], C.Meaning(es2[0], s2);
    assert C.Program(READ_BACK, st) == C.Program(es1, s1) == C.Program(es2, s2) == C.Program(es3, s3) == s3;
    assert s1.regs[0] == HIGH && s1.regs[1] == st.regs[1];
    assert s2.mem[0x0fff_e004] == st.regs[1] && s2.regs == s1.regs;
  }

  /** Where the stores of the flush really go. */
  lemma StoredAstray(regs: Regs, mem: Mem, m: Mem)
    requires Wrote(BELOW.q, BELOW.q.Keys, map[1 := 0xf000_0004, 2 := 0xf000_0004], HIGH, regs, mem, m)
    ensures 0x0fff_e004 in m <==> 0x0fff_e004 in mem
    ensures 0x0fff_e004 in m ==> m[0x0fff_e004] == mem[0x0fff_e004]
    ensures 0xffff_e008 in m && m[0xffff_e008] == regs[1]
  {
    var q: Queue := BELOW.q;
    var err: map<Reg, Word> := map[1 := 0xf000_0004, 2 := 0xf000_0004];
    assert Addr(HIGH, q[1] + err[1]) == 0xffff_e008 && Addr(HIGH, q[2] + err[2]) == 0xffff_e00c;
    assert Cell(q, q.Keys, err, HIGH, regs, mem, m, 0x0fff_e004);
    assert Cell(q, q.Keys, err, HIGH, regs, mem, m, 0xffff_e008);
    assert Reaches(q, err, HIGH, 1, 0xffff_e008);
  }

  /**
   No run straddles and no offset is too wide, but in every state the stores go elsewhere: the
   word meant for 0x0fffe004 is written at 0xffffe008, and 0x0fffe004 keeps what it held.
   */
  lemma BaseReadBack(cfg: Config, st: State)
    requires cfg.limit >= 3 && 0 !in cfg.globals
    ensures var c := C.Feed(cfg, true, F.NOTHING, READ_BACK).after;
            && Good(cfg, c) && !FlushStraddles(cfg, c, ALL) && !FlushOverreaches(cfg, c, ALL)
            && FlushSlips(cfg, c, ALL)
    ensures var f := C.Feed(cfg, true, F.NOTHING, READ_BACK);
            var end := Run(f.code + FlushR(cfg, f.after, ALL, false).code, st);
            && Read(end.mem, 0x0fff_e004) == Read(st.mem, 0x0fff_e004)
            && Read(end.mem, 0xffff_e008) == st.regs[1]
    ensures Read(C.Program(READ_BACK, st).mem, 0x0fff_e004) == st.regs[1]
  {
    hide C.Feed, C.Program, FlushR, Run, Errors, FlushStraddles, FlushOverreaches, FlushSlips, Good, FlushTrace, Addr,
        LoadConstant.LoadCode, Held, Wrote, AgreesBut;
    var code, f := LoadConstant.LoadCode(0, HIGH, false, UNKNOWN), FlushR(cfg, BELOW, ALL, false);
    var mid := Run(code, st);
    FeedReadBack(cfg);
    BelowGood(cfg);
    BelowErrors(cfg);
    ReadBackProgram(st);
    LoadConstant.LoadCorrect(0, HIGH, false, UNKNOWN, st);
    FlushStores(cfg, BELOW, ALL, false, mid);
    RunAppend(code, f.code, st);
    assert BELOW.q.Keys <= ALL;
    C.FlushShape(cfg, BELOW, ALL, false);
    C.FlushAdjustment(cfg, BELOW, ALL);
    C.FreshView(f.after, Run(f.code, mid));
    StoredAstray(mid.regs, st.mem, Run(f.code, mid).mem);
  }

  // ---- loads whose last register is read back ----

  const LAST_KNOWN: Known := UNKNOWN[2 := Some(HIGH)]

  /** MOV r2, #0x0ffff000; LDR r1, [r0, #-4092]; LDR r2, [r0, #-4088] */
  const LAST_BACK: seq<C.Event> := [C.Set(2, HIGH), F.LoadOf(1, -4092, Offset), F.LoadOf(2, -4088, Offset)]

  /** r2 is still recorded, as it still holds the constant. */
  const LOADING: Comb := Comb(true, true, 0, map[1 := -4092, 2 := -4088], {}, 0, false, {1, 2}, LAST_KNOWN)

  const PAIR: Saved := Saved(-4092, -4088, {1, 2}, 2)

  lemma FeedLast(cfg: Config)
    ensures C.Feed(cfg, true, F.NOTHING, LAST_BACK) == Flushed(LoadConstant.LoadCode(2, HIGH, false, UNKNOWN), LOADING)
  {
    hide C.Step, LoadConstant.LoadCode;
    var c1 := F.NOTHING.(known := LAST_KNOWN);
    var c2 := LOADING.(q := map[1 := -4092], spare := {1});
    LastSet(cfg, c1);
    LastLoads(cfg, c1, c2);
    var code := LoadConstant.LoadCode(2, HIGH, false, UNKNOWN);
    var es := LAST_BACK;
    assert es[1..] == [es[1], es[2]];
    assert es[1..][1..] == [es[2]];
    assert es[1..][1..][1..] == [];
    assert C.Feed(cfg, true, LOADING, []) == Flushed([], LOADING);
    assert C.Feed(cfg, true, c2, [es[2]]) == Flushed([], LOADING);
    assert C.Feed(cfg, true, c1, es[1..]) == Flushed([], LOADING);
    assert code + [] == code;
  }

  lemma LastSet(cfg: Config, c1: Comb)
    requires c1 == F.NOTHING.(known := LAST_KNOWN)
    ensures C.Step(cfg, true, F.NOTHING, LAST_BACK[0]) == Flushed(LoadConstant.LoadCode(2, HIGH, false, UNKNOWN), c1)
  {
    hide LoadConstant.LoadCode;
    var code := LoadConstant.LoadCode(2, HIGH, false, UNKNOWN);
    assert [] + code == code;
  }

  lemma LastLoads(cfg: Config, c1: Comb, c2: Comb)
    requires c1 == F.NOTHING.(known := LAST_KNOWN) && c2 == LOADING.(q := map[1 := -4092], spare := {1})
    ensures C.Step(cfg, true, c1, LAST_BACK[1]) == Flushed([], c2)
    ensures C.Step(cfg, true, c2, LAST_BACK[2]) == Flushed([], LOADING)
  {
    hide FlushR;
  }

  /** The address is made in r2. */
  lemma LoadingMove(cfg: Config)
    ensures MoveOf(KindOf(cfg, LOADING), PAIR, 0, 0, {1, 2}) == Moves(2, -4092, false)
    ensures !RunTooFar(KindOf(cfg, LOADING), PAIR, None, 0, 0, {1, 2})
  {
    hide EightBits, Wrap;
    NoFields();
  }

  /** By as much as r2 then adds too much. */
  lemma LoadingSlip(k: Kind, b: Word)
    requires k.base == 0 && MoveOf(k, PAIR, 0, 0, {1, 2}) == Moves(2, -4092, false)
    ensures RunSlip(k, PAIR, 0, 0, {1, 2}, LAST_KNOWN, b, 0) == Addr(b, 0xe000_1004)
    ensures Rereads(k, MoveOf(k, PAIR, 0, 0, {1, 2}), LAST_KNOWN)
  {
    hide MoveOf, Slip, ReadsBack, Addr;
    var regs := CachedRegs(LAST_KNOWN)[0 := Addr(b, 0)];
    SlipTwice(2, 0, regs);
    AddedTwice(2, 0, regs);
    AddrZero(b);
    DownIs();
  }

  lemma DownIs()
    ensures Wrap(-4092) == DOWN
  {
  }

  /** What a list of that one run leaves in the trace. */
  lemma PairTraced(k: Kind, b: Word)
    requires k.base == 0 && MoveOf(k, PAIR, 0, 0, {1, 2}) == Moves(2, -4092, false)
    ensures var w := Addr(b, 0xe000_1004);
            TraceOf(k, [PAIR], 0, 0, {1, 2}, {}, false, LAST_KNOWN, b, 0).err == map[1 := w, 2 := w]
    ensures ReadBack(k, [PAIR], 0, 0, {1, 2}, {}, false, LAST_KNOWN) == {1, 2}
  {
    hide Generate, MoveOf, KnownAfter, Addr, RunSlip, Rereads, LostAfter;
    LoadingSlip(k, b);
    assert [PAIR][1..] == [];
    var w := Addr(b, 0xe000_1004);
    WrapLost(w);
    assert Constant({1, 2}, w) == map[1 := w, 2 := w];
  }

  /** Both loads miss. */
  lemma LoadingErrors(cfg: Config, b: Word)
    requires cfg.limit >= 3
    ensures var w := Addr(b, 0xe000_1004); Errors(cfg, LOADING, ALL, b) == map[1 := w, 2 := w]
    ensures !FlushStraddles(cfg, LOADING, ALL) && !FlushOverreaches(cfg, LOADING, ALL)
    ensures FlushReadBack(cfg, LOADING, ALL) == {1, 2}
  {
    hide PlanOf, Generate, MoveOf, RunTooFar, KnownAfter, Addr, TraceOf, ReadBack, Straddles, Overreaches;
    var k := KindOf(cfg, LOADING);
    F.PlanPair(-4092, 0, cfg.limit);
    F.OneRun(k, PAIR, 0, {1, 2}, {}, LAST_KNOWN);
    LoadingMove(cfg);
    PairTraced(k, b);
  }

  lemma LoadingGood(cfg: Config)
    requires cfg.limit >= 1
    ensures Good(cfg, LOADING)
  {
  }

  /** Where the program loads from. */
  lemma LastProgram(st: State)
    ensures var end := C.Program(LAST_BACK, st);
            && end.regs[1] == Read(st.mem, Addr(st.regs[0], -4092))
            && end.regs[2] == Read(st.mem, Addr(st.regs[0], -4088))
  {
    hide Addr, Read;
    var es1, s1 := LAST_BACK[1..], C.Meaning(LAST_BACK[0], st);
    var es2, s2 := es1[1..], C.Meaning(es1[0], s1);
    var es3, s3 := es2[1..], C.Meaning(es2[0], s2);
    assert C.Program(LAST_BACK, st) == C.Program(es1, s1) == C.Program(es2, s2) == C.Program(es3, s3) == s3;
    assert s1.regs[0] == st.regs[0] && s2.regs[0] == st.regs[0] && s1.mem == s2.mem == st.mem;
  }

  lemma LoadedAstray(regs: Regs, mem: Mem, end: Regs)
    requires var w := Addr(regs[0], 0xe000_1004);
             Fetched(LOADING.q, LOADING.q.Keys, map[1 := w, 2 := w], regs[0], mem, end)
    ensures var at := Addr(regs[0], 0xf000_0004);
            end[1] == Read(mem, Wrap(2 * at)) && end[2] == Read(mem, Wrap(2 * at + 4))
  {
    hide Read;
    var q: Queue := LOADING.q;
    var w := Addr(regs[0], 0xe000_1004);
    assert 1 in q && 2 in q && q[1] == -4092 && q[2] == -4088;
    TwiceFrom(regs[0], -4092);
    TwiceFrom(regs[0], -4088);
  }

  lemma TwiceFrom(x: Word, i: int)
    ensures Addr(x, i + Addr(x, 0xe000_1004)) == Wrap(2 * Addr(x, 0xf000_0004) + i + 4092)
  {
    var y, z := Addr(x, 0xe000_1004), Addr(x, 0xf000_0004);
    assert y == x + 0xe000_1004 - (if x + 0xe000_1004 >= M then M else 0);
    assert z == x + 0xf000_0004 - (if x + 0xf000_0004 >= M then M else 0);
  }

  /**
   The base is not recorded, no run straddles and no offset is too wide, but in every state both
   registers are loaded from twice what r2 holds after the first instruction.
   */
  lemma LastReadBack(cfg: Config, st: State)
    requires cfg.limit >= 3
    ensures var c := C.Feed(cfg, true, F.NOTHING, LAST_BACK).after;
            && Good(cfg, c) && c.known[c.base].None? && !FlushStraddles(cfg, c, ALL)
            && !FlushOverreaches(cfg, c, ALL) && FlushReadBack(cfg, c, ALL) == {1, 2} && FlushFaults(cfg, c, ALL)
    ensures var f := C.Feed(cfg, true, F.NOTHING, LAST_BACK);
            var end, at := Run(f.code + FlushR(cfg, f.after, ALL, false).code, st), Addr(st.regs[0], 0xf000_0004);
            end.regs[1] == Read(st.mem, Wrap(2 * at)) && end.regs[2] == Read(st.mem, Wrap(2 * at + 4))
    ensures var end := C.Program(LAST_BACK, st);
            && end.regs[1] == Read(st.mem, Addr(st.regs[0], -4092))
            && end.regs[2] == Read(st.mem, Addr(st.regs[0], -4088))
  {
    hide C.Feed, C.Program, FlushR, Run, Errors, FlushStraddles, FlushOverreaches, FlushReadBack, Good, FlushTrace,
        Addr, LoadConstant.LoadCode, Held, Fetched, AgreesBut, Read;
    var code, f := LoadConstant.LoadCode(2, HIGH, false, UNKNOWN), FlushR(cfg, LOADING, ALL, false);
    var mid := Run(code, st);
    FeedLast(cfg);
    LoadingGood(cfg);
    LoadingErrors(cfg, st.regs[0]);
    assert Misses(cfg, LOADING, ALL, 1);
    LastProgram(st);
    LoadConstant.LoadCorrect(2, HIGH, false, UNKNOWN, st);
    assert LOADING.q.Keys <= ALL;
    FlushLoads(cfg, LOADING, ALL, false, mid);
    RunAppend(code, f.code, st);
    C.FlushShape(cfg, LOADING, ALL, false);
    C.FlushAdjustment(cfg, LOADING, ALL);
    C.FreshView(f.after, Run(f.code, mid));
    LoadedAstray(mid.regs, st.mem, Run(f.code, mid).regs);
  }
}
