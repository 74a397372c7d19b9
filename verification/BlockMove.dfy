/**
 Expanding block copies, clears and pushes (MOVC, CLRC and PUSHC in show_inst_direct of
 arm/gen.c, with movc_workregs of arm/mcdep.c).
 */
module BlockMove {
  import opened Words
  import opened Arm
  import opened Immediates
  import opened KnownValues
  import opened AddConstant
  import opened LoadConstant
  import opened Transfers
  import opened Combiner
  import opened CombinerPlan
  import opened PushPop
  import opened Frames
  import opened FlushExact

  datatype Wanted = Copy | Clear | PushCopy

  /**
   One expansion.  `free` is ic.r4 with the spare registers; `post` is P_POST (the source
   register must end up updated); `deadR2` says that the source register dies.
   */
  datatype Request = Request(what: Wanted, r1: Reg, r2: Reg, size: nat, post: bool, deadR2: bool, free: set<Reg>,
      limit: Limit)

  const LOOP_THRESHOLD: nat := 24

  /** movc_workregs */
  function WorkRegs(p: Request): set<Reg>
  {
    {3, IP} + (if p.size > LOOP_THRESHOLD then {1, 2} else {}) + p.free
    - {p.r1} - (if p.what.Clear? then {} else {p.r2})
  }

  function WordCount(p: Request): nat { p.size / 4 }

  predicate Moves(p: Request) { !p.what.Clear? }

  // ---- one load or store of several registers ----

  /** A transfer of one register is written as LDR or STR (out_ldm_instr). */
  function OutLdm(load: bool, rn: Reg, mode: Mode, wb: bool, s: set<Reg>): Instr
  {
    var one := Lowest(s);
    if Count(s) != 1 || one.None? then Block(load, rn, mode, wb, s)
    else
      match mode
      case IA => Transfer(load, one.value, rn, if wb then 4 else 0, if wb then PostIndex else Offset)
      case DB => Transfer(load, one.value, rn, -4, if wb then PreIndex else Offset)
      case IB => Transfer(load, one.value, rn, 4, if wb then PreIndex else Offset)
      case DA => Transfer(load, one.value, rn, if wb then -4 else 0, if wb then PostIndex else Offset)
  }

  lemma SingletonRank(s: set<Reg>, r: Reg)
    requires Count(s) == 1 && r in s
    ensures s == {r} && Rank(s, r) == 0
  {
    forall x: Reg | x in s ensures x == r { RankOfOne(s, x, r); }
    RankNone(s, r);
  }

  /** LDR and STR in place of a block of one register change nothing. */
  lemma OutLdmIsBlock(load: bool, rn: Reg, mode: Mode, wb: bool, s: set<Reg>, st: State)
    requires wb ==> rn !in s
    ensures Exec(OutLdm(load, rn, mode, wb, s), st) == Exec(Block(load, rn, mode, wb, s), st)
  {
    hide Rank, StoreAll, Addr, Read, Lowest, Count;
    var one := Lowest(s);
    if Count(s) == 1 && one.Some? {
      var r := one.value;
      SingletonRank(s, r);
      SingleBlock(load, rn, mode, wb, r, s, st);
    }
  }

  lemma SingleBlock(load: bool, rn: Reg, mode: Mode, wb: bool, r: Reg, s: set<Reg>, st: State)
    requires s == {r} && Count(s) == 1 && Rank(s, r) == 0 && (wb ==> rn != r) && OutLdm(load, rn, mode, wb, s).Transfer?
    requires OutLdm(load, rn, mode, wb, s).rd == r
    ensures Exec(OutLdm(load, rn, mode, wb, s), st) == Exec(Block(load, rn, mode, wb, s), st)
  {
    hide Rank, StoreAll, Addr, Read, Lowest, Count;
    var b := st.regs[rn];
    var q := BlockOffsets(mode, s);
    var off := BlockStart(mode, 1);
    assert q == map[r := off];
    AddrZero(b);
    if load {
      assert Exec(OutLdm(load, rn, mode, wb, s), st).regs == Exec(Block(load, rn, mode, wb, s), st).regs;
    } else {
      assert Only(q, {r}) == q;
      StoreOne(q, r, b, st.regs, st.mem);
    }
  }

  // ---- blocks of memory ----

  /** The address of word i of a block. */
  function At(d: Word, i: int): Word { Addr(d, 4 * i) }

  /** Only words lo to hi of the block at d have changed, and they hold ws. */
  ghost predicate Filled(mem0: Mem, mem: Mem, d: Word, ws: seq<Word>, lo: int, hi: int)
    requires 0 <= lo <= hi <= |ws|
  {
    && (forall i :: lo <= i < hi ==> At(d, i) in mem && mem[At(d, i)] == ws[i])
    && (forall a: Word :: Outside(d, lo, hi, a) ==> (a in mem <==> a in mem0) && (a in mem ==> mem[a] == mem0[a]))
  }

  ghost predicate Outside(d: Word, lo: int, hi: int, a: Word) { forall i :: lo <= i < hi ==> At(d, i) != a }

  const MOST: int := 0x2000_0000

  lemma AtApart(d: Word, i: int, j: int)
    requires 0 <= i < MOST && 0 <= j < MOST && i != j
    ensures At(d, i) != At(d, j)
  {
    if At(d, i) == At(d, j) { AddrSame(d, 4 * i, 4 * j); }
  }

  /** Filling the words next to those already filled. */
  lemma FillMore(mem0: Mem, mem: Mem, mem': Mem, d: Word, ws: seq<Word>, lo: int, hi: int, l: int, m: nat)
    requires 0 <= lo <= hi <= |ws| <= MOST && 0 <= l && l + m <= |ws| && (l == hi || l + m == lo)
    requires Filled(mem0, mem, d, ws, lo, hi) && Filled(mem, mem', d, ws, l, l + m)
    ensures var lo', hi' := if l == hi then lo else l, if l == hi then hi + m else hi;
            Filled(mem0, mem', d, ws, lo', hi')
  {
    hide At;
    var lo', hi' := if l == hi then lo else l, if l == hi then hi + m else hi;
    forall i | lo' <= i < hi' ensures At(d, i) in mem' && mem'[At(d, i)] == ws[i] {
      if !(l <= i < l + m) {
        forall j | l <= j < l + m ensures At(d, j) != At(d, i) { AtApart(d, i, j); }
        assert Outside(d, l, l + m, At(d, i));
      }
    }
    forall a: Word | Outside(d, lo', hi', a) ensures (a in mem' <==> a in mem0) && (a in mem' ==> mem'[a] == mem0[a]) {
      assert Outside(d, lo, hi, a);
      assert Outside(d, l, l + m, a);
    }
  }

  // ---- one piece ----

  lemma {:induction false} RankInverse(s: set<Reg>, k: nat, j: nat) returns (r: Reg)
    requires j <= 16 && k < Rank(s, j)
    ensures r in s && r < j && Rank(s, r) == k
  {
    if j - 1 in s && Rank(s, j - 1) == k { r := j - 1; } else { r := RankInverse(s, k, j - 1); }
  }

  /** Where a register must point for a block to start at word l of the block at d. */
  function Base(mode: Mode, n: nat, d: Word, l: int): Word { Addr(d, 4 * l - BlockStart(mode, n)) }

  function BaseAfter(mode: Mode, n: nat, d: Word, l: int): Word
  {
    Addr(d, 4 * l - BlockStart(mode, n) + BlockStep(mode, n))
  }

  ghost predicate Readable(mem: Mem, s: Word, ws: seq<Word>)
  {
    forall i :: 0 <= i < |ws| ==> Read(mem, At(s, i)) == ws[i]
  }

  /** The registers of s hold the words from l on. */
  ghost predicate Carries(regs: Regs, s: set<Reg>, ws: seq<Word>, l: nat)
    requires l + Count(s) <= |ws|
  {
    forall r: Reg :: r in s ==> Rank(s, r) < Count(s) && regs[r] == ws[l + Rank(s, r)]
  }

  lemma WordOfBlock(mode: Mode, s: set<Reg>, d: Word, l: int, r: Reg)
    requires r in s
    ensures Addr(Base(mode, Count(s), d, l), BlockOffsets(mode, s)[r]) == At(d, l + Rank(s, r))
  {
    hide Addr, Rank, Count, BlockStart;
    var n := Count(s);
    AddrAddr(d, 4 * l - BlockStart(mode, n), BlockStart(mode, n) + 4 * Rank(s, r));
  }

  lemma LoadPiece(rn: Reg, mode: Mode, wb: bool, s: set<Reg>, src: Word, ws: seq<Word>, l: nat, st: State)
    requires l + Count(s) <= |ws| && Readable(st.mem, src, ws) && (wb ==> rn !in s)
    requires st.regs[rn] == Base(mode, Count(s), src, l)
    ensures var end := Exec(OutLdm(true, rn, mode, wb, s), st);
            && Carries(end.regs, s, ws, l) && end.mem == st.mem && end.flags == st.flags
            && (forall r: Reg :: r !in s && r != rn ==> end.regs[r] == st.regs[r])
            && (rn !in s ==> end.regs[rn] == if wb then BaseAfter(mode, Count(s), src, l) else st.regs[rn])
  {
    hide Addr, Rank, Count, BlockStart, BlockStep, OutLdm, At, Exec, BlockOffsets, Readable, Carries, LoadAll;
    OutLdmIsBlock(true, rn, mode, wb, s, st);
    BlockLoaded(rn, mode, wb, s, st);
    AddrAddr(src, 4 * l - BlockStart(mode, Count(s)), BlockStep(mode, Count(s)));
    LoadedWords(mode, s, src, ws, l, st, Exec(Block(true, rn, mode, wb, s), st).regs);
  }

  lemma BlockLoaded(rn: Reg, mode: Mode, wb: bool, s: set<Reg>, st: State)
    requires wb ==> rn !in s
    ensures var end := Exec(Block(true, rn, mode, wb, s), st);
            && end.mem == st.mem && end.flags == st.flags
            && (forall r: Reg :: r in s ==> end.regs[r] == Read(st.mem, Addr(st.regs[rn], BlockOffsets(mode, s)[r])))
            && (forall r: Reg :: r !in s && r != rn ==> end.regs[r] == st.regs[r])
            && (rn !in s ==> end.regs[rn] == if wb then Addr(st.regs[rn], BlockStep(mode, Count(s))) else st.regs[rn])
  {
    hide Addr, Rank, Count, BlockStart, BlockStep, Read, ExecData, ExecTransfer;
    assert BlockOffsets(mode, s).Keys == s;
  }

  lemma LoadedWords(mode: Mode, s: set<Reg>, src: Word, ws: seq<Word>, l: nat, st: State, regs: Regs)
    requires l + Count(s) <= |ws| && Readable(st.mem, src, ws)
    requires forall r: Reg :: r in s ==>
             regs[r] == Read(st.mem, Addr(Base(mode, Count(s), src, l), BlockOffsets(mode, s)[r]))
    ensures Carries(regs, s, ws, l)
  {
    hide Addr, Rank, Count, BlockStart, At, BlockOffsets, Base, Read;
    forall r: Reg | r in s ensures Rank(s, r) < Count(s) && regs[r] == ws[l + Rank(s, r)] {
      RankBelow(s, r);
      WordOfBlock(mode, s, src, l, r);
    }
  }

  lemma StorePiece(rn: Reg, mode: Mode, wb: bool, s: set<Reg>, d: Word, ws: seq<Word>, l: nat, st: State)
    requires l + Count(s) <= |ws| && Carries(st.regs, s, ws, l) && rn !in s
    requires st.regs[rn] == Base(mode, Count(s), d, l)
    ensures var end := Exec(OutLdm(false, rn, mode, wb, s), st);
            && Filled(st.mem, end.mem, d, ws, l, l + Count(s)) && end.flags == st.flags
            && (forall r: Reg :: r != rn ==> end.regs[r] == st.regs[r])
            && end.regs[rn] == if wb then BaseAfter(mode, Count(s), d, l) else st.regs[rn]
  {
    hide Addr, Rank, Count, BlockStart, BlockStep, OutLdm, StoreAll, ExecData, ExecTransfer, BlockOffsets, At;
    OutLdmIsBlock(false, rn, mode, wb, s, st);
    AddrAddr(d, 4 * l - BlockStart(mode, Count(s)), BlockStep(mode, Count(s)));
    BlockApart(mode, s);
    StoresStored(BlockOffsets(mode, s), st.regs[rn], st.regs, st.mem);
    var end := Exec(Block(false, rn, mode, wb, s), st);
    StoredFills(mode, s, d, ws, l, st.regs, st.mem, end.mem);
  }

  lemma StoredFills(mode: Mode, s: set<Reg>, d: Word, ws: seq<Word>, l: nat, regs: Regs, mem: Mem, mem': Mem)
    requires l + Count(s) <= |ws| && Carries(regs, s, ws, l)
    requires Stored(BlockOffsets(mode, s), Base(mode, Count(s), d, l), regs, mem, mem')
    ensures Filled(mem, mem', d, ws, l, l + Count(s))
  {
    hide Addr, Rank, BlockStart, At;
    var q, b := BlockOffsets(mode, s), Base(mode, Count(s), d, l);
    forall i | l <= i < l + Count(s) ensures At(d, i) in mem' && mem'[At(d, i)] == ws[i] {
      var r := RankInverse(s, i - l, 16);
      WordOfBlock(mode, s, d, l, r);
      assert r in q;
    }
    forall a: Word | Outside(d, l, l + Count(s), a)
      ensures (a in mem' <==> a in mem) && (a in mem' ==> mem'[a] == mem[a])
    {
      forall r: Reg | r in q ensures Addr(b, q[r]) != a {
        WordOfBlock(mode, s, d, l, r);
        assert Rank(s, r) < Count(s);
        assert At(d, l + Rank(s, r)) != a;
      }
      assert Untouched(q, b, a);
    }
  }

  // ---- the expansion ----

  function ModeOf(p: Request): Mode { if p.what.PushCopy? then DB else IA }

  function Put(plain: bool, load: bool, rn: Reg, mode: Mode, wb: bool, s: set<Reg>): Instr
  {
    if plain then Block(load, rn, mode, wb, s) else OutLdm(load, rn, mode, wb, s)
  }

  /** One load (unless clearing) and one store of the registers of s. */
  function Piece(p: Request, plain: bool, s: set<Reg>, loadWb: bool, storeWb: bool): Code
  {
    (if Moves(p) then [Put(plain, true, p.r2, ModeOf(p), loadWb, s)] else [])
        + [Put(plain, false, p.r1, ModeOf(p), storeWb, s)]
  }

  /** What is left when it fits the registers. */
  function Last(p: Request, s: set<Reg>, loadWb: bool, c: nat): Code
  {
    if c == 0 then [] else Piece(p, true, Lower(s, c), loadWb, p.what.PushCopy?)
  }

  /** One word more than the registers hold, and the dying source register can hold it. */
  predicate SourceHelps(p: Request, s: set<Reg>, c: nat)
  {
    Moves(p) && c == Count(s) + 1 && Count(s) < p.limit && p.deadR2 && !p.post
  }

  function Straight(p: Request, s: set<Reg>, c: nat): Code
    requires Count(s) >= 1 || c == 0
    decreases c
  {
    if c > Count(s) then
      if SourceHelps(p, s, c) then Last(p, s + {p.r2}, false, c)
      else Piece(p, false, s, true, true) + Straight(p, s, c - Count(s))
    else Last(p, s, p.post || p.what.PushCopy?, c)
  }

  predicate UsesLoop(p: Request)
  {
    p.size > LOOP_THRESHOLD
    && !((Moves(p) && WordCount(p) <= 3 * Count(WorkRegs(p))) || WordCount(p) <= 4 * Count(WorkRegs(p)))
  }

  /** The register that counts the rounds, and the registers left for data. */
  function Counter(p: Request): Reg { var r := Lowest(WorkRegs(p)); if r.Some? then r.value else 0 }

  function DataRegs(p: Request): set<Reg>
  {
    var s := if UsesLoop(p) then WorkRegs(p) - {Counter(p)} else WorkRegs(p);
    var most := if WordCount(p) < p.limit then WordCount(p) else p.limit;
    if Count(s) > most then Lower(s, most) else s
  }

  /**
   Clearing starts by zeroing the data registers; 0, and the step of -1 of the loop, need nothing
   from the cache (FieldsSuffice).
   */
  function ZeroCode(s: set<Reg>, r: nat := 0): Code
    requires r <= 16
    decreases 16 - r
  {
    if r == 16 then []
    else (if r in s then LoadCode(r, 0, false, UNKNOWN) else []) + ZeroCode(s, r + 1)
  }

  function CountDown(r: Reg): Code { AddCode(r, r, M - 1, AL, true, UNKNOWN) }

  lemma FieldsSuffice(r: Reg, known: Known)
    ensures LoadCode(r, 0, false, known) == LoadCode(r, 0, false, UNKNOWN)
    ensures AddCode(r, r, M - 1, AL, true, known) == CountDown(r)
  {
    ZeroFits(0);
    assert EightBits(1) == Some(Imm(0, 1));
    assert Neg(M - 1) == 1;
  }

  /** Straight-line code, or code around a loop whose body is repeated while Z is clear (BNE). */
  datatype Expansion = Line(code: Code) | Looped(before: Code, body: Code, after: Code)

  /** The registers that the expansion takes for itself. */
  function Taken(p: Request): set<Reg> { DataRegs(p) + (if UsesLoop(p) then {Counter(p)} else {}) }

  /** The registers of s are recorded as 0. */
  function Zeroed(known: Known, s: set<Reg>): Known
  {
    seq(16, r requires 0 <= r < 16 => if r in s then Some(0) else known[r])
  }

  /** The cache when the counter is loaded: what is taken has been forgotten, and zeros are then recorded. */
  function Cleared(p: Request, known: Known): Known
  {
    var less := Forget(known, Taken(p));
    if p.what.Clear? then Zeroed(less, DataRegs(p)) else less
  }

  /** The expansion when the cache holds `known`. */
  function Expand(p: Request, known: Known): Expansion
    requires Sensible(p)
  {
    hide Rank, DataRegs, Cleared;
    SomeData(p);
    var s, n := DataRegs(p), WordCount(p);
    var zeros := if p.what.Clear? then ZeroCode(s) else [];
    if UsesLoop(p) then
      Rounds(p, n, Count(s));
      Looped(zeros + LoadCode(Counter(p), n / Count(s), false, Cleared(p, known)),
             Piece(p, false, s, true, true) + CountDown(Counter(p)),
             Last(p, s, p.post || p.what.PushCopy?, n % Count(s)))
    else Line(zeros + Straight(p, s, n))
  }

  /** What the source takes for granted of its operands. */
  predicate Sensible(p: Request)
  {
    && p.size % 4 == 0 && p.size < 0x8000_0000
    && p.r1 != PC && p.r2 != PC && (Moves(p) ==> p.r1 != p.r2)
    && p.free !! {SP, PC}
    && Count(WorkRegs(p)) >= 1
  }

  lemma LowerSubset(s: set<Reg>, k: nat)
    ensures Lower(s, k) <= s
  {
  }

  /** There is always a register for data, even beside a counter. */
  lemma SomeData(p: Request)
    requires Sensible(p)
    ensures Count(DataRegs(p)) >= 1 || WordCount(p) == 0
    ensures UsesLoop(p) ==> Count(DataRegs(p)) >= 1 && Counter(p) in WorkRegs(p) && Counter(p) !in DataRegs(p)
    ensures DataRegs(p) <= WorkRegs(p) && Count(DataRegs(p)) <= p.limit && Count(DataRegs(p)) <= Count(WorkRegs(p))
  {
    hide Rank;
    var w := WorkRegs(p);
    var most := if WordCount(p) < p.limit then WordCount(p) else p.limit;
    if UsesLoop(p) {
      TwoRegisters(p);
      CounterIs(w);
      RankAdd(w - {Counter(p)}, Counter(p), 16);
      assert w - {Counter(p)} + {Counter(p)} == w;
      TrimmedCount(w - {Counter(p)}, most);
    } else {
      TrimmedCount(w, most);
    }
  }

  lemma TrimmedCount(s: set<Reg>, most: nat)
    ensures Count(s) > most ==> Count(Lower(s, most)) == most
    ensures Lower(s, most) <= s
  {
    if Count(s) > most { PieceCounts(s, most); }
  }

  lemma CounterIs(s: set<Reg>)
    requires Count(s) >= 1
    ensures Lowest(s).Some?
  {
    if Lowest(s).None? { RankNoneBelow(s, 16); }
  }

  /** Above the loop threshold at least two registers are free for the block. */
  lemma TwoRegisters(p: Request)
    requires p.size > LOOP_THRESHOLD
    ensures Count(WorkRegs(p)) >= 2
  {
    hide Rank;
    var w := WorkRegs(p);
    var other := if p.r1 != 2 && p.r2 != 2 then 2 else if p.r1 != 3 && p.r2 != 3 then 3 else 12;
    var some := if p.r1 != 1 && p.r2 != 1 then (1, other)
                else if p.r1 != 2 && p.r2 != 2 then (2, if p.r1 != 3 && p.r2 != 3 then 3 else 12) else (3, 12);
    TwoMembers(w, some.0, some.1);
  }

  lemma TwoMembers(s: set<Reg>, a: Reg, b: Reg)
    requires a in s && b in s && a < b
    ensures Count(s) >= 2
  {
    RankMonotone(s, 0, a);
    RankMonotone(s, a + 1, b);
    RankMonotone(s, b + 1, 16);
  }

  // ---- progress ----

  /** The blocks: where they start, and the words to be written. */
  datatype Blocks = Blocks(d: Word, s: Word, ws: seq<Word>)

  /** PUSHC moves downwards from the end of its blocks. */
  function StartOf(p: Request, r: Word): Word { if p.what.PushCopy? then Addr(r, -4 * WordCount(p)) else r }

  function BlocksOf(p: Request, st: State): Blocks
  {
    var src := StartOf(p, st.regs[p.r2]);
    Blocks(StartOf(p, st.regs[p.r1]), src,
           seq(WordCount(p), i requires 0 <= i < WordCount(p) => if Moves(p) then Read(st.mem, At(src, i)) else 0))
  }

  /** The word that the pointers stand at when c words are left. */
  function Position(p: Request, c: int): int { if p.what.PushCopy? then c else WordCount(p) - c }

  function Low(p: Request, c: int): int { if p.what.PushCopy? then c else 0 }

  function High(p: Request, c: int): int { if p.what.PushCopy? then WordCount(p) else WordCount(p) - c }

  /** The lowest word of the next piece of m words. */
  function NextWord(p: Request, c: int, m: int): int { if p.what.PushCopy? then c - m else WordCount(p) - c }

  ghost predicate Separate(p: Request, b: Blocks)
  {
    Moves(p) ==> forall i, j :: 0 <= i < WordCount(p) && 0 <= j < WordCount(p) ==> At(b.d, i) != At(b.s, j)
  }

  ghost predicate Progress(p: Request, b: Blocks, st: State, now: State, c: int, s: set<Reg>)
  {
    && 0 <= c <= WordCount(p) == |b.ws| <= MOST
    && Filled(st.mem, now.mem, b.d, b.ws, Low(p, c), High(p, c))
    && now.regs[p.r1] == At(b.d, Position(p, c))
    && (Moves(p) ==> now.regs[p.r2] == At(b.s, Position(p, c)) && Readable(now.mem, b.s, b.ws))
    && (!Moves(p) ==> (forall i :: 0 <= i < |b.ws| ==> b.ws[i] == 0) && forall r: Reg :: r in s ==> now.regs[r] == 0)
    && (forall r: Reg :: r != p.r1 && (Moves(p) ==> r != p.r2) && r !in Taken(p) ==> now.regs[r] == st.regs[r])
  }

  lemma StillReadable(mem0: Mem, mem: Mem, p: Request, b: Blocks, lo: int, hi: int)
    requires 0 <= lo <= hi <= |b.ws| == WordCount(p) && Filled(mem0, mem, b.d, b.ws, lo, hi)
    requires Moves(p) && Separate(p, b) && Readable(mem0, b.s, b.ws)
    ensures Readable(mem, b.s, b.ws)
  {
    hide Taken, At;
    forall i | 0 <= i < |b.ws| ensures Read(mem, At(b.s, i)) == b.ws[i] {
      assert Outside(b.d, lo, hi, At(b.s, i));
    }
  }

  lemma PieceBase(p: Request, m: nat, d: Word, c: int)
    ensures At(d, Position(p, c)) == Base(ModeOf(p), m, d, NextWord(p, c, m))
    ensures At(d, Position(p, c - m)) == BaseAfter(ModeOf(p), m, d, NextWord(p, c, m))
  {
    hide Addr;
  }

  lemma PutIs(plain: bool, load: bool, rn: Reg, mode: Mode, wb: bool, s: set<Reg>, st: State)
    requires wb ==> rn !in s
    ensures Exec(Put(plain, load, rn, mode, wb, s), st) == Exec(OutLdm(load, rn, mode, wb, s), st)
  {
    hide Exec, OutLdm;
    OutLdmIsBlock(load, rn, mode, wb, s, st);
  }

  /** What a piece with its own writeback leaves; the source register may be among its registers. */
  ghost predicate PieceDone(p: Request, b: Blocks, now: State, end: State, c: int, s: set<Reg>, loadWb: bool,
          storeWb: bool)
  {
    var m := Count(s);
    && 0 <= NextWord(p, c, m) && NextWord(p, c, m) + m <= |b.ws|
    && Filled(now.mem, end.mem, b.d, b.ws, NextWord(p, c, m), NextWord(p, c, m) + m)
    && end.regs[p.r1] == (if storeWb then At(b.d, Position(p, c - m)) else now.regs[p.r1])
    && (Moves(p) && p.r2 !in s ==> end.regs[p.r2] == if loadWb then At(b.s, Position(p, c - m)) else now.regs[p.r2])
    && (forall r: Reg :: r != p.r1 && (Moves(p) ==> r != p.r2 && r !in s) ==> end.regs[r] == now.regs[r])
    && end.flags == now.flags
  }

  lemma LoadPart(p: Request, b: Blocks, plain: bool, now: State, c: int, s: set<Reg>, loadWb: bool)
    requires Moves(p) && p.r1 != p.r2 && p.r1 !in s && (loadWb ==> p.r2 !in s)
    requires Count(s) <= c <= WordCount(p) == |b.ws|
    requires now.regs[p.r2] == At(b.s, Position(p, c)) && Readable(now.mem, b.s, b.ws)
    ensures var mid := Exec(Put(plain, true, p.r2, ModeOf(p), loadWb, s), now);
            && Carries(mid.regs, s, b.ws, NextWord(p, c, Count(s))) && mid.mem == now.mem && mid.flags == now.flags
            && (forall r: Reg :: r !in s && r != p.r2 ==> mid.regs[r] == now.regs[r])
            && (p.r2 !in s ==> mid.regs[p.r2] == if loadWb then At(b.s, Position(p, c - Count(s))) else now.regs[p.r2])
  {
    hide Exec, Put, OutLdm, At, Base, BaseAfter, Rank, Count;
    PutIs(plain, true, p.r2, ModeOf(p), loadWb, s, now);
    PieceBase(p, Count(s), b.s, c);
    LoadPiece(p.r2, ModeOf(p), loadWb, s, b.s, b.ws, NextWord(p, c, Count(s)), now);
  }

  lemma StorePart(p: Request, b: Blocks, plain: bool, mid: State, c: int, s: set<Reg>, storeWb: bool)
    requires p.r1 !in s && Count(s) <= c <= WordCount(p) == |b.ws|
    requires mid.regs[p.r1] == At(b.d, Position(p, c)) && Carries(mid.regs, s, b.ws, NextWord(p, c, Count(s)))
    ensures var end, l := Exec(Put(plain, false, p.r1, ModeOf(p), storeWb, s), mid), NextWord(p, c, Count(s));
            && Filled(mid.mem, end.mem, b.d, b.ws, l, l + Count(s)) && end.flags == mid.flags
            && (forall r: Reg :: r != p.r1 ==> end.regs[r] == mid.regs[r])
            && end.regs[p.r1] == (if storeWb then At(b.d, Position(p, c - Count(s))) else mid.regs[p.r1])
  {
    hide Exec, Put, OutLdm, At, Base, BaseAfter, Rank, Count, Carries, Filled;
    PutIs(plain, false, p.r1, ModeOf(p), storeWb, s, mid);
    PieceBase(p, Count(s), b.d, c);
    StorePiece(p.r1, ModeOf(p), storeWb, s, b.d, b.ws, NextWord(p, c, Count(s)), mid);
  }

  /** The data of a clearing piece is there from the start. */
  lemma ZerosCarry(ws: seq<Word>, regs: Regs, s: set<Reg>, l: nat)
    requires l + Count(s) <= |ws| && forall i :: 0 <= i < |ws| ==> ws[i] == 0
    requires forall r: Reg :: r in s ==> regs[r] == 0
    ensures Carries(regs, s, ws, l)
  {
    hide Rank;
    forall r: Reg | r in s ensures Rank(s, r) < Count(s) { RankBelow(s, r); }
  }

  lemma PieceRun(p: Request, b: Blocks, plain: bool, st: State, now: State, c: int, s: set<Reg>, t: set<Reg>,
          loadWb: bool, storeWb: bool)
    requires Sensible(p) && Progress(p, b, st, now, c, t) && Separate(p, b)
    requires p.r1 !in s && (loadWb ==> Moves(p) ==> p.r2 !in s) && Count(s) <= c && (!Moves(p) ==> s <= t)
    ensures PieceDone(p, b, now, Run(Piece(p, plain, s, loadWb, storeWb), now), c, s, loadWb, storeWb)
  {
    hide Exec, Put, At, Rank, Count, Filled, Readable, Run, Carries;
    var store := Put(plain, false, p.r1, ModeOf(p), storeWb, s);
    if Moves(p) {
      var load := Put(plain, true, p.r2, ModeOf(p), loadWb, s);
      var mid := Exec(load, now);
      LoadPart(p, b, plain, now, c, s, loadWb);
      StorePart(p, b, plain, mid, c, s, storeWb);
      RunOne(load, now);
      RunSnoc([load], store, now);
    } else {
      ZerosCarry(b.ws, now.regs, s, NextWord(p, c, Count(s)));
      StorePart(p, b, plain, now, c, s, storeWb);
      RunOne(store, now);
      assert [] + [store] == [store];
    }
  }

  /** A piece with writeback makes progress. */
  lemma PieceStep(p: Request, b: Blocks, st: State, now: State, end: State, c: int, s: set<Reg>, t: set<Reg>)
    requires Sensible(p) && Progress(p, b, st, now, c, t) && Separate(p, b) && s <= t <= Taken(p) && Count(s) <= c
    requires PieceDone(p, b, now, end, c, s, true, true)
    ensures Progress(p, b, st, end, c - Count(s), t)
  {
    hide Taken, At, Rank, Count, Filled;
    var m := Count(s);
    var l := NextWord(p, c, m);
    FillMore(st.mem, now.mem, end.mem, b.d, b.ws, Low(p, c), High(p, c), l, m);
    if Moves(p) { StillReadable(now.mem, end.mem, p, b, l, l + m); }
    NotTaken(p);
  }

  // ---- the whole block ----

  /**
   The block has been written and nothing else in memory; only r1, r2 and the work registers
   have changed.  A push leaves r1 at the low end of what it wrote, and a source with P_POST
   stands after its block.
   */
  ghost predicate Done(p: Request, b: Blocks, st: State, end: State)
  {
    && |b.ws| == WordCount(p)
    && Filled(st.mem, end.mem, b.d, b.ws, 0, |b.ws|)
    && (forall r: Reg :: r != p.r1 && (Moves(p) ==> r != p.r2) && r !in Taken(p) ==> end.regs[r] == st.regs[r])
    && (p.what.PushCopy? ==> end.regs[p.r1] == b.d)
    && (p.what.Copy? && p.post ==> end.regs[p.r2] == At(b.s, WordCount(p)))
  }

  /** A piece without further writeback that takes all that is left. */
  lemma LastDone(p: Request, b: Blocks, st: State, now: State, end: State, c: nat, s: set<Reg>, t: set<Reg>,
          loadWb: bool)
    requires Sensible(p) && Progress(p, b, st, now, c, t) && Separate(p, b) && Count(s) == c
    requires s <= Taken(p) || (Moves(p) && s <= Taken(p) + {p.r2} && !p.post)
    requires loadWb == (p.post || p.what.PushCopy?) || !p.post
    requires PieceDone(p, b, now, end, c, s, loadWb, p.what.PushCopy?)
    ensures Done(p, b, st, end)
    ensures !p.what.PushCopy? ==> end.regs[p.r1] == now.regs[p.r1]
  {
    hide Taken, At, Rank, Count, Filled;
    NotTaken(p);
    FillMore(st.mem, now.mem, end.mem, b.d, b.ws, Low(p, c), High(p, c), NextWord(p, c, c), c);
    AtIsStart(b.d);
  }

  lemma AtIsStart(d: Word)
    ensures At(d, 0) == d
  {
    AddrZero(d);
  }

  lemma LastRun(p: Request, b: Blocks, st: State, now: State, c: nat, s: set<Reg>, t: set<Reg>, loadWb: bool)
    requires Sensible(p) && Progress(p, b, st, now, c, t) && Separate(p, b) && c <= Count(s)
    requires s <= t <= Taken(p) || (Moves(p) && s <= Taken(p) + {p.r2} && !p.post && !loadWb)
    requires loadWb == (p.post || p.what.PushCopy?) || !p.post
    ensures Done(p, b, st, Run(Last(p, s, loadWb, c), now))
    ensures var end := Run(Last(p, s, loadWb, c), now);
            && (!p.what.PushCopy? ==> end.regs[p.r1] == now.regs[p.r1])
            && forall r: Reg :: r != p.r1 && (Moves(p) ==> r != p.r2 && r !in s) ==> end.regs[r] == now.regs[r]
  {
    hide Taken, At, Rank, Count, Filled, Run, Piece, Progress, Done;
    if c == 0 {
      RunNone(now);
      NothingLeft(p, b, st, now, t);
    } else {
      PieceCounts(s, c);
      LowerSubset(s, c);
      NotTaken(p);
      var l := Lower(s, c);
      PieceRun(p, b, true, st, now, c, l, t, loadWb, p.what.PushCopy?);
      LastDone(p, b, st, now, Run(Piece(p, true, l, loadWb, p.what.PushCopy?), now), c, l, t, loadWb);
    }
  }

  lemma NotTaken(p: Request)
    requires Sensible(p)
    ensures p.r1 !in Taken(p) && (Moves(p) ==> p.r2 !in Taken(p))
    ensures DataRegs(p) <= Taken(p) <= WorkRegs(p)
  {
    hide Count, DataRegs, UsesLoop, Counter;
    SomeData(p);
  }

  lemma NothingLeft(p: Request, b: Blocks, st: State, now: State, t: set<Reg>)
    requires Progress(p, b, st, now, 0, t)
    ensures Done(p, b, st, now)
  {
    hide Taken, At, Filled;
    AtIsStart(b.d);
  }

  /** How many words the last, pointer-preserving piece takes. */
  function Left(p: Request, s: set<Reg>, c: nat): (k: nat)
    requires Count(s) >= 1 || c == 0
    ensures k <= c
    ensures c > Count(s) && !SourceHelps(p, s, c) ==> k <= c - Count(s)
    decreases c
  {
    if c > Count(s) && !SourceHelps(p, s, c) then Left(p, s, c - Count(s)) else c
  }

  lemma AtPosition(p: Request, b: Blocks, st: State, now: State, c: int, s: set<Reg>)
    requires Progress(p, b, st, now, c, s)
    ensures now.regs[p.r1] == At(b.d, Position(p, c))
  {
    hide Filled, At, Readable;
  }

  lemma {:induction false} StraightRun(p: Request, b: Blocks, st: State, now: State, c: nat, s: set<Reg>)
    requires Sensible(p) && Progress(p, b, st, now, c, s) && Separate(p, b)
    requires s <= Taken(p) && (Count(s) >= 1 || c == 0)
    ensures Done(p, b, st, Run(Straight(p, s, c), now))
    ensures !p.what.PushCopy? ==> Run(Straight(p, s, c), now).regs[p.r1] == At(b.d, Position(p, Left(p, s, c)))
    ensures !Moves(p) ==> forall r: Reg :: r != p.r1 ==> Run(Straight(p, s, c), now).regs[r] == now.regs[r]
    decreases c
  {
    hide Taken, At, Rank, Count, Filled, Run, Piece, Progress, Done, Last;
    NotTaken(p);
    AtPosition(p, b, st, now, c, s);
    if c > Count(s) {
      if SourceHelps(p, s, c) {
        RankAdd(s, p.r2, 16);
        CountMore(s, p.r2);
        LastRun(p, b, st, now, c, s + {p.r2}, s, false);
      } else {
        var mid := Run(Piece(p, false, s, true, true), now);
        PieceRun(p, b, false, st, now, c, s, s, true, true);
        PieceStep(p, b, st, now, mid, c, s, s);
        StraightRun(p, b, st, mid, c - Count(s), s);
        RunAppend(Piece(p, false, s, true, true), Straight(p, s, c - Count(s)), now);
      }
    } else {
      LastRun(p, b, st, now, c, s, s, p.post || p.what.PushCopy?);
    }
  }

  lemma CountMore(s: set<Reg>, r: Reg)
    requires r !in s
    ensures Count(s + {r}) == Count(s) + 1
  {
    RankAdd(s, r, 16);
  }

  // ---- the loop ----

  /** The body of a do-while loop, run k times: Z is clear after each round but the last. */
  predicate LoopsTo(body: Code, st: State, end: State, k: nat)
    decreases k
  {
    k > 0 &&
    var next := Run(body, st);
    if next.flags.z then k == 1 && end == next else k > 1 && LoopsTo(body, next, end, k - 1)
  }

  ghost predicate RunsTo(x: Expansion, st: State, end: State)
  {
    match x
    case Line(code) => end == Run(code, st)
    case Looped(before, body, after) => exists mid, k ::
        LoopsTo(body, Run(before, st), mid, k) && end == Run(after, mid)
  }

  /** A loop ends in one way only. */
  lemma {:induction false} LoopUnique(body: Code, st: State, end1: State, k1: nat, end2: State, k2: nat)
    requires LoopsTo(body, st, end1, k1) && LoopsTo(body, st, end2, k2)
    ensures end1 == end2
    decreases k1
  {
    hide Run;
    if !Run(body, st).flags.z { LoopUnique(body, Run(body, st), end1, k1 - 1, end2, k2 - 1); }
  }

  lemma CountDownRun(r: Reg, st: State)
    ensures var end := Run(CountDown(r), st);
            end.regs == st.regs[r := Addr(st.regs[r], -1)] && end.mem == st.mem && (end.flags.z <==> end.regs[r] == 0)
  {
    hide AddCode, Run, ReadsBack, CountDown, Agrees, Wrap;
    CountDownAdds(r, st);
    MinusOne(st.regs[r]);
  }

  lemma CountDownAdds(r: Reg, st: State)
    ensures Adds(st, Run(CountDown(r), st), r, r, 0xffff_ffff, true)
  {
    hide AddCode, Run, ReadsBack, Adds;
    UnknownNotReadBack(r, M - 1, UNKNOWN);
    AddCorrect(r, r, M - 1, true, UNKNOWN, st);
  }

  lemma MinusOne(x: Word)
    ensures Wrap(x + 0xffff_ffff) == Addr(x, -1)
    ensures x > 0 ==> Addr(x, -1) == x - 1
  {
  }

  lemma ProgressElsewhere(p: Request, b: Blocks, st: State, now: State, now': State, c: int, s: set<Reg>, r: Reg)
    requires Progress(p, b, st, now, c, s) && r in Taken(p) && r !in s && r != p.r1 && (Moves(p) ==> r != p.r2)
    requires now'.mem == now.mem && forall x: Reg :: x != r ==> now'.regs[x] == now.regs[x]
    ensures Progress(p, b, st, now', c, s)
  {
    hide Taken, At, Filled, Readable;
  }

  /** One round: a piece, and one less on the counter. */
  lemma RoundRun(p: Request, b: Blocks, st: State, now: State, c: nat, s: set<Reg>, r: Reg)
    requires Sensible(p) && Progress(p, b, st, now, c, s) && Separate(p, b) && s <= Taken(p) && Count(s) <= c
    requires r in Taken(p) && r !in s && now.regs[r] >= 1
    ensures var end := Run(Piece(p, false, s, true, true) + CountDown(r), now);
            && Progress(p, b, st, end, c - Count(s), s)
            && end.regs[r] == now.regs[r] - 1 && (end.flags.z <==> end.regs[r] == 0)
  {
    hide Taken, At, Rank, Count, Filled, Run, Piece, Progress, CountDown;
    NotTaken(p);
    var mid := Run(Piece(p, false, s, true, true), now);
    PieceRun(p, b, false, st, now, c, s, s, true, true);
    PieceStep(p, b, st, now, mid, c, s, s);
    RunAppend(Piece(p, false, s, true, true), CountDown(r), now);
    CountDownRun(r, mid);
    ProgressElsewhere(p, b, st, mid, Run(CountDown(r), mid), c - Count(s), s, r);
  }

  lemma {:induction false} LoopRun(p: Request, b: Blocks, st: State, now: State, c: nat, s: set<Reg>, r: Reg,
          k: nat) returns (end: State)
    requires Sensible(p) && Progress(p, b, st, now, c, s) && Separate(p, b) && s <= Taken(p)
    requires r in Taken(p) && r !in s && now.regs[r] == k > 0 && k * Count(s) <= c
    ensures LoopsTo(Piece(p, false, s, true, true) + CountDown(r), now, end, k)
    ensures Progress(p, b, st, end, c - k * Count(s), s) && end.regs[r] == 0
    decreases k
  {
    hide Taken, At, Rank, Count, Filled, Run, Piece, Progress, CountDown;
    var body, m := Piece(p, false, s, true, true) + CountDown(r), Count(s);
    MulMono(1, k, m);
    RoundRun(p, b, st, now, c, s, r);
    var next := Run(body, now);
    assert k * m == m + (k - 1) * m;
    if k == 1 {
      end := next;
    } else {
      end := LoopRun(p, b, st, next, c - m, s, r, k - 1);
    }
  }

  // ---- the expansion is right ----

  lemma {:induction false} ZerosRun(s: set<Reg>, r: nat, st: State)
    requires r <= 16
    ensures var end := Run(ZeroCode(s, r), st);
            && end.mem == st.mem
            && (forall x: Reg :: end.regs[x] == if x in s && x >= r then 0 else st.regs[x])
    decreases 16 - r
  {
    hide LoadCode, Run, Agrees;
    if r == 16 {
      RunNone(st);
    } else if r in s {
      var mid := Run(LoadCode(r, 0, false, UNKNOWN), st);
      NothingKnown(st.regs);
      LoadCorrect(r, 0, false, UNKNOWN, st);
      ZerosRun(s, r + 1, mid);
      RunAppend(LoadCode(r, 0, false, UNKNOWN), ZeroCode(s, r + 1), st);
    } else {
      ZerosRun(s, r + 1, st);
      assert [] + ZeroCode(s, r + 1) == ZeroCode(s, r + 1);
    }
  }

  lemma NothingKnown(regs: Regs)
    ensures Agrees(UNKNOWN, regs)
  {
  }

  /** Before the first piece nothing has been written and the pointers are at the start. */
  lemma AtStart(p: Request, st: State, now: State, s: set<Reg>)
    requires Sensible(p) && now.mem == st.mem && s <= Taken(p)
    requires forall r: Reg :: r !in Taken(p) ==> now.regs[r] == st.regs[r]
    requires p.what.Clear? ==> forall r: Reg :: r in s ==> now.regs[r] == 0
    ensures Progress(p, BlocksOf(p, st), st, now, WordCount(p), s)
  {
    hide Addr;
    NotTaken(p);
    var n: int := WordCount(p);
    AddrAddr(st.regs[p.r1], -4 * n, 4 * n);
    AddrAddr(st.regs[p.r2], -4 * n, 4 * n);
    AddrZero(st.regs[p.r1]);
    AddrZero(st.regs[p.r2]);
  }

  lemma ZerosStart(p: Request, st: State) returns (now: State)
    requires Sensible(p)
    ensures var s := DataRegs(p);
            && now == Run(if p.what.Clear? then ZeroCode(s) else [], st)
            && Progress(p, BlocksOf(p, st), st, now, WordCount(p), s)
            && (forall r: Reg :: now.regs[r] == if p.what.Clear? && r in s then 0 else st.regs[r])
  {
    hide Run, ZeroCode, Progress, DataRegs, BlocksOf, Taken;
    var s := DataRegs(p);
    now := Run(if p.what.Clear? then ZeroCode(s) else [], st);
    NotTaken(p);
    RunNone(st);
    ZerosRun(s, 0, st);
    AtStart(p, st, now, s);
  }

  /** The data of a clear is still there at the end, and the counter of a loop is 0. */
  ghost predicate Rests(p: Request, end: State)
  {
    && (p.what.Clear? ==> forall r: Reg :: r in DataRegs(p) ==> end.regs[r] == 0)
    && (UsesLoop(p) ==> end.regs[Counter(p)] == 0)
  }

  lemma LineCorrect(p: Request, known: Known, st: State)
    requires Sensible(p) && !UsesLoop(p) && Separate(p, BlocksOf(p, st))
    ensures var end := Run(Expand(p, known).code, st); Done(p, BlocksOf(p, st), st, end) && Rests(p, end)
    ensures Count(DataRegs(p)) >= 1 || WordCount(p) == 0
    ensures !p.what.PushCopy? ==>
              Run(Expand(p, known).code, st).regs[p.r1]
                  == At(BlocksOf(p, st).d, Position(p, Left(p, DataRegs(p), WordCount(p))))
  {
    hide Run, ZeroCode, Progress, DataRegs, BlocksOf, Straight, Done, Taken, Counter;
    var s, n := DataRegs(p), WordCount(p);
    SomeData(p);
    NotTaken(p);
    var now := ZerosStart(p, st);
    StraightRun(p, BlocksOf(p, st), st, now, n, s);
    RunAppend(if p.what.Clear? then ZeroCode(s) else [], Straight(p, s, n), st);
  }

  /** The counter is loaded with the cache in step. */
  lemma ClearedAgrees(p: Request, known: Known, st: State, now: State)
    requires Agrees(known, st.regs)
    requires forall r: Reg :: now.regs[r] == if p.what.Clear? && r in DataRegs(p) then 0 else st.regs[r]
    ensures Agrees(Cleared(p, known), now.regs)
  {
    hide DataRegs, Taken;
  }

  lemma LoopCorrect(p: Request, known: Known, st: State) returns (end: State)
    requires Sensible(p) && UsesLoop(p) && Separate(p, BlocksOf(p, st)) && Agrees(known, st.regs)
    ensures RunsTo(Expand(p, known), st, end) && Done(p, BlocksOf(p, st), st, end) && Rests(p, end)
  {
    hide Run, ZeroCode, Progress, DataRegs, BlocksOf, Done, Piece, CountDown, LoadCode, Last, Counter, Count, LoopsTo,
        Agrees, Taken, Cleared;
    var s, n, r, b := DataRegs(p), WordCount(p), Counter(p), BlocksOf(p, st);
    SomeData(p);
    var zeroed := ZerosStart(p, st);
    var k := n / Count(s);
    Rounds(p, n, Count(s));
    var zeros := if p.what.Clear? then ZeroCode(s) else [];
    var load := LoadCode(r, k, false, Cleared(p, known));
    ClearedAgrees(p, known, st, zeroed);
    LoadCorrect(r, k, false, Cleared(p, known), zeroed);
    RunAppend(zeros, load, st);
    var now := Run(load, zeroed);
    NotTaken(p);
    CounterTaken(p);
    ProgressElsewhere(p, b, st, zeroed, now, n, s, r);
    var mid := LoopRun(p, b, st, now, n, s, r, k);
    LastRun(p, b, st, mid, n % Count(s), s, s, p.post || p.what.PushCopy?);
    end := Run(Last(p, s, p.post || p.what.PushCopy?, n % Count(s)), mid);
    if p.what.Clear? { ZerosIn(p, b, st, mid, n % Count(s), s); }
  }

  lemma CounterTaken(p: Request)
    ensures UsesLoop(p) ==> Counter(p) in Taken(p)
  {
  }

  lemma ZerosIn(p: Request, b: Blocks, st: State, now: State, c: int, s: set<Reg>)
    requires Progress(p, b, st, now, c, s) && !Moves(p)
    ensures forall r: Reg :: r in s ==> now.regs[r] == 0
  {
    hide At, Filled, Readable, Taken;
  }

  lemma Rounds(p: Request, n: nat, m: nat)
    requires Sensible(p) && UsesLoop(p) && n == WordCount(p) && m >= 1 && m <= Count(WorkRegs(p))
    ensures 1 <= n / m < M && n / m * m <= n && n - n / m * m == n % m < m
  {
    hide Rank, Count;
    assert n == m * (n / m) + n % m;
    MulMono(1, m, n / m);
  }

  /** The registers that the request hands over: A4 and IP, above the threshold A2 and A3, and those named as free. */
  predicate MayUse(p: Request, r: Reg) { r == 3 || r == 12 || r in p.free || (p.size > 24 && (r == 1 || r == 2)) }

  /** Whatever was not handed over and is no pointer of the request ends as it began. */
  ghost predicate OthersKept(p: Request, st: State, end: State)
  {
    forall r: Reg :: r != p.r1 && (p.what.Clear? || r != p.r2) && !MayUse(p, r) ==> end.regs[r] == st.regs[r]
  }

  lemma WorkRegsFree(p: Request)
    ensures forall r: Reg :: r in WorkRegs(p) <==> MayUse(p, r) && r != p.r1 && (p.what.Clear? || r != p.r2)
  {
  }

  /**
   For every size, kind, register set, limit and cache in step, the expansion ends, and leaves
   exactly the copy (or the cleared block) that was asked for; all registers but the pointers
   and those handed over are kept.
   */
  lemma ExpandCorrect(p: Request, known: Known, st: State)
    requires Sensible(p) && Separate(p, BlocksOf(p, st)) && Agrees(known, st.regs)
    ensures exists end :: RunsTo(Expand(p, known), st, end)
    ensures forall end :: RunsTo(Expand(p, known), st, end) ==>
              Done(p, BlocksOf(p, st), st, end) && Rests(p, end) && OthersKept(p, st, end)
  {
    hide Run, BlocksOf, Rests, Last, LoopsTo, Agrees, DataRegs, UsesLoop, Filled, Counter;
    NotTaken(p);
    WorkRegsFree(p);
    hide Done, WorkRegs;
    if UsesLoop(p) {
      var good := LoopCorrect(p, known, st);
      var x := Expand(p, known);
      forall end | RunsTo(x, st, end) ensures end == good {
        LoopedUnique(x, st, end, good);
      }
    } else {
      LineCorrect(p, known, st);
      assert RunsTo(Expand(p, known), st, Run(Expand(p, known).code, st));
    }
  }

  lemma LoopedUnique(x: Expansion, st: State, end1: State, end2: State)
    requires x.Looped? && RunsTo(x, st, end1) && RunsTo(x, st, end2)
    ensures end1 == end2
  {
    hide Run, LoopsTo;
    var start := Run(x.before, st);
    var mid1, k1 :| LoopsTo(x.body, start, mid1, k1) && end1 == Run(x.after, mid1);
    var mid2, k2 :| LoopsTo(x.body, start, mid2, k2) && end2 == Run(x.after, mid2);
    LoopUnique(x.body, start, mid1, k1, mid2, k2);
  }

  // ---- is the destination register preserved? ----

  /** movc_preserving_r1r2, which does not look at the limit on block transfers. */
  predicate Preserving(p: Request)
  {
    !p.what.PushCopy? && p.size <= 4 * Count(WorkRegs(p)) + (if Moves(p) && p.deadR2 then 4 else 0)
  }

  /** The whole block goes in one transfer, with the dead source as an extra register if need be. */
  predicate OneTransfer(p: Request)
  {
    WordCount(p) <= p.limit && (p.post ==> WordCount(p) <= Count(WorkRegs(p)))
  }

  lemma PreservingIsLine(p: Request)
    requires Sensible(p) && Preserving(p)
    ensures !UsesLoop(p)
    ensures WordCount(p) <= Count(WorkRegs(p)) + (if Moves(p) && p.deadR2 then 1 else 0)
  {
    hide Count;
  }

  lemma PreservedLeft(p: Request)
    requires Sensible(p) && Preserving(p)
    ensures Count(DataRegs(p)) >= 1 || WordCount(p) == 0
    ensures Left(p, DataRegs(p), WordCount(p)) == WordCount(p) <==> OneTransfer(p)
  {
    hide Rank;
    SomeData(p);
    PreservingIsLine(p);
    var n, w := WordCount(p), WorkRegs(p);
    var most := if n < p.limit then n else p.limit;
    TrimmedCount(w, most);
    hide Count, WorkRegs;
  }

  /** Two blocks far enough apart to be copied. */
  function FarState(p: Request): State
  {
    State(ZEROS[p.r2 := 0x1000_0000][p.r1 := 0], NO_FLAGS, map[])
  }

  lemma FarSeparate(p: Request)
    requires Sensible(p) && WordCount(p) <= 0x100_0000
    ensures Separate(p, BlocksOf(p, FarState(p)))
  {
    if Moves(p) {
      var b := BlocksOf(p, FarState(p));
      forall i, j | 0 <= i < WordCount(p) && 0 <= j < WordCount(p) ensures At(b.d, i) != At(b.s, j) {
        FarApart(p, b, i, j);
      }
    }
  }

  lemma FarApart(p: Request, b: Blocks, i: int, j: int)
    requires Sensible(p) && Moves(p) && WordCount(p) <= 0x100_0000 && b == BlocksOf(p, FarState(p))
    requires 0 <= i < WordCount(p) && 0 <= j < WordCount(p)
    ensures At(b.d, i) != At(b.s, j)
  {
    hide WorkRegs, Count, BlocksOf, FarState;
    FarStart(p);
    assert At(0, i) == 4 * i && At(0x1000_0000, j) == 0x1000_0000 + 4 * j;
  }

  lemma FarStart(p: Request)
    requires Sensible(p) && Moves(p)
    ensures BlocksOf(p, FarState(p)).d == (if p.what.PushCopy? then Addr(0, -4 * WordCount(p)) else 0)
    ensures BlocksOf(p, FarState(p)).s
            == (if p.what.PushCopy? then Addr(0x1000_0000, -4 * WordCount(p)) else 0x1000_0000)
  {
    hide WorkRegs, Count, Read, At, Addr;
  }

  lemma WorkSize(p: Request)
    ensures Count(WorkRegs(p)) <= 16
  {
  }

  /** Where a preserving copy or clear leaves the destination register: moved exactly if it took several transfers. */
  lemma DestinationAfter(p: Request, known: Known, st: State)
    requires Sensible(p) && Preserving(p) && Separate(p, BlocksOf(p, st))
    ensures Expand(p, known).Line?
    ensures Run(Expand(p, known).code, st).regs[p.r1] == st.regs[p.r1] <==> OneTransfer(p)
  {
    hide Run, Separate, Expand, BlocksOf, Left, DataRegs, At, Count, OneTransfer;
    ExpandIsLine(p, known);
    PreservedLeft(p);
    WorkSize(p);
    PreservingIsLine(p);
    LineCorrect(p, known, st);
    DestinationIs(p, st);
    AtIsStart(st.regs[p.r1]);
    if !OneTransfer(p) { AtApart(st.regs[p.r1], WordCount(p) - Left(p, DataRegs(p), WordCount(p)), 0); }
  }

  /**
   A copy or clear for which movc_preserving_r1r2 says yes leaves the destination register
   as it was, in every state, exactly when the whole block goes in one transfer.
   */
  lemma PreservingIff(p: Request, known: Known)
    requires Sensible(p) && Preserving(p)
    ensures Expand(p, known).Line?
    ensures (forall st :: Separate(p, BlocksOf(p, st)) ==> Run(Expand(p, known).code, st).regs[p.r1] == st.regs[p.r1])
            <==> OneTransfer(p)
  {
    hide Run, Separate, Expand, BlocksOf, OneTransfer, Count;
    ExpandIsLine(p, known);
    forall st | Separate(p, BlocksOf(p, st))
      ensures Run(Expand(p, known).code, st).regs[p.r1] == st.regs[p.r1] <==> OneTransfer(p)
    {
      DestinationAfter(p, known, st);
    }
    WorkSize(p);
    PreservingIsLine(p);
    FarSeparate(p);
    DestinationAfter(p, known, FarState(p));
  }

  /** The last piece of a copy without post-indexing leaves the source register alone, unless it takes it for data. */
  lemma LastSource(p: Request, b: Blocks, st: State, now: State, c: nat, s: set<Reg>)
    requires Sensible(p) && Progress(p, b, st, now, c, s) && Separate(p, b) && c <= Count(s) && s <= Taken(p)
    requires p.what.Copy?
    ensures Run(Last(p, s, false, c), now).regs[p.r2] == now.regs[p.r2]
  {
    hide Taken, At, Rank, Count, Filled, Run, Piece, Progress;
    if c == 0 {
      RunNone(now);
    } else {
      PieceCounts(s, c);
      LowerSubset(s, c);
      NotTaken(p);
      PieceRun(p, b, true, st, now, c, Lower(s, c), s, false, false);
    }
  }

  lemma SourceAtPosition(p: Request, b: Blocks, st: State, now: State, c: int, s: set<Reg>)
    requires Progress(p, b, st, now, c, s) && p.what.Copy?
    ensures now.regs[p.r2] == At(b.s, Position(p, c))
  {
    hide Filled, At, Readable;
  }

  /** Every piece but the last moves the source register on. */
  lemma {:induction false} SourceRun(p: Request, b: Blocks, st: State, now: State, c: nat, s: set<Reg>)
    requires Sensible(p) && Progress(p, b, st, now, c, s) && Separate(p, b)
    requires s <= Taken(p) && (Count(s) >= 1 || c == 0) && p.what.Copy? && !p.post && !p.deadR2
    ensures Run(Straight(p, s, c), now).regs[p.r2] == At(b.s, Position(p, Left(p, s, c)))
    decreases c
  {
    hide Taken, At, Rank, Count, Filled, Run, Piece, Progress, Last, Separate;
    NotTaken(p);
    SourceAtPosition(p, b, st, now, c, s);
    if c > Count(s) {
      var mid := Run(Piece(p, false, s, true, true), now);
      PieceRun(p, b, false, st, now, c, s, s, true, true);
      PieceStep(p, b, st, now, mid, c, s, s);
      SourceRun(p, b, st, mid, c - Count(s), s);
      RunAppend(Piece(p, false, s, true, true), Straight(p, s, c - Count(s)), now);
    } else {
      LastSource(p, b, st, now, c, s);
    }
  }

  lemma CopyCode(p: Request, known: Known)
    requires Sensible(p) && !UsesLoop(p) && p.what.Copy?
    ensures Count(DataRegs(p)) >= 1 || WordCount(p) == 0
    ensures Expand(p, known).code == Straight(p, DataRegs(p), WordCount(p))
  {
    hide DataRegs, Straight, Count;
    SomeData(p);
    var code := Straight(p, DataRegs(p), WordCount(p));
    assert [] + code == code;
  }

  /**
   The source register too: of a copy without post-indexing from a source that stays in use,
   it ends as it was, in each single state, exactly when the block goes in one transfer.
   */
  lemma SourceAfter(p: Request, known: Known, st: State)
    requires Sensible(p) && Preserving(p) && Separate(p, BlocksOf(p, st))
    requires p.what.Copy? && !p.post && !p.deadR2
    ensures Run(Expand(p, known).code, st).regs[p.r2] == st.regs[p.r2] <==> OneTransfer(p)
  {
    hide Run, Separate, Expand, BlocksOf, Left, DataRegs, At, Count, OneTransfer, Progress, Straight;
    var s, n, b := DataRegs(p), WordCount(p), BlocksOf(p, st);
    ExpandIsLine(p, known);
    PreservedLeft(p);
    WorkSize(p);
    PreservingIsLine(p);
    CopyCode(p, known);
    SomeData(p);
    var now := ZerosStart(p, st);
    RunNone(st);
    SourceRun(p, b, st, now, n, s);
    SourceIs(p, st);
    AtIsStart(st.regs[p.r2]);
    if !OneTransfer(p) { AtApart(st.regs[p.r2], n - Left(p, s, n), 0); }
  }

  lemma SourceIs(p: Request, st: State)
    ensures p.what.Copy? ==> BlocksOf(p, st).s == st.regs[p.r2]
  {
  }

  /** Also when the source dies, if the work registers are enough to hold the block. */
  lemma SourcePreserved(p: Request, known: Known, st: State)
    requires Sensible(p) && Preserving(p) && OneTransfer(p) && p.what.Copy? && !p.post
    requires WordCount(p) <= Count(WorkRegs(p)) && Separate(p, BlocksOf(p, st))
    ensures Run(Expand(p, known).code, st).regs[p.r2] == st.regs[p.r2]
  {
    hide Run, Count, Rank, Progress, BlocksOf, Last, Separate, DataRegs;
    var s, n, b := DataRegs(p), WordCount(p), BlocksOf(p, st);
    SomeData(p);
    PreservingIsLine(p);
    EnoughData(p);
    CopyCode(p, known);
    var now := ZerosStart(p, st);
    RunNone(st);
    LastSource(p, b, st, now, n, s);
  }

  lemma EnoughData(p: Request)
    requires Sensible(p) && Preserving(p) && OneTransfer(p) && WordCount(p) <= Count(WorkRegs(p))
    ensures WordCount(p) <= Count(DataRegs(p))
  {
    hide Count;
    PreservingIsLine(p);
    TrimmedCount(WorkRegs(p), WordCount(p));
  }

  lemma ExpandIsLine(p: Request, known: Known)
    requires Sensible(p) && Preserving(p)
    ensures Expand(p, known).Line? && !UsesLoop(p)
  {
    hide Count, Straight, ZeroCode;
    PreservingIsLine(p);
  }

  lemma DestinationIs(p: Request, st: State)
    ensures !p.what.PushCopy? ==> BlocksOf(p, st).d == st.regs[p.r1]
  {
  }

  // ---- the cache after a block move ----

  /** What the cache holds when the expansion is done: the counter is recorded with what it began with. */
  function Recorded(p: Request, known: Known): Known
    requires Sensible(p)
  {
    SomeData(p);
    if UsesLoop(p) then
      Rounds(p, WordCount(p), Count(DataRegs(p)));
      Cleared(p, known)[Counter(p) := Some(WordCount(p) / Count(DataRegs(p)))]
    else Cleared(p, known)
  }

  /** A register that the code moves, or, if it is the dying source, takes for data. */
  function Pointers(p: Request): set<Reg> { {p.r1} + (if Moves(p) then {p.r2} else {}) }

  /** Of the pointers that are recorded and not forgotten at the end, each has kept its value. */
  ghost predicate PointersKept(p: Request, known: Known, killed: set<Reg>, st: State, end: State)
  {
    forall r: Reg :: r in Pointers(p) && r !in killed && known[r].Some? ==> end.regs[r] == st.regs[r]
  }

  /**
   The registers that UpdateRegisters forgets (GetRegisterUsage): what the operation says it writes
   or spoils, when only `given` of its free registers had been named and no spare ones added.
   */
  function Usage(p: Request, given: set<Reg>): set<Reg>
  {
    var w := {3, IP} + (if p.size > LOOP_THRESHOLD then {1, 2} else {}) + given;
    w + (if p.what.PushCopy? || 4 * Count(w) < p.size then {p.r1} else {})
    + (if p.what.PushCopy? || (p.what.Copy? && (p.post || 4 * Count(w) + 4 < p.size)) then {p.r2} else {})
  }

  /**
   Whatever is forgotten at the end, the cache is in step after the block, in each single state,
   exactly when the counter of a loop is forgotten and the other pointers have kept their values.
   */
  lemma BlockCacheIff(p: Request, known: Known, killed: set<Reg>, st: State, end: State)
    requires Sensible(p) && Separate(p, BlocksOf(p, st)) && Agrees(known, st.regs)
    requires RunsTo(Expand(p, known), st, end)
    ensures Agrees(Forget(Recorded(p, known), killed), end.regs)
            <==> (UsesLoop(p) ==> Counter(p) in killed) && PointersKept(p, known, killed, st, end)
  {
    hide Expand, BlocksOf, Filled, RunsTo, Count, DataRegs, UsesLoop, Counter, At, Separate;
    ExpandCorrect(p, known, st);
    SomeData(p);
    NotTaken(p);
    if UsesLoop(p) { Rounds(p, WordCount(p), Count(DataRegs(p))); }
    var cache := Forget(Recorded(p, known), killed);
    if !(UsesLoop(p) ==> Counter(p) in killed) {
      assert cache[Counter(p)].Some? && cache[Counter(p)].value != 0 == end.regs[Counter(p)];
    } else if !PointersKept(p, known, killed, st, end) {
      var r: Reg :| r in Pointers(p) && r !in killed && known[r].Some? && end.regs[r] != st.regs[r];
      assert cache[r] == known[r];
    } else {
      forall r: Reg | cache[r].Some? ensures end.regs[r] == cache[r].value {}
    }
  }

  /**
   With no spare register added, what the operation is said to write or spoil covers the counter:
   the cache is then in step exactly when the pointers not said to be written have kept their values.
   The destination, if it is one of them and the source is no work register, is a case for
   movc_preserving_r1r2, whose yes DestinationAfter judges.
   */
  lemma UsageEnough(p: Request, known: Known, st: State, end: State)
    requires Sensible(p) && Separate(p, BlocksOf(p, st)) && Agrees(known, st.regs)
    requires RunsTo(Expand(p, known), st, end)
    ensures var killed := Usage(p, p.free);
            && (Agrees(Forget(Recorded(p, known), killed), end.regs) <==> PointersKept(p, known, killed, st, end))
            && (p.r1 !in killed && (p.what.Clear? || !MayUse(p, p.r2)) ==> Preserving(p))
            && (!MayUse(p, p.r1) && (p.what.Clear? || !MayUse(p, p.r2)) ==>
                  && (p.r1 in killed <==> p.what.PushCopy? || 4 * Count(WorkRegs(p)) < p.size)
                  && (Moves(p) ==>
                        (p.r2 in killed <==> p.what.PushCopy? || p.post || 4 * Count(WorkRegs(p)) + 4 < p.size)))
            && (forall r: Reg :: r in killed && r != p.r1 && (p.what.Clear? || r != p.r2) ==> MayUse(p, r))
  {
    hide Expand, BlocksOf, RunsTo, Count, DataRegs, UsesLoop, Separate, Recorded, Agrees, PointersKept;
    var killed := Usage(p, p.free);
    BlockCacheIff(p, known, killed, st, end);
    SomeData(p);
    WorkRegsFree(p);
    assert UsesLoop(p) ==> Counter(p) in killed;
    if (p.r1 !in killed || !MayUse(p, p.r1)) && (p.what.Clear? || !MayUse(p, p.r2)) {
      assert WorkRegs(p) == {3, IP} + (if p.size > LOOP_THRESHOLD then {1, 2} else {}) + p.free;
    }
  }

  // ---- as the source writes it ----

  method Zero(s: set<Reg>, known: Known) returns (code: Code, cache: Known)
    ensures code == ZeroCode(s) && cache == Zeroed(known, s)
  {
    hide LoadCode, ZeroCode;
    code, cache := [], known;
    var i: nat := 0;
    while i < 16
      invariant i <= 16 && code + ZeroCode(s, i) == ZeroCode(s)
      invariant forall r: Reg :: cache[r] == if r in s && r < i then Some(0) else known[r]
    {
      ghost var before, rest := code, ZeroCode(s, i);
      ZeroStep(s, i);
      if i in s {
        FieldsSuffice(i, cache);
        code, cache := code + LoadCode(i, 0, false, cache), cache[i := Some(0)];
      }
      i := i + 1;
      assert before + rest == code + ZeroCode(s, i);
    }
    ZeroEnd(s);
  }

  lemma ZeroStep(s: set<Reg>, i: nat)
    requires i < 16
    ensures ZeroCode(s, i) == (if i in s then LoadCode(i, 0, false, UNKNOWN) else []) + ZeroCode(s, i + 1)
  {
    hide LoadCode;
  }

  lemma ZeroEnd(s: set<Reg>)
    ensures ZeroCode(s, 16) == []
  {
  }

  /** The straight-line loop and what follows it. */
  method Unroll(p: Request, start: set<Reg>, n: nat) returns (code: Code)
    requires Count(start) >= 1 || n == 0
    ensures code == Straight(p, start, n)
  {
    hide Piece, Count, Rank;
    var regs, rcount, count: int := start, Count(start), n;
    var loadWb := p.post || p.what.PushCopy?;
    code := [];
    while count > rcount
      invariant regs == start && rcount == Count(start) && count >= 0
      invariant code + Straight(p, start, count) == Straight(p, start, n)
      invariant loadWb == (p.post || p.what.PushCopy?)
      decreases count
    {
      if Moves(p) && count == rcount + 1 && rcount < p.limit && p.deadR2 && !p.post {
        rcount := rcount + 1;
        regs := regs + {p.r2};
        loadWb := false;
        code := code + Last(p, regs, loadWb, count);
        return;
      }
      ghost var before, rest := code, Straight(p, start, count);
      code := code + Piece(p, false, regs, true, true);
      count := count - rcount;
      assert before + rest == code + Straight(p, start, count);
    }
    code := code + Last(p, regs, loadWb, count);
  }

  /** Is there to be a loop, on which counter, and which registers hold the data; all of them are forgotten. */
  method ChooseRegs(p: Request, known: Known) returns (useloop: bool, loopreg: Reg, regs: set<Reg>, cache: Known)
    requires Sensible(p)
    ensures useloop == UsesLoop(p) && (useloop ==> loopreg == Counter(p)) && regs == DataRegs(p)
    ensures cache == Forget(known, Taken(p))
  {
    hide Rank, Lower;
    regs, cache, loopreg := WorkRegs(p), known, 0;
    var rcount: int := Count(regs);
    var count: int := p.size / 4;
    useloop := p.size > LOOP_THRESHOLD;
    SomeData(p);
    if useloop {
      if (Moves(p) && count <= 3 * rcount) || count <= 4 * rcount {
        useloop := false;
      } else {
        var low := Lowest(regs);
        loopreg := low.value;
        DroppedCount(regs, loopreg);
        rcount := rcount - 1;
        regs := regs - {loopreg};
        cache := Forget(cache, {loopreg});
      }
    }
    var i: int := if count < p.limit then rcount - count else rcount - p.limit;
    if i > 0 { regs := LSBits(regs, rcount - i); }
    cache := Forget(cache, regs);
    assert regs == DataRegs(p);
  }

  /** The choice of registers, the zeros and the loop or the line (show_inst_direct), and what the cache then holds. */
  method ExpandBlock(p: Request, known: Known) returns (x: Expansion, cache: Known)
    requires Sensible(p)
    ensures x == Expand(p, known) && cache == Recorded(p, known)
  {
    hide Piece, Rank, Count, Straight, ZeroCode, LoadCode, CountDown, Last, Zeroed, Taken, UsesLoop, DataRegs, Counter;
    var useloop, loopreg, regs;
    useloop, loopreg, regs, cache := ChooseRegs(p, known);
    SomeData(p);
    var rcount, count := Count(regs), p.size / 4;
    var zeros := [];
    if !Moves(p) { zeros, cache := Zero(regs, cache); }
    if useloop {
      var before := zeros + LoadCode(loopreg, count / rcount, false, cache);
      var body := Piece(p, false, regs, true, true) + CountDown(loopreg);
      x := Looped(before, body, Last(p, regs, p.post || p.what.PushCopy?, count % rcount));
      Rounds(p, count, rcount);
      cache := cache[loopreg := Some(count / rcount)];
    } else {
      var line := Unroll(p, regs, count);
      x := Line(zeros + line);
    }
  }

  lemma DroppedCount(s: set<Reg>, r: Reg)
    requires r in s
    ensures Count(s - {r}) == Count(s) - 1
  {
    RankAdd(s - {r}, r, 16);
    assert s - {r} + {r} == s;
  }
}
