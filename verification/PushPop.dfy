/**
 Pushing and popping register sets in pieces no larger than the limit on block transfers
 (LSBits, MSBits, PushRegs and PopRegs in arm/gen.c).
 */
module PushPop {
  import opened Words
  import opened Arm
  import opened Immediates
  import opened Transfers
  import opened Combiner
  import opened CombinerPlan

  /** The registers of s with at least k below them, and those with fewer. */
  function Upper(s: set<Reg>, k: nat): set<Reg> { set r: Reg | r in s && Rank(s, r) >= k }

  function Lower(s: set<Reg>, k: nat): set<Reg> { set r: Reg | r in s && Rank(s, r) < k }

  function Push(s: set<Reg>): Instr { Block(false, SP, DB, true, s) }

  function Pop(s: set<Reg>): Instr { Block(true, SP, IA, SP !in s, s) }

  /** Pieces of at most `limit` registers, highest registers first. */
  function PushCode(s: set<Reg>, limit: nat): Code
    requires limit >= 1
    decreases Count(s)
  {
    if Count(s) > limit then
      PieceCounts(s, Count(s) - limit);
      [Push(Upper(s, Count(s) - limit))] + PushCode(Lower(s, Count(s) - limit), limit)
    else [Push(s)]
  }

  function MaxPop(limit: nat): nat { if limit < 3 then 3 else limit }

  /** Pieces popped with writeback, lowest registers first. */
  function PopLow(s: set<Reg>, most: nat): Code
    requires most >= 1
    decreases Count(s)
  {
    if Count(s) == 0 then []
    else
      var n := if Count(s) > most then most else Count(s);
      PieceCounts(s, n);
      [Block(true, SP, IA, true, Lower(s, n))] + PopLow(Upper(s, n), most)
  }

  /** The highest registers, with SP and PC if they are popped, go last. */
  function PopCode(s: set<Reg>, limit: nat): Code
  {
    var most := MaxPop(limit);
    if most < Count(s) then PopLow(Lower(s, Count(s) - most), most) + [Pop(Upper(s, Count(s) - most))]
    else [Pop(s)]
  }

  // ---- pieces ----

  lemma {:induction false} RankOfUpper(s: set<Reg>, k: nat, j: nat)
    requires j <= 16
    ensures Rank(Upper(s, k), j) == if Rank(s, j) >= k then Rank(s, j) - k else 0
  {
    if j > 0 { RankOfUpper(s, k, j - 1); }
  }

  lemma {:induction false} RankOfLower(s: set<Reg>, k: nat, j: nat)
    requires j <= 16
    ensures Rank(Lower(s, k), j) == if Rank(s, j) >= k then k else Rank(s, j)
  {
    if j > 0 { RankOfLower(s, k, j - 1); }
  }

  lemma PieceCounts(s: set<Reg>, k: nat)
    requires k <= Count(s)
    ensures Count(Upper(s, k)) == Count(s) - k && Count(Lower(s, k)) == k
    ensures Upper(s, k) + Lower(s, k) == s && Upper(s, k) !! Lower(s, k)
  {
    RankOfUpper(s, k, 16);
    RankOfLower(s, k, 16);
  }

  /** No two registers of a block share an address. */
  lemma BlockApart(mode: Mode, s: set<Reg>)
    ensures Apart(BlockOffsets(mode, s))
  {
    hide BlockStart;
    var q, start := BlockOffsets(mode, s), BlockStart(mode, Count(s));
    forall r1: Reg, r2: Reg | r1 in s && r2 in s && r1 != r2 ensures Wrap(q[r1]) != Wrap(q[r2]) {
      RanksDiffer(s, r1, r2);
      NearDiffer(start, Rank(s, r1), Rank(s, r2));
    }
  }

  lemma NearDiffer(start: int, i: nat, j: nat)
    requires i <= 16 && j <= 16 && i != j
    ensures Wrap(start + 4 * i) != Wrap(start + 4 * j)
  {
  }

  lemma RanksDiffer(s: set<Reg>, a: Reg, b: Reg)
    requires a in s && b in s && a != b
    ensures Rank(s, a) != Rank(s, b)
  {
    if a < b { RankMonotone(s, a + 1, b); } else { RankMonotone(s, b + 1, a); }
  }

  lemma PieceRank(s: set<Reg>, k: nat, r: Reg)
    requires r in s
    ensures r in Upper(s, k) ==> Rank(Upper(s, k), r) == Rank(s, r) - k
    ensures r in Lower(s, k) ==> Rank(Lower(s, k), r) == Rank(s, r)
    ensures r in Lower(s, k) <==> r !in Upper(s, k)
  {
    RankOfUpper(s, k, r);
    RankOfLower(s, k, r);
  }

  /**
   The upper piece of a push goes where the whole push would put it; so does the rest, from the
   moved stack pointer.
   */
  lemma PushPieces(s: set<Reg>, k: nat)
    requires k <= Count(s)
    ensures BlockOffsets(DB, Upper(s, k)) == Only(BlockOffsets(DB, s), Upper(s, k))
    ensures BlockOffsets(DB, Lower(s, k)) == Rebased(BlockOffsets(DB, s) - Upper(s, k), -4 * (Count(s) - k))
  {
    hide Rank, Count;
    PieceCounts(s, k);
    var q, u, l := BlockOffsets(DB, s), Upper(s, k), Lower(s, k);
    forall r: Reg | r in u ensures BlockOffsets(DB, u)[r] == q[r] {
      PieceRank(s, k, r);
    }
    forall r: Reg | r in l ensures BlockOffsets(DB, l)[r] == q[r] - -4 * (Count(s) - k) {
      PieceRank(s, k, r);
    }
    assert (q - u).Keys == l;
    assert q.Keys * u == u;
  }

  // ---- pushing ----

  lemma PushExec(s: set<Reg>, st: State)
    requires SP !in s
    ensures Exec(Push(s), st)
            == State(st.regs[SP := Addr(st.regs[SP], -4 * Count(s))], st.flags,
                StoreAll(BlockOffsets(DB, s), st.regs[SP], st.regs, st.mem))
  {
    hide StoreAll, Addr, BlockOffsets, Count;
  }

  lemma PushTwice(s: set<Reg>, k: nat, st: State)
    requires SP !in s && k <= Count(s)
    ensures Exec(Push(Lower(s, k)), Exec(Push(Upper(s, k)), st)) == Exec(Push(s), st)
  {
    hide StoreAll, Addr, BlockOffsets, Count, Exec, Rank;
    var b, q, u := st.regs[SP], BlockOffsets(DB, s), Upper(s, k);
    var n := Count(s) - k;
    PieceCounts(s, k);
    PushPieces(s, k);
    PushExec(s, st);
    PushExec(u, st);
    var mid := Exec(Push(u), st);
    PushExec(Lower(s, k), mid);
    BlockApart(DB, s);
    StoreSplit(q, u, b, st.regs, st.mem);
    KeysOfRest(s, k);
    StoreFrame(q - u, b, st.regs, mid.regs, mid.mem, 16);
    StoreRebase(q - u, -4 * n, b, mid.regs, mid.mem, 16);
    AddrAddr(b, -4 * n, -4 * k);
  }

  lemma KeysOfRest(s: set<Reg>, k: nat)
    ensures (BlockOffsets(DB, s) - Upper(s, k)).Keys <= s
  {
    hide Rank, Count;
  }

  /** For every set without SP and every limit, the pieces do what one STMFD does. */
  lemma {:induction false} PushRefines(s: set<Reg>, limit: nat, st: State)
    requires limit >= 1 && SP !in s
    ensures Run(PushCode(s, limit), st) == Exec(Push(s), st)
    decreases Count(s)
  {
    hide Exec, Run, Count, Rank;
    if Count(s) > limit {
      var k := Count(s) - limit;
      PieceCounts(s, k);
      PushRefines(Lower(s, k), limit, Exec(Push(Upper(s, k)), st));
      PushTwice(s, k, st);
      RunAppend([Push(Upper(s, k))], PushCode(Lower(s, k), limit), st);
      RunOne(Push(Upper(s, k)), st);
    } else {
      RunOne(Push(s), st);
    }
  }

  /** No block transfer has more than n registers, or none. */
  ghost predicate Bounded(code: Code, n: nat)
  {
    forall i :: 0 <= i < |code| && code[i].Block? ==> 1 <= Count(code[i].regs) <= n
  }

  lemma BoundedAppend(a: Code, b: Code, n: nat)
    requires Bounded(a, n) && Bounded(b, n)
    ensures Bounded(a + b, n)
  {
    hide Count;
    forall i | 0 <= i < |a + b| && (a + b)[i].Block? ensures 1 <= Count((a + b)[i].regs) <= n {
      if i < |a| { assert (a + b)[i] == a[i]; } else { assert (a + b)[i] == b[i - |a|]; }
    }
  }

  /** Every piece of a push keeps the limit, and is full but for the last. */
  lemma {:induction false} PushBounded(s: set<Reg>, limit: nat)
    requires limit >= 1 && Count(s) >= 1
    ensures Bounded(PushCode(s, limit), limit)
    ensures limit * (|PushCode(s, limit)| - 1) < Count(s) <= limit * |PushCode(s, limit)|
    decreases Count(s)
  {
    hide Count, Rank;
    if Count(s) > limit {
      var k := Count(s) - limit;
      PieceCounts(s, k);
      PushBounded(Lower(s, k), limit);
      BoundedAppend([Push(Upper(s, k))], PushCode(Lower(s, k), limit), limit);
      OneMorePiece(limit, |PushCode(Lower(s, k), limit)|);
    }
  }

  lemma OneMorePiece(limit: nat, n: nat)
    ensures limit * (n + 1) == limit * n + limit && limit * (n - 1) == limit * n - limit
  {
  }

  /** Some block transfer of the code names r. */
  ghost predicate Names(code: Code, r: Reg)
  {
    exists i :: 0 <= i < |code| && code[i].Block? && r in code[i].regs
  }

  lemma NamesAppend(a: Code, b: Code, r: Reg)
    ensures Names(a + b, r) <==> Names(a, r) || Names(b, r)
  {
    var c := a + b;
    if i :| 0 <= i < |a| && a[i].Block? && r in a[i].regs { assert c[i] == a[i]; }
    if i :| 0 <= i < |b| && b[i].Block? && r in b[i].regs { assert c[|a| + i] == b[i]; }
    if i :| 0 <= i < |c| && c[i].Block? && r in c[i].regs {
      assert i < |a| ==> c[i] == a[i];
      assert i >= |a| ==> c[i] == b[i - |a|];
    }
  }

  /** A push names just the registers it is asked for. */
  lemma {:induction false} PushNames(s: set<Reg>, limit: nat, r: Reg)
    requires limit >= 1
    ensures Names(PushCode(s, limit), r) <==> r in s
    decreases Count(s)
  {
    hide Count, Rank;
    if Count(s) > limit {
      var k := Count(s) - limit;
      PieceCounts(s, k);
      PushNames(Lower(s, k), limit, r);
      NamesAppend([Push(Upper(s, k))], PushCode(Lower(s, k), limit), r);
      assert [Push(Upper(s, k))][0].Block?;
    } else {
      assert PushCode(s, limit)[0].Block?;
    }
  }

  /** Likewise for what is popped with writeback. */
  lemma {:induction false} PopLowBounded(s: set<Reg>, most: nat)
    requires most >= 1
    ensures Bounded(PopLow(s, most), most)
    ensures |PopLow(s, most)| * most < Count(s) + most
    decreases Count(s)
  {
    hide Count, Rank;
    if Count(s) > 0 {
      var n := if Count(s) > most then most else Count(s);
      PieceCounts(s, n);
      PopLowBounded(Upper(s, n), most);
      BoundedAppend([Block(true, SP, IA, true, Lower(s, n))], PopLow(Upper(s, n), most), most);
      OneMorePiece(most, |PopLow(Upper(s, n), most)|);
    }
  }

  /** Pops keep the limit too, or three where it is smaller, so that SP and PC can go together. */
  lemma PopBounded(s: set<Reg>, limit: nat)
    requires Count(s) >= 1
    ensures var most := if limit < 3 then 3 else limit;
            Bounded(PopCode(s, limit), most) && (|PopCode(s, limit)| - 1) * most < Count(s)
  {
    hide Count, Rank;
    var most := MaxPop(limit);
    if most < Count(s) {
      var k := Count(s) - most;
      PieceCounts(s, k);
      PopLowBounded(Lower(s, k), most);
      BoundedAppend(PopLow(Lower(s, k), most), [Pop(Upper(s, k))], most);
    }
  }

  // ---- popping ----

  function LoadUp(s: set<Reg>, wb: bool): Instr { Block(true, SP, IA, wb, s) }

  lemma LoadUpExec(s: set<Reg>, wb: bool, st: State)
    ensures Exec(LoadUp(s, wb), st)
            == State(LoadAll(BlockOffsets(IA, s), st.regs[SP], st.mem,
                             if wb then st.regs[SP := Addr(st.regs[SP], 4 * Count(s))] else st.regs), st.flags, st.mem)
  {
    hide LoadAll, Addr, BlockOffsets, Count;
  }

  /** What a register holds after a block load. */
  lemma LoadUpAt(s: set<Reg>, wb: bool, st: State, r: Reg)
    ensures var end := Exec(LoadUp(s, wb), st);
            end.regs[r] == if r in s then Read(st.mem, Addr(st.regs[SP], 4 * Rank(s, r)))
                           else if r == SP && wb then Addr(st.regs[SP], 4 * Count(s)) else st.regs[r]
  {
    hide Addr, Read, Rank, Count, Exec;
    LoadUpExec(s, wb, st);
    var q := BlockOffsets(IA, s);
    assert r in q <==> r in s;
    if r in s { assert q[r] == 4 * Rank(s, r); }
  }

  lemma LoadUpFrame(s: set<Reg>, wb: bool, st: State)
    ensures Exec(LoadUp(s, wb), st).mem == st.mem && Exec(LoadUp(s, wb), st).flags == st.flags
  {
    hide LoadAll, Addr, BlockOffsets, Count, Exec;
    LoadUpExec(s, wb, st);
  }

  lemma PopTwice(s: set<Reg>, k: nat, wb: bool, st: State)
    requires k <= Count(s) && SP !in Lower(s, k) && (SP in s <==> !wb)
    ensures Exec(LoadUp(Upper(s, k), wb), Exec(LoadUp(Lower(s, k), true), st)) == Exec(LoadUp(s, wb), st)
  {
    hide Exec, Rank, Count, Addr, Read, LoadUp;
    var l, u := Lower(s, k), Upper(s, k);
    var mid := Exec(LoadUp(l, true), st);
    var end, whole := Exec(LoadUp(u, wb), mid), Exec(LoadUp(s, wb), st);
    PieceCounts(s, k);
    LoadUpFrame(l, true, st);
    LoadUpFrame(u, wb, mid);
    LoadUpFrame(s, wb, st);
    LoadUpAt(l, true, st, SP);
    forall r: Reg ensures end.regs[r] == whole.regs[r] {
      LoadUpAt(l, true, st, r);
      LoadUpAt(u, wb, mid, r);
      LoadUpAt(s, wb, st, r);
      if r in s { PieceRank(s, k, r); }
      AddrAddr(st.regs[SP], 4 * k, 4 * k + 4 * Rank(u, r) - 4 * k);
      AddrAddr(st.regs[SP], 4 * k, 4 * (Count(s) - k));
    }
    assert end.regs == whole.regs;
  }

  lemma {:induction false} PopLowRefines(s: set<Reg>, most: nat, st: State)
    requires most >= 1 && SP !in s
    ensures Run(PopLow(s, most), st) == Exec(LoadUp(s, true), st)
    decreases Count(s)
  {
    hide Exec, Run, Count, Rank, LoadUp;
    if Count(s) == 0 {
      RunNone(st);
      NothingPopped(s, st);
    } else {
      var n := if Count(s) > most then most else Count(s);
      var l, u := Lower(s, n), Upper(s, n);
      PieceCounts(s, n);
      PopLowRefines(u, most, Exec(LoadUp(l, true), st));
      PopTwice(s, n, true, st);
      assert LoadUp(l, true) == Block(true, SP, IA, true, l) by { LoadUpIs(l); }
      RunAppend([LoadUp(l, true)], PopLow(u, most), st);
      RunOne(LoadUp(l, true), st);
    }
  }

  lemma LoadUpIs(s: set<Reg>)
    ensures forall wb: bool :: LoadUp(s, wb) == Block(true, SP, IA, wb, s)
  {
  }

  lemma NothingPopped(s: set<Reg>, st: State)
    requires Count(s) == 0
    ensures Exec(LoadUp(s, true), st) == st
  {
    hide Exec, LoadUp, Addr, Read;
    LoadUpFrame(s, true, st);
    AddrZero(st.regs[SP]);
    forall r: Reg ensures Exec(LoadUp(s, true), st).regs[r] == st.regs[r] {
      LoadUpAt(s, true, st, r);
      RankMonotone(s, r + 1, 16);
    }
    assert Exec(LoadUp(s, true), st).regs == st.regs;
  }

  /** SP is one of the three highest registers of any set that holds it. */
  lemma SpIsHigh(s: set<Reg>, k: nat)
    requires k + 3 <= Count(s)
    ensures SP !in Lower(s, k)
  {
    assert Rank(s, 14) <= Rank(s, 13) + 1;
    assert Rank(s, 15) <= Rank(s, 14) + 1;
  }

  /** For every set and limit, with or without SP and PC, the pieces do what one LDMFD does. */
  lemma PopRefines(s: set<Reg>, limit: nat, st: State)
    ensures Run(PopCode(s, limit), st) == Exec(Pop(s), st)
  {
    hide Exec, Run, Count, Rank, PopLow;
    var most := MaxPop(limit);
    if most < Count(s) {
      var k := Count(s) - most;
      PieceCounts(s, k);
      SpIsHigh(s, k);
      PopLowRefines(Lower(s, k), most, st);
      RunSnoc(PopLow(Lower(s, k), most), Pop(Upper(s, k)), st);
      PopTwice(s, k, SP !in s, st);
    } else {
      RunOne(Pop(s), st);
    }
  }

  // ---- round trip ----

  lemma PushOffset(s: set<Reg>, r: Reg)
    requires r in s
    ensures r in BlockOffsets(DB, s) && BlockOffsets(DB, s)[r] == -4 * Count(s) + 4 * Rank(s, r)
  {
    hide Rank, Count;
  }

  /** The words of a push, read back from where the stack pointer then is. */
  lemma PushedWord(s: set<Reg>, st: State, r: Reg)
    requires SP !in s && r in s
    ensures var end := Exec(Push(s), st);
            Read(end.mem, Addr(end.regs[SP], 4 * Rank(s, r))) == st.regs[r]
  {
    hide Exec, StoreAll, Addr, Count, Rank;
    PushExec(s, st);
    BlockApart(DB, s);
    PushOffset(s, r);
    hide BlockOffsets, Apart;
    StoredHas(BlockOffsets(DB, s), st.regs[SP], st.regs, st.mem, r);
    AddrAddr(st.regs[SP], -4 * Count(s), 4 * Rank(s, r));
  }

  /** Popping what was pushed restores every register and the stack pointer, whatever the limits. */
  lemma PopUndoesPush(s: set<Reg>, limit1: nat, limit2: nat, st: State)
    requires limit1 >= 1 && SP !in s
    ensures var end := Run(PushCode(s, limit1) + PopCode(s, limit2), st);
            end.regs == st.regs && end.flags == st.flags && end.mem == Run(PushCode(s, limit1), st).mem
  {
    hide Exec, Run, Count, Rank, PushCode, PopCode, Addr, Read;
    RunAppend(PushCode(s, limit1), PopCode(s, limit2), st);
    PushRefines(s, limit1, st);
    var mid := Exec(Push(s), st);
    PopRefines(s, limit2, mid);
    var end := Exec(LoadUp(s, true), mid);
    PushExec(s, st);
    LoadUpFrame(s, true, mid);
    AddrAddr(st.regs[SP], -4 * Count(s), 4 * Count(s));
    AddrZero(st.regs[SP]);
    forall r: Reg ensures end.regs[r] == st.regs[r] {
      LoadUpAt(s, true, mid, r);
      if r in s { PushedWord(s, st, r); }
    }
    assert end.regs == st.regs;
  }

  // ---- taking bits off a mask ----

  /** Moving the lowest register of what is left. */
  lemma TakeLowest(s: set<Reg>, j: nat)
    ensures var r := Lowest(Upper(s, j));
            if r.Some? then Lower(s, j + 1) == Lower(s, j) + {r.value} && Upper(s, j + 1) == Upper(s, j) - {r.value}
            else Lower(s, j + 1) == Lower(s, j) && Upper(s, j + 1) == Upper(s, j)
  {
    hide Lowest, Rank;
    var r := Lowest(Upper(s, j));
    if r.Some? {
      FirstAtRank(s, j, r.value);
      forall x: Reg | x in s && x != r.value ensures Rank(s, x) != Rank(s, r.value) { RanksDiffer(s, x, r.value); }
    } else {
      forall x: Reg | x in s ensures Rank(s, x) < j { assert x !in Upper(s, j); }
    }
  }

  lemma FirstAtRank(s: set<Reg>, j: nat, r: Reg)
    requires r in Upper(s, j) && forall q: Reg :: q < r ==> q !in Upper(s, j)
    ensures Rank(s, r) == j
  {
    RankOfUpper(s, j, r);
    RankNoneBelow(Upper(s, j), r);
  }

  lemma {:induction false} RankNoneBelow(s: set<Reg>, k: nat)
    requires k <= 16 && forall x: Reg :: x < k ==> x !in s
    ensures Rank(s, k) == 0
  {
    if k > 0 { RankNoneBelow(s, k - 1); }
  }

  lemma NothingLower(s: set<Reg>)
    ensures Lower(s, 0) == {} && Upper(s, 0) == s
  {
  }

  method LSBits(mask: set<Reg>, n: nat) returns (low: set<Reg>)
    ensures low == Lower(mask, n)
  {
    hide Rank, Lowest;
    low := {};
    var left, k := mask, 0;
    NothingLower(mask);
    while k < n
      invariant k <= n && low == Lower(mask, k) && left == Upper(mask, k)
    {
      TakeLowest(mask, k);
      var r := Lowest(left);
      if r.Some? {
        low := low + {r.value};
        left := left - {r.value};
      }
      k := k + 1;
    }
  }

  method MSBits(mask: set<Reg>, n: nat) returns (high: set<Reg>)
    ensures high == Upper(mask, if n < Count(mask) then Count(mask) - n else 0)
  {
    hide Rank, Lowest, Count;
    var n1: int := Count(mask) - n;
    high := mask;
    var k := 0;
    NothingLower(mask);
    while k < n1
      invariant 0 <= k && (k <= n1 || k == 0) && high == Upper(mask, k)
    {
      TakeLowest(mask, k);
      var r := Lowest(high);
      if r.Some? { high := high - {r.value}; }
      k := k + 1;
    }
  }
}
