/**
 Sets of word transfers relative to one base register, whatever order they are done in.

 A queue maps registers to offsets.  When no two offsets meet, doing part of the queue
 first, or moving the base and adjusting the offsets, changes nothing.
 */
module Transfers {
  import opened Words
  import opened Arm
  import opened Immediates
  import opened KnownValues
  import opened AddConstant

  type Queue = map<Reg, int>

  /** The part of a queue that concerns the registers of s. */
  function Only(q: Queue, s: set<Reg>): Queue { map r | r in q.Keys * s :: q[r] }

  /** The same transfers seen from a base that has moved by d. */
  function Rebased(q: Queue, d: int): Queue { map r | r in q :: q[r] - d }

  /** No two transfers use the same address. */
  ghost predicate Apart(q: Queue)
  {
    forall r1: Reg, r2: Reg :: r1 in q && r2 in q && r1 != r2 ==> Wrap(q[r1]) != Wrap(q[r2])
  }

  // ---- adding a constant to the base ----

  /** The cache with no register recorded. */
  const UNKNOWN: Known :=
    [None, None, None, None, None, None, None, None, None, None, None, None, None, None, None, None]

  /** r1 = r2 + i (add_integer), with what the cache then holds. */
  function MoveBy(r1: Reg, r2: Reg, i: int, known: Known): Code { AddCode(r1, r2, Wrap(i), AL, false, known) }

  /** By how much that code misses: what the cache offers is read from the registers as they are. */
  function Slip(r1: Reg, r2: Reg, i: int, known: Known, regs: Regs): Word
  {
    Wrap(Added(r1, r2, Wrap(i), known, regs) - i)
  }

  /** The state in which only register r differs. */
  function With(st: State, r: Reg, v: Word): State { State(st.regs[r := v], st.flags, st.mem) }

  /** In every state the code adds i and what it misses by. */
  lemma MoveByAdds(r1: Reg, r2: Reg, i: int, known: Known, st: State)
    ensures Run(MoveBy(r1, r2, i, known), st)
            == With(st, r1, Addr(st.regs[r2], i + Slip(r1, r2, i, known, st.regs)))
  {
    hide AddCode, Run, Added;
    var n := Added(r1, r2, Wrap(i), known, st.regs);
    AddsAmount(r1, r2, Wrap(i), false, known, st);
    SlipAdds(st.regs[r2], i, n);
  }

  lemma SlipAdds(b: Word, i: int, n: Word)
    ensures Wrap(b + n) == Addr(b, i + Wrap(n - i))
  {
    WrapParts(b + i, n - i);
  }

  lemma AddrOfWrap(b: Word, i: int)
    ensures Wrap(b + Wrap(i)) == Addr(b, i)
  {
  }

  /**
   With the cache in step with the registers the code misses exactly when the cache offers r1
   back after the first instruction and its partial sum contributes something else.
   */
  lemma SlipIff(r1: Reg, r2: Reg, i: int, known: Known, regs: Regs)
    requires Agrees(known, regs)
    ensures Slip(r1, r2, i, known, regs) == 0
            <==> (ReadsBack(r1, Wrap(i), known) ==> Harmless(r1, Wrap(i), known, regs[r2]))
  {
    hide Added, ReadsBack, Harmless, Agrees;
    AddedRight(r1, r2, Wrap(i), known, regs);
    NoDifference(Added(r1, r2, Wrap(i), known, regs), i);
  }

  lemma NoDifference(n: Word, i: int)
    ensures Wrap(n - i) == 0 <==> n == Wrap(i)
  {
  }

  /** So it does not miss when nothing is recorded of r1. */
  lemma NoSlip(r1: Reg, r2: Reg, i: int, known: Known, regs: Regs)
    requires Agrees(known, regs) && known[r1].None?
    ensures Slip(r1, r2, i, known, regs) == 0
  {
    hide ReadsBack, Harmless, Agrees, Slip;
    UnknownNotReadBack(r1, Wrap(i), known);
    SlipIff(r1, r2, i, known, regs);
  }

  lemma SlipSame(r1: Reg, r2: Reg, i: int, known: Known, regs: Regs, regs': Regs)
    requires regs[r2] == regs'[r2] && forall r: Reg :: known[r].Some? ==> regs[r] == regs'[r]
    ensures Slip(r1, r2, i, known, regs) == Slip(r1, r2, i, known, regs')
  {
    hide Added;
    AddedSame(r1, r2, Wrap(i), known, regs, regs');
  }

  lemma MoveByEncodable(r1: Reg, r2: Reg, i: int, known: Known)
    ensures AllEncodable(MoveBy(r1, r2, i, known))
  {
    hide AddCode;
    AddCodeData(r1, r2, Wrap(i), AL, false, known);
  }

  // ---- stores ----

  /** m is memory after the stores of q, said cell by cell. */
  ghost predicate Stored(q: Queue, base: Word, regs: Regs, mem: Mem, m: Mem)
  {
    && (forall r: Reg :: r in q ==> Addr(base, q[r]) in m && m[Addr(base, q[r])] == regs[r])
    && (forall a: Word :: Untouched(q, base, a) ==> (a in m <==> a in mem) && (a in m ==> m[a] == mem[a]))
  }

  ghost predicate Untouched(q: Queue, base: Word, a: Word)
  {
    forall r: Reg :: r in q ==> Addr(base, q[r]) != a
  }

  lemma AddrApart(q: Queue, base: Word, r1: Reg, r2: Reg)
    requires Apart(q) && r1 in q && r2 in q && r1 != r2
    ensures Addr(base, q[r1]) != Addr(base, q[r2])
  {
    assert Wrap(q[r1]) != Wrap(q[r2]);
    AddrDiffers(base, q[r1], q[r2]);
  }

  lemma AddrDiffers(base: Word, i: int, j: int)
    requires Wrap(i) != Wrap(j)
    ensures Addr(base, i) != Addr(base, j)
  {
  }

  /** The stores made by the first k registers. */
  lemma {:induction false} StoreAllStored(q: Queue, base: Word, regs: Regs, mem: Mem, k: nat)
    requires k <= 16 && Apart(q)
    ensures var m := StoreAll(q, base, regs, mem, k);
            && (forall r: Reg :: r in q && r < k ==> Addr(base, q[r]) in m && m[Addr(base, q[r])] == regs[r])
            && (forall a: Word :: Untouched(q, base, a) ==> (a in m <==> a in mem) && (a in m ==> m[a] == mem[a]))
  {
    hide Addr, Apart;
    if k > 0 {
      StoreAllStored(q, base, regs, mem, k - 1);
      var x: Reg := k - 1;
      if x in q {
        forall r: Reg | r in q && r < k - 1 ensures Addr(base, q[r]) != Addr(base, q[x]) {
          AddrApart(q, base, r, x);
        }
      }
    }
  }

  lemma StoresStored(q: Queue, base: Word, regs: Regs, mem: Mem)
    requires Apart(q)
    ensures Stored(q, base, regs, mem, StoreAll(q, base, regs, mem))
  {
    hide Addr, Apart, Untouched, StoreAll;
    StoreAllStored(q, base, regs, mem, 16);
  }

  lemma StoredHas(q: Queue, b: Word, regs: Regs, mem: Mem, r: Reg)
    requires Apart(q) && r in q
    ensures var m := StoreAll(q, b, regs, mem); Addr(b, q[r]) in m && m[Addr(b, q[r])] == regs[r]
  {
    hide StoreAll, Addr, Apart, Untouched;
    StoresStored(q, b, regs, mem);
  }

  lemma StoreMisses(q: Queue, b: Word, regs: Regs, mem: Mem, a: Word)
    requires Apart(q) && Untouched(q, b, a)
    ensures var m := StoreAll(q, b, regs, mem); (a in m <==> a in mem) && (a in m ==> m[a] == mem[a])
  {
    hide StoreAll, Addr, Apart, Untouched;
    StoresStored(q, b, regs, mem);
  }

  /** The cells determine the memory. */
  lemma StoredUnique(q: Queue, base: Word, regs: Regs, mem: Mem, m1: Mem, m2: Mem)
    requires Stored(q, base, regs, mem, m1) && Stored(q, base, regs, mem, m2)
    ensures m1 == m2
  {
    hide Addr;
    forall a: Word ensures (a in m1 <==> a in m2) && (a in m1 ==> m1[a] == m2[a]) {
      if !Untouched(q, base, a) {
        var r: Reg :| r in q && Addr(base, q[r]) == a;
      }
    }
  }

  /** Doing the stores of s first makes no difference. */
  lemma StoreSplit(q: Queue, s: set<Reg>, base: Word, regs: Regs, mem: Mem)
    requires Apart(q)
    ensures StoreAll(q - s, base, regs, StoreAll(Only(q, s), base, regs, mem)) == StoreAll(q, base, regs, mem)
  {
    hide StoreAll, Addr, Stored;
    var m1 := StoreAll(Only(q, s), base, regs, mem);
    var m2 := StoreAll(q - s, base, regs, m1);
    PartsApart(q, s);
    StoresStored(Only(q, s), base, regs, mem);
    StoresStored(q - s, base, regs, m1);
    StoresStored(q, base, regs, mem);
    StoredBoth(q, s, base, regs, mem, m1, m2);
    StoredUnique(q, base, regs, mem, m2, StoreAll(q, base, regs, mem));
  }

  lemma PartsApart(q: Queue, s: set<Reg>)
    requires Apart(q)
    ensures Apart(Only(q, s)) && Apart(q - s)
  {
  }

  lemma StoredBoth(q: Queue, s: set<Reg>, base: Word, regs: Regs, mem: Mem, m1: Mem, m2: Mem)
    requires Apart(q)
    requires Stored(Only(q, s), base, regs, mem, m1) && Stored(q - s, base, regs, m1, m2)
    ensures Stored(q, base, regs, mem, m2)
  {
    hide Apart, Addr;
    forall r: Reg | r in q ensures Addr(base, q[r]) in m2 && m2[Addr(base, q[r])] == regs[r] {
      var a := Addr(base, q[r]);
      if r in s {
        forall x: Reg | x in q - s ensures Addr(base, (q - s)[x]) != a {
          AddrApart(q, base, r, x);
        }
        assert Untouched(q - s, base, a);
        assert r in Only(q, s);
      } else {
        assert r in q - s;
      }
    }
    forall a: Word | Untouched(q, base, a) ensures (a in m2 <==> a in mem) && (a in m2 ==> m2[a] == mem[a]) {
      assert Untouched(Only(q, s), base, a);
      assert Untouched(q - s, base, a);
    }
  }

  /** Only the stored registers matter. */
  lemma {:induction false} StoreFrame(q: Queue, base: Word, regs1: Regs, regs2: Regs, mem: Mem, k: nat)
    requires k <= 16 && forall r: Reg :: r in q ==> regs1[r] == regs2[r]
    ensures StoreAll(q, base, regs1, mem, k) == StoreAll(q, base, regs2, mem, k)
  {
    hide Addr;
    if k > 0 { StoreFrame(q, base, regs1, regs2, mem, k - 1); }
  }

  lemma {:induction false} StoreRebase(q: Queue, d: int, base: Word, regs: Regs, mem: Mem, k: nat)
    requires k <= 16
    ensures StoreAll(Rebased(q, d), Addr(base, d), regs, mem, k) == StoreAll(q, base, regs, mem, k)
  {
    hide Addr;
    if k > 0 {
      StoreRebase(q, d, base, regs, mem, k - 1);
      if k - 1 in q { AddrAddr(base, d, q[k - 1] - d); }
    }
  }

  lemma RebasedApart(q: Queue, d: int)
    requires Apart(q)
    ensures Apart(Rebased(q, d))
  {
    forall r1: Reg, r2: Reg | r1 in q && r2 in q && r1 != r2 ensures Wrap(q[r1] - d) != Wrap(q[r2] - d) {
      AddrDiffers(Wrap(-d), q[r1], q[r2]);
      WrapShift(q[r1], d);
      WrapShift(q[r2], d);
    }
  }

  lemma WrapShift(i: int, d: int)
    ensures Addr(Wrap(-d), i) == Wrap(i - d)
  {
  }

  // ---- what a machine state stands for ----

  /**
   The state the program expects while the transfers of q, and then the addition of adj
   to the base, are still to be done.
   */
  function View(load: bool, base: Reg, q: Queue, adj: int, st: State): State
  {
    var b := st.regs[base];
    var moved := st.regs[base := Addr(b, adj)];
    if load then State(LoadAll(q, b, st.mem, moved), st.flags, st.mem)
    else State(moved, st.flags, StoreAll(q, b, st.regs, st.mem))
  }

  /** Equal but for the registers of x. */
  ghost predicate Same(x: set<Reg>, s: State, t: State)
  {
    s.mem == t.mem && s.flags == t.flags && forall r: Reg :: r !in x ==> s.regs[r] == t.regs[r]
  }

  lemma SameTrans(x: set<Reg>, s: State, t: State, u: State)
    requires Same(x, s, t) && Same(x, t, u)
    ensures Same(x, s, u)
  {
  }

  /** `end` is st after the stores of s alone; the base has moved by d and x may be clobbered. */
  ghost predicate StoredPart(base: Reg, q: Queue, s: set<Reg>, d: int, x: set<Reg>, st: State, end: State)
  {
    var b := st.regs[base];
    && end.flags == st.flags
    && end.mem == StoreAll(Only(q, s), b, st.regs, st.mem)
    && end.regs[base] == Addr(b, d)
    && forall r: Reg :: r !in x && r != base ==> end.regs[r] == st.regs[r]
  }

  /** `end` is st after the loads of s alone; the base has moved by d unless it was loaded. */
  ghost predicate LoadedPart(base: Reg, q: Queue, s: set<Reg>, d: int, st: State, end: State)
  {
    var b := st.regs[base];
    && end.flags == st.flags
    && end.mem == st.mem
    && end.regs == LoadAll(Only(q, s), b, st.mem, st.regs[base := Addr(b, d)])
  }

  /** Doing some of the stores, and moving the base on the way, keeps the view. */
  lemma StoreKeepsView(base: Reg, q: Queue, s: set<Reg>, adj: int, d: int, x: set<Reg>, st: State, end: State)
    requires Apart(q) && StoredPart(base, q, s, d, x, st, end)
    requires base !in x && base !in q && (forall r: Reg :: r in q && r !in s ==> r !in x)
    ensures Same(x, View(false, base, q, adj, st), View(false, base, Rebased(q - s, d), adj - d, end))
  {
    hide StoreAll, Addr;
    var b := st.regs[base];
    StoreSplit(q, s, b, st.regs, st.mem);
    StoreFrame(q - s, b, st.regs, end.regs, end.mem, 16);
    StoreRebase(q - s, d, b, end.regs, end.mem, 16);
    AddrAddr(b, d, adj - d);
  }

  /** Likewise for loads; the base may be loaded only if nothing is left to do. */
  lemma LoadKeepsView(base: Reg, q: Queue, s: set<Reg>, adj: int, d: int, st: State, end: State)
    requires LoadedPart(base, q, s, d, st, end)
    requires base in q ==> adj == 0 && d == 0
    requires base in q && base in s ==> q.Keys <= s
    ensures Same({}, View(true, base, q, adj, st), View(true, base, Rebased(q - s, d), adj - d, end))
  {
    hide Addr, Read;
    var b := st.regs[base];
    var v := View(true, base, q, adj, st);
    var w := View(true, base, Rebased(q - s, d), adj - d, end);
    if base in q && base in s {
      AddrZero(end.regs[base]);
      assert Rebased(q - s, d) == map[];
      forall r: Reg ensures v.regs[r] == w.regs[r] {
        LoadedAt(q, s, b, st, r);
      }
    } else {
      assert end.regs[base] == Addr(b, d);
      forall r: Reg ensures v.regs[r] == w.regs[r] {
        LoadedAt(q, s, b, st, r);
        if r in q { AddrAddr(b, d, q[r] - d); }
        AddrAddr(b, d, adj - d);
      }
    }
  }

  lemma AddrZero(b: Word)
    ensures Addr(b, 0) == b
  {
  }

  lemma LoadedAt(q: Queue, s: set<Reg>, b: Word, st: State, r: Reg)
    ensures r in q ==> LoadAll(q, b, st.mem, st.regs)[r] == Read(st.mem, Addr(b, q[r]))
    ensures r in q && r in s ==> LoadAll(Only(q, s), b, st.mem, st.regs)[r] == Read(st.mem, Addr(b, q[r]))
  {
  }

  // ---- single and multiple transfers as parts of a queue ----

  /** The registers of s go, lowest first, to consecutive words from `start`. */
  ghost predicate Consecutive(q: Queue, s: set<Reg>, start: int)
  {
    s <= q.Keys && forall r: Reg :: r in s ==> q[r] == start + 4 * Rank(s, r)
  }

  /** The offset of the base register that makes a block start at `start`. */
  function BlockBase(mode: Mode, s: set<Reg>, start: int): int { start - BlockStart(mode, Count(s)) }

  lemma BlockOffsetsAre(q: Queue, s: set<Reg>, start: int, mode: Mode)
    requires Consecutive(q, s, start)
    ensures BlockOffsets(mode, s) == Rebased(Only(q, s), BlockBase(mode, s, start))
  {
    hide Rank, BlockStart;
  }

  lemma StoreBlock(q: Queue, s: set<Reg>, start: int, rn: Reg, mode: Mode, wb: bool, b: Word, mid: State)
    requires Consecutive(q, s, start) && mid.regs[rn] == Addr(b, BlockBase(mode, s, start))
    ensures var end := Exec(Block(false, rn, mode, wb, s), mid);
            && end.flags == mid.flags
            && end.mem == StoreAll(Only(q, s), b, mid.regs, mid.mem)
            && end.regs == if wb then mid.regs[rn := Addr(b, BlockBase(mode, s, start) + BlockStep(mode, Count(s)))]
               else mid.regs
  {
    hide StoreAll, Addr, BlockOffsets, Count, BlockStart, BlockStep, ExecData, ExecTransfer;
    var k := BlockBase(mode, s, start);
    BlockOffsetsAre(q, s, start, mode);
    StoreRebase(Only(q, s), k, b, mid.regs, mid.mem, 16);
    AddrAddr(b, k, BlockStep(mode, Count(s)));
  }

  lemma LoadBlock(q: Queue, s: set<Reg>, start: int, rn: Reg, mode: Mode, wb: bool, b: Word, mid: State)
    requires Consecutive(q, s, start) && mid.regs[rn] == Addr(b, BlockBase(mode, s, start))
    ensures var end := Exec(Block(true, rn, mode, wb, s), mid);
            && end.flags == mid.flags
            && end.mem == mid.mem
            && end.regs == LoadAll(Only(q, s), b, mid.mem,
                 if wb then mid.regs[rn := Addr(b, BlockBase(mode, s, start) + BlockStep(mode, Count(s)))]
                     else mid.regs)
  {
    hide StoreAll, Addr, BlockOffsets, Count, BlockStart, BlockStep, LoadAll, ExecData, ExecTransfer;
    var k := BlockBase(mode, s, start);
    BlockOffsetsAre(q, s, start, mode);
    AddrAddr(b, k, BlockStep(mode, Count(s)));
    LoadRebase(Only(q, s), k, b, mid.mem,
      if wb then mid.regs[rn := Addr(b, k + BlockStep(mode, Count(s)))] else mid.regs);
  }

  lemma LoadRebase(q: Queue, d: int, base: Word, mem: Mem, regs: Regs)
    ensures LoadAll(Rebased(q, d), Addr(base, d), mem, regs) == LoadAll(q, base, mem, regs)
  {
    hide Addr, Read;
    forall r: Reg ensures LoadAll(Rebased(q, d), Addr(base, d), mem, regs)[r] == LoadAll(q, base, mem, regs)[r] {
      if r in q { AddrAddr(base, d, q[r] - d); }
    }
  }

  lemma StoreOne(q: Queue, r: Reg, base: Word, regs: Regs, mem: Mem)
    requires r in q
    ensures StoreAll(Only(q, {r}), base, regs, mem) == Write(mem, Addr(base, q[r]), regs[r])
  {
    hide Addr, StoreAll;
    var one := Only(q, {r});
    assert Apart(one);
    StoresStored(one, base, regs, mem);
    assert Stored(one, base, regs, mem, Write(mem, Addr(base, q[r]), regs[r])) by { OneStored(q, r, base, regs, mem); }
    StoredUnique(one, base, regs, mem, StoreAll(one, base, regs, mem), Write(mem, Addr(base, q[r]), regs[r]));
  }

  lemma OneStored(q: Queue, r: Reg, base: Word, regs: Regs, mem: Mem)
    requires r in q
    ensures Stored(Only(q, {r}), base, regs, mem, Write(mem, Addr(base, q[r]), regs[r]))
  {
    hide Addr;
    var one := Only(q, {r});
    assert r in one;
    forall a: Word | Untouched(one, base, a) ensures a != Addr(base, q[r]) {
      assert Addr(base, one[r]) != a;
    }
  }

  /** How far a single transfer moves its base. */
  function IndexStep(off: int, index: Index): int { if index.Offset? then 0 else off }

  function Reached(off: int, index: Index): int { if index.PostIndex? then 0 else off }

  lemma StoreSingle(q: Queue, r: Reg, base: Reg, off: int, index: Index, st: State)
    requires r in q && r != base && q[r] == Reached(off, index)
    ensures StoredPart(base, q, {r}, IndexStep(off, index), {}, st, Exec(Transfer(false, r, base, off, index), st))
  {
    hide StoreAll, Addr, ExecData, ExecBlock;
    StoreOne(q, r, st.regs[base], st.regs, st.mem);
    AddrZero(st.regs[base]);
  }

  lemma LoadSingle(q: Queue, r: Reg, base: Reg, off: int, index: Index, st: State)
    requires r in q && q[r] == Reached(off, index) && (r == base ==> index == Offset)
    ensures LoadedPart(base, q, {r}, IndexStep(off, index), st, Exec(Transfer(true, r, base, off, index), st))
  {
    hide Addr, Read, ExecData, ExecBlock;
    AddrZero(st.regs[base]);
  }

}
