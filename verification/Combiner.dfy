/**
 The combiner of word loads and stores (arm/gen.c, ldm_type to ldm_flush_r).

 Accesses through one base register are held back as a set of registers with offsets, and
 constant changes of the base as a pending adjustment.  A flush sorts the queue into runs
 of consecutive words, each an LDM or STM where possible.  The functions here are the
 plan made by a flush and the code generated for it; `Straddles` is the one case in
 which that code moves the base without recording it.
 */
module Combiner {
  import opened Words
  import opened Arm
  import opened Immediates
  import opened KnownValues
  import opened Transfers

  /** A run of consecutive words (SavedLDM). */
  datatype Saved = Saved(start: int, end: int, regs: set<Reg>, last: Reg)

  /** What generated code did: the adjustment left, and the part of it done since the flush began. */
  datatype Output = Output(code: Code, adj: int, done: int)

  /** What stays fixed through a flush. */
  datatype Kind = Kind(load: bool, base: Reg, globals: set<Reg>)

  // ---- one run ----

  /** Does moving the base by `move` go part of the way of the adjustment? */
  predicate Within(adj: int, move: int)
  {
    (move < 0 && adj < 0 && move >= adj) || (move > 0 && adj > 0 && move <= adj)
  }

  /** An addressing mode, the amount to add to the base first, and the total move with writeback. */
  datatype Shape = Shape(mode: Mode, addon: int, move: int)

  /** The forms that need no other register (first branches of ldmstm_generate). */
  function ShapeOf(start: int, end: int, adj: int): Option<Shape>
  {
    if start == 0 then Some(Shape(IA, 0, end + 4))
    else if start == 4 then Some(Shape(IB, 0, end))
    else if end == 0 then Some(Shape(DA, 0, start - 4))
    else if end == -4 then Some(Shape(DB, 0, start))
    else if start > 0 && adj >= end then
      if adj == end then Some(Shape(IB, start - 4, end)) else Some(Shape(IA, start, end + 4))
    else if end < 0 && adj <= end then
      if adj == start then Some(Shape(DB, end + 4, start)) else Some(Shape(DA, end, start - 4))
    else None
  }

  datatype Spot = Spot(mode: Mode, addon: int)

  /** The cheapest place for another base: one that an immediate field reaches, if any. */
  function Elsewhere(start: int, end: int): Spot
  {
    if EightBits(Wrap(start)).Some? then Spot(IA, start)
    else if EightBits(Wrap(start - 4)).Some? then Spot(IB, start - 4)
    else if EightBits(Wrap(end)).Some? then Spot(DA, end)
    else if EightBits(Wrap(end + 4)).Some? then Spot(DB, end + 4)
    else Spot(IA, start)
  }

  function Lowest(s: set<Reg>, k: nat := 0): (r: Option<Reg>)
    requires k <= 16
    ensures r.Some? ==> r.value in s && forall q: Reg :: k <= q < r.value ==> q !in s
    ensures r.None? ==> forall q: Reg :: q >= k ==> q !in s
    decreases 16 - k
  {
    if k == 16 then None else if k in s then Some(k) else Lowest(s, k + 1)
  }

  /** The register that will hold the address of a run which no base-relative form reaches. */
  datatype Place = Temp(r: Reg) | Base | NoPlace

  function PlaceFor(k: Kind, p: Saved, spare: set<Reg>): Place
  {
    if k.load then Temp(p.last)
    else if k.base == SP || k.base in k.globals then
      if Lowest(spare).Some? then Temp(Lowest(spare).value) else NoPlace
    else Base
  }

  /** An addition made before the transfer: to the base itself, or into another register, perhaps claimed for it. */
  datatype Move = Stay | Moves(b: Reg, addon: int, claims: bool)

  function MoveOf(k: Kind, p: Saved, adj: int, done: int, spare: set<Reg>): Move
  {
    if p.start == p.end then Stay
    else
      var sh := ShapeOf(p.start - done, p.end - done, adj);
      if sh.Some? then if sh.value.addon != 0 then Moves(k.base, sh.value.addon, false) else Stay
      else
        var e := Elsewhere(p.start - done, p.end - done);
        match PlaceFor(k, p, spare)
        case Temp(r) => Moves(r, e.addon, !k.load)
        case Base => Moves(k.base, e.addon, false)
        case NoPlace => Stay
  }

  /** Claiming a temporary register forgets what was recorded of it (GetTempReg). */
  function Claimed(m: Move, known: Known): Known
  {
    if m.Moves? && m.claims then known[m.b := None] else known
  }

  function Shaped(k: Kind, p: Saved, sh: Shape, adj: int, done: int, known: Known): Output
  {
    var wb := Within(adj, sh.move);
    Output((if sh.addon != 0 then MoveBy(k.base, k.base, sh.addon, known) else [])
           + [Block(k.load, k.base, sh.mode, wb, p.regs)],
           if wb then adj - sh.move else adj, if wb then done + sh.move else done)
  }

  function Placed(k: Kind, p: Saved, b: Reg, altered: bool, adj: int, done: int, known: Known): Output
  {
    var e := Elsewhere(p.start - done, p.end - done);
    Output(MoveBy(b, k.base, e.addon, known) + [Block(k.load, b, e.mode, false, p.regs)],
           if altered then adj - e.addon else adj, if altered then done + e.addon else done)
  }

  /** The amount by which a transfer at the base itself is post-indexed. */
  function PostStep(next: Option<int>, adj: int, done: int): int
  {
    if next.None? then
      if -0xfff <= adj <= 0xfff then adj else 0
    else
      var n := next.value - done;
      if Within(adj, n) && -0xfff <= n <= 0xfff then n else 0
  }

  function Single(k: Kind, r: Reg, start: int, next: Option<int>, adj: int, done: int): Output
  {
    var off := start - done;
    if off == 0 && adj != 0 then
      var step := PostStep(next, adj, done);
      if step != 0 then Output([Transfer(k.load, r, k.base, step, PostIndex)], adj - step, done + step)
      else Output([Transfer(k.load, r, k.base, 0, Offset)], adj, done)
    else if Within(adj, off) then
      Output([Transfer(k.load, r, k.base, off, PreIndex)], adj - off, done + off)
    else
      Output([Transfer(k.load, r, k.base, off, Offset)], adj, done)
  }

  /** One register at a time, from the lowest (label dosingly). */
  function Singly(k: Kind, regs: set<Reg>, start: int, next: Option<int>, adj: int, done: int, r: nat := 0): Output
    requires r <= 16
    decreases 16 - r
  {
    if r == 16 then Output([], adj, done)
    else if r !in regs then Singly(k, regs, start, next, adj, done, r + 1)
    else
      var one := Single(k, r, start, next, adj, done);
      var rest := Singly(k, regs, start + 4, next, one.adj, one.done, r + 1);
      Output(one.code + rest.code, rest.adj, rest.done)
  }

  /** The code for one run (ldmstm_generate); `next` is where the run after it starts. */
  function Generate(k: Kind, p: Saved, next: Option<int>, adj: int, done: int, spare: set<Reg>, known: Known): Output
  {
    if p.start == p.end then Singly(k, p.regs, p.start, next, adj, done)
    else
      var sh := ShapeOf(p.start - done, p.end - done, adj);
      var cache := Claimed(MoveOf(k, p, adj, done, spare), known);
      if sh.Some? then Shaped(k, p, sh.value, adj, done, cache)
      else match PlaceFor(k, p, spare)
        case Temp(r) => Placed(k, p, r, false, adj, done, cache)
        case Base => Placed(k, p, k.base, true, adj, done, cache)
        case NoPlace => Singly(k, p.regs, p.start, next, adj, done)
  }

  /** KillKnownRegisterValues */
  function Forget(known: Known, s: set<Reg>): Known
  {
    seq(16, r requires 0 <= r < 16 => if r in s then None else known[r])
  }

  /**
   What the cache holds after the run: loaded registers and a claimed temporary are forgotten, a
   moved base is not.
   */
  function KnownAfter(k: Kind, p: Saved, adj: int, done: int, spare: set<Reg>, known: Known): Known
  {
    if k.load then Forget(known, p.regs) else Claimed(MoveOf(k, p, adj, done, spare), known)
  }

  /** By how much the addition of a run misses. */
  function SlipOf(k: Kind, m: Move, known: Known, regs: Regs): Word
  {
    if m.Stay? then 0 else Slip(m.b, k.base, m.addon, Claimed(m, known), regs)
  }

  /** An offset beyond the 12-bit field of LDR and STR; the source puts it into the instruction all the same. */
  predicate TooFar(off: int) { off < -0xfff || off > 0xfff }

  /** Is some transfer of those that Singly makes too far from where the base then is? */
  predicate SinglyTooFar(k: Kind, regs: set<Reg>, start: int, next: Option<int>, adj: int, done: int, r: nat := 0)
    requires r <= 16
    decreases 16 - r
  {
    if r == 16 then false
    else if r !in regs then SinglyTooFar(k, regs, start, next, adj, done, r + 1)
    else
      var one := Single(k, r, start, next, adj, done);
      TooFar(start - done) || SinglyTooFar(k, regs, start + 4, next, one.adj, one.done, r + 1)
  }

  /** Only a run done one register at a time can be too far. */
  predicate RunTooFar(k: Kind, p: Saved, next: Option<int>, adj: int, done: int, spare: set<Reg>)
  {
    (p.start == p.end || (ShapeOf(p.start - done, p.end - done, adj).None? && PlaceFor(k, p, spare).NoPlace?))
    && SinglyTooFar(k, p.regs, p.start, next, adj, done)
  }

  /**
   The adjustment left lies strictly inside a run of at least two words below the base.
   The base is then moved to the end of the run by an instruction that nothing records.
   */
  predicate Straddle(p: Saved, adj: int, done: int)
  {
    p.start - done < adj <= p.end - done < -4
  }

  /** The unrecorded movement of the base. */
  function Drift(p: Saved, adj: int, done: int): int
  {
    if p.start == p.end then 0
    else
      var sh := ShapeOf(p.start - done, p.end - done, adj);
      if sh.Some? && !Within(adj, sh.value.move) then sh.value.addon else 0
  }

  ghost predicate IsSaved(q: Queue, p: Saved)
  {
    Consecutive(q, p.regs, p.start) && p.last in p.regs && p.end == p.start + 4 * (Count(p.regs) - 1)
  }

  // ---- each run is done exactly ----

  lemma ShapeReaches(p: Saved, adj: int, done: int, n: nat)
    requires p.end == p.start + 4 * (n - 1)
    ensures var sh := ShapeOf(p.start - done, p.end - done, adj);
            sh.Some? ==>
              && sh.value.addon == p.start - done - BlockStart(sh.value.mode, n)
              && sh.value.move == sh.value.addon + BlockStep(sh.value.mode, n)
  {
  }

  lemma ElsewhereReaches(start: int, end: int, n: nat)
    requires end == start + 4 * (n - 1)
    ensures var e := Elsewhere(start, end); e.addon == start - BlockStart(e.mode, n)
  {
    hide EightBits;
  }

  /** The total movement of the base, recorded or not. */
  function Moved(o: Output, done: int, drift: int): int { o.done - done + drift }

  lemma OptionalMove(base: Reg, addon: int, known: Known, st: State) returns (mid: State)
    ensures mid == Run(if addon != 0 then MoveBy(base, base, addon, known) else [], st)
    ensures mid == With(st, base, Addr(st.regs[base], addon + OptionalSlip(base, addon, known, st.regs)))
  {
    hide MoveBy, Addr, Slip;
    mid := Run(if addon != 0 then MoveBy(base, base, addon, known) else [], st);
    if addon != 0 {
      MoveByAdds(base, base, addon, known, st);
    } else {
      AddrZero(st.regs[base]);
    }
  }

  function OptionalSlip(base: Reg, addon: int, known: Known, regs: Regs): Word
  {
    if addon != 0 then Slip(base, base, addon, known, regs) else 0
  }

  /** A block store from a machine whose register b holds the base plus addon. */
  lemma BlockStores(base: Reg, b: Reg, q: Queue, s: set<Reg>, start: int, mode: Mode, addon: int, wb: bool, st: State)
    requires Consecutive(q, s, start) && base !in s && b !in s && (wb ==> b == base)
    requires addon == start - BlockStart(mode, Count(s))
    ensures var mid := With(st, b, Addr(st.regs[base], addon));
            var d := (if b == base then addon else 0) + (if wb then BlockStep(mode, Count(s)) else 0);
            StoredPart(base, q, s, d, {b} - {base}, st, Exec(Block(false, b, mode, wb, s), mid))
  {
    hide StoreAll, Addr, Count, Exec, BlockStep, BlockStart, Rank;
    var mid := With(st, b, Addr(st.regs[base], addon));
    StoreBlock(q, s, start, b, mode, wb, st.regs[base], mid);
    StoreFrame(Only(q, s), st.regs[base], st.regs, mid.regs, st.mem, 16);
    AddrZero(st.regs[base]);
  }

  lemma BlockLoads(base: Reg, q: Queue, s: set<Reg>, start: int, mode: Mode, addon: int, wb: bool, st: State)
    requires Consecutive(q, s, start)
    requires addon == start - BlockStart(mode, Count(s))
    ensures var mid := With(st, base, Addr(st.regs[base], addon));
            var d := addon + (if wb then BlockStep(mode, Count(s)) else 0);
            LoadedPart(base, q, s, d, st, Exec(Block(true, base, mode, wb, s), mid))
  {
    hide LoadAll, Addr, Count, Exec, BlockStep, BlockStart, Rank;
    var mid := With(st, base, Addr(st.regs[base], addon));
    LoadBlock(q, s, start, base, mode, wb, st.regs[base], mid);
    var b' := Addr(st.regs[base], addon + BlockStep(mode, Count(s)));
    assert mid.regs[base := b'] == st.regs[base := b'];
  }

  lemma BlockLoadsVia(base: Reg, b: Reg, q: Queue, s: set<Reg>, start: int, mode: Mode, addon: int, st: State)
    requires Consecutive(q, s, start) && b in s
    requires addon == start - BlockStart(mode, Count(s))
    ensures var mid := With(st, b, Addr(st.regs[base], addon));
            LoadedPart(base, q, s, 0, st, Exec(Block(true, b, mode, false, s), mid))
  {
    hide LoadAll, Addr, Count, Exec, BlockStep, BlockStart, Rank;
    var mid := With(st, b, Addr(st.regs[base], addon));
    LoadBlock(q, s, start, b, mode, false, st.regs[base], mid);
    AddrZero(st.regs[base]);
    assert b in Only(q, s);
    LoadsOverwrite(Only(q, s), st.regs[base], st.mem, mid.regs, st.regs[base := st.regs[base]], b);
  }

  lemma LoadsOverwrite(q: Queue, base: Word, mem: Mem, regs1: Regs, regs2: Regs, b: Reg)
    requires b in q && forall r: Reg :: r != b ==> regs1[r] == regs2[r]
    ensures LoadAll(q, base, mem, regs1) == LoadAll(q, base, mem, regs2)
  {
    hide Addr, Read;
  }

  /** The two instructions of a shaped run. */
  lemma ShapedRun(k: Kind, p: Saved, sh: Shape, adj: int, done: int, known: Known, st: State)
    ensures var slip := OptionalSlip(k.base, sh.addon, known, st.regs);
            var mid := With(st, k.base, Addr(st.regs[k.base], sh.addon + slip));
            Run(Shaped(k, p, sh, adj, done, known).code, st)
                == Exec(Block(k.load, k.base, sh.mode, Within(adj, sh.move), p.regs), mid)
  {
    hide MoveBy, Exec, Run, Within, Addr, OptionalSlip;
    var mid := OptionalMove(k.base, sh.addon, known, st);
    RunSnoc(if sh.addon != 0 then MoveBy(k.base, k.base, sh.addon, known) else [],
            Block(k.load, k.base, sh.mode, Within(adj, sh.move), p.regs), st);
  }

  lemma ShapedMove(k: Kind, p: Saved, adj: int, done: int, known: Known)
    requires p.end == p.start + 4 * (Count(p.regs) - 1) && p.start != p.end
    requires ShapeOf(p.start - done, p.end - done, adj).Some?
    ensures var sh := ShapeOf(p.start - done, p.end - done, adj).value;
            var n := Count(p.regs);
            && sh.addon == p.start - done - BlockStart(sh.mode, n)
            && Moved(Shaped(k, p, sh, adj, done, known), done, Drift(p, adj, done))
               == sh.addon + (if Within(adj, sh.move) then BlockStep(sh.mode, n) else 0)
  {
    hide MoveBy, ShapeOf, BlockStart, BlockStep, Within, Count;
    ShapeReaches(p, adj, done, Count(p.regs));
  }

  lemma RebasedShift(q: Queue, s: set<Reg>, start: int, done: int, slip: Word)
    requires Consecutive(q, s, start)
    ensures Consecutive(Rebased(q, done - slip), s, start - done + slip)
  {
    hide Rank;
  }

  lemma ShapedStores(k: Kind, q: Queue, p: Saved, adj: int, done: int, known: Known, st: State)
    requires !k.load && IsSaved(q, p) && p.start != p.end && k.base !in p.regs
    requires ShapeOf(p.start - done, p.end - done, adj).Some?
    ensures var sh := ShapeOf(p.start - done, p.end - done, adj).value;
            var o, slip := Shaped(k, p, sh, adj, done, known), OptionalSlip(k.base, sh.addon, known, st.regs);
            StoredPart(k.base, Rebased(q, done - slip), p.regs, Moved(o, done, Drift(p, adj, done)) + slip, {}, st,
                       Run(o.code, st))
  {
    hide Count, ShapeOf, BlockStep, BlockStart, Run, Consecutive, StoredPart, Shaped, Moved, Drift, Within, Exec, Addr,
        OptionalSlip;
    var sh := ShapeOf(p.start - done, p.end - done, adj).value;
    var slip := OptionalSlip(k.base, sh.addon, known, st.regs);
    RebasedShift(q, p.regs, p.start, done, slip);
    ShapedMove(k, p, adj, done, known);
    ShapedRun(k, p, sh, adj, done, known, st);
    BlockStores(k.base, k.base, Rebased(q, done - slip), p.regs, p.start - done + slip, sh.mode, sh.addon + slip,
                Within(adj, sh.move), st);
    assert {k.base} - {k.base} == {};
  }

  lemma ShapedLoads(k: Kind, q: Queue, p: Saved, adj: int, done: int, known: Known, st: State)
    requires k.load && IsSaved(q, p) && p.start != p.end
    requires ShapeOf(p.start - done, p.end - done, adj).Some?
    ensures var sh := ShapeOf(p.start - done, p.end - done, adj).value;
            var o, slip := Shaped(k, p, sh, adj, done, known), OptionalSlip(k.base, sh.addon, known, st.regs);
            LoadedPart(k.base, Rebased(q, done - slip), p.regs, Moved(o, done, Drift(p, adj, done)) + slip, st,
                       Run(o.code, st))
  {
    hide Count, ShapeOf, BlockStep, BlockStart, Run, Consecutive, LoadedPart, Shaped, Moved, Drift, Within, Exec, Addr,
        OptionalSlip;
    var sh := ShapeOf(p.start - done, p.end - done, adj).value;
    var slip := OptionalSlip(k.base, sh.addon, known, st.regs);
    RebasedShift(q, p.regs, p.start, done, slip);
    ShapedMove(k, p, adj, done, known);
    ShapedRun(k, p, sh, adj, done, known, st);
    BlockLoads(k.base, Rebased(q, done - slip), p.regs, p.start - done + slip, sh.mode, sh.addon + slip,
               Within(adj, sh.move), st);
  }

  lemma PlacedRun(k: Kind, p: Saved, b: Reg, altered: bool, adj: int, done: int, known: Known, st: State)
    ensures var e := Elsewhere(p.start - done, p.end - done);
            var mid := With(st, b, Addr(st.regs[k.base], e.addon + Slip(b, k.base, e.addon, known, st.regs)));
            Run(Placed(k, p, b, altered, adj, done, known).code, st)
            == Exec(Block(k.load, b, e.mode, false, p.regs), mid)
  {
    hide MoveBy, Exec, Run, Elsewhere, Addr, Wrap, With, Slip, Placed;
    var e := Elsewhere(p.start - done, p.end - done);
    PlacedCode(k, p, b, altered, adj, done, known);
    MoveByAdds(b, k.base, e.addon, known, st);
    RunSnoc(MoveBy(b, k.base, e.addon, known), Block(k.load, b, e.mode, false, p.regs), st);
  }

  lemma PlacedCode(k: Kind, p: Saved, b: Reg, altered: bool, adj: int, done: int, known: Known)
    ensures var e := Elsewhere(p.start - done, p.end - done);
            Placed(k, p, b, altered, adj, done, known).code
            == MoveBy(b, k.base, e.addon, known) + [Block(k.load, b, e.mode, false, p.regs)]
  {
    hide MoveBy, Elsewhere;
  }

  lemma PlacedStores(k: Kind, q: Queue, p: Saved, b: Reg, adj: int, done: int, known: Known, st: State)
    requires !k.load && IsSaved(q, p) && k.base !in p.regs && b !in p.regs
    ensures var e := Elsewhere(p.start - done, p.end - done);
            var o, slip := Placed(k, p, b, b == k.base, adj, done, known), Slip(b, k.base, e.addon, known, st.regs);
            StoredPart(k.base, Rebased(q, done - slip), p.regs, o.done - done + (if b == k.base then slip else 0),
                       {b} - {k.base}, st, Run(o.code, st))
  {
    hide Count, BlockStep, BlockStart, Run, Consecutive, StoredPart, Exec, Addr, Elsewhere, MoveBy, Slip;
    var e := Elsewhere(p.start - done, p.end - done);
    var slip := Slip(b, k.base, e.addon, known, st.regs);
    ElsewhereReaches(p.start - done, p.end - done, Count(p.regs));
    RebasedShift(q, p.regs, p.start, done, slip);
    PlacedRun(k, p, b, b == k.base, adj, done, known, st);
    BlockStores(k.base, b, Rebased(q, done - slip), p.regs, p.start - done + slip, e.mode, e.addon + slip, false, st);
  }

  lemma PlacedLoads(k: Kind, q: Queue, p: Saved, adj: int, done: int, known: Known, st: State)
    requires k.load && IsSaved(q, p)
    ensures var e := Elsewhere(p.start - done, p.end - done);
            var o, slip := Placed(k, p, p.last, false, adj, done, known), Slip(p.last, k.base, e.addon, known, st.regs);
            LoadedPart(k.base, Rebased(q, done - slip), p.regs, 0, st, Run(o.code, st))
  {
    hide Count, BlockStep, BlockStart, Run, Consecutive, LoadedPart, Exec, Addr, Elsewhere, MoveBy, Slip;
    var e := Elsewhere(p.start - done, p.end - done);
    var slip := Slip(p.last, k.base, e.addon, known, st.regs);
    ElsewhereReaches(p.start - done, p.end - done, Count(p.regs));
    RebasedShift(q, p.regs, p.start, done, slip);
    PlacedRun(k, p, p.last, false, adj, done, known, st);
    BlockLoadsVia(k.base, p.last, Rebased(q, done - slip), p.regs, p.start - done + slip, e.mode, e.addon + slip, st);
  }

  // ---- one register at a time ----

  lemma SingleDone(k: Kind, q: Queue, r: Reg, start: int, next: Option<int>, adj: int, done: int, st: State)
    requires r in q && q[r] == start && (r == k.base ==> k.load && adj == 0)
    ensures var o := Single(k, r, start, next, adj, done);
            && o.adj + o.done == adj + done
            && (adj == 0 ==> o.done == done)
            && (k.load ==> LoadedPart(k.base, Rebased(q, done), {r}, o.done - done, st, Run(o.code, st)))
            && (!k.load ==> StoredPart(k.base, Rebased(q, done), {r}, o.done - done, {}, st, Run(o.code, st)))
  {
    hide Exec, Run, LoadedPart, StoredPart, PostStep;
    var o := Single(k, r, start, next, adj, done);
    var i := o.code[0];
    RunOne(i, st);
    if k.load {
      LoadSingle(Rebased(q, done), r, k.base, i.off, i.index, st);
    } else {
      StoreSingle(Rebased(q, done), r, k.base, i.off, i.index, st);
    }
  }

  lemma RebasedTwice(q: Queue, s: set<Reg>, done: int, d: int)
    ensures Rebased(Rebased(q, done) - s, d) == Rebased(q - s, done + d)
  {
  }

  /** A load of the base itself may be pending only when no adjustment is. */
  ghost predicate Workable(k: Kind, q: Queue, adj: int)
  {
    if k.load then k.base in q ==> adj == 0 else Apart(q) && k.base !in q
  }

  /** The effect of one transfer on the view. */
  lemma SingleKeepsView(k: Kind, q: Queue, r: Reg, start: int, next: Option<int>, adj: int, done: int, st: State)
    requires r in q && q[r] == start && Workable(k, q, adj) && (r == k.base ==> q.Keys == {r})
    ensures var o := Single(k, r, start, next, adj, done);
            var end := Run(o.code, st);
            && o.adj + o.done == adj + done
            && (adj == 0 ==> o.adj == 0)
            && Same({}, View(k.load, k.base, Rebased(q, done), adj, st),
                  View(k.load, k.base, Rebased(q - {r}, o.done), o.adj, end))
            && (k.base !in q ==> end.regs[k.base] == Addr(st.regs[k.base], o.done - done))
  {
    hide Run, View, Single, StoreAll, Addr, Wrap;
    var o := Single(k, r, start, next, adj, done);
    var end := Run(o.code, st);
    SingleDone(k, q, r, start, next, adj, done, st);
    RebasedTwice(q, {r}, done, o.done - done);
    if k.load {
      hide StoredPart;
      LoadKeepsView(k.base, Rebased(q, done), {r}, adj, o.done - done, st, end);
    } else {
      hide LoadedPart;
      RebasedApart(q, done);
      StoreKeepsView(k.base, Rebased(q, done), {r}, adj, o.done - done, {}, st, end);
    }
  }

  function From(s: set<Reg>, r: nat): set<Reg> { set x | x in s && x >= r }

  ghost predicate RestInOrder(q: Queue, s: set<Reg>, start: int, r: nat)
    requires r <= 16
  {
    From(s, r) <= q.Keys && forall x: Reg :: x in From(s, r) ==> q[x] == start + 4 * (Rank(s, x) - Rank(s, r))
  }

  lemma {:induction false} SinglyKeepsView(k: Kind, q: Queue, s: set<Reg>, start: int, next: Option<int>, adj: int,
          done: int, r: nat, st: State)
    requires r <= 16 && RestInOrder(q, s, start, r) && Workable(k, q, adj)
    requires k.base in From(s, r) ==> q.Keys == {k.base}
    ensures var o := Singly(k, s, start, next, adj, done, r);
            var end := Run(o.code, st);
            && o.adj + o.done == adj + done
            && (adj == 0 ==> o.adj == 0)
            && Same({}, View(k.load, k.base, Rebased(q, done), adj, st),
                  View(k.load, k.base, Rebased(q - From(s, r), o.done), o.adj, end))
            && (k.base !in q ==> end.regs[k.base] == Addr(st.regs[k.base], o.done - done))
    decreases 16 - r
  {
    hide Run, View, Single, Addr, Apart, Same, Workable, RestInOrder;
    var o := Singly(k, s, start, next, adj, done, r);
    if r == 16 {
      assert q - From(s, r) == q;
      RunNone(st);
      AddrZero(st.regs[k.base]);
      SameSelf({}, View(k.load, k.base, Rebased(q, done), adj, st));
    } else if r !in s {
      assert From(s, r) == From(s, r + 1);
      SinglySkip(q, s, start, r);
      SinglyKeepsView(k, q, s, start, next, adj, done, r + 1, st);
    } else {
      var one := Single(k, r, start, next, adj, done);
      SinglyRest(k, q, s, start, adj, one.adj, r);
      SingleKeepsView(k, q, r, start, next, adj, done, st);
      assert adj == 0 ==> one.adj == 0;
      SinglyKeepsView(k, q - {r}, s, start + 4, next, one.adj, one.done, r + 1, Run(one.code, st));
      var rest := Singly(k, s, start + 4, next, one.adj, one.done, r + 1);
      RunAppend(one.code, rest.code, st);
      assert q - {r} - From(s, r + 1) == q - From(s, r);
      AddrAddr(st.regs[k.base], one.done - done, rest.done - one.done);
      SameTrans({}, View(k.load, k.base, Rebased(q, done), adj, st),
                View(k.load, k.base, Rebased(q - {r}, one.done), one.adj, Run(one.code, st)),
                View(k.load, k.base, Rebased(q - From(s, r), o.done), o.adj, Run(o.code, st)));
    }
  }

  lemma SameSelf(x: set<Reg>, s: State)
    ensures Same(x, s, s)
  {
  }

  lemma SinglySkip(q: Queue, s: set<Reg>, start: int, r: nat)
    requires r < 16 && r !in s && RestInOrder(q, s, start, r)
    ensures RestInOrder(q, s, start, r + 1)
  {
    assert From(s, r) == From(s, r + 1);
  }

  lemma SinglyRest(k: Kind, q: Queue, s: set<Reg>, start: int, adj: int, adj': int, r: nat)
    requires r < 16 && r in s && RestInOrder(q, s, start, r) && Workable(k, q, adj)
    requires k.base in From(s, r) ==> q.Keys == {k.base}
    ensures r in q && q[r] == start && (r == k.base ==> q.Keys == {r})
    ensures RestInOrder(q - {r}, s, start + 4, r + 1)
    ensures k.base in From(s, r + 1) ==> (q - {r}).Keys == {k.base}
    ensures (adj == 0 ==> adj' == 0) ==> Workable(k, q - {r}, adj')
  {
    assert r in From(s, r);
    assert From(s, r + 1) <= From(s, r);
    if !k.load { PartsApart(q, {r}); }
  }

  // ---- any run ----

  /** Registers that the code of a flush may clobber beside those it is asked for. */
  function Scratch(k: Kind, spare: set<Reg>): set<Reg> { if k.load then {} else spare }

  /** Nothing pending lives in a scratch register. */
  ghost predicate Clear(k: Kind, q: Queue, spare: set<Reg>)
  {
    k.load || (q.Keys !! spare && k.base !in spare)
  }

  lemma SavedInOrder(q: Queue, p: Saved)
    requires IsSaved(q, p)
    ensures RestInOrder(q, p.regs, p.start, 0)
    ensures From(p.regs, 0) == p.regs
    ensures p.start == p.end ==> p.regs == {p.last}
  {
    if p.start == p.end {
      assert Count(p.regs) == 1;
      forall r: Reg | r in p.regs ensures r == p.last { RankOfOne(p.regs, r, p.last); }
    }
  }

  /** Two members of a set differ in rank. */
  lemma RankOfOne(s: set<Reg>, a: Reg, b: Reg)
    requires a in s && b in s && Count(s) == 1
    ensures a == b
  {
    RankMonotone(s, a + 1, 16);
    RankMonotone(s, b + 1, 16);
    if a < b { RankMonotone(s, a + 1, b); }
    if b < a { RankMonotone(s, b + 1, a); }
  }

  lemma {:induction false} RankMonotone(s: set<Reg>, j: nat, k: nat)
    requires j <= k
    ensures Rank(s, j) <= Rank(s, k)
  {
    if j < k { RankMonotone(s, j, k - 1); }
  }

  /**
   What one run does: its transfers, each missing by `slip`, and d as the movement of the base.
   Of other registers it may change those of x; the counters change in step.
   */
  ghost predicate RunDone(k: Kind, q: Queue, s: set<Reg>, adj: int, done: int, x: set<Reg>, o: Output, slip: Word,
          d: int, st: State)
  {
    var end := Run(o.code, st);
    && o.adj + o.done == adj + done
    && (adj == 0 && k.base in q ==> o.adj == 0)
    && if k.load then LoadedPart(k.base, Rebased(q, done - slip), s, d, st, end)
       else StoredPart(k.base, Rebased(q, done - slip), s, d, x, st, end)
  }

  lemma SameMore(x: set<Reg>, y: set<Reg>, s: State, t: State)
    requires Same(x, s, t) && x <= y
    ensures Same(y, s, t)
  {
  }

  /** From the view to the transfers, when the queue holds nothing else. */
  lemma ViewStored(base: Reg, q: Queue, d: int, adj: int, x: set<Reg>, st: State, end: State)
    requires Same({}, View(false, base, q, adj, st), View(false, base, map[], adj - d, end))
    requires end.regs[base] == Addr(st.regs[base], d)
    ensures StoredPart(base, q, q.Keys, d, x, st, end)
  {
    hide Addr, StoreAll;
    StoreNothing(end.regs[base], end.regs, end.mem, 16);
    assert Only(q, q.Keys) == q;
    var v, w := View(false, base, q, adj, st), View(false, base, map[], adj - d, end);
    forall r: Reg | r != base ensures end.regs[r] == st.regs[r] {
      assert v.regs[r] == w.regs[r];
    }
  }

  lemma ViewLoaded(base: Reg, q: Queue, d: int, adj: int, st: State, end: State)
    requires Same({}, View(true, base, q, adj, st), View(true, base, map[], adj - d, end))
    requires if base in q then adj == 0 && d == 0 else end.regs[base] == Addr(st.regs[base], d)
    ensures LoadedPart(base, q, q.Keys, d, st, end)
  {
    hide Addr, Read;
    NothingLoaded(end.regs[base], end.mem, end.regs[base := Addr(end.regs[base], adj - d)]);
    assert Only(q, q.Keys) == q;
    AddrZero(end.regs[base]);
    var v, w := View(true, base, q, adj, st), View(true, base, map[], adj - d, end);
    var regs := LoadAll(q, st.regs[base], st.mem, st.regs[base := Addr(st.regs[base], d)]);
    forall r: Reg ensures end.regs[r] == regs[r] {
      assert v.regs[r] == w.regs[r];
    }
  }

  lemma {:induction false} StoreNothing(base: Word, regs: Regs, mem: Mem, k: nat)
    requires k <= 16
    ensures StoreAll(map[], base, regs, mem, k) == mem
  {
    if k > 0 { StoreNothing(base, regs, mem, k - 1); }
  }

  lemma NothingLoaded(base: Word, mem: Mem, regs: Regs)
    ensures LoadAll(map[], base, mem, regs) == regs
  {
  }

  lemma OnlySaved(q: Queue, p: Saved)
    requires IsSaved(q, p)
    ensures IsSaved(Only(q, p.regs), p) && Only(q, p.regs).Keys == p.regs
  {
    hide Rank, Count;
  }

  lemma OnlyRebased(q: Queue, s: set<Reg>, done: int)
    requires s <= q.Keys
    ensures Only(Rebased(q, done), s) == Rebased(Only(q, s), done)
    ensures Only(Rebased(Only(q, s), done), s) == Only(Rebased(q, done), s)
    ensures Rebased(Only(q, s), done).Keys == s
  {
  }

  lemma SinglyDone(k: Kind, q: Queue, p: Saved, next: Option<int>, adj: int, done: int, st: State)
    requires IsSaved(q, p) && Workable(k, q, adj) && (k.base in p.regs ==> p.regs == {k.base})
    ensures var o := Singly(k, p.regs, p.start, next, adj, done);
            RunDone(k, q, p.regs, adj, done, {}, o, 0, o.done - done, st)
  {
    hide Run, View, Addr, Apart, Same, Rank, IsSaved, RestInOrder, StoredPart, LoadedPart;
    var q1 := Only(q, p.regs);
    OnlySaved(q, p);
    InRun(q, p);
    OnlyRebased(q, p.regs, done);
    SavedInOrder(q1, p);
    WorkablePart(k, q, p.regs, adj);
    SinglyKeepsView(k, q1, p.regs, p.start, next, adj, done, 0, st);
    var o := Singly(k, p.regs, p.start, next, adj, done);
    assert q1 - From(p.regs, 0) == map[];
    assert Rebased(map[], o.done) == map[];
    if k.load {
      ViewLoaded(k.base, Rebased(q1, done), o.done - done, adj, st, Run(o.code, st));
      LoadedOnly(k.base, q, p.regs, done, o.done - done, st, Run(o.code, st));
    } else {
      ViewStored(k.base, Rebased(q1, done), o.done - done, adj, {}, st, Run(o.code, st));
      StoredOnly(k.base, q, p.regs, done, o.done - done, {}, st, Run(o.code, st));
    }
  }

  lemma WorkablePart(k: Kind, q: Queue, s: set<Reg>, adj: int)
    requires Workable(k, q, adj)
    ensures Workable(k, Only(q, s), adj)
  {
    if !k.load { PartsApart(q, s); }
  }

  lemma LoadedOnly(base: Reg, q: Queue, s: set<Reg>, done: int, d: int, st: State, end: State)
    requires s <= q.Keys && LoadedPart(base, Rebased(Only(q, s), done), s, d, st, end)
    ensures LoadedPart(base, Rebased(q, done - 0), s, d, st, end)
  {
    hide Addr, LoadAll;
    OnlyRebased(q, s, done);
  }

  lemma StoredOnly(base: Reg, q: Queue, s: set<Reg>, done: int, d: int, x: set<Reg>, st: State, end: State)
    requires s <= q.Keys && StoredPart(base, Rebased(Only(q, s), done), s, d, x, st, end)
    ensures StoredPart(base, Rebased(q, done - 0), s, d, x, st, end)
  {
    hide Addr, StoreAll;
    OnlyRebased(q, s, done);
  }

  lemma InRun(q: Queue, p: Saved)
    requires IsSaved(q, p)
    ensures p.regs <= q.Keys && p.start <= p.end
  {
    RankMonotone(p.regs, p.last + 1, 16);
  }

  /** Without an adjustment nothing drifts. */
  lemma NoDrift(p: Saved, done: int)
    requires p.start <= p.end
    ensures Drift(p, 0, done) == 0
  {
  }

  /** If the base itself is loaded, how it was moved before does not matter. */
  lemma LoadedOver(base: Reg, q: Queue, s: set<Reg>, d: int, d': int, st: State, end: State)
    requires LoadedPart(base, q, s, d, st, end) && base in s && base in q
    ensures LoadedPart(base, q, s, d', st, end)
  {
    hide Addr, LoadAll;
    var b := st.regs[base];
    LoadsOverwrite(Only(q, s), b, st.mem, st.regs[base := Addr(b, d)], st.regs[base := Addr(b, d')], base);
  }

  /** The movement of the base over a run: what is recorded, what is not, and what an addition to it missed by. */
  function BaseMove(k: Kind, p: Saved, next: Option<int>, adj: int, done: int, spare: set<Reg>, known: Known,
          slip: Word): int
  {
    Moved(Generate(k, p, next, adj, done, spare, known), done, Drift(p, adj, done))
    + (if MovesBase(k, MoveOf(k, p, adj, done, spare)) then slip else 0)
  }

  /** The register that holds the address in place of the base. */
  function Scratched(k: Kind, m: Move): set<Reg> { if m.Moves? then {m.b} - {k.base} else {} }

  predicate MovesBase(k: Kind, m: Move) { m.Moves? && m.b == k.base }

  lemma ShapedDone(k: Kind, q: Queue, p: Saved, adj: int, done: int, known: Known, st: State)
    requires IsSaved(q, p) && Workable(k, q, adj)
    requires p.start != p.end && ShapeOf(p.start - done, p.end - done, adj).Some?
    ensures var sh := ShapeOf(p.start - done, p.end - done, adj).value;
            var o, slip := Shaped(k, p, sh, adj, done, known), OptionalSlip(k.base, sh.addon, known, st.regs);
            RunDone(k, q, p.regs, adj, done, {}, o, slip, Moved(o, done, Drift(p, adj, done)) + slip, st)
  {
    hide Run, View, Addr, Apart, Same, IsSaved, StoredPart, LoadedPart, MoveBy, OptionalSlip;
    var sh := ShapeOf(p.start - done, p.end - done, adj).value;
    var o, slip := Shaped(k, p, sh, adj, done, known), OptionalSlip(k.base, sh.addon, known, st.regs);
    InRun(q, p);
    if k.load {
      ShapedLoads(k, q, p, adj, done, known, st);
    } else {
      ShapedStores(k, q, p, adj, done, known, st);
    }
  }

  lemma PlacedDone(k: Kind, q: Queue, p: Saved, b: Reg, adj: int, done: int, spare: set<Reg>, known: Known, st: State)
    requires IsSaved(q, p) && Workable(k, q, adj) && Clear(k, q, spare)
    requires if k.load then b == p.last else b in spare || b == k.base
    ensures var e := Elsewhere(p.start - done, p.end - done);
            var o, slip := Placed(k, p, b, !k.load && b == k.base, adj, done, known),
                Slip(b, k.base, e.addon, known, st.regs);
            RunDone(k, q, p.regs, adj, done, {b} - {k.base}, o, slip,
                    o.done - done + (if b == k.base then slip else 0), st)
  {
    hide Run, View, Addr, Apart, Same, IsSaved, StoredPart, LoadedPart, MoveBy, Elsewhere, Slip;
    var e := Elsewhere(p.start - done, p.end - done);
    var o, slip := Placed(k, p, b, !k.load && b == k.base, adj, done, known),
        Slip(b, k.base, e.addon, known, st.regs);
    InRun(q, p);
    if k.load {
      PlacedLoads(k, q, p, adj, done, known, st);
      LastInRun(q, p);
      if b == k.base { LoadedOver(k.base, Rebased(q, done - slip), p.regs, 0, slip, st, Run(o.code, st)); }
    } else {
      PlacedStores(k, q, p, b, adj, done, known, st);
    }
  }

  lemma LastInRun(q: Queue, p: Saved)
    requires IsSaved(q, p)
    ensures p.last in p.regs && p.last in q
  {
  }

  /** Every run of a flush, on a machine with offsets of any width, whatever the registers hold. */
  lemma RunDoes(k: Kind, q: Queue, p: Saved, next: Option<int>, adj: int, done: int, spare: set<Reg>, known: Known,
          st: State)
    requires IsSaved(q, p) && Workable(k, q, adj) && Clear(k, q, spare)
    ensures var o := Generate(k, p, next, adj, done, spare, known);
            var slip := SlipOf(k, MoveOf(k, p, adj, done, spare), known, st.regs);
            RunDone(k, q, p.regs, adj, done, Scratched(k, MoveOf(k, p, adj, done, spare)), o, slip,
                    BaseMove(k, p, next, adj, done, spare, known, slip), st)
  {
    hide RunDone, Singly, Shaped, Placed, IsSaved, Apart, Slip, ShapeOf, Within, Elsewhere;
    var m := MoveOf(k, p, adj, done, spare);
    var cache := Claimed(m, known);
    InRun(q, p);
    if p.start == p.end {
      SavedInOrder(q, p);
      SinglyDone(k, q, p, next, adj, done, st);
    } else if ShapeOf(p.start - done, p.end - done, adj).Some? {
      ShapedDone(k, q, p, adj, done, cache, st);
      assert {k.base} - {k.base} == {};
    } else {
      var place := PlaceFor(k, p, spare);
      PlacedDrift(p, adj, done);
      if place.NoPlace? {
        SinglyDone(k, q, p, next, adj, done, st);
      } else {
        PlacedDone(k, q, p, if place.Temp? then place.r else k.base, adj, done, spare, cache, st);
      }
    }
  }

  lemma PlacedDrift(p: Saved, adj: int, done: int)
    ensures ShapeOf(p.start - done, p.end - done, adj).None? ==> Drift(p, adj, done) == 0
    ensures p.start == p.end ==> Drift(p, adj, done) == 0
  {
  }

  lemma {:induction false} SinglyEncodable(k: Kind, s: set<Reg>, start: int, next: Option<int>, adj: int, done: int,
          r: nat)
    requires r <= 16
    ensures AllEncodable(Singly(k, s, start, next, adj, done, r).code)
            <==> !SinglyTooFar(k, s, start, next, adj, done, r)
    decreases 16 - r
  {
    hide Single, AllEncodable;
    if r == 16 {
      assert AllEncodable([]) by { NothingEncodable(); }
    } else if r !in s {
      SinglyEncodable(k, s, start, next, adj, done, r + 1);
    } else {
      var one := Single(k, r, start, next, adj, done);
      SingleEncodable(k, r, start, next, adj, done);
      SinglyEncodable(k, s, start + 4, next, one.adj, one.done, r + 1);
      EncodableAppend(one.code, Singly(k, s, start + 4, next, one.adj, one.done, r + 1).code);
    }
  }

  lemma NothingEncodable()
    ensures AllEncodable([])
  {
  }

  /** A transfer at the base itself takes its offset from PostStep, which keeps to the field. */
  lemma SingleEncodable(k: Kind, r: Reg, start: int, next: Option<int>, adj: int, done: int)
    ensures AllEncodable(Single(k, r, start, next, adj, done).code) <==> !TooFar(start - done)
  {
    var c := Single(k, r, start, next, adj, done).code;
    assert AllEncodable(c) <==> Encodable(c[0]);
  }

  lemma MovedBlockEncodable(c: Code, i: Instr)
    requires AllEncodable(c) && i.Block? && i.regs != {}
    ensures AllEncodable(c + [i])
  {
  }

  /** The code of a run can be encoded exactly when none of its single transfers is too far. */
  lemma GenerateEncodable(k: Kind, p: Saved, next: Option<int>, adj: int, done: int, spare: set<Reg>, known: Known)
    requires p.regs != {}
    ensures AllEncodable(Generate(k, p, next, adj, done, spare, known).code)
            <==> !RunTooFar(k, p, next, adj, done, spare)
  {
    hide Singly, SinglyTooFar, MoveBy, AllEncodable, ShapeOf, Elsewhere, Within;
    SinglyEncodable(k, p.regs, p.start, next, adj, done, 0);
    var cache := Claimed(MoveOf(k, p, adj, done, spare), known);
    if p.start != p.end {
      var sh := ShapeOf(p.start - done, p.end - done, adj);
      if sh.Some? {
        NothingEncodable();
        MoveByEncodable(k.base, k.base, sh.value.addon, cache);
        MovedBlockEncodable(if sh.value.addon != 0 then MoveBy(k.base, k.base, sh.value.addon, cache) else [],
                            Block(k.load, k.base, sh.value.mode, Within(adj, sh.value.move), p.regs));
      } else {
        var place, e := PlaceFor(k, p, spare), Elsewhere(p.start - done, p.end - done);
        var b := if place.Temp? then place.r else k.base;
        MoveByEncodable(b, k.base, e.addon, cache);
        MovedBlockEncodable(MoveBy(b, k.base, e.addon, cache), Block(k.load, b, e.mode, false, p.regs));
      }
    }
  }

  /** Every run of a flush: what it does, where the base goes, and whether its instructions can be encoded. */
  lemma GenerateDone(k: Kind, q: Queue, p: Saved, next: Option<int>, adj: int, done: int, spare: set<Reg>,
          known: Known, st: State)
    requires IsSaved(q, p) && Workable(k, q, adj) && Clear(k, q, spare)
    ensures var o := Generate(k, p, next, adj, done, spare, known);
            var slip := SlipOf(k, MoveOf(k, p, adj, done, spare), known, st.regs);
            && RunDone(k, q, p.regs, adj, done, Scratched(k, MoveOf(k, p, adj, done, spare)), o, slip,
                       BaseMove(k, p, next, adj, done, spare, known, slip), st)
            && (AllEncodable(o.code) <==> !RunTooFar(k, p, next, adj, done, spare))
  {
    hide RunDone, Generate, IsSaved, Apart, RunTooFar, AllEncodable, MoveOf, SlipOf, BaseMove;
    RunDoes(k, q, p, next, adj, done, spare, known, st);
    RunNonempty(q, p);
    GenerateEncodable(k, p, next, adj, done, spare, known);
  }

  lemma RunNonempty(q: Queue, p: Saved)
    requires IsSaved(q, p)
    ensures p.regs != {}
  {
  }

  /** The unrecorded movement of a run is that of straddling. */
  lemma DriftIff(p: Saved, adj: int, done: int)
    requires p.start <= p.end && p.start % 4 == 0 && p.end % 4 == 0 && adj % 4 == 0 && done % 4 == 0
    ensures Drift(p, adj, done) == if Straddle(p, adj, done) then p.end - done else 0
  {
  }

  // ---- all the runs of a flush ----

  datatype Emitted = Emitted(code: Code, adj: int, done: int, spare: set<Reg>, known: Known)

  function NextStart(list: seq<Saved>): Option<int> { if |list| >= 2 then Some(list[1].start) else None }

  /** When the base dies with the flush, its last run need not move it. */
  function AdjFor(list: seq<Saved>, adj: int, baseDead: bool): int { if baseDead && |list| == 1 then 0 else adj }

  function SpareAfter(k: Kind, s: set<Reg>, spare: set<Reg>, dead: set<Reg>): set<Reg>
  {
    if k.load then spare - s else spare + s * dead
  }

  /** The loop over the planned runs in ldm_flush_r. */
  function GenerateAll(k: Kind, list: seq<Saved>, adj: int, done: int, spare: set<Reg>, dead: set<Reg>,
          baseDead: bool, known: Known): Emitted
  {
    if |list| == 0 then Emitted([], adj, done, spare, known)
    else
      var adj0 := AdjFor(list, adj, baseDead);
      var o := Generate(k, list[0], NextStart(list), adj0, done, spare, known);
      var rest := GenerateAll(k, list[1..], o.adj, o.done, SpareAfter(k, list[0].regs, spare, dead), dead, baseDead,
                              KnownAfter(k, list[0], adj0, done, spare, known));
      Emitted(o.code + rest.code, rest.adj, rest.done, rest.spare, rest.known)
  }

  /** Does the base drift somewhere in the flush? */
  predicate Straddles(k: Kind, list: seq<Saved>, adj: int, done: int, spare: set<Reg>, dead: set<Reg>, baseDead: bool,
          known: Known)
  {
    |list| > 0 &&
    var adj0 := AdjFor(list, adj, baseDead);
    var o := Generate(k, list[0], NextStart(list), adj0, done, spare, known);
    Straddle(list[0], adj0, done)
    || Straddles(k, list[1..], o.adj, o.done, SpareAfter(k, list[0].regs, spare, dead), dead, baseDead,
                 KnownAfter(k, list[0], adj0, done, spare, known))
  }

  /** Does some single transfer of the flush need more than twelve bits? */
  predicate Overreaches(k: Kind, list: seq<Saved>, adj: int, done: int, spare: set<Reg>, dead: set<Reg>,
          baseDead: bool, known: Known)
  {
    |list| > 0 &&
    var adj0 := AdjFor(list, adj, baseDead);
    var o := Generate(k, list[0], NextStart(list), adj0, done, spare, known);
    RunTooFar(k, list[0], NextStart(list), adj0, done, spare)
    || Overreaches(k, list[1..], o.adj, o.done, SpareAfter(k, list[0].regs, spare, dead), dead, baseDead,
                   KnownAfter(k, list[0], adj0, done, spare, known))
  }

  function TotalDrift(k: Kind, list: seq<Saved>, adj: int, done: int, spare: set<Reg>, dead: set<Reg>,
          baseDead: bool, known: Known): int
  {
    if |list| == 0 then 0
    else
      var adj0 := AdjFor(list, adj, baseDead);
      var o := Generate(k, list[0], NextStart(list), adj0, done, spare, known);
      Drift(list[0], adj0, done)
      + TotalDrift(k, list[1..], o.adj, o.done, SpareAfter(k, list[0].regs, spare, dead), dead, baseDead,
                   KnownAfter(k, list[0], adj0, done, spare, known))
  }

  function Covered(list: seq<Saved>): set<Reg> { if |list| == 0 then {} else list[0].regs + Covered(list[1..]) }

  /** A plan for part of q: disjoint runs, the one that loads the base (if any) last and then with nothing left over. */
  ghost predicate Planned(k: Kind, q: Queue, list: seq<Saved>)
  {
    && (forall i :: 0 <= i < |list| ==> IsSaved(q, list[i]))
    && (forall i, j :: 0 <= i < j < |list| ==> list[i].regs !! list[j].regs)
    && (forall i :: 0 <= i < |list| - 1 ==> k.base !in list[i].regs)
    && (k.base in q ==> q.Keys <= Covered(list))
  }

  /** What a flush may clobber. */
  function Clobbered(k: Kind, spare: set<Reg>, dead: set<Reg>, baseDead: bool): set<Reg>
  {
    Scratch(k, spare + dead) + (if baseDead then {k.base} else {})
  }

  lemma PlannedRest(k: Kind, q: Queue, list: seq<Saved>)
    requires Planned(k, q, list) && |list| > 0
    ensures IsSaved(q, list[0]) && (k.base in list[0].regs ==> q.Keys <= list[0].regs)
    ensures Planned(k, q - list[0].regs, list[1..])
    ensures q - list[0].regs - Covered(list[1..]) == q - Covered(list)
  {
    hide IsSaved, Covered;
    InRun(q, list[0]);
    CoveredFirst(list);
    PlannedTail(k, q, list);
    if k.base in list[0].regs { CoveredAlone(list); }
    assert q - list[0].regs - Covered(list[1..]) == q - Covered(list);
  }

  lemma CoveredFirst(list: seq<Saved>)
    requires |list| > 0
    ensures Covered(list) == list[0].regs + Covered(list[1..])
  {
  }

  lemma CoveredAlone(list: seq<Saved>)
    requires |list| == 1
    ensures Covered(list) == list[0].regs
  {
    assert Covered(list[1..]) == {};
  }

  lemma PlannedTail(k: Kind, q: Queue, list: seq<Saved>)
    requires Planned(k, q, list) && |list| > 0
    ensures Planned(k, q - list[0].regs, list[1..])
  {
    hide IsSaved, Covered;
    var rest := list[1..];
    forall i | 0 <= i < |rest| ensures IsSaved(q - list[0].regs, rest[i]) {
      SavedStays(q, list[0].regs, list[i + 1]);
    }
    forall i, j | 0 <= i < j < |rest| ensures rest[i].regs !! rest[j].regs {
      assert list[i + 1].regs !! list[j + 1].regs;
    }
    forall i | 0 <= i < |rest| - 1 ensures k.base !in rest[i].regs {
      assert k.base !in list[i + 1].regs;
    }
    CoveredFirst(list);
  }

  lemma SavedStays(q: Queue, s: set<Reg>, p: Saved)
    requires IsSaved(q, p) && s !! p.regs
    ensures IsSaved(q - s, p)
  {
    hide Rank, Count;
  }

  lemma WorkableRest(k: Kind, q: Queue, s: set<Reg>, adj: int, adj': int, spare: set<Reg>, dead: set<Reg>)
    requires Workable(k, q, adj) && Clear(k, q, spare) && (!k.load ==> k.base !in dead)
    requires adj == 0 && k.base in q ==> adj' == 0
    ensures Workable(k, q - s, adj') && Clear(k, q - s, SpareAfter(k, s, spare, dead))
  {
    if !k.load { PartsApart(q, s); }
  }

  /** The code of a list of runs can be encoded exactly when it does not overreach. */
  lemma {:induction false} GenerateAllEncodable(k: Kind, q: Queue, list: seq<Saved>, adj: int, done: int,
          spare: set<Reg>, dead: set<Reg>, baseDead: bool, known: Known)
    requires Planned(k, q, list)
    ensures AllEncodable(GenerateAll(k, list, adj, done, spare, dead, baseDead, known).code)
            <==> !Overreaches(k, list, adj, done, spare, dead, baseDead, known)
  {
    hide Generate, IsSaved, Covered, Planned, RunTooFar, AllEncodable, KnownAfter;
    if |list| == 0 {
      NothingEncodable();
    } else {
      var p, adj0 := list[0], AdjFor(list, adj, baseDead);
      var o := Generate(k, p, NextStart(list), adj0, done, spare, known);
      var spare', known' := SpareAfter(k, p.regs, spare, dead), KnownAfter(k, p, adj0, done, spare, known);
      PlannedRest(k, q, list);
      RunNonempty(q, p);
      GenerateEncodable(k, p, NextStart(list), adj0, done, spare, known);
      GenerateAllEncodable(k, q - p.regs, list[1..], o.adj, o.done, spare', dead, baseDead, known');
      EncodableAppend(o.code, GenerateAll(k, list[1..], o.adj, o.done, spare', dead, baseDead, known').code);
    }
  }

  ghost predicate WordMultiples(list: seq<Saved>)
  {
    forall i :: 0 <= i < |list| ==> list[i].start % 4 == 0 && list[i].end % 4 == 0
  }

  lemma NothingCovered(q: Queue)
    ensures q - Covered([]) == q
  {
  }

  lemma SingleMultiples(k: Kind, r: Reg, start: int, next: Option<int>, adj: int, done: int)
    requires start % 4 == 0 && adj % 4 == 0 && done % 4 == 0 && (next.Some? ==> next.value % 4 == 0)
    ensures var o := Single(k, r, start, next, adj, done); o.adj % 4 == 0 && o.done % 4 == 0
  {
    hide Within;
  }

  lemma {:induction false} SinglyMultiples(k: Kind, s: set<Reg>, start: int, next: Option<int>, adj: int, done: int,
          r: nat)
    requires r <= 16 && start % 4 == 0 && adj % 4 == 0 && done % 4 == 0 && (next.Some? ==> next.value % 4 == 0)
    ensures var o := Singly(k, s, start, next, adj, done, r); o.adj % 4 == 0 && o.done % 4 == 0
    decreases 16 - r
  {
    hide Single;
    if r < 16 {
      if r in s {
        var one := Single(k, r, start, next, adj, done);
        SingleMultiples(k, r, start, next, adj, done);
        SinglyMultiples(k, s, start + 4, next, one.adj, one.done, r + 1);
      } else {
        SinglyMultiples(k, s, start, next, adj, done, r + 1);
      }
    }
  }

  /** Word multiples stay word multiples. */
  lemma GenerateMultiples(k: Kind, list: seq<Saved>, adj: int, done: int, spare: set<Reg>, known: Known)
    requires |list| > 0 && WordMultiples(list) && adj % 4 == 0 && done % 4 == 0
    ensures var o := Generate(k, list[0], NextStart(list), adj, done, spare, known);
            o.adj % 4 == 0 && o.done % 4 == 0
  {
    hide Singly, Shaped, Placed, ShapeOf, PlaceFor, MoveOf, Claimed;
    var p := list[0];
    var cache, place := Claimed(MoveOf(k, p, adj, done, spare), known), PlaceFor(k, p, spare);
    SinglyMultiples(k, p.regs, p.start, NextStart(list), adj, done, 0);
    var sh := ShapeOf(p.start - done, p.end - done, adj);
    if sh.Some? {
      ShapeMultiples(p.start - done, p.end - done, adj);
      ShapedMultiples(k, p, sh.value, adj, done, cache);
    } else {
      PlacedMultiples(k, p, if place.Temp? then place.r else k.base, place.Base?, adj, done, cache);
    }
  }

  lemma ShapedMultiples(k: Kind, p: Saved, sh: Shape, adj: int, done: int, known: Known)
    requires sh.move % 4 == 0 && adj % 4 == 0 && done % 4 == 0
    ensures var o := Shaped(k, p, sh, adj, done, known); o.adj % 4 == 0 && o.done % 4 == 0
  {
    hide MoveBy, Within;
    Multiples(adj, done, sh.move);
  }

  lemma Multiples(adj: int, done: int, move: int)
    requires adj % 4 == 0 && done % 4 == 0 && move % 4 == 0
    ensures (adj - move) % 4 == 0 && (done + move) % 4 == 0
  {
  }

  lemma PlacedMultiples(k: Kind, p: Saved, b: Reg, altered: bool, adj: int, done: int, known: Known)
    requires p.start % 4 == 0 && p.end % 4 == 0 && adj % 4 == 0 && done % 4 == 0
    ensures var o := Placed(k, p, b, altered, adj, done, known); o.adj % 4 == 0 && o.done % 4 == 0
  {
    hide MoveBy, Elsewhere;
    ShapeMultiples(p.start - done, p.end - done, adj);
  }

  lemma ShapeMultiples(start: int, end: int, adj: int)
    requires start % 4 == 0 && end % 4 == 0
    ensures var sh := ShapeOf(start, end, adj); sh.Some? ==> sh.value.move % 4 == 0
    ensures Elsewhere(start, end).addon % 4 == 0
  {
    hide EightBits, Wrap;
  }

  /** Drift is never upwards, so it cannot cancel. */
  lemma {:induction false} TotalDriftIff(k: Kind, q: Queue, list: seq<Saved>, adj: int, done: int, spare: set<Reg>,
          dead: set<Reg>, baseDead: bool, known: Known)
    requires Planned(k, q, list) && WordMultiples(list) && adj % 4 == 0 && done % 4 == 0
    ensures var d := TotalDrift(k, list, adj, done, spare, dead, baseDead, known);
            d <= 0 && (d < 0 <==> Straddles(k, list, adj, done, spare, dead, baseDead, known))
  {
    hide Generate, IsSaved, Covered, Drift, Planned, Straddle, KnownAfter;
    if |list| > 0 {
      var p := list[0];
      var adj0 := AdjFor(list, adj, baseDead);
      var o := Generate(k, p, NextStart(list), adj0, done, spare, known);
      PlannedRest(k, q, list);
      InRun(q, p);
      DriftIff(p, adj0, done);
      GenerateMultiples(k, list, adj0, done, spare, known);
      TotalDriftIff(k, q - p.regs, list[1..], o.adj, o.done, SpareAfter(k, p.regs, spare, dead), dead, baseDead,
                    KnownAfter(k, p, adj0, done, spare, known));
      StraddleIsBelow(p, adj0, done);
    }
  }

  lemma StraddleIsBelow(p: Saved, adj: int, done: int)
    ensures Straddle(p, adj, done) ==> p.end - done < 0
  {
  }

  /** What a flush adds to, or takes from, the spare registers. */
  lemma {:induction false} GenerateAllSpare(k: Kind, list: seq<Saved>, adj: int, done: int, spare: set<Reg>,
          dead: set<Reg>, baseDead: bool, known: Known)
    ensures GenerateAll(k, list, adj, done, spare, dead, baseDead, known).spare
            == if k.load then spare - Covered(list) else spare + Covered(list) * dead
  {
    hide Generate, KnownAfter;
    if |list| > 0 {
      var adj0 := AdjFor(list, adj, baseDead);
      var o := Generate(k, list[0], NextStart(list), adj0, done, spare, known);
      GenerateAllSpare(k, list[1..], o.adj, o.done, SpareAfter(k, list[0].regs, spare, dead), dead, baseDead,
                       KnownAfter(k, list[0], adj0, done, spare, known));
    }
  }

  lemma {:induction false} GenerateAllMultiples(k: Kind, list: seq<Saved>, adj: int, done: int, spare: set<Reg>,
          dead: set<Reg>, baseDead: bool, known: Known)
    requires WordMultiples(list) && adj % 4 == 0 && done % 4 == 0
    ensures var e := GenerateAll(k, list, adj, done, spare, dead, baseDead, known); e.adj % 4 == 0 && e.done % 4 == 0
  {
    hide Generate, KnownAfter;
    if |list| > 0 {
      var adj0 := AdjFor(list, adj, baseDead);
      var o := Generate(k, list[0], NextStart(list), adj0, done, spare, known);
      GenerateMultiples(k, list, adj0, done, spare, known);
      GenerateAllMultiples(k, list[1..], o.adj, o.done, SpareAfter(k, list[0].regs, spare, dead), dead, baseDead,
                           KnownAfter(k, list[0], adj0, done, spare, known));
    }
  }
}
