/**
 Flushing the combiner (ldm_flush_r in arm/gen.c): the code emitted, followed by whatever
 is still held back, does what the whole queue stood for, unless transfers go astray or an
 offset overreaches its field.
 */
module Flush {
  import opened Words
  import opened Arm
  import opened Immediates
  import opened KnownValues
  import opened AddConstant
  import opened Transfers
  import opened Combiner
  import opened CombinerPlan
  import opened Traces
  import opened Places

  const ALL: set<Reg> := {0, 1, 2, 3, 4, 5, 6, 7, 8, 9, 10, 11, 12, 13, 14, 15}

  /** The settings a flush depends on: ldm_regs_max, global register variables, usrdbg(DBG_VAR). */
  datatype Config = Config(limit: nat, globals: set<Reg>, debugVars: bool)

  /**
   The file-level state (LoadOrStoreMul, spareregs and register_values).  `q` holds regbits
   and offset; `pending` and `load` are the three values of PendingStoreAccess.
   */
  datatype Comb = Comb(pending: bool, load: bool, base: Reg, q: Queue, dead: set<Reg>, adj: int, baseDead: bool,
      spare: set<Reg>, known: Known)

  datatype Flushed = Flushed(code: Code, after: Comb)

  /**
   The writeback pretended for a dead base: the last offset, unless in register order a positive
   offset is directly followed by a negative one, or the other way round.
   */
  function Pretended(q: Queue, r: nat := 0, last: int := 0, same: bool := true): Option<int>
    requires r <= 16
    decreases 16 - r
  {
    if r == 16 then if same then Some(last) else None
    else if r !in q then Pretended(q, r + 1, last, same)
    else if last == 0 || (last >= 0 && q[r] >= 0) || (last <= 0 && q[r] <= 0) then Pretended(q, r + 1, q[r], same)
    else Pretended(q, r + 1, last, false)
  }

  predicate Pretends(cfg: Config, c: Comb)
  {
    c.adj == 0 && c.baseDead && c.base !in c.q && !cfg.debugVars && Pretended(c.q).Some?
  }

  function StartAdj(cfg: Config, c: Comb): int { if Pretends(cfg, c) then Pretended(c.q).value else c.adj }

  function StartMask(cfg: Config, c: Comb, mask: set<Reg>): set<Reg>
  {
    if c.adj != 0 || Pretends(cfg, c) then ALL else mask
  }

  function KindOf(cfg: Config, c: Comb): Kind { Kind(c.load, c.base, cfg.globals) }

  function PlanFor(cfg: Config, c: Comb, mask: set<Reg>): Plan
  {
    PlanOf(c.q, StartMask(cfg, c, mask), c.base, StartAdj(cfg, c), cfg.limit)
  }

  function EmittedBy(cfg: Config, c: Comb, mask: set<Reg>): Emitted
  {
    GenerateAll(KindOf(cfg, c), PlanFor(cfg, c, mask).list, StartAdj(cfg, c), 0, c.spare, c.dead, c.baseDead, c.known)
  }

  /** The cache after the runs: a base whose movement was recorded is forgotten. */
  function CacheAfter(e: Emitted, base: Reg): Known { if e.done != 0 then e.known[base := None] else e.known }

  /** ldm_flush_r; `more` is moreforbase. */
  function FlushR(cfg: Config, c: Comb, mask: set<Reg>, more: bool): Flushed
  {
    if !c.pending then Flushed([], c)
    else
      var rest := PlanFor(cfg, c, mask).rest;
      var e := EmittedBy(cfg, c, mask);
      var spare := if rest == map[] && c.baseDead && c.base !in c.q then e.spare + {c.base} else e.spare;
      var add := rest == map[] && e.adj != 0 && !c.baseDead && !more;
      var known := CacheAfter(e, c.base);
      Flushed(e.code + (if add then MoveBy(c.base, c.base, e.adj, known) else []),
              Comb(rest != map[], c.load, c.base, Rebased(rest, e.done), c.dead * rest.Keys, if add then 0 else e.adj,
                   c.baseDead, spare, known))
  }

  /** The case in which the emitted code moves the base without recording it. */
  predicate FlushStraddles(cfg: Config, c: Comb, mask: set<Reg>)
  {
    Straddles(KindOf(cfg, c), PlanFor(cfg, c, mask).list, StartAdj(cfg, c), 0, c.spare, c.dead, c.baseDead, c.known)
  }

  /** The case in which some emitted LDR or STR needs an offset of more than twelve bits. */
  predicate FlushOverreaches(cfg: Config, c: Comb, mask: set<Reg>)
  {
    Overreaches(KindOf(cfg, c), PlanFor(cfg, c, mask).list, StartAdj(cfg, c), 0, c.spare, c.dead, c.baseDead, c.known)
  }

  /** Where the transfers go and the base ends, beside where they should, from a base that holds b. */
  function FlushTrace(cfg: Config, c: Comb, mask: set<Reg>, b: Word): Trace
  {
    TraceOf(KindOf(cfg, c), PlanFor(cfg, c, mask).list, StartAdj(cfg, c), 0, c.spare, c.dead, c.baseDead, c.known, b,
            0)
  }

  /** By how much each queued register misses its place; what stays queued misses by as much as the base does. */
  function Errors(cfg: Config, c: Comb, mask: set<Reg>, b: Word): (err: map<Reg, Word>)
    ensures err.Keys == c.q.Keys
  {
    var t := FlushTrace(cfg, c, mask, b);
    map r | r in c.q :: if r in t.err then t.err[r] else t.lost
  }

  /** The base as the cache has it; one that is not recorded may hold anything, and 0 will do. */
  function Began(c: Comb): Word { CachedRegs(c.known)[c.base] }

  /** May the base hold b? */
  predicate Possible(c: Comb, b: Word) { c.known[c.base].Some? ==> b == c.known[c.base].value }

  /** The loads whose addresses are made in a register that the cache offers back. */
  function FlushReadBack(cfg: Config, c: Comb, mask: set<Reg>): set<Reg>
  {
    ReadBack(KindOf(cfg, c), PlanFor(cfg, c, mask).list, StartAdj(cfg, c), 0, c.spare, c.dead, c.baseDead, c.known)
  }

  /**
   Does the transfer of r miss its place in some state that matches the cache?  If the base is
   recorded they all agree; if it is not, whatever is read back can be anything.
   */
  predicate Misses(cfg: Config, c: Comb, mask: set<Reg>, r: Reg)
    requires r in c.q
  {
    Errors(cfg, c, mask, Began(c))[r] != 0 || (c.known[c.base].None? && r in FlushReadBack(cfg, c, mask))
  }

  /** How far the base ends from where it is taken to be. */
  function FlushLost(cfg: Config, c: Comb, mask: set<Reg>): Word { FlushTrace(cfg, c, mask, Began(c)).lost }

  /** A load misses its word, or a store leaves some place without what is meant for it. */
  predicate FlushMisses(cfg: Config, c: Comb, mask: set<Reg>)
  {
    if c.load then exists r: Reg :: r in c.q && Misses(cfg, c, mask, r)
    else Misplaces(c.q, Errors(cfg, c, mask, Began(c)), c.known)
  }

  /** The base ends in the wrong place, and the program or the cache still relies on it. */
  predicate FlushStrands(cfg: Config, c: Comb, mask: set<Reg>)
  {
    && c.base !in c.q && FlushLost(cfg, c, mask) != 0
    && (!c.baseDead || CacheAfter(EmittedBy(cfg, c, mask), c.base)[c.base].Some?)
  }

  predicate FlushStrays(cfg: Config, c: Comb, mask: set<Reg>)
  {
    FlushMisses(cfg, c, mask) || FlushStrands(cfg, c, mask)
  }

  predicate FlushFaults(cfg: Config, c: Comb, mask: set<Reg>)
  {
    FlushStrays(cfg, c, mask) || FlushOverreaches(cfg, c, mask)
  }

  /** What the program expects of the machine while c is held back. */
  function Held(c: Comb, st: State): State { View(c.load, c.base, c.q, c.adj, st) }

  function MayClobber(cfg: Config, c: Comb): set<Reg>
  {
    Clobbered(KindOf(cfg, c), c.spare, c.dead * c.q.Keys, c.baseDead && c.base !in c.q)
  }

  /** What every queue built by the compiler satisfies. */
  ghost predicate Good(cfg: Config, c: Comb)
  {
    && cfg.limit >= 1
    && Workable(KindOf(cfg, c), c.q, c.adj)
    && Clear(KindOf(cfg, c), c.q, c.spare)
    && (!c.load ==> c.base !in c.dead)
    && c.adj % 4 == 0
    && (forall r: Reg :: r in c.q ==> c.q[r] % 4 == 0)
    && (c.adj != 0 && !c.baseDead ==> c.known[c.base].None?)
  }

  /** With the machine in step with the cache, the flush does its part and leaves them in step. */
  ghost predicate FlushRight(cfg: Config, c: Comb, mask: set<Reg>, more: bool, st: State)
  {
    var f := FlushR(cfg, c, mask, more);
    Same(MayClobber(cfg, c), Held(c, st), Held(f.after, Run(f.code, st))) && Agrees(f.after.known, Run(f.code, st).regs)
  }

  // ---- the plan ----

  lemma {:induction false} PretendedMultiple(q: Queue, r: nat, last: int, same: bool)
    requires r <= 16 && last % 4 == 0 && forall x: Reg :: x in q ==> q[x] % 4 == 0
    ensures Pretended(q, r, last, same).Some? ==> Pretended(q, r, last, same).value % 4 == 0
    decreases 16 - r
  {
    if r < 16 {
      if r !in q {
        PretendedMultiple(q, r + 1, last, same);
      } else {
        PretendedMultiple(q, r + 1, q[r], same);
        PretendedMultiple(q, r + 1, last, false);
      }
    }
  }

  lemma PlanMultiples(k: Kind, q: Queue, list: seq<Saved>)
    requires Planned(k, q, list) && forall r: Reg :: r in q ==> q[r] % 4 == 0
    ensures WordMultiples(list)
  {
    hide Covered;
    forall i | 0 <= i < |list| ensures list[i].start % 4 == 0 && list[i].end % 4 == 0 {
      SavedMultiples(q, list[i]);
    }
  }

  lemma SavedMultiples(q: Queue, p: Saved)
    requires IsSaved(q, p) && forall r: Reg :: r in q ==> q[r] % 4 == 0
    ensures p.start % 4 == 0 && p.end % 4 == 0
  {
    hide Rank;
    assert q[p.last] == p.start + 4 * Rank(p.regs, p.last);
  }

  /** What the plan and the adjustment of a flush satisfy at its start. */
  lemma FlushStart(cfg: Config, c: Comb, mask: set<Reg>)
    requires Good(cfg, c) && (c.base in c.q ==> c.q.Keys <= mask)
    ensures var k := KindOf(cfg, c);
            var list := PlanFor(cfg, c, mask).list;
            && Planned(k, c.q, list)
            && PlanFor(cfg, c, mask).rest == c.q - Covered(list)
            && PlanFor(cfg, c, mask).rest.Keys !! StartMask(cfg, c, mask)
            && WordMultiples(list)
            && StartAdj(cfg, c) % 4 == 0
            && Workable(k, c.q, StartAdj(cfg, c))
  {
    hide PlanOf, Covered, Pretended, Apart, Planned;
    PretendedMultiple(c.q, 0, 0, true);
    var k := KindOf(cfg, c);
    assert c.q.Keys <= ALL;
    PlanOfOk(k, c.q, StartMask(cfg, c, mask), StartAdj(cfg, c), cfg.limit);
    PlanMultiples(k, c.q, PlanFor(cfg, c, mask).list);
  }

  /** A base that is itself loaded has no adjustment for its death to cancel. */
  lemma {:induction false} DeathIrrelevant(k: Kind, q: Queue, list: seq<Saved>, done: int, spare: set<Reg>,
          dead: set<Reg>, d1: bool, d2: bool, known: Known)
    requires Planned(k, q, list) && k.load && k.base in q
    ensures GenerateAll(k, list, 0, done, spare, dead, d1, known)
            == GenerateAll(k, list, 0, done, spare, dead, d2, known)
    ensures GenerateAll(k, list, 0, done, spare, dead, d1, known).adj == 0
    ensures GenerateAll(k, list, 0, done, spare, dead, d1, known).done == done
    ensures !Straddles(k, list, 0, done, spare, dead, d1, known)
  {
    hide Generate, Planned, IsSaved, Covered, KnownAfter;
    if |list| > 0 {
      var p := list[0];
      var o := Generate(k, p, NextStart(list), 0, done, spare, known);
      PlannedRest(k, q, list);
      NoAdjustment(k, q, p, NextStart(list), done, spare, known);
      if |list| > 1 {
        BaseLater(k, q, list);
        DeathIrrelevant(k, q - p.regs, list[1..], o.done, SpareAfter(k, p.regs, spare, dead), dead, d1, d2,
                        KnownAfter(k, p, 0, done, spare, known));
      }
    }
  }

  lemma BaseLater(k: Kind, q: Queue, list: seq<Saved>)
    requires Planned(k, q, list) && |list| > 1 && k.base in q
    ensures k.base in q - list[0].regs
  {
  }

  lemma NoAdjustment(k: Kind, q: Queue, p: Saved, next: Option<int>, done: int, spare: set<Reg>, known: Known)
    requires k.load && IsSaved(q, p)
    ensures Generate(k, p, next, 0, done, spare, known).adj == 0
    ensures Generate(k, p, next, 0, done, spare, known).done == done
    ensures !Straddle(p, 0, done) && Drift(p, 0, done) == 0
  {
    hide MoveBy, Elsewhere, Singly, Claimed;
    InRun(q, p);
    SinglyNoAdjustment(k, p.regs, p.start, next, done, 0);
  }

  lemma {:induction false} SinglyNoAdjustment(k: Kind, s: set<Reg>, start: int, next: Option<int>, done: int, r: nat)
    requires r <= 16
    ensures Singly(k, s, start, next, 0, done, r).adj == 0 && Singly(k, s, start, next, 0, done, r).done == done
    decreases 16 - r
  {
    if r < 16 {
      if r in s {
        SinglyNoAdjustment(k, s, start + 4, next, done, r + 1);
      } else {
        SinglyNoAdjustment(k, s, start, next, done, r + 1);
      }
    }
  }

  lemma {:induction false} OneTooFar(k: Kind, r: Reg, start: int, next: Option<int>, adj: int, done: int, i: nat)
    requires i <= 16
    ensures SinglyTooFar(k, {r}, start, next, adj, done, i) ==> i <= r && TooFar(start - done)
    decreases 16 - i
  {
    hide Single, TooFar;
    if i < 16 {
      var one := Single(k, r, start, next, adj, done);
      OneTooFar(k, r, start, next, adj, done, i + 1);
      if i == r { OneTooFar(k, r, start + 4, next, one.adj, one.done, i + 1); }
    }
  }

  /** Loads without an adjustment leave the base in place, so their own offsets decide. */
  lemma {:induction false} LoadsInPlace(k: Kind, q: Queue, list: seq<Saved>, spare: set<Reg>, dead: set<Reg>,
          baseDead: bool, known: Known)
    requires Planned(k, q, list) && k.load && forall r: Reg :: r in q ==> !TooFar(q[r])
    ensures !Overreaches(k, list, 0, 0, spare, dead, baseDead, known)
  {
    hide Generate, Planned, IsSaved, Covered, SinglyTooFar, ShapeOf, TooFar, KnownAfter;
    if |list| > 0 {
      var p := list[0];
      PlannedRest(k, q, list);
      NoAdjustment(k, q, p, NextStart(list), 0, spare, known);
      LoadsInPlace(k, q - p.regs, list[1..], SpareAfter(k, p.regs, spare, dead), dead, baseDead,
                   KnownAfter(k, p, 0, 0, spare, known));
      if p.start == p.end {
        SavedInOrder(q, p);
        OneTooFar(k, p.last, p.start, NextStart(list), 0, 0, 0);
        OnlyWordIs(q, p);
      }
    }
  }

  lemma OnlyWordIs(q: Queue, p: Saved)
    requires IsSaved(q, p)
    ensures p.start == p.end ==> p.last in q && q[p.last] == p.start
  {
    hide Rank;
    if p.start == p.end { RankMonotone(p.regs, p.last + 1, 16); RankStep(p.regs, p.last); }
  }

  lemma RankStep(s: set<Reg>, r: Reg)
    ensures r in s ==> Rank(s, r + 1) == Rank(s, r) + 1
  {
  }

  /** With nothing left to transfer, adding the adjustment settles it. */
  lemma AdjustmentDone(load: bool, base: Reg, adj: int, st: State)
    ensures View(load, base, map[], adj, st) == With(st, base, Addr(st.regs[base], adj))
    ensures View(load, base, map[], 0, With(st, base, Addr(st.regs[base], adj)))
            == With(st, base, Addr(st.regs[base], adj))
  {
    hide Addr, StoreAll;
    var end := With(st, base, Addr(st.regs[base], adj));
    StoreNothing(st.regs[base], st.regs, st.mem, 16);
    StoreNothing(end.regs[base], end.regs, end.mem, 16);
    AddrZero(end.regs[base]);
    NothingLoaded(st.regs[base], st.mem, st.regs[base := Addr(st.regs[base], adj)]);
    NothingLoaded(end.regs[base], end.mem, end.regs[base := Addr(end.regs[base], 0)]);
  }

  /** The instructions of a flush can be encoded exactly when it does not overreach. */
  lemma FlushEncodableIff(cfg: Config, c: Comb, mask: set<Reg>, more: bool)
    requires c.pending && Good(cfg, c) && (c.base in c.q ==> c.q.Keys <= mask)
    ensures AllEncodable(FlushR(cfg, c, mask, more).code) <==> !FlushOverreaches(cfg, c, mask)
  {
    hide PlanFor, StartAdj, GenerateAll, MoveBy, Good, Planned, Workable, Overreaches, AllEncodable, CacheAfter;
    FlushStart(cfg, c, mask);
    GenerateAllEncodable(KindOf(cfg, c), c.q, PlanFor(cfg, c, mask).list, StartAdj(cfg, c), 0, c.spare, c.dead,
        c.baseDead, c.known);
    var e := EmittedBy(cfg, c, mask);
    MoveByEncodable(c.base, c.base, e.adj, CacheAfter(e, c.base));
    EncodableAppend(e.code, MoveBy(c.base, c.base, e.adj, CacheAfter(e, c.base)));
    assert e.code + [] == e.code;
  }

  // ---- what the code of a flush does, astray or not ----

  lemma TracksStart(c: Comb, st: State)
    requires Agrees(c.known, st.regs)
    ensures Tracks(c.base, c.known, st.regs[c.base], 0, 0, st.regs) && Possible(c, st.regs[c.base])
  {
    hide Addr;
    AddrZero(st.regs[c.base]);
  }

  /** What a base that was moved without a record, or by too much, does to what is still held back. */
  lemma HeldWrote(q: Queue, s: set<Reg>, err: map<Reg, Word>, lost: Word, done: int, adj: int, base: Reg, at: Word,
          regs: Regs, mem: Mem, end: State)
    requires Apart(q) && base !in q && s <= q.Keys && s <= err.Keys && end.regs[base] == Addr(at, done + lost)
    requires forall r: Reg :: r in q && r !in s ==> end.regs[r] == regs[r]
    requires Wrote(q, s, err, at, regs, mem, end.mem)
    ensures var all := map r | r in q :: if r in s then err[r] else lost;
            Wrote(q, q.Keys, all, at, regs, mem, View(false, base, Rebased(q - s, done), adj, end).mem)
  {
    hide Wrote, StoreAll, Addr, Apart;
    var all := map r | r in q :: if r in s then err[r] else lost;
    var rest := q.Keys - s;
    var held := View(false, base, Rebased(q - s, done), adj, end).mem;
    WroteSame(q, q, s, err, all, at, regs, mem, end.mem);
    OnlyRest(q, s, done);
    WrapLost(lost);
    StoredWrote(q, rest, base, done, lost, 0, at, end, held);
    WroteSame(q, q, rest, Constant(rest, Wrap(lost + 0)), all, at, end.regs, end.mem, held);
    WroteBoth(q, s, rest, all, at, regs, end.regs, mem, end.mem, held);
    assert s + rest == q.Keys;
  }

  lemma OnlyRest(q: Queue, s: set<Reg>, done: int)
    ensures Only(Rebased(q, done - 0), q.Keys - s) == Rebased(q - s, done)
  {
  }

  lemma WrapLost(lost: Word)
    ensures Wrap(lost + 0) == lost
  {
  }

  lemma HeldEmpty(load: bool, base: Reg, adj: int, st: State)
    ensures View(load, base, map[], adj, st) == With(st, base, Addr(st.regs[base], adj))
  {
    hide Addr, StoreAll, LoadAll;
    StoreNothing(st.regs[base], st.regs, st.mem, 16);
    NothingLoaded(st.regs[base], st.mem, st.regs[base := Addr(st.regs[base], adj)]);
  }

  lemma AgreesAll(known: Known, regs: Regs, base: Reg)
    requires AgreesBut(known, regs, base, false) && (known[base].Some? ==> regs[base] == known[base].value)
    ensures Agrees(known, regs)
  {
  }

  lemma AgreesForgot(known: Known, regs: Regs, base: Reg)
    requires AgreesBut(known, regs, base, false)
    ensures AgreesBut(known[base := None], regs, base, false)
  {
  }

  /** The final addition is always right: a base still recorded has nothing left to add. */
  lemma FinalMove(cfg: Config, c: Comb, mask: set<Reg>, regs: Regs)
    requires Good(cfg, c) && !c.baseDead && AgreesBut(EmittedBy(cfg, c, mask).known, regs, c.base, false)
    requires var e := EmittedBy(cfg, c, mask); e.adj + e.done == c.adj && e.adj != 0
    ensures var e := EmittedBy(cfg, c, mask);
            && CacheAfter(e, c.base)[c.base].None?
            && Slip(c.base, c.base, e.adj, CacheAfter(e, c.base), regs) == 0
  {
    hide PlanFor, GenerateAll, Slip, Workable, Clear;
    var e := EmittedBy(cfg, c, mask);
    KnownShrinks(KindOf(cfg, c), PlanFor(cfg, c, mask).list, StartAdj(cfg, c), 0, c.spare, c.dead, c.baseDead, c.known,
                 c.base);
    AgreesAll(CacheAfter(e, c.base), regs, c.base);
    NoSlip(c.base, c.base, e.adj, CacheAfter(e, c.base), regs);
  }

  lemma StartIs(cfg: Config, c: Comb)
    ensures !c.baseDead ==> StartAdj(cfg, c) == c.adj
  {
  }

  /** The machine after the runs of a flush of stores. */
  lemma StoresDone(cfg: Config, c: Comb, mask: set<Reg>, st: State)
    requires !c.load && Good(cfg, c) && Agrees(c.known, st.regs)
    ensures var e, at := EmittedBy(cfg, c, mask), st.regs[c.base];
            var t := FlushTrace(cfg, c, mask, at);
            var mid := Run(e.code, st);
            && mid.flags == st.flags && (!c.baseDead ==> e.adj + e.done == c.adj)
            && mid.regs[c.base] == Addr(at, e.done + t.lost)
            && AgreesBut(e.known, mid.regs, c.base, false)
            && (forall r: Reg :: r !in c.spare + c.dead * c.q.Keys && r != c.base ==> mid.regs[r] == st.regs[r])
            && Wrote(c.q, c.q.Keys, Errors(cfg, c, mask, at), at, st.regs, st.mem,
                     View(false, c.base, Rebased(PlanFor(cfg, c, mask).rest, e.done), e.adj, mid).mem)
  {
    hide Run, Addr, Apart, GenerateAll, TraceOf, PlanFor, StartAdj, Planned, Covered, Workable, Clear, Wrote, StoreAll;
    var k, list, adj := KindOf(cfg, c), PlanFor(cfg, c, mask).list, StartAdj(cfg, c);
    var at := st.regs[c.base];
    var e, t := EmittedBy(cfg, c, mask), FlushTrace(cfg, c, mask, at);
    StoresBase(cfg, c);
    FlushStart(cfg, c, mask);
    TracksStart(c, st);
    StartIs(cfg, c);
    RunsStore(k, c.q, list, adj, 0, c.spare, c.dead, c.baseDead, c.known, at, 0, st);
    CoveredApart(k, c.q, list);
    StoresClear(cfg, c);
    HeldWrote(c.q, Covered(list), t.err, t.lost, e.done, e.adj, c.base, at, st.regs, st.mem, Run(e.code, st));
  }

  lemma StoresBase(cfg: Config, c: Comb)
    requires Good(cfg, c) && !c.load
    ensures c.base !in c.q && Apart(c.q)
  {
    hide Apart;
  }

  lemma StoresClear(cfg: Config, c: Comb)
    requires Good(cfg, c) && !c.load
    ensures c.q.Keys !! c.spare && c.base !in c.spare && c.base !in c.dead
  {
    hide Apart;
  }

  /** The machine and what is still held back, after a flush of stores. */
  lemma FlushStores(cfg: Config, c: Comb, mask: set<Reg>, more: bool, st: State)
    requires c.pending && !c.load && Good(cfg, c) && Agrees(c.known, st.regs)
    ensures var f, at := FlushR(cfg, c, mask, more), st.regs[c.base];
            var t := FlushTrace(cfg, c, mask, at);
            var end, held := Run(f.code, st), Held(f.after, Run(f.code, st));
            && held.flags == st.flags
            && Wrote(c.q, c.q.Keys, Errors(cfg, c, mask, at), at, st.regs, st.mem, held.mem)
            && (forall r: Reg :: r !in c.spare + c.dead * c.q.Keys && r != c.base ==> held.regs[r] == st.regs[r])
            && (!c.baseDead ==> held.regs[c.base] == Addr(at, c.adj + t.lost))
            && AgreesBut(f.after.known, end.regs, c.base, false)
            && (f.after.known[c.base].Some? ==> end.regs[c.base] == Addr(at, t.lost))
  {
    hide Run, Addr, GenerateAll, TraceOf, PlanFor, Good, Wrote, StoreAll, MoveBy, Errors, Slip;
    var f, e, at := FlushR(cfg, c, mask, more), EmittedBy(cfg, c, mask), st.regs[c.base];
    var t := FlushTrace(cfg, c, mask, at);
    var rest, mid := PlanFor(cfg, c, mask).rest, Run(e.code, st);
    var known := CacheAfter(e, c.base);
    StoresDone(cfg, c, mask, st);
    AgreesForgot(e.known, mid.regs, c.base);
    AddrAddr(at, e.done + t.lost, e.adj);
    if rest == map[] && e.adj != 0 && !c.baseDead && !more {
      FinalMove(cfg, c, mask, mid.regs);
      RunAppend(e.code, MoveBy(c.base, c.base, e.adj, known), st);
      MoveByAdds(c.base, c.base, e.adj, known, mid);
      assert Rebased(rest, e.done) == map[];
      HeldEmpty(false, c.base, e.adj, mid);
      HeldEmpty(false, c.base, 0, Run(f.code, st));
      AddrZero(Addr(mid.regs[c.base], e.adj));
    } else {
      assert e.code + [] == e.code;
    }
  }

  // ---- loads ----

  /** What a base astray does to the loads still held back. */
  lemma HeldFetched(q: Queue, s: set<Reg>, err: map<Reg, Word>, lost: Word, done: int, adj: int, base: Reg, at: Word,
          mem: Mem, end: State)
    requires s <= q.Keys && s <= err.Keys && end.mem == mem && Fetched(q, s, err, at, mem, end.regs)
    requires if base in q then s == q.Keys && adj == 0 else end.regs[base] == Addr(at, done + lost)
    ensures var all := map r | r in q :: if r in s then err[r] else lost;
            Fetched(q, q.Keys, all, at, mem, View(true, base, Rebased(q - s, done), adj, end).regs)
  {
    hide Addr, Read, LoadAll;
    var all := map r | r in q :: if r in s then err[r] else lost;
    var rest, b := Rebased(q - s, done), end.regs[base];
    forall r: Reg | r in q
      ensures View(true, base, rest, adj, end).regs[r] == Read(mem, Addr(at, q[r] + all[r]))
    {
      LoadAllAt(rest, b, mem, end.regs[base := Addr(b, adj)], r);
      AddrZero(b);
      if r !in s { HereAddr(at, done, lost, 0, q[r]); WrapLost(lost); }
    }
  }

  /** The machine after the runs of a flush of loads. */
  lemma LoadsDone(cfg: Config, c: Comb, mask: set<Reg>, st: State)
    requires c.load && Good(cfg, c) && (c.base in c.q ==> c.q.Keys <= mask) && Agrees(c.known, st.regs)
    ensures var e, at := EmittedBy(cfg, c, mask), st.regs[c.base];
            var t := FlushTrace(cfg, c, mask, at);
            var mid := Run(e.code, st);
            && mid.flags == st.flags && mid.mem == st.mem && (!c.baseDead ==> e.adj + e.done == c.adj)
            && (c.base in c.q ==> e.adj == 0 && e.done == 0)
            && (c.base !in c.q ==> mid.regs[c.base] == Addr(at, e.done + t.lost))
            && AgreesBut(e.known, mid.regs, c.base, false)
            && (forall r: Reg :: r !in c.q && r != c.base ==> mid.regs[r] == st.regs[r])
            && Fetched(c.q, c.q.Keys, Errors(cfg, c, mask, at), at, st.mem,
                       View(true, c.base, Rebased(PlanFor(cfg, c, mask).rest, e.done), e.adj, mid).regs)
  {
    hide Run, Addr, GenerateAll, TraceOf, PlanFor, Planned, Covered, Fetched, LoadAll, Apart, Pretended;
    var k, list, adj := KindOf(cfg, c), PlanFor(cfg, c, mask).list, StartAdj(cfg, c);
    var at := st.regs[c.base];
    var e, t := EmittedBy(cfg, c, mask), FlushTrace(cfg, c, mask, at);
    FlushStart(cfg, c, mask);
    TracksStart(c, st);
    RunsLoad(k, c.q, list, adj, 0, c.spare, c.dead, c.baseDead, c.known, at, 0, st);
    CoveredApart(k, c.q, list);
    if c.base in c.q {
      DeathIrrelevant(k, c.q, list, 0, c.spare, c.dead, c.baseDead, c.baseDead, c.known);
      assert Covered(list) == c.q.Keys;
    }
    HeldFetched(c.q, Covered(list), t.err, t.lost, e.done, e.adj, c.base, at, st.mem, Run(e.code, st));
  }

  /** The machine and what is still held back, after a flush of loads. */
  lemma FlushLoads(cfg: Config, c: Comb, mask: set<Reg>, more: bool, st: State)
    requires c.pending && c.load && Good(cfg, c) && (c.base in c.q ==> c.q.Keys <= mask) && Agrees(c.known, st.regs)
    ensures var f, at := FlushR(cfg, c, mask, more), st.regs[c.base];
            var t := FlushTrace(cfg, c, mask, at);
            var end, held := Run(f.code, st), Held(f.after, Run(f.code, st));
            && held.flags == st.flags && held.mem == end.mem == st.mem
            && Fetched(c.q, c.q.Keys, Errors(cfg, c, mask, at), at, st.mem, held.regs)
            && (forall r: Reg :: r !in c.q && r != c.base ==> held.regs[r] == st.regs[r])
            && (!c.baseDead && c.base !in c.q ==> held.regs[c.base] == Addr(at, c.adj + t.lost))
            && AgreesBut(f.after.known, end.regs, c.base, false)
            && (c.base !in c.q && f.after.known[c.base].Some? ==> end.regs[c.base] == Addr(at, t.lost))
            && (c.base in c.q ==> f.after.known[c.base].None?)
  {
    hide Run, Addr, GenerateAll, TraceOf, PlanFor, Good, LoadAll, MoveBy, Errors, Slip, Fetched;
    var f, e, at := FlushR(cfg, c, mask, more), EmittedBy(cfg, c, mask), st.regs[c.base];
    var t := FlushTrace(cfg, c, mask, at);
    var rest, mid := PlanFor(cfg, c, mask).rest, Run(e.code, st);
    var known := CacheAfter(e, c.base);
    LoadsDone(cfg, c, mask, st);
    AgreesForgot(e.known, mid.regs, c.base);
    AddrAddr(at, e.done + t.lost, e.adj);
    if rest == map[] && e.adj != 0 && !c.baseDead && !more {
      FinalMove(cfg, c, mask, mid.regs);
      RunAppend(e.code, MoveBy(c.base, c.base, e.adj, known), st);
      MoveByAdds(c.base, c.base, e.adj, known, mid);
      assert Rebased(rest, e.done) == map[];
      HeldEmpty(true, c.base, e.adj, mid);
      HeldEmpty(true, c.base, 0, Run(f.code, st));
      AddrZero(Addr(mid.regs[c.base], e.adj));
      var end := Run(f.code, st);
      assert end.regs[c.base := end.regs[c.base]] == end.regs;
      assert Held(f.after, end).regs == View(true, c.base, Rebased(rest, e.done), e.adj, mid).regs;
    } else {
      assert e.code + [] == e.code;
      HeldOthers(c.base, Rebased(rest, e.done), e.adj, mid);
    }
    if c.base in c.q { BaseForgotten(cfg, c, mask); }
    RestQueued(cfg, c, mask);
  }

  lemma HeldOthers(base: Reg, q: Queue, adj: int, st: State)
    ensures forall r: Reg :: r !in q && r != base ==> View(true, base, q, adj, st).regs[r] == st.regs[r]
    ensures base !in q ==> View(true, base, q, adj, st).regs[base] == Addr(st.regs[base], adj)
    ensures View(true, base, q, adj, st).mem == st.mem && View(true, base, q, adj, st).flags == st.flags
  {
    hide Addr, Read;
  }

  lemma BaseForgotten(cfg: Config, c: Comb, mask: set<Reg>)
    requires c.load && Good(cfg, c) && c.base in c.q && c.q.Keys <= mask
    ensures CacheAfter(EmittedBy(cfg, c, mask), c.base)[c.base].None?
  {
    hide PlanFor, GenerateAll, Planned, Covered, Pretended, Apart;
    FlushStart(cfg, c, mask);
    KnownShrinks(KindOf(cfg, c), PlanFor(cfg, c, mask).list, StartAdj(cfg, c), 0, c.spare, c.dead, c.baseDead, c.known,
                 c.base);
  }

  lemma RestQueued(cfg: Config, c: Comb, mask: set<Reg>)
    requires Good(cfg, c) && (c.base in c.q ==> c.q.Keys <= mask)
    ensures PlanFor(cfg, c, mask).rest.Keys <= c.q.Keys
    ensures c.base in c.q ==> PlanFor(cfg, c, mask).rest == map[]
  {
    hide PlanFor, Covered, Pretended, Apart;
    FlushStart(cfg, c, mask);
  }

  // ---- where the base began ----

  /** Wherever the base can have begun, it is lost by the same amount, and only loads that may miss can miss. */
  lemma ErrorsAny(cfg: Config, c: Comb, mask: set<Reg>, b: Word)
    requires Possible(c, b)
    ensures FlushTrace(cfg, c, mask, b).lost == FlushLost(cfg, c, mask)
    ensures forall r: Reg :: r in c.q && !Misses(cfg, c, mask, r) ==> Errors(cfg, c, mask, b)[r] == 0
    ensures !c.load ==> Errors(cfg, c, mask, b) == Errors(cfg, c, mask, Began(c))
  {
    hide PlanFor, StartAdj, TraceOf, ReadBack;
    var k, list, adj := KindOf(cfg, c), PlanFor(cfg, c, mask).list, StartAdj(cfg, c);
    if c.known[c.base].None? {
      TraceAny(k, list, adj, 0, c.spare, c.dead, c.baseDead, c.known, b, Began(c), 0);
      if !c.load { StoresReadNothing(k, list, adj, 0, c.spare, c.dead, c.baseDead, c.known); }
    }
  }

  /** And each that may miss does so from some start. */
  lemma MissFrom(cfg: Config, c: Comb, mask: set<Reg>, r: Reg) returns (b: Word)
    requires Good(cfg, c) && (c.base in c.q ==> c.q.Keys <= mask) && r in c.q && Misses(cfg, c, mask, r)
    ensures Possible(c, b) && Errors(cfg, c, mask, b)[r] != 0
  {
    hide PlanFor, StartAdj, TraceOf, ReadBack, Good, Planned, Workable;
    b := Began(c);
    if Errors(cfg, c, mask, b)[r] == 0 {
      FlushStart(cfg, c, mask);
      b := ReadBackMisses(KindOf(cfg, c), c.q, PlanFor(cfg, c, mask).list, StartAdj(cfg, c), 0, c.spare, c.dead,
                          c.baseDead, c.known, 0, r);
    }
  }

  // ---- a flush is right unless it strays ----

  /** A flush that does not stray, on a machine with offsets of any width. */
  lemma FlushViews(cfg: Config, c: Comb, mask: set<Reg>, more: bool, st: State)
    requires c.pending && Good(cfg, c) && (c.base in c.q ==> c.q.Keys <= mask) && Agrees(c.known, st.regs)
    requires !FlushStrays(cfg, c, mask)
    ensures FlushRight(cfg, c, mask, more, st)
  {
    hide FlushR, Run, Held, Good, EmittedBy, FlushTrace, Errors, Addr;
    if c.load {
      LoadsRight(cfg, c, mask, more, st);
    } else {
      StoresRight(cfg, c, mask, more, st);
    }
  }

  lemma CacheIs(cfg: Config, c: Comb, mask: set<Reg>, more: bool)
    requires c.pending
    ensures FlushR(cfg, c, mask, more).after.known == CacheAfter(EmittedBy(cfg, c, mask), c.base)
    ensures var known := FlushR(cfg, c, mask, more).after.known;
            known[c.base].Some? ==> known[c.base] == c.known[c.base]
  {
    hide PlanFor, GenerateAll, MoveBy;
    KnownShrinks(KindOf(cfg, c), PlanFor(cfg, c, mask).list, StartAdj(cfg, c), 0, c.spare, c.dead, c.baseDead, c.known,
                 c.base);
  }

  lemma StoresRight(cfg: Config, c: Comb, mask: set<Reg>, more: bool, st: State)
    requires c.pending && !c.load && Good(cfg, c) && Agrees(c.known, st.regs) && !FlushStrays(cfg, c, mask)
    ensures FlushRight(cfg, c, mask, more, st)
  {
    hide FlushR, Run, EmittedBy, FlushTrace, Errors, Addr, Wrote, StoreAll, Misplaces, Workable, Clear;
    var f, at := FlushR(cfg, c, mask, more), st.regs[c.base];
    var held := Held(f.after, Run(f.code, st));
    FlushStores(cfg, c, mask, more, st);
    StoresBase(cfg, c);
    ErrorsAny(cfg, c, mask, at);
    ServedStored(c.q, Errors(cfg, c, mask, at), c.known, at, st.regs, st.mem, held.mem);
    CacheIs(cfg, c, mask, more);
    AddrZero(at);
    AgreesAll(f.after.known, Run(f.code, st).regs, c.base);
  }

  lemma LoadsRight(cfg: Config, c: Comb, mask: set<Reg>, more: bool, st: State)
    requires c.pending && c.load && Good(cfg, c) && (c.base in c.q ==> c.q.Keys <= mask) && Agrees(c.known, st.regs)
    requires !FlushStrays(cfg, c, mask)
    ensures FlushRight(cfg, c, mask, more, st)
  {
    hide FlushR, Run, EmittedBy, FlushTrace, Errors, Misses, Addr, LoadAll, Workable, Clear, Read;
    var f, at := FlushR(cfg, c, mask, more), st.regs[c.base];
    var want, held := Held(c, st), Held(f.after, Run(f.code, st));
    FlushLoads(cfg, c, mask, more, st);
    ErrorsAny(cfg, c, mask, at);
    HeldOthers(c.base, c.q, c.adj, st);
    forall r: Reg | r in c.q ensures want.regs[r] == held.regs[r] {
      LoadAllAt(c.q, at, st.mem, st.regs[c.base := Addr(at, c.adj)], r);
    }
    CacheIs(cfg, c, mask, more);
    AddrZero(at);
    AgreesAll(f.after.known, Run(f.code, st).regs, c.base);
  }

  /**
   A flush, full or partial, refines the queue: its instructions can be encoded, running them
   and then doing what is still held back gives the memory, flags and live registers of the
   whole old queue, and the cache stays in step.
   */
  lemma FlushRefines(cfg: Config, c: Comb, mask: set<Reg>, more: bool, st: State)
    requires c.pending && Good(cfg, c) && (c.base in c.q ==> c.q.Keys <= mask) && Agrees(c.known, st.regs)
    requires !FlushFaults(cfg, c, mask)
    ensures FlushRight(cfg, c, mask, more, st) && AllEncodable(FlushR(cfg, c, mask, more).code)
  {
    hide FlushR, Run, Same, Good, FlushStrays, FlushOverreaches, Held, AllEncodable, FlushRight;
    FlushViews(cfg, c, mask, more, st);
    FlushEncodableIff(cfg, c, mask, more);
  }
}
