/**
 When a flush is right.  FlushRefines shows that a flush that does not stray is correct;
 here every flush that strays is shown to go wrong in some state that matches the cache,
 and straying is traced to its two causes: runs that straddle, and additions that miss.
 */
module FlushExact {
  import opened Words
  import opened Arm
  import opened Immediates
  import opened KnownValues
  import opened AddConstant
  import opened Transfers
  import opened Combiner
  import opened CombinerPlan
  import opened Traces
  import opened Places
  import opened Flush
  import opened Reach

  /** Offsets and adjustment within reach of one window around the base. */
  ghost predicate Spans(c: Comb, lo: int, hi: int)
  {
    && lo <= 0 <= hi && lo <= c.adj <= hi
    && forall r: Reg :: r in c.q ==> lo + 4 <= c.q[r] <= hi - 4
  }

  lemma {:induction false} PretendedWindow(q: Queue, r: nat, last: int, same: bool, lo: int, hi: int)
    requires r <= 16 && lo <= last <= hi && forall x: Reg :: x in q ==> lo <= q[x] <= hi
    ensures Pretended(q, r, last, same).Some? ==> lo <= Pretended(q, r, last, same).value <= hi
    decreases 16 - r
  {
    if r < 16 {
      if r !in q {
        PretendedWindow(q, r + 1, last, same, lo, hi);
      } else {
        PretendedWindow(q, r + 1, q[r], same, lo, hi);
        PretendedWindow(q, r + 1, last, false, lo, hi);
      }
    }
  }

  lemma SavedWindow(c: Comb, p: Saved, lo: int, hi: int)
    requires IsSaved(c.q, p) && Spans(c, lo, hi)
    ensures lo + 4 <= p.start && p.end <= hi - 4
  {
    InRun(c.q, p);
    var x := FirstOf(p.regs, 0);
    assert c.q[x] == p.start + 4 * Rank(p.regs, x);
    var y := LastOf(p.regs, 16);
    assert c.q[y] == p.start + 4 * Rank(p.regs, y);
  }

  lemma {:induction false} FirstOf(s: set<Reg>, k: nat) returns (x: Reg)
    requires k <= 16 && Rank(s, k) == 0 && exists y: Reg :: y in s && y >= k
    ensures x in s && Rank(s, x) == 0
    decreases 16 - k
  {
    if k in s { x := k; } else { x := FirstOf(s, k + 1); }
  }

  lemma {:induction false} LastOf(s: set<Reg>, k: nat) returns (x: Reg)
    requires k <= 16 && Rank(s, k) == Count(s) && exists y: Reg :: y in s && y < k
    ensures x in s && Rank(s, x) == Count(s) - 1
  {
    var l: Reg := k - 1;
    if l in s { x := l; } else { x := LastOf(s, k - 1); }
  }

  lemma FlushWindow(cfg: Config, c: Comb, mask: set<Reg>, lo: int, hi: int)
    requires Good(cfg, c) && (c.base in c.q ==> c.q.Keys <= mask) && Spans(c, lo, hi)
    ensures lo <= StartAdj(cfg, c) <= hi
    ensures ListInWindow(PlanFor(cfg, c, mask).list, lo, hi)
  {
    hide PlanFor, Pretended, IsSaved, Covered;
    FlushStart(cfg, c, mask);
    PretendedWindow(c.q, 0, 0, true, lo, hi);
    var list := PlanFor(cfg, c, mask).list;
    forall i | 0 <= i < |list| ensures lo + 4 <= list[i].start && list[i].end <= hi - 4 {
      SavedWindow(c, list[i], lo, hi);
    }
  }

  /** If the window is at most 12 bits wide, the flush does not overreach: every instruction can be encoded. */
  lemma FlushEncodable(cfg: Config, c: Comb, mask: set<Reg>, more: bool, lo: int, hi: int)
    requires c.pending && Good(cfg, c) && (c.base in c.q ==> c.q.Keys <= mask)
    requires Spans(c, lo, hi) && hi - lo <= 0xfff
    ensures AllEncodable(FlushR(cfg, c, mask, more).code) && !FlushOverreaches(cfg, c, mask)
  {
    hide PlanFor, StartAdj, GenerateAll, MoveBy, Good, Planned, Workable, ListInWindow, CacheAfter;
    FlushStart(cfg, c, mask);
    FlushWindow(cfg, c, mask, lo, hi);
    GenerateAllReach(KindOf(cfg, c), c.q, PlanFor(cfg, c, mask).list, StartAdj(cfg, c), 0, c.spare, c.dead, c.baseDead,
        c.known, lo, hi);
    var e := EmittedBy(cfg, c, mask);
    MoveByFits(c.base, c.base, e.adj, CacheAfter(e, c.base), hi - lo);
    FitsAppend(e.code, MoveBy(c.base, c.base, e.adj, CacheAfter(e, c.base)), hi - lo);
    assert e.code + [] == e.code;
    FlushEncodableIff(cfg, c, mask, more);
  }

  // ---- how far the base can drift ----

  lemma {:induction false} ManyCovered(k: Kind, q: Queue, list: seq<Saved>)
    requires Planned(k, q, list)
    ensures |list| <= |Covered(list)| && Covered(list) <= q.Keys
  {
    hide IsSaved, Planned;
    if |list| > 0 {
      PlannedRest(k, q, list);
      InRun(q, list[0]);
      RunNonempty(q, list[0]);
      ManyCovered(k, q - list[0].regs, list[1..]);
      var s, t := list[0].regs, Covered(list[1..]);
      assert s !! t;
      assert |s + t| == |s| + |t|;
    }
  }

  lemma AtMostSixteen(s: set<Reg>)
    ensures |s| <= 16
  {
    FewBelow(s, 16);
  }

  lemma {:induction false} FewBelow(s: set<Reg>, k: nat)
    requires k <= 16 && forall r: Reg :: r in s ==> r < k
    ensures |s| <= k
  {
    if k > 0 {
      var last: Reg := k - 1;
      FewBelow(s - {last}, k - 1);
      assert |s - {last}| >= |s| - 1;
    } else {
      assert s == {};
    }
  }

  const REACH: int := 0x400_0000

  /** The drift of a straddling flush is too small to go round the address space. */
  lemma DriftIsReal(cfg: Config, c: Comb, mask: set<Reg>)
    requires Good(cfg, c) && (c.base in c.q ==> c.q.Keys <= mask) && Spans(c, -REACH, REACH)
    ensures var d := TotalDrift(KindOf(cfg, c), PlanFor(cfg, c, mask).list, StartAdj(cfg, c), 0, c.spare, c.dead,
            c.baseDead, c.known);
            -TOP <= d <= 0 && (d < 0 <==> FlushStraddles(cfg, c, mask))
  {
    hide PlanFor, StartAdj, GenerateAll, Good, Planned, Workable, ListInWindow, TotalDrift, Straddles;
    var k, list := KindOf(cfg, c), PlanFor(cfg, c, mask).list;
    FlushStart(cfg, c, mask);
    FlushWindow(cfg, c, mask, -REACH, REACH);
    GenerateAllReach(k, c.q, list, StartAdj(cfg, c), 0, c.spare, c.dead, c.baseDead, c.known, -REACH, REACH);
    TotalDriftIff(k, c.q, list, StartAdj(cfg, c), 0, c.spare, c.dead, c.baseDead, c.known);
    ManyCovered(k, c.q, list);
    AtMostSixteen(Covered(list));
    MulMono(|list|, 16, 2 * REACH);
  }

  // ---- a flush that strays goes wrong ----

  const ZEROS: Regs := [0, 0, 0, 0, 0, 0, 0, 0, 0, 0, 0, 0, 0, 0, 0, 0]

  const NO_FLAGS: Flags := Flags(false, false, false, false)

  lemma AddrMisses(b: Word, i: int, w: Word)
    requires w != 0
    ensures Addr(b, i + w) != Addr(b, i)
  {
    if Addr(b, i + w) == Addr(b, i) { AddrSame(b, i + w, i); }
  }

  lemma HeldBase(c: Comb, st: State)
    requires c.base !in c.q
    ensures Held(c, st).regs[c.base] == Addr(st.regs[c.base], c.adj)
  {
    hide Addr, Read, StoreAll;
  }

  /** Where a flush leaves the base, for the program if it is live and in the machine if it is recorded. */
  lemma BaseEnds(cfg: Config, c: Comb, mask: set<Reg>, more: bool, st: State)
    requires c.pending && Good(cfg, c) && c.base !in c.q && Agrees(c.known, st.regs)
    ensures var f, lost := FlushR(cfg, c, mask, more), FlushLost(cfg, c, mask);
            && (!c.baseDead ==>
                  Held(f.after, Run(f.code, st)).regs[c.base] == Addr(st.regs[c.base], c.adj + lost))
            && (f.after.known[c.base].Some? ==> Run(f.code, st).regs[c.base] == Addr(st.regs[c.base], lost))
            && (c.load ==> Run(f.code, st).mem == st.mem)
  {
    hide FlushR, Run, Good, Held, Errors, Misses, Wrote, Fetched, FlushTrace, FlushLost, Addr;
    ErrorsAny(cfg, c, mask, st.regs[c.base]);
    if c.load {
      FlushLoads(cfg, c, mask, more, st);
    } else {
      FlushStores(cfg, c, mask, more, st);
    }
  }

  /** A base that ends in the wrong place is wrong in every state that matches the cache. */
  lemma BaseLost(cfg: Config, c: Comb, mask: set<Reg>, more: bool, st: State)
    requires c.pending && Good(cfg, c) && Agrees(c.known, st.regs) && FlushStrands(cfg, c, mask)
    ensures !FlushRight(cfg, c, mask, more, st)
  {
    hide FlushR, Run, Good, Held, FlushLost, Addr, EmittedBy;
    var at, lost := st.regs[c.base], FlushLost(cfg, c, mask);
    BaseEnds(cfg, c, mask, more, st);
    HeldBase(c, st);
    AddrMisses(at, c.adj, lost);
    AddrMisses(at, 0, lost);
    AddrZero(at);
    CacheIs(cfg, c, mask, more);
    if !c.baseDead { LiveBaseKept(cfg, c); }
  }

  lemma LiveBaseKept(cfg: Config, c: Comb)
    requires Good(cfg, c) && !c.baseDead
    ensures c.base !in MayClobber(cfg, c)
  {
    hide Apart;
  }

  /** A load that misses its word: in this state only the word meant for r is not 0. */
  lemma LoadLost(cfg: Config, c: Comb, mask: set<Reg>, more: bool) returns (st: State)
    requires c.pending && c.load && Good(cfg, c) && (c.base in c.q ==> c.q.Keys <= mask)
    requires FlushMisses(cfg, c, mask)
    ensures Agrees(c.known, st.regs) && !FlushRight(cfg, c, mask, more, st)
  {
    hide FlushR, Run, Good, Addr, LoadAll, Errors, Misses, Agrees, FlushTrace, AgreesBut, MayClobber, CachedRegs,
        Possible;
    var r: Reg :| r in c.q && Misses(cfg, c, mask, r);
    var at := MissFrom(cfg, c, mask, r);
    var err, regs := Errors(cfg, c, mask, at), CachedRegs(c.known)[c.base := at];
    st := State(regs, NO_FLAGS, map[Addr(at, c.q[r]) := 1]);
    BegunAgrees(c, at);
    FlushLoads(cfg, c, mask, more, st);
    AddrMisses(at, c.q[r], err[r]);
    LoadAllAt(c.q, at, st.mem, st.regs[c.base := Addr(at, c.adj)], r);
    LoadedKept(cfg, c, r);
    assert Held(c, st).regs[r] == 1;
  }

  lemma LoadedKept(cfg: Config, c: Comb, r: Reg)
    requires c.load && r in c.q
    ensures r !in MayClobber(cfg, c)
  {
  }

  /** A place that does not get its word: in this state only registers surely alike hold that word. */
  lemma StoreLost(cfg: Config, c: Comb, mask: set<Reg>, more: bool) returns (st: State)
    requires c.pending && !c.load && Good(cfg, c) && FlushMisses(cfg, c, mask)
    ensures Agrees(c.known, st.regs) && !FlushRight(cfg, c, mask, more, st)
  {
    hide FlushR, Run, Good, Addr, StoreAll, Errors, Misses, Apart, Alike, Deserted, Wrote;
    var err := Errors(cfg, c, mask, Began(c));
    var r: Reg :| r in c.q && Deserted(c.q, err, c.known, r);
    var regs := Telltale(c.known, r);
    st := State(regs, NO_FLAGS, map[]);
    var f := FlushR(cfg, c, mask, more);
    FlushStores(cfg, c, mask, more, st);
    ErrorsAny(cfg, c, mask, regs[c.base]);
    DesertedCell(c.q, err, c.known, regs[c.base], regs, Held(f.after, Run(f.code, st)).mem, r);
    StoresBase(cfg, c);
    StoredHas(c.q, regs[c.base], regs, st.mem, r);
  }

  /**
   A flush, full or partial, live base or dead: it can be encoded, and is right for every machine
   state in step with the cache, exactly when its trace does not stray and no offset overreaches.
   */
  lemma FlushExactIff(cfg: Config, c: Comb, mask: set<Reg>, more: bool)
    requires c.pending && Good(cfg, c) && (c.base in c.q ==> c.q.Keys <= mask)
    ensures ((forall st: State :: Agrees(c.known, st.regs) ==> FlushRight(cfg, c, mask, more, st))
                && AllEncodable(FlushR(cfg, c, mask, more).code))
            <==> !FlushFaults(cfg, c, mask)
  {
    hide FlushR, FlushStrands, FlushMisses, FlushOverreaches, Good, AllEncodable, FlushRight, Agrees;
    FlushEncodableIff(cfg, c, mask, more);
    if !FlushStrays(cfg, c, mask) {
      forall st: State | Agrees(c.known, st.regs) ensures FlushRight(cfg, c, mask, more, st) {
        FlushViews(cfg, c, mask, more, st);
      }
    } else if FlushMisses(cfg, c, mask) {
      var st: State;
      if c.load { st := LoadLost(cfg, c, mask, more); } else { st := StoreLost(cfg, c, mask, more); }
      assert !FlushRight(cfg, c, mask, more, st);
    } else {
      var st := State(CachedRegs(c.known), NO_FLAGS, map[]);
      CachedAgrees(c.known);
      BaseLost(cfg, c, mask, more, st);
    }
  }

  lemma CachedAgrees(known: Known)
    ensures Agrees(known, CachedRegs(known))
  {
  }

  lemma BegunAgrees(c: Comb, b: Word)
    requires Possible(c, b)
    ensures Agrees(c.known, CachedRegs(c.known)[c.base := b])
  {
  }

  // ---- why a flush strays ----

  /** Does the addition of the run miss, in some state that matches the cache? */
  predicate MaySlip(k: Kind, p: Saved, adj: int, done: int, spare: set<Reg>, known: Known, b: Word, lost: Word)
  {
    if known[k.base].Some? then RunSlip(k, p, adj, done, spare, known, b, lost) != 0
    else Rereads(k, MoveOf(k, p, adj, done, spare), known)
  }

  /** Does some addition of the flush? */
  predicate Slips(k: Kind, list: seq<Saved>, adj: int, done: int, spare: set<Reg>, dead: set<Reg>, baseDead: bool,
          known: Known, b: Word, lost: Word)
  {
    |list| > 0 &&
    var p, adj0 := list[0], AdjFor(list, adj, baseDead);
    var o := Generate(k, p, NextStart(list), adj0, done, spare, known);
    MaySlip(k, p, adj0, done, spare, known, b, lost)
    || Slips(k, list[1..], o.adj, o.done, SpareAfter(k, p.regs, spare, dead), dead, baseDead,
             KnownAfter(k, p, adj0, done, spare, known), b, LostAfter(k, p, adj0, done, spare, known, b, lost))
  }

  predicate FlushSlips(cfg: Config, c: Comb, mask: set<Reg>)
  {
    Slips(KindOf(cfg, c), PlanFor(cfg, c, mask).list, StartAdj(cfg, c), 0, c.spare, c.dead, c.baseDead, c.known,
          Began(c), 0)
  }

  lemma NotSlipping(k: Kind, p: Saved, adj: int, done: int, spare: set<Reg>, known: Known, b: Word, lost: Word)
    requires !MaySlip(k, p, adj, done, spare, known, b, lost)
    ensures RunSlip(k, p, adj, done, spare, known, b, lost) == 0
    ensures known[k.base].None? ==> !Rereads(k, MoveOf(k, p, adj, done, spare), known)
  {
    hide RunSlip, MoveOf, Rereads;
    if known[k.base].None? { SlipNone(k, p, adj, done, spare, known, b, lost); }
  }

  /** Without straddling and slips nothing is astray that was not before. */
  lemma {:induction false} TraceStraight(k: Kind, q: Queue, list: seq<Saved>, adj: int, done: int, spare: set<Reg>,
          dead: set<Reg>, baseDead: bool, known: Known, b: Word, lost: Word)
    requires Planned(k, q, list) && WordMultiples(list) && adj % 4 == 0 && done % 4 == 0
    requires !Straddles(k, list, adj, done, spare, dead, baseDead, known)
    requires !Slips(k, list, adj, done, spare, dead, baseDead, known, b, lost)
    ensures var t := TraceOf(k, list, adj, done, spare, dead, baseDead, known, b, lost);
            t.lost == lost && forall r: Reg :: r in t.err ==> t.err[r] == lost
  {
    hide Generate, IsSaved, Covered, Drift, Planned, Straddle, KnownAfter, RunSlip, MaySlip, MoveOf;
    if |list| > 0 {
      var p, adj0 := list[0], AdjFor(list, adj, baseDead);
      var o := Generate(k, p, NextStart(list), adj0, done, spare, known);
      var lost' := LostAfter(k, p, adj0, done, spare, known, b, lost);
      PlannedRest(k, q, list);
      InRun(q, p);
      DriftIff(p, adj0, done);
      GenerateMultiples(k, list, adj0, done, spare, known);
      NotSlipping(k, p, adj0, done, spare, known, b, lost);
      WrapLost(lost);
      assert lost' == lost;
      TraceStraight(k, q - p.regs, list[1..], o.adj, o.done, SpareAfter(k, p.regs, spare, dead), dead, baseDead,
                    KnownAfter(k, p, adj0, done, spare, known), b, lost);
    }
  }

  /** With a base that is not recorded, additions that may miss are those that make something be read back. */
  lemma {:induction false} SlipsIff(k: Kind, q: Queue, list: seq<Saved>, adj: int, done: int, spare: set<Reg>,
          dead: set<Reg>, baseDead: bool, known: Known, b: Word, lost: Word)
    requires Planned(k, q, list) && known[k.base].None?
    ensures Slips(k, list, adj, done, spare, dead, baseDead, known, b, lost)
            <==> ReadBack(k, list, adj, done, spare, dead, baseDead, known) != {}
  {
    hide Generate, IsSaved, Covered, Planned, KnownAfter, MoveOf, Rereads, LostAfter, RunSlip;
    if |list| > 0 {
      var p, adj0 := list[0], AdjFor(list, adj, baseDead);
      var o := Generate(k, p, NextStart(list), adj0, done, spare, known);
      PlannedRest(k, q, list);
      RunNonempty(q, p);
      LostIs(k, p, adj0, done, spare, known, b, lost);
      SlipsIff(k, q - p.regs, list[1..], o.adj, o.done, SpareAfter(k, p.regs, spare, dead), dead, baseDead,
               KnownAfter(k, p, adj0, done, spare, known), b, LostAfter(k, p, adj0, done, spare, known, b, lost));
      UnionEmpty(if Rereads(k, MoveOf(k, p, adj0, done, spare), known) then p.regs else {},
                 ReadBack(k, list[1..], o.adj, o.done, SpareAfter(k, p.regs, spare, dead), dead, baseDead,
                          KnownAfter(k, p, adj0, done, spare, known)));
    }
  }

  lemma UnionEmpty(s: set<Reg>, t: set<Reg>)
    ensures s + t == {} <==> s == {} && t == {}
  {
    if s != {} { var r :| r in s; assert r in s + t; }
    if t != {} { var r :| r in t; assert r in s + t; }
  }

  /** A flush strays only if a run straddles or an addition misses. */
  lemma NothingStrays(cfg: Config, c: Comb, mask: set<Reg>)
    requires Good(cfg, c) && (c.base in c.q ==> c.q.Keys <= mask)
    requires !FlushStraddles(cfg, c, mask) && !FlushSlips(cfg, c, mask)
    ensures !FlushStrays(cfg, c, mask)
  {
    hide PlanFor, Planned, Straddles, Slips, Covered, TraceOf, Workable, StartAdj, EmittedBy, Apart, Clear, Misplaces,
        CacheAfter, CachedRegs, ReadBack;
    var k, list := KindOf(cfg, c), PlanFor(cfg, c, mask).list;
    FlushStart(cfg, c, mask);
    TraceStraight(k, c.q, list, StartAdj(cfg, c), 0, c.spare, c.dead, c.baseDead, c.known, Began(c), 0);
    AllServed(c.q, Errors(cfg, c, mask, Began(c)), c.known);
    if c.known[c.base].None? {
      SlipsIff(k, c.q, list, StartAdj(cfg, c), 0, c.spare, c.dead, c.baseDead, c.known, Began(c), 0);
    }
  }

  lemma AllServed(q: Queue, err: map<Reg, Word>, known: Known)
    requires err.Keys == q.Keys && forall r: Reg :: r in q ==> err[r] == 0
    ensures !Misplaces(q, err, known)
  {
    hide Wrap;
    forall r: Reg | r in q ensures !Deserted(q, err, known, r) {
      assert Serves(q, err, known, r, r);
    }
  }

  // ---- a base that is not recorded ----

  /** Nothing, or something negative. */
  predicate Backward(w: Word) { w == 0 || w >= TOP }

  lemma DriftsBack(d: int)
    requires -TOP <= d <= 0
    ensures Backward(Wrap(d)) && (Wrap(d) == 0 <==> d == 0)
  {
  }

  lemma DriftsOn(d: int, more: int)
    ensures Wrap(Wrap(d) + more) == Wrap(d + more)
  {
    WrapParts(more, d);
  }

  /** What TraceDrifts and TraceFollows take for granted. */
  ghost predicate Drifts(k: Kind, q: Queue, list: seq<Saved>, adj: int, done: int, spare: set<Reg>, dead: set<Reg>,
          baseDead: bool, known: Known, d: int)
  {
    && Planned(k, q, list) && WordMultiples(list) && adj % 4 == 0 && done % 4 == 0
    && known[k.base].None?
    && -TOP <= d + TotalDrift(k, list, adj, done, spare, dead, baseDead, known) && d <= 0
  }

  /** The first run misses by the drift so far, unless it is read back, and adds its own. */
  lemma DriftStep(k: Kind, q: Queue, list: seq<Saved>, adj: int, done: int, spare: set<Reg>, dead: set<Reg>,
          baseDead: bool, known: Known, b: Word, d: int)
    returns (here: Word)
    requires |list| > 0 && Drifts(k, q, list, adj, done, spare, dead, baseDead, known, d)
    ensures var p, adj0 := list[0], AdjFor(list, adj, baseDead);
            var o := Generate(k, p, NextStart(list), adj0, done, spare, known);
            var spare', known' := SpareAfter(k, p.regs, spare, dead), KnownAfter(k, p, adj0, done, spare, known);
            var drift, rest := Drift(p, adj0, done), list[1..];
            var later := TraceOf(k, rest, o.adj, o.done, spare', dead, baseDead, known', b, Wrap(d + drift));
            var t := TraceOf(k, list, adj, done, spare, dead, baseDead, known, b, Wrap(d));
            var back := ReadBack(k, list, adj, done, spare, dead, baseDead, known);
            && t == Trace(later.err + Constant(p.regs, here), later.lost)
            && (here == Wrap(d) || p.regs <= back)
            && ReadBack(k, rest, o.adj, o.done, spare', dead, baseDead, known') <= back
            && Drifts(k, q - p.regs, rest, o.adj, o.done, spare', dead, baseDead, known', d + drift)
            && drift <= 0 && (drift < 0 <==> Straddle(p, adj0, done)) && -TOP <= d + drift
            && TotalDrift(k, list, adj, done, spare, dead, baseDead, known)
               == drift + TotalDrift(k, rest, o.adj, o.done, spare', dead, baseDead, known')
  {
    hide Generate, IsSaved, Covered, Drift, Planned, Straddle, KnownAfter, RunSlip, LostAfter, Wrap, Constant, AdjFor,
        SpareAfter, NextStart, MoveOf, Rereads;
    var p, adj0 := list[0], AdjFor(list, adj, baseDead);
    var o := Generate(k, p, NextStart(list), adj0, done, spare, known);
    var spare', known' := SpareAfter(k, p.regs, spare, dead), KnownAfter(k, p, adj0, done, spare, known);
    here := Wrap(Wrap(d) + RunSlip(k, p, adj0, done, spare, known, b, Wrap(d)));
    LastAdj(list, adj, baseDead);
    PlannedRest(k, q, list);
    InRun(q, p);
    GenerateMultiples(k, list, adj0, done, spare, known);
    LostIs(k, p, adj0, done, spare, known, b, Wrap(d));
    DriftsOn(d, Drift(p, adj0, done));
    DriftsOn(d, 0);
    if !Rereads(k, MoveOf(k, p, adj0, done, spare), known) { SlipNone(k, p, adj0, done, spare, known, b, Wrap(d)); }
    DriftIff(p, adj0, done);
    DriftIsDown(p, adj0, done);
    StraddleIsBelow(p, adj0, done);
    TotalDriftIff(k, q - p.regs, list[1..], o.adj, o.done, spare', dead, baseDead, known');
  }

  /** Then a trace follows the drift alone, but for what is read back. */
  lemma {:induction false} TraceDrifts(k: Kind, q: Queue, list: seq<Saved>, adj: int, done: int, spare: set<Reg>,
          dead: set<Reg>, baseDead: bool, known: Known, b: Word, d: int)
    requires Drifts(k, q, list, adj, done, spare, dead, baseDead, known, d)
    ensures var t := TraceOf(k, list, adj, done, spare, dead, baseDead, known, b, Wrap(d));
            && t.lost == Wrap(d + TotalDrift(k, list, adj, done, spare, dead, baseDead, known))
            && forall r: Reg :: r in t.err && r !in ReadBack(k, list, adj, done, spare, dead, baseDead, known) ==>
                 Backward(t.err[r])
    decreases |list|
  {
    hide Generate, Covered, Drift, Planned, Straddle, KnownAfter, Wrap, Backward, Constant, AdjFor, SpareAfter,
        NextStart, Drifts, TraceOf, TotalDrift, IsSaved, ReadBack;
    if |list| == 0 {
      NothingTraced(k, adj, done, spare, dead, baseDead, known, b, d);
    } else {
      var p, adj0 := list[0], AdjFor(list, adj, baseDead);
      var o := Generate(k, p, NextStart(list), adj0, done, spare, known);
      var spare', known' := SpareAfter(k, p.regs, spare, dead), KnownAfter(k, p, adj0, done, spare, known);
      var drift := Drift(p, adj0, done);
      var here := DriftStep(k, q, list, adj, done, spare, dead, baseDead, known, b, d);
      TraceDrifts(k, q - p.regs, list[1..], o.adj, o.done, spare', dead, baseDead, known', b, d + drift);
      DriftsDown(k, q, list, adj, done, spare, dead, baseDead, known, d);
      var later := TraceOf(k, list[1..], o.adj, o.done, spare', dead, baseDead, known', b, Wrap(d + drift));
      forall r: Reg ensures var err := later.err + Constant(p.regs, here);
                            && (r in err <==> r in p.regs || r in later.err)
                            && (r in err ==> err[r] == if r in p.regs then here else later.err[r])
      {
        Merged(later.err, p.regs, here, r);
      }
    }
  }

  /** With a dead base the last run misses by all of it. */
  lemma {:induction false} LastDrifts(k: Kind, q: Queue, list: seq<Saved>, adj: int, done: int, spare: set<Reg>,
          dead: set<Reg>, known: Known, b: Word, d: int)
    requires |list| > 0 && Drifts(k, q, list, adj, done, spare, dead, true, known, d)
    ensures var t, r := TraceOf(k, list, adj, done, spare, dead, true, known, b, Wrap(d)), list[|list| - 1].last;
            && r in t.err
            && (r !in ReadBack(k, list, adj, done, spare, dead, true, known) ==> t.err[r] == t.lost)
    decreases |list|
  {
    hide Generate, Covered, Drift, Planned, Straddle, KnownAfter, Wrap, Constant, AdjFor, SpareAfter, NextStart,
        Drifts, TraceOf, TotalDrift, IsSaved, ReadBack;
    var p, adj0 := list[0], AdjFor(list, adj, true);
    var o := Generate(k, p, NextStart(list), adj0, done, spare, known);
    var spare', known' := SpareAfter(k, p.regs, spare, dead), KnownAfter(k, p, adj0, done, spare, known);
    var drift := Drift(p, adj0, done);
    var here := DriftStep(k, q, list, adj, done, spare, dead, true, known, b, d);
    DriftsDown(k, q, list, adj, done, spare, dead, true, known, d);
    LastIs(k, q, list);
    var later := TraceOf(k, list[1..], o.adj, o.done, spare', dead, true, known', b, Wrap(d + drift));
    Merged(later.err, p.regs, here, list[|list| - 1].last);
    if |list| == 1 {
      LastAdj(list, adj, true);
      NoDrift(p, done);
      NothingTraced(k, o.adj, o.done, spare', dead, true, known', b, d + drift);
    } else {
      LastDrifts(k, q - p.regs, list[1..], o.adj, o.done, spare', dead, known', b, d + drift);
    }
  }

  lemma NothingTraced(k: Kind, adj: int, done: int, spare: set<Reg>, dead: set<Reg>, baseDead: bool, known: Known,
          b: Word, d: int)
    ensures TraceOf(k, [], adj, done, spare, dead, baseDead, known, b, Wrap(d)) == Trace(map[], Wrap(d))
    ensures TotalDrift(k, [], adj, done, spare, dead, baseDead, known) == 0
  {
  }

  lemma DriftsDown(k: Kind, q: Queue, list: seq<Saved>, adj: int, done: int, spare: set<Reg>, dead: set<Reg>,
          baseDead: bool, known: Known, d: int)
    requires Drifts(k, q, list, adj, done, spare, dead, baseDead, known, d)
    ensures Backward(Wrap(d)) && d <= 0 && (Wrap(d) == 0 <==> d == 0)
    ensures |list| > 0 ==> Planned(k, q, list) && IsSaved(q, list[0]) && list[0].start <= list[0].end
  {
    hide Planned, IsSaved, Covered, Wrap, Backward, Straddles, TotalDrift;
    TotalDriftIff(k, q, list, adj, done, spare, dead, baseDead, known);
    DriftsBack(d);
    if |list| > 0 {
      PlannedRest(k, q, list);
      InRun(q, list[0]);
    }
  }

  lemma LastAdj(list: seq<Saved>, adj: int, baseDead: bool)
    ensures baseDead && |list| == 1 ==> AdjFor(list, adj, baseDead) == 0
    ensures adj % 4 == 0 ==> AdjFor(list, adj, baseDead) % 4 == 0
  {
  }

  lemma DriftIsDown(p: Saved, adj: int, done: int)
    requires p.start <= p.end && p.start % 4 == 0 && p.end % 4 == 0 && adj % 4 == 0 && done % 4 == 0
    ensures Drift(p, adj, done) <= 0
  {
    DriftIff(p, adj, done);
  }

  lemma LastIs(k: Kind, q: Queue, list: seq<Saved>)
    requires |list| > 0 && Planned(k, q, list)
    ensures list[|list| - 1].last in list[0].regs <==> |list| == 1
    ensures |list| > 1 ==> list[1..][|list| - 2] == list[|list| - 1]
    ensures |list| == 1 ==> list[1..] == []
  {
    hide IsSaved, Covered;
    LastInRun(q, list[|list| - 1]);
    if |list| > 1 { assert list[0].regs !! list[|list| - 1].regs; }
  }

  /** The shifted register with the highest offset: nothing else lands on its place. */
  lemma {:induction false} HighestShifted(q: Queue, err: map<Reg, Word>, k: nat, x: Reg) returns (r: Reg)
    requires k <= 16 && x < k && Shifted(q, err, x)
    ensures Shifted(q, err, r) && forall y: Reg :: y < k && Shifted(q, err, y) ==> q[y] <= q[r]
  {
    var l: Reg := k - 1;
    if y: Reg :| y < l && Shifted(q, err, y) {
      r := HighestShifted(q, err, k - 1, y);
      if Shifted(q, err, l) && q[l] > q[r] { r := l; }
    } else {
      r := l;
    }
  }

  predicate Shifted(q: Queue, err: map<Reg, Word>, r: Reg) { r in q && r in err && err[r] != 0 }

  lemma ShiftedDeserts(q: Queue, err: map<Reg, Word>, known: Known, x: Reg)
    requires Apart(q) && err.Keys == q.Keys && x in q && err[x] != 0
    requires forall r: Reg :: r in q ==> -REACH <= q[r] <= REACH && Backward(err[r])
    ensures Misplaces(q, err, known)
  {
    hide Apart, Alike;
    var r := HighestShifted(q, err, 16, x);
    forall y: Reg ensures !Serves(q, err, known, r, y) {
      if y in q && y in err && Wrap(q[y] + err[y]) == Wrap(q[r]) {
        if err[y] == 0 {
          ApartSame(q, y, r);
        } else {
          assert Shifted(q, err, y);
          LandsBelow(q[y], err[y], q[r]);
        }
      }
    }
  }

  lemma LandsBelow(i: int, w: Word, j: int)
    requires Wrap(i + w) == Wrap(j) && w >= TOP && -REACH <= i <= REACH && -REACH <= j <= REACH
    ensures i > j
  {
  }

  /** A queue that loads its own base never straddles. */
  lemma BaseNotLoaded(cfg: Config, c: Comb, mask: set<Reg>)
    requires Good(cfg, c) && (c.base in c.q ==> c.q.Keys <= mask) && FlushStraddles(cfg, c, mask)
    ensures c.base !in c.q
  {
    hide PlanFor, Planned, Straddles, Pretended, Apart;
    FlushStart(cfg, c, mask);
    if c.base in c.q {
      DeathIrrelevant(KindOf(cfg, c), c.q, PlanFor(cfg, c, mask).list, 0, c.spare, c.dead, c.baseDead, c.baseDead,
                      c.known);
    }
  }

  /** What the trace of such a flush says. */
  lemma FlushDrifts(cfg: Config, c: Comb, mask: set<Reg>)
    requires Good(cfg, c) && (c.base in c.q ==> c.q.Keys <= mask) && Spans(c, -REACH, REACH) && c.known[c.base].None?
    ensures var lost, err := FlushLost(cfg, c, mask), Errors(cfg, c, mask, Began(c));
            && (lost == 0 <==> !FlushStraddles(cfg, c, mask))
            && (forall r: Reg :: r in c.q && r !in FlushReadBack(cfg, c, mask) ==> Backward(err[r]))
            && (c.baseDead && lost != 0 ==> exists r: Reg :: r in c.q && Misses(cfg, c, mask, r))
  {
    hide PlanFor, StartAdj, Planned, Workable, TotalDrift, Straddles, TraceOf, Spans, Backward, Covered, Apart, Clear,
        ReadBack, Wrap, IsSaved;
    var k, list, adj, b := KindOf(cfg, c), PlanFor(cfg, c, mask).list, StartAdj(cfg, c), Began(c);
    FlushStart(cfg, c, mask);
    DriftIsReal(cfg, c, mask);
    var d := TotalDrift(k, list, adj, 0, c.spare, c.dead, c.baseDead, c.known);
    DriftsBack(0);
    DriftsBack(d);
    TraceDrifts(k, c.q, list, adj, 0, c.spare, c.dead, c.baseDead, c.known, b, 0);
    if c.baseDead && |list| > 0 { LastDrifts(k, c.q, list, adj, 0, c.spare, c.dead, c.known, b, 0); }
    CoveredApart(k, c.q, list);
    if FlushStraddles(cfg, c, mask) {
      StraddlesSome(k, list, adj, 0, c.spare, c.dead, c.baseDead, c.known);
      var t, err := FlushTrace(cfg, c, mask, b), Errors(cfg, c, mask, b);
      var r := list[|list| - 1].last;
      assert c.baseDead ==> r in t.err && r in c.q && Misses(cfg, c, mask, r);
    }
  }

  lemma StraddlesSome(k: Kind, list: seq<Saved>, adj: int, done: int, spare: set<Reg>, dead: set<Reg>, baseDead: bool,
          known: Known)
    ensures Straddles(k, list, adj, done, spare, dead, baseDead, known) ==> |list| > 0
  {
  }

  /** With a base that is not recorded, additions that may miss are those that make something be read back. */
  lemma FlushSlipsIff(cfg: Config, c: Comb, mask: set<Reg>)
    requires Good(cfg, c) && (c.base in c.q ==> c.q.Keys <= mask) && c.known[c.base].None?
    ensures FlushSlips(cfg, c, mask) <==> FlushReadBack(cfg, c, mask) != {}
    ensures FlushReadBack(cfg, c, mask) <= c.q.Keys && (!c.load ==> FlushReadBack(cfg, c, mask) == {})
  {
    hide PlanFor, StartAdj, Planned, Workable, Slips, ReadBack, Covered, Good;
    var k, list, adj := KindOf(cfg, c), PlanFor(cfg, c, mask).list, StartAdj(cfg, c);
    FlushStart(cfg, c, mask);
    SlipsIff(k, c.q, list, adj, 0, c.spare, c.dead, c.baseDead, c.known, Began(c), 0);
    CoveredApart(k, c.q, list);
    if !c.load { StoresReadNothing(k, list, adj, 0, c.spare, c.dead, c.baseDead, c.known); }
  }

  /**
   When the base is not recorded, as whenever an adjustment of a live base is pending, a flush strays
   exactly when one of its runs straddles the adjustment, or the address of some loads is made in a
   register that the cache offers back.
   */
  lemma FlushStraddlesIff(cfg: Config, c: Comb, mask: set<Reg>)
    requires Good(cfg, c) && (c.base in c.q ==> c.q.Keys <= mask) && Spans(c, -REACH, REACH) && c.known[c.base].None?
    ensures FlushStrays(cfg, c, mask) <==> FlushStraddles(cfg, c, mask) || FlushReadBack(cfg, c, mask) != {}
    ensures FlushSlips(cfg, c, mask) <==> FlushReadBack(cfg, c, mask) != {}
    ensures !c.load ==> FlushReadBack(cfg, c, mask) == {}
  {
    hide FlushStraddles, FlushSlips, FlushLost, FlushReadBack, Errors, Good, Misplaces, Backward, Apart;
    FlushDrifts(cfg, c, mask);
    FlushSlipsIff(cfg, c, mask);
    if r: Reg :| r in FlushReadBack(cfg, c, mask) {
      assert Misses(cfg, c, mask, r);
    } else if !FlushStraddles(cfg, c, mask) {
      NothingStrays(cfg, c, mask);
    } else {
      BaseNotLoaded(cfg, c, mask);
      if c.baseDead && !c.load {
        var err := Errors(cfg, c, mask, Began(c));
        var x: Reg :| x in c.q && Misses(cfg, c, mask, x);
        StoresBase(cfg, c);
        ShiftedDeserts(c.q, err, c.known, x);
      }
    }
  }

  /** Does the run of r come after one that straddles? */
  predicate Follows(k: Kind, list: seq<Saved>, adj: int, done: int, spare: set<Reg>, dead: set<Reg>, baseDead: bool,
          known: Known, r: Reg)
  {
    |list| > 0 &&
    var p, adj0 := list[0], AdjFor(list, adj, baseDead);
    var o := Generate(k, p, NextStart(list), adj0, done, spare, known);
    if Straddle(p, adj0, done) then r in Covered(list[1..])
    else Follows(k, list[1..], o.adj, o.done, SpareAfter(k, p.regs, spare, dead), dead, baseDead,
                 KnownAfter(k, p, adj0, done, spare, known), r)
  }

  predicate FlushFollows(cfg: Config, c: Comb, mask: set<Reg>, r: Reg)
  {
    Follows(KindOf(cfg, c), PlanFor(cfg, c, mask).list, StartAdj(cfg, c), 0, c.spare, c.dead, c.baseDead, c.known, r)
  }

  /** With a base that is not recorded, other registers miss if their runs follow a straddling one. */
  lemma {:induction false} TraceFollows(k: Kind, q: Queue, list: seq<Saved>, adj: int, done: int, spare: set<Reg>,
          dead: set<Reg>, baseDead: bool, known: Known, b: Word, d: int, r: Reg)
    requires Drifts(k, q, list, adj, done, spare, dead, baseDead, known, d)
    ensures var t := TraceOf(k, list, adj, done, spare, dead, baseDead, known, b, Wrap(d));
            r in t.err && r !in ReadBack(k, list, adj, done, spare, dead, baseDead, known) ==>
              (t.err[r] != 0 <==> d < 0 || Follows(k, list, adj, done, spare, dead, baseDead, known, r))
    ensures Follows(k, list, adj, done, spare, dead, baseDead, known, r) ==> |list| > 0 && r in Covered(list[1..])
  {
    hide Generate, IsSaved, Covered, Drift, Planned, Straddle, KnownAfter, Wrap, Constant, AdjFor, SpareAfter,
        NextStart, Drifts, TraceOf, TotalDrift, ReadBack;
    if |list| == 0 {
      NothingTraced(k, adj, done, spare, dead, baseDead, known, b, d);
    } else {
      var p, adj0 := list[0], AdjFor(list, adj, baseDead);
      var o := Generate(k, p, NextStart(list), adj0, done, spare, known);
      var spare', known' := SpareAfter(k, p.regs, spare, dead), KnownAfter(k, p, adj0, done, spare, known);
      var drift := Drift(p, adj0, done);
      var here := DriftStep(k, q, list, adj, done, spare, dead, baseDead, known, b, d);
      TraceFollows(k, q - p.regs, list[1..], o.adj, o.done, spare', dead, baseDead, known', b, d + drift, r);
      DriftsDown(k, q, list, adj, done, spare, dead, baseDead, known, d);
      CoveredHere(k, q, list);
      if |list| > 1 { CoveredFirst(list[1..]); }
      var later := TraceOf(k, list[1..], o.adj, o.done, spare', dead, baseDead, known', b, Wrap(d + drift));
      Merged(later.err, p.regs, here, r);
    }
  }

  lemma CoveredHere(k: Kind, q: Queue, list: seq<Saved>)
    requires |list| > 0 && Planned(k, q, list)
    ensures Covered(list) == list[0].regs + Covered(list[1..]) && list[0].regs !! Covered(list[1..])
  {
    hide Planned, IsSaved, Covered;
    CoveredApart(k, q, list);
    CoveredFirst(list);
  }

  lemma Merged(later: map<Reg, Word>, s: set<Reg>, here: Word, r: Reg)
    ensures var err := later + Constant(s, here);
            && (r in err <==> r in s || r in later)
            && (r in err ==> err[r] == if r in s then here else later[r])
  {
  }

  /**
   In a flush of everything, a register misses its place, in some state that matches the cache,
   exactly when its run follows one that straddles, or it is read back.
   */
  lemma MissIff(cfg: Config, c: Comb, r: Reg)
    requires Good(cfg, c) && Spans(c, -REACH, REACH) && c.known[c.base].None? && r in c.q
    ensures Misses(cfg, c, ALL, r) <==> FlushFollows(cfg, c, ALL, r) || r in FlushReadBack(cfg, c, ALL)
  {
    hide PlanFor, StartAdj, Planned, Workable, TotalDrift, TraceOf, Spans, Covered, Apart, Clear, Follows, Wrap,
        IsSaved, FlushStraddles, ReadBack;
    var k, list, adj, b := KindOf(cfg, c), PlanFor(cfg, c, ALL).list, StartAdj(cfg, c), Began(c);
    assert c.q.Keys <= ALL;
    FlushStart(cfg, c, ALL);
    DriftIsReal(cfg, c, ALL);
    DriftsBack(0);
    TraceFollows(k, c.q, list, adj, 0, c.spare, c.dead, c.baseDead, c.known, b, 0, r);
    assert r in Covered(list);
  }

  lemma LostIff(cfg: Config, c: Comb)
    requires Good(cfg, c) && Spans(c, -REACH, REACH) && c.known[c.base].None?
    ensures FlushLost(cfg, c, ALL) != 0 <==> FlushStraddles(cfg, c, ALL)
  {
    hide Good, FlushLost, FlushStraddles, Spans, Errors, Misses, FlushReadBack;
    assert c.q.Keys <= ALL;
    FlushDrifts(cfg, c, ALL);
  }
}
