/**
 Where the transfers of a flush really go.  The base may move without a record, and an
 addition may miss when the cache offers a register that has changed since it was recorded.
 A trace gives, for every register of a list of runs, by how much its transfer misses the
 place the queue means, and by how much the base ends away from where it is taken to be.
 */
module Traces {
  import opened Words
  import opened Arm
  import opened Immediates
  import opened KnownValues
  import opened AddConstant
  import opened Transfers
  import opened Combiner

  datatype Trace = Trace(err: map<Reg, Word>, lost: Word)

  /** The registers as the cache has them. */
  function CachedRegs(known: Known): Regs
  {
    seq(16, r requires 0 <= r < 16 => if known[r].Some? then known[r].value else 0)
  }

  /** What the addition of the run misses by, when the base began the flush as b and has gone astray by `lost`. */
  function RunSlip(k: Kind, p: Saved, adj: int, done: int, spare: set<Reg>, known: Known, b: Word, lost: Word): Word
  {
    SlipOf(k, MoveOf(k, p, adj, done, spare), known, CachedRegs(known)[k.base := Addr(b, done + lost)])
  }

  /** How far the base is astray after the run. */
  function LostAfter(k: Kind, p: Saved, adj: int, done: int, spare: set<Reg>, known: Known, b: Word, lost: Word): Word
  {
    var slip := if MovesBase(k, MoveOf(k, p, adj, done, spare)) then RunSlip(k, p, adj, done, spare, known, b, lost)
                else 0;
    Wrap(lost + Drift(p, adj, done) + slip)
  }

  function TraceOf(k: Kind, list: seq<Saved>, adj: int, done: int, spare: set<Reg>, dead: set<Reg>, baseDead: bool,
          known: Known, b: Word, lost: Word): (t: Trace)
    ensures t.err.Keys == Covered(list)
  {
    if |list| == 0 then Trace(map[], lost)
    else
      var p, adj0 := list[0], AdjFor(list, adj, baseDead);
      var o := Generate(k, p, NextStart(list), adj0, done, spare, known);
      var here := Wrap(lost + RunSlip(k, p, adj0, done, spare, known, b, lost));
      var rest := TraceOf(k, list[1..], o.adj, o.done, SpareAfter(k, p.regs, spare, dead), dead, baseDead,
                          KnownAfter(k, p, adj0, done, spare, known), b,
                          LostAfter(k, p, adj0, done, spare, known, b, lost));
      Trace(rest.err + Constant(p.regs, here), rest.lost)
  }

  function Constant(s: set<Reg>, w: Word): map<Reg, Word> { map r | r in s :: w }

  // ---- the machine in the middle of a flush ----

  /** Only the base may be out of step with the cache, and it is where the trace says. */
  ghost predicate Tracks(base: Reg, known: Known, b: Word, done: int, lost: Word, regs: Regs)
  {
    AgreesBut(known, regs, base, false) && regs[base] == Addr(b, done + lost)
  }

  lemma MoveTarget(k: Kind, p: Saved, adj: int, done: int, spare: set<Reg>)
    ensures var m := MoveOf(k, p, adj, done, spare);
            m.Moves? ==> m.b == k.base || (if k.load then m.b == p.last else m.claims && m.b in spare)
  {
  }

  /** The trace foresees what the addition misses by. */
  lemma SlipIs(k: Kind, p: Saved, adj: int, done: int, spare: set<Reg>, known: Known, b: Word, lost: Word, regs: Regs)
    requires Tracks(k.base, known, b, done, lost, regs)
    ensures SlipOf(k, MoveOf(k, p, adj, done, spare), known, regs) == RunSlip(k, p, adj, done, spare, known, b, lost)
  {
    hide MoveOf, Slip, Addr;
    var m := MoveOf(k, p, adj, done, spare);
    if m.Moves? {
      SlipSame(m.b, k.base, m.addon, Claimed(m, known), regs, CachedRegs(known)[k.base := Addr(b, done + lost)]);
    }
  }

  // ---- what depends on where the base began ----

  /** An addition into another register than the base, which the cache offers back. */
  predicate Rereads(k: Kind, m: Move, known: Known)
  {
    m.Moves? && m.b != k.base && ReadsBack(m.b, Wrap(m.addon), Claimed(m, known))
  }

  /** The registers of the runs that are reached in that way. */
  function ReadBack(k: Kind, list: seq<Saved>, adj: int, done: int, spare: set<Reg>, dead: set<Reg>, baseDead: bool,
          known: Known): (s: set<Reg>)
    ensures s <= Covered(list)
  {
    if |list| == 0 then {}
    else
      var p, adj0 := list[0], AdjFor(list, adj, baseDead);
      var o := Generate(k, p, NextStart(list), adj0, done, spare, known);
      (if Rereads(k, MoveOf(k, p, adj0, done, spare), known) then p.regs else {})
      + ReadBack(k, list[1..], o.adj, o.done, SpareAfter(k, p.regs, spare, dead), dead, baseDead,
                 KnownAfter(k, p, adj0, done, spare, known))
  }

  /** Stores claim the register for their address, and so forget it first. */
  lemma {:induction false} StoresReadNothing(k: Kind, list: seq<Saved>, adj: int, done: int, spare: set<Reg>,
          dead: set<Reg>, baseDead: bool, known: Known)
    requires !k.load
    ensures ReadBack(k, list, adj, done, spare, dead, baseDead, known) == {}
  {
    hide Generate, MoveOf, ReadsBack, KnownAfter;
    if |list| > 0 {
      var p, adj0 := list[0], AdjFor(list, adj, baseDead);
      var o, m := Generate(k, p, NextStart(list), adj0, done, spare, known), MoveOf(k, p, adj0, done, spare);
      MoveTarget(k, p, adj0, done, spare);
      if m.Moves? && m.b != k.base { UnknownNotReadBack(m.b, Wrap(m.addon), Claimed(m, known)); }
      StoresReadNothing(k, list[1..], o.adj, o.done, SpareAfter(k, p.regs, spare, dead), dead, baseDead,
                        KnownAfter(k, p, adj0, done, spare, known));
    }
  }

  /** With a base that is not recorded nothing else is read back. */
  lemma SlipNone(k: Kind, p: Saved, adj: int, done: int, spare: set<Reg>, known: Known, b: Word, lost: Word)
    requires known[k.base].None? && !Rereads(k, MoveOf(k, p, adj, done, spare), known)
    ensures RunSlip(k, p, adj, done, spare, known, b, lost) == 0
  {
    hide MoveOf, Slip, Addr, ReadsBack, Harmless;
    var m := MoveOf(k, p, adj, done, spare);
    var cache, regs := Claimed(m, known), CachedRegs(known)[k.base := Addr(b, done + lost)];
    if m.Moves? {
      if m.b == k.base {
        NoSlip(m.b, k.base, m.addon, cache, regs);
      } else {
        SlipIff(m.b, k.base, m.addon, cache, regs);
      }
    }
  }

  /** Then a base astray is astray by the drift alone, wherever it began, and stays unrecorded. */
  lemma LostIs(k: Kind, p: Saved, adj: int, done: int, spare: set<Reg>, known: Known, b: Word, lost: Word)
    requires known[k.base].None?
    ensures LostAfter(k, p, adj, done, spare, known, b, lost) == Wrap(lost + Drift(p, adj, done))
    ensures KnownAfter(k, p, adj, done, spare, known)[k.base].None?
  {
    hide MoveOf, RunSlip, Drift, Wrap;
    if MovesBase(k, MoveOf(k, p, adj, done, spare)) { SlipNone(k, p, adj, done, spare, known, b, lost); }
  }

  /** With a base that is not recorded, where it began matters only to what is read back. */
  lemma {:induction false} TraceAny(k: Kind, list: seq<Saved>, adj: int, done: int, spare: set<Reg>, dead: set<Reg>,
          baseDead: bool, known: Known, b: Word, b': Word, lost: Word)
    requires known[k.base].None?
    ensures var t := TraceOf(k, list, adj, done, spare, dead, baseDead, known, b, lost);
            var t' := TraceOf(k, list, adj, done, spare, dead, baseDead, known, b', lost);
            && t.lost == t'.lost
            && forall r: Reg :: r in t.err && r !in ReadBack(k, list, adj, done, spare, dead, baseDead, known) ==>
                 t.err[r] == t'.err[r]
  {
    hide Generate, MoveOf, RunSlip, LostAfter, Rereads, KnownAfter, Covered, Drift, Wrap;
    if |list| > 0 {
      var p, adj0 := list[0], AdjFor(list, adj, baseDead);
      var o := Generate(k, p, NextStart(list), adj0, done, spare, known);
      LostIs(k, p, adj0, done, spare, known, b, lost);
      LostIs(k, p, adj0, done, spare, known, b', lost);
      if !Rereads(k, MoveOf(k, p, adj0, done, spare), known) {
        SlipNone(k, p, adj0, done, spare, known, b, lost);
        SlipNone(k, p, adj0, done, spare, known, b', lost);
      }
      TraceAny(k, list[1..], o.adj, o.done, SpareAfter(k, p.regs, spare, dead), dead, baseDead,
               KnownAfter(k, p, adj0, done, spare, known), b, b',
               LostAfter(k, p, adj0, done, spare, known, b, lost));
    }
  }

  /** A start from which a register read back makes the addition miss by something else than the base is astray. */
  lemma SlipVaries(r1: Reg, r2: Reg, i: int, known: Known, w: Word) returns (x: Word)
    requires known[r2].None? && ReadsBack(r1, Wrap(i), known)
    ensures Wrap(w + Slip(r1, r2, i, known, CachedRegs(known)[r2 := x])) != 0
  {
    hide Added, ReadsBack, StaleRest, Slip, Wrap;
    var n := Wrap(i);
    var x1: Word, x2: Word := Wrap(StaleRest(r1, n, known, true) - n), Wrap(StaleRest(r1, n, known, true) - n - 1);
    var regs1, regs2 := CachedRegs(known)[r2 := x1], CachedRegs(known)[r2 := x2];
    AddedVaries(r1, r2, n, known, regs1, regs2);
    SlipAmount(r1, r2, i, known, regs1);
    SlipAmount(r1, r2, i, known, regs2);
    SlipsDiffer(w, i, Added(r1, r2, n, known, regs1), Added(r1, r2, n, known, regs2));
    x := if Wrap(w + Slip(r1, r2, i, known, regs1)) != 0 then x1 else x2;
  }

  lemma SlipAmount(r1: Reg, r2: Reg, i: int, known: Known, regs: Regs)
    ensures Slip(r1, r2, i, known, regs) == Wrap(Added(r1, r2, Wrap(i), known, regs) - i)
  {
  }

  lemma SlipsDiffer(w: Word, i: int, a1: Word, a2: Word)
    requires a1 != a2
    ensures Wrap(w + Wrap(a1 - i)) != Wrap(w + Wrap(a2 - i))
  {
    hide Wrap;
    WrapParts(w, a1 - i);
    WrapParts(w, a2 - i);
    WrapParts(a1, w - i);
    WrapParts(a2, w - i);
    SameSum(Wrap(w - i), a1, a2);
    assert w + (a1 - i) == a1 + (w - i) && w + (a2 - i) == a2 + (w - i);
  }

  /** What is read back misses, from some start. */
  lemma {:induction false} ReadBackMisses(k: Kind, q: Queue, list: seq<Saved>, adj: int, done: int, spare: set<Reg>,
          dead: set<Reg>, baseDead: bool, known: Known, lost: Word, r: Reg) returns (b: Word)
    requires known[k.base].None? && Planned(k, q, list)
    requires r in ReadBack(k, list, adj, done, spare, dead, baseDead, known)
    ensures var t := TraceOf(k, list, adj, done, spare, dead, baseDead, known, b, lost); r in t.err && t.err[r] != 0
  {
    hide Generate, MoveOf, RunSlip, LostAfter, Rereads, KnownAfter, Covered, Drift, Wrap, Planned, IsSaved;
    var p, adj0 := list[0], AdjFor(list, adj, baseDead);
    var o := Generate(k, p, NextStart(list), adj0, done, spare, known);
    PlannedRest(k, q, list);
    CoveredApart(k, q, list);
    CoveredFirst(list);
    if r in p.regs && Rereads(k, MoveOf(k, p, adj0, done, spare), known) {
      b := RunMisses(k, p, adj0, done, spare, known, lost);
    } else {
      LostIs(k, p, adj0, done, spare, known, 0, lost);
      b := ReadBackMisses(k, q - p.regs, list[1..], o.adj, o.done, SpareAfter(k, p.regs, spare, dead), dead, baseDead,
                          KnownAfter(k, p, adj0, done, spare, known),
                          LostAfter(k, p, adj0, done, spare, known, 0, lost), r);
      LostIs(k, p, adj0, done, spare, known, b, lost);
    }
  }

  lemma RunMisses(k: Kind, p: Saved, adj: int, done: int, spare: set<Reg>, known: Known, lost: Word) returns (b: Word)
    requires known[k.base].None? && Rereads(k, MoveOf(k, p, adj, done, spare), known)
    ensures Wrap(lost + RunSlip(k, p, adj, done, spare, known, b, lost)) != 0
  {
    hide MoveOf, Slip, ReadsBack;
    var m := MoveOf(k, p, adj, done, spare);
    var cache := Claimed(m, known);
    var x := SlipVaries(m.b, k.base, m.addon, cache, lost);
    b := Wrap(x - (done + lost));
    assert Addr(b, done + lost) == x by { BackTo(x, done + lost); }
    SlipSame(m.b, k.base, m.addon, cache, CachedRegs(known)[k.base := x], CachedRegs(cache)[k.base := x]);
  }

  lemma BackTo(x: Word, i: int)
    ensures Addr(Wrap(x - i), i) == x
  {
  }

  // ---- stores ----

  /** Does the transfer of r reach a? */
  predicate Reaches(q: Queue, err: map<Reg, Word>, b: Word, r: Reg, a: Word)
  {
    r in q && r in err && Addr(b, q[r] + err[r]) == a
  }

  /** The cell a of m after the stores of s from mem, in whatever order they were made. */
  ghost predicate Cell(q: Queue, s: set<Reg>, err: map<Reg, Word>, b: Word, regs: Regs, mem: Mem, m: Mem, a: Word)
  {
    || (a in m && exists r: Reg :: r in s && Reaches(q, err, b, r, a) && m[a] == regs[r])
    || ((a in m <==> a in mem) && (a in m ==> m[a] == mem[a])
        && forall r: Reg :: r in s ==> !Reaches(q, err, b, r, a))
  }

  ghost predicate Wrote(q: Queue, s: set<Reg>, err: map<Reg, Word>, b: Word, regs: Regs, mem: Mem, m: Mem)
  {
    forall a: Word :: Cell(q, s, err, b, regs, mem, m, a)
  }

  lemma WroteNothing(q: Queue, err: map<Reg, Word>, b: Word, regs: Regs, mem: Mem)
    ensures Wrote(q, {}, err, b, regs, mem, mem)
  {
  }

  /** Two groups of stores, one after the other. */
  lemma WroteBoth(q: Queue, s1: set<Reg>, s2: set<Reg>, err: map<Reg, Word>, b: Word, regs: Regs, regs': Regs,
          m0: Mem, m1: Mem, m2: Mem)
    requires Wrote(q, s1, err, b, regs, m0, m1) && Wrote(q, s2, err, b, regs', m1, m2)
    requires forall r: Reg :: r in s2 ==> regs'[r] == regs[r]
    ensures Wrote(q, s1 + s2, err, b, regs, m0, m2)
  {
    hide Reaches;
    forall a: Word ensures Cell(q, s1 + s2, err, b, regs, m0, m2, a) {
      assert Cell(q, s1, err, b, regs, m0, m1, a);
      assert Cell(q, s2, err, b, regs', m1, m2, a);
      if r: Reg :| r in s2 && Reaches(q, err, b, r, a) && a in m2 && m2[a] == regs'[r] {
        assert r in s1 + s2;
      } else if r: Reg :| r in s1 && Reaches(q, err, b, r, a) && a in m1 && m1[a] == regs[r] {
        assert r in s1 + s2;
      }
    }
  }

  /** Only the offsets and errors of s matter. */
  lemma WroteSame(q: Queue, q': Queue, s: set<Reg>, err: map<Reg, Word>, err': map<Reg, Word>, b: Word, regs: Regs,
          mem: Mem, m: Mem)
    requires Wrote(q, s, err, b, regs, mem, m)
    requires forall r: Reg :: r in s ==> (r in q <==> r in q') && (r in err <==> r in err')
    requires forall r: Reg :: r in s && r in q && r in err ==> q[r] == q'[r] && err[r] == err'[r]
    ensures Wrote(q', s, err', b, regs, mem, m)
  {
    hide Addr;
    forall a: Word ensures Cell(q', s, err', b, regs, mem, m, a) {
      assert Cell(q, s, err, b, regs, mem, m, a);
      forall r: Reg | r in s ensures Reaches(q, err, b, r, a) <==> Reaches(q', err', b, r, a) {}
    }
  }

  lemma HereAddr(at: Word, done: int, lost: Word, slip: Word, off: int)
    ensures Addr(Addr(at, done + lost), off - (done - slip)) == Addr(at, off + Wrap(lost + slip))
  {
    WrapParts(at + (done + lost), off - (done - slip));
    WrapParts(at + off, lost + slip);
  }

  /** A group of stores seen from another address. */
  lemma StoredCell(q: Queue, p: Queue, err: map<Reg, Word>, b: Word, at: Word, regs: Regs, mem: Mem, m: Mem, a: Word)
    requires Stored(p, b, regs, mem, m)
    requires forall r: Reg :: r in p ==> r in q && r in err && Addr(b, p[r]) == Addr(at, q[r] + err[r])
    ensures Cell(q, p.Keys, err, at, regs, mem, m, a)
  {
    hide Addr;
    if r: Reg :| r in p && Addr(b, p[r]) == a {
      assert Reaches(q, err, at, r, a);
    } else {
      assert Untouched(p, b, a);
    }
  }

  /** Stores made exactly where an addition that missed has put them. */
  lemma StoredWrote(q: Queue, s: set<Reg>, base: Reg, done: int, lost: Word, slip: Word, at: Word, st: State, m: Mem)
    requires Apart(q) && s <= q.Keys && st.regs[base] == Addr(at, done + lost)
    requires m == StoreAll(Only(Rebased(q, done - slip), s), st.regs[base], st.regs, st.mem)
    ensures Wrote(q, s, Constant(s, Wrap(lost + slip)), at, st.regs, st.mem, m)
  {
    hide StoreAll, Addr, Apart, Wrap, Stored, Cell;
    var p, err := Only(Rebased(q, done - slip), s), Constant(s, Wrap(lost + slip));
    RebasedApart(q, done - slip);
    PartsApart(Rebased(q, done - slip), s);
    StoresStored(p, st.regs[base], st.regs, st.mem);
    forall r: Reg | r in p
      ensures r in q && r in err && Addr(st.regs[base], p[r]) == Addr(at, q[r] + err[r])
    {
      HereAddr(at, done, lost, slip, q[r]);
    }
    assert p.Keys == s;
    forall a: Word ensures Cell(q, s, err, at, st.regs, st.mem, m, a) {
      StoredCell(q, p, err, st.regs[base], at, st.regs, st.mem, m, a);
    }
  }

  /** One run of stores. */
  lemma RunStores(k: Kind, q: Queue, p: Saved, next: Option<int>, adj: int, done: int, spare: set<Reg>, known: Known,
          b: Word, lost: Word, st: State)
    requires !k.load && IsSaved(q, p) && Workable(k, q, adj) && Clear(k, q, spare)
    requires Tracks(k.base, known, b, done, lost, st.regs)
    ensures var o := Generate(k, p, next, adj, done, spare, known);
            var end := Run(o.code, st);
            var here := Wrap(lost + RunSlip(k, p, adj, done, spare, known, b, lost));
            && end.flags == st.flags && o.adj + o.done == adj + done
            && Tracks(k.base, KnownAfter(k, p, adj, done, spare, known), b, o.done,
                      LostAfter(k, p, adj, done, spare, known, b, lost), end.regs)
            && (forall r: Reg :: r !in spare && r != k.base ==> end.regs[r] == st.regs[r])
            && Wrote(q, p.regs, Constant(p.regs, here), b, st.regs, st.mem, end.mem)
  {
    hide Run, Addr, Apart, Generate, IsSaved, MoveOf, SlipOf, RunSlip, Drift, StoreAll, Wrote, Wrap;
    var m, slip := MoveOf(k, p, adj, done, spare), RunSlip(k, p, adj, done, spare, known, b, lost);
    var o := Generate(k, p, next, adj, done, spare, known);
    InRun(q, p);
    SlipIs(k, p, adj, done, spare, known, b, lost, st.regs);
    RunDoes(k, q, p, next, adj, done, spare, known, st);
    MoveTarget(k, p, adj, done, spare);
    StoredWrote(q, p.regs, k.base, done, lost, slip, b, st, Run(o.code, st).mem);
    LostBase(b, done, lost, o.done - done, Drift(p, adj, done), if MovesBase(k, m) then slip else 0);
  }

  lemma LostBase(at: Word, done: int, lost: Word, step: int, drift: int, slip: Word)
    ensures Addr(Addr(at, done + lost), step + drift + slip) == Addr(at, done + step + Wrap(lost + drift + slip))
  {
    hide Wrap;
    WrapParts(step + drift + slip, at + (done + lost));
    WrapParts(at + (done + step), lost + drift + slip);
    assert at + (done + lost) + (step + drift + slip) == at + (done + step) + (lost + drift + slip);
  }

  /** A list of runs of stores: each register goes where its error puts it, and the base ends astray by `lost`. */
  lemma {:induction false} RunsStore(k: Kind, q: Queue, list: seq<Saved>, adj: int, done: int, spare: set<Reg>,
          dead: set<Reg>, baseDead: bool, known: Known, b: Word, lost: Word, st: State)
    requires !k.load && Planned(k, q, list) && Workable(k, q, adj) && Clear(k, q, spare) && k.base !in dead
    requires Tracks(k.base, known, b, done, lost, st.regs)
    ensures var e := GenerateAll(k, list, adj, done, spare, dead, baseDead, known);
            var t := TraceOf(k, list, adj, done, spare, dead, baseDead, known, b, lost);
            var end := Run(e.code, st);
            && end.flags == st.flags && (!baseDead ==> e.adj + e.done == adj + done)
            && Tracks(k.base, e.known, b, e.done, t.lost, end.regs)
            && (forall r: Reg :: r !in spare + dead * Covered(list) && r != k.base ==> end.regs[r] == st.regs[r])
            && Wrote(q, Covered(list), t.err, b, st.regs, st.mem, end.mem)
  {
    hide Run, Addr, Apart, Generate, IsSaved, Covered, Planned, Workable, Clear, Wrote, LostAfter, KnownAfter, RunSlip,
        Tracks, Constant;
    var e := GenerateAll(k, list, adj, done, spare, dead, baseDead, known);
    var t := TraceOf(k, list, adj, done, spare, dead, baseDead, known, b, lost);
    if |list| == 0 {
      RunNone(st);
      NothingCovered(q);
      assert Covered(list) == {};
      WroteNothing(q, t.err, b, st.regs, st.mem);
    } else {
      var p, adj0 := list[0], AdjFor(list, adj, baseDead);
      var o := Generate(k, p, NextStart(list), adj0, done, spare, known);
      var spare', known' := SpareAfter(k, p.regs, spare, dead), KnownAfter(k, p, adj0, done, spare, known);
      var lost', mid := LostAfter(k, p, adj0, done, spare, known, b, lost), Run(o.code, st);
      var rest := GenerateAll(k, list[1..], o.adj, o.done, spare', dead, baseDead, known');
      var later := TraceOf(k, list[1..], o.adj, o.done, spare', dead, baseDead, known', b, lost');
      PlannedRest(k, q, list);
      CoveredFirst(list);
      WorkableStores(k, q, adj, adj0);
      RunStores(k, q, p, NextStart(list), adj0, done, spare, known, b, lost, st);
      WorkableRest(k, q, p.regs, adj0, o.adj, spare, dead);
      RunsStore(k, q - p.regs, list[1..], o.adj, o.done, spare', dead, baseDead, known', b, lost', mid);
      RunAppend(o.code, rest.code, st);
      LaterStores(k, q, list, t.err, later.err, Wrap(lost + RunSlip(k, p, adj0, done, spare, known, b, lost)), spare,
                  b, st, mid, Run(e.code, st));
    }
  }

  lemma WorkableStores(k: Kind, q: Queue, adj: int, adj': int)
    requires !k.load && Workable(k, q, adj)
    ensures Workable(k, q, adj')
  {
  }

  lemma LaterStores(k: Kind, q: Queue, list: seq<Saved>, err: map<Reg, Word>, later: map<Reg, Word>, here: Word,
          spare: set<Reg>, at: Word, st: State, mid: State, end: State)
    requires !k.load && |list| > 0 && Planned(k, q, list) && Clear(k, q, spare) && k.base !in q
    requires later.Keys == Covered(list[1..]) && err == later + Constant(list[0].regs, here)
    requires forall r: Reg :: r !in spare && r != k.base ==> mid.regs[r] == st.regs[r]
    requires Wrote(q, list[0].regs, Constant(list[0].regs, here), at, st.regs, st.mem, mid.mem)
    requires Wrote(q - list[0].regs, Covered(list[1..]), later, at, mid.regs, mid.mem, end.mem)
    ensures Wrote(q, Covered(list), err, at, st.regs, st.mem, end.mem)
  {
    hide Wrote, Covered, IsSaved;
    var s1, s2 := list[0].regs, Covered(list[1..]);
    PlannedRest(k, q, list);
    CoveredFirst(list);
    CoveredApart(k, q, list);
    WroteSame(q, q, s1, Constant(s1, here), err, at, st.regs, st.mem, mid.mem);
    WroteSame(q - s1, q, s2, later, err, at, mid.regs, mid.mem, end.mem);
    WroteBoth(q, s1, s2, err, at, st.regs, mid.regs, st.mem, mid.mem, end.mem);
  }

  /** The runs are disjoint and take from the queue. */
  lemma {:induction false} CoveredApart(k: Kind, q: Queue, list: seq<Saved>)
    requires Planned(k, q, list)
    ensures Covered(list) <= q.Keys
    ensures |list| > 0 ==> list[0].regs !! Covered(list[1..])
  {
    hide IsSaved, Planned;
    if |list| > 0 {
      PlannedRest(k, q, list);
      InRun(q, list[0]);
      CoveredApart(k, q - list[0].regs, list[1..]);
    }
  }

  // ---- loads ----

  /** The registers of s have received the words that their errors lead them to. */
  ghost predicate Fetched(q: Queue, s: set<Reg>, err: map<Reg, Word>, at: Word, mem: Mem, regs: Regs)
  {
    forall r: Reg :: r in s ==> r in q && r in err && regs[r] == Read(mem, Addr(at, q[r] + err[r]))
  }

  /** One run of loads; after a load of the base nothing is known of where it points. */
  lemma RunLoads(k: Kind, q: Queue, p: Saved, next: Option<int>, adj: int, done: int, spare: set<Reg>, known: Known,
          b: Word, lost: Word, st: State)
    requires k.load && IsSaved(q, p) && Workable(k, q, adj) && Tracks(k.base, known, b, done, lost, st.regs)
    ensures var o := Generate(k, p, next, adj, done, spare, known);
            var end, known' := Run(o.code, st), KnownAfter(k, p, adj, done, spare, known);
            var here := Wrap(lost + RunSlip(k, p, adj, done, spare, known, b, lost));
            && end.flags == st.flags && end.mem == st.mem && o.adj + o.done == adj + done
            && (adj == 0 && k.base in q ==> o.adj == 0)
            && AgreesBut(known', end.regs, k.base, false)
            && (k.base !in p.regs ==>
                  Tracks(k.base, known', b, o.done, LostAfter(k, p, adj, done, spare, known, b, lost),
                         end.regs))
            && (forall r: Reg :: r !in p.regs && r != k.base ==> end.regs[r] == st.regs[r])
            && Fetched(q, p.regs, Constant(p.regs, here), b, st.mem, end.regs)
  {
    hide Run, Addr, Generate, IsSaved, MoveOf, SlipOf, RunSlip, Drift, Read, Wrap, Fetched, LoadedPart;
    var m, slip := MoveOf(k, p, adj, done, spare), RunSlip(k, p, adj, done, spare, known, b, lost);
    var o := Generate(k, p, next, adj, done, spare, known);
    var end := Run(o.code, st);
    InRun(q, p);
    SlipIs(k, p, adj, done, spare, known, b, lost, st.regs);
    RunDoes(k, q, p, next, adj, done, spare, known, st);
    LoadedFetched(k.base, q, p.regs, done, lost, slip, b, BaseMove(k, p, next, adj, done, spare, known, slip), st,
                  end);
    LostBase(b, done, lost, o.done - done, Drift(p, adj, done), if MovesBase(k, m) then slip else 0);
  }

  lemma LoadedFetched(base: Reg, q: Queue, s: set<Reg>, done: int, lost: Word, slip: Word, at: Word, d: int, st: State,
          end: State)
    requires s <= q.Keys && st.regs[base] == Addr(at, done + lost)
    requires LoadedPart(base, Rebased(q, done - slip), s, d, st, end)
    ensures end.flags == st.flags && end.mem == st.mem
    ensures forall r: Reg :: r !in s && r != base ==> end.regs[r] == st.regs[r]
    ensures base !in s ==> end.regs[base] == Addr(st.regs[base], d)
    ensures Fetched(q, s, Constant(s, Wrap(lost + slip)), at, st.mem, end.regs)
  {
    hide Addr, Read, Wrap, LoadAll;
    var p, err := Only(Rebased(q, done - slip), s), Constant(s, Wrap(lost + slip));
    var moved := st.regs[base := Addr(st.regs[base], d)];
    assert p.Keys == s;
    forall r: Reg ensures r in s ==> end.regs[r] == Read(st.mem, Addr(at, q[r] + Wrap(lost + slip)))
      ensures r !in s ==> end.regs[r] == moved[r]
    {
      LoadAllAt(p, st.regs[base], st.mem, moved, r);
      if r in s { HereAddr(at, done, lost, slip, q[r]); }
    }
  }

  lemma LoadAllAt(q: Queue, b: Word, mem: Mem, regs: Regs, r: Reg)
    ensures LoadAll(q, b, mem, regs)[r] == if r in q then Read(mem, Addr(b, q[r])) else regs[r]
  {
    hide Read, Addr;
  }

  /** A list of runs of loads: each register receives the word its error leads it to. */
  lemma {:induction false} RunsLoad(k: Kind, q: Queue, list: seq<Saved>, adj: int, done: int, spare: set<Reg>,
          dead: set<Reg>, baseDead: bool, known: Known, b: Word, lost: Word, st: State)
    requires k.load && Planned(k, q, list) && Workable(k, q, adj)
    requires Tracks(k.base, known, b, done, lost, st.regs)
    ensures var e := GenerateAll(k, list, adj, done, spare, dead, baseDead, known);
            var t := TraceOf(k, list, adj, done, spare, dead, baseDead, known, b, lost);
            var end := Run(e.code, st);
            && end.flags == st.flags && end.mem == st.mem && (!baseDead ==> e.adj + e.done == adj + done)
            && AgreesBut(e.known, end.regs, k.base, false)
            && (k.base !in q ==> Tracks(k.base, e.known, b, e.done, t.lost, end.regs))
            && (forall r: Reg :: r !in Covered(list) && r != k.base ==> end.regs[r] == st.regs[r])
            && Fetched(q, Covered(list), t.err, b, st.mem, end.regs)
  {
    hide Run, Addr, Generate, IsSaved, Covered, Planned, Workable, Fetched, LostAfter, KnownAfter, RunSlip, Tracks,
        Constant, AgreesBut;
    var e := GenerateAll(k, list, adj, done, spare, dead, baseDead, known);
    var t := TraceOf(k, list, adj, done, spare, dead, baseDead, known, b, lost);
    if |list| == 0 {
      RunNone(st);
      NothingCovered(q);
      assert Covered(list) == {};
      TracksAgree(k.base, known, b, done, lost, st.regs);
      FetchedNothing(q, t.err, b, st.mem, st.regs);
    } else {
      var p, adj0 := list[0], AdjFor(list, adj, baseDead);
      var o := Generate(k, p, NextStart(list), adj0, done, spare, known);
      var spare', known' := SpareAfter(k, p.regs, spare, dead), KnownAfter(k, p, adj0, done, spare, known);
      var lost', mid := LostAfter(k, p, adj0, done, spare, known, b, lost), Run(o.code, st);
      var here := Wrap(lost + RunSlip(k, p, adj0, done, spare, known, b, lost));
      var rest := GenerateAll(k, list[1..], o.adj, o.done, spare', dead, baseDead, known');
      var later := TraceOf(k, list[1..], o.adj, o.done, spare', dead, baseDead, known', b, lost');
      PlannedRest(k, q, list);
      CoveredFirst(list);
      CoveredApart(k, q, list);
      WorkableLoads(k, q, adj, adj0);
      RunLoads(k, q, p, NextStart(list), adj0, done, spare, known, b, lost, st);
      RunAppend(o.code, rest.code, st);
      if k.base in p.regs {
        LastLoads(k, q, list);
        RunNone(mid);
        assert Covered(list[1..]) == {};
        FetchedNothing(q - p.regs, later.err, b, mid.mem, mid.regs);
      } else {
        WorkableAfter(k, q, p.regs, adj0, o.adj);
        RunsLoad(k, q - p.regs, list[1..], o.adj, o.done, spare', dead, baseDead, known', b, lost', mid);
      }
      LaterLoads(k, q, list, t.err, later.err, here, b, st, mid, Run(e.code, st));
    }
  }

  lemma TracksAgree(base: Reg, known: Known, b: Word, done: int, lost: Word, regs: Regs)
    requires Tracks(base, known, b, done, lost, regs)
    ensures AgreesBut(known, regs, base, false)
  {
  }

  lemma FetchedNothing(q: Queue, err: map<Reg, Word>, at: Word, mem: Mem, regs: Regs)
    ensures Fetched(q, {}, err, at, mem, regs)
  {
  }

  lemma WorkableLoads(k: Kind, q: Queue, adj: int, adj': int)
    requires k.load && Workable(k, q, adj) && (adj' == adj || adj' == 0)
    ensures Workable(k, q, adj')
  {
  }

  lemma WorkableAfter(k: Kind, q: Queue, s: set<Reg>, adj: int, adj': int)
    requires k.load && Workable(k, q, adj) && (adj == 0 && k.base in q ==> adj' == 0)
    ensures Workable(k, q - s, adj')
  {
  }

  lemma LastLoads(k: Kind, q: Queue, list: seq<Saved>)
    requires |list| > 0 && Planned(k, q, list) && k.base in list[0].regs
    ensures list[1..] == [] && k.base in q
  {
    InRun(q, list[0]);
  }

  lemma LaterLoads(k: Kind, q: Queue, list: seq<Saved>, err: map<Reg, Word>, later: map<Reg, Word>, here: Word,
          at: Word, st: State, mid: State, end: State)
    requires |list| > 0 && list[0].regs !! Covered(list[1..]) && (k.base in list[0].regs ==> end.regs == mid.regs)
    requires later.Keys == Covered(list[1..]) && err == later + Constant(list[0].regs, here) && mid.mem == st.mem
    requires forall r: Reg :: r !in Covered(list[1..]) && r != k.base ==> end.regs[r] == mid.regs[r]
    requires Fetched(q, list[0].regs, Constant(list[0].regs, here), at, st.mem, mid.regs)
    requires Fetched(q - list[0].regs, Covered(list[1..]), later, at, mid.mem, end.regs)
    ensures Fetched(q, Covered(list), err, at, st.mem, end.regs)
  {
    hide Covered, Addr, Read, Fetched;
    CoveredFirst(list);
    var s1, s2 := list[0].regs, Covered(list[1..]);
    FetchedOf(q, q, s1, Constant(s1, here), err, at, st.mem, mid.regs, end.regs);
    FetchedOf(q - s1, q, s2, later, err, at, mid.mem, end.regs, end.regs);
    FetchedBoth(q, s1, s2, err, at, st.mem, end.regs);
  }

  lemma FetchedOf(q: Queue, q': Queue, s: set<Reg>, err: map<Reg, Word>, err': map<Reg, Word>, at: Word, mem: Mem,
          regs: Regs, regs': Regs)
    requires Fetched(q, s, err, at, mem, regs)
    requires forall r: Reg :: r in s && r in q ==> r in q' && q'[r] == q[r] && regs'[r] == regs[r]
    requires forall r: Reg :: r in s && r in err ==> r in err' && err'[r] == err[r]
    ensures Fetched(q', s, err', at, mem, regs')
  {
    hide Addr, Read;
  }

  lemma FetchedBoth(q: Queue, s1: set<Reg>, s2: set<Reg>, err: map<Reg, Word>, at: Word, mem: Mem, regs: Regs)
    requires Fetched(q, s1, err, at, mem, regs) && Fetched(q, s2, err, at, mem, regs)
    ensures Fetched(q, s1 + s2, err, at, mem, regs)
  {
    hide Addr, Read;
  }

  // ---- the cache only forgets ----

  lemma {:induction false} KnownShrinks(k: Kind, list: seq<Saved>, adj: int, done: int, spare: set<Reg>, dead: set<Reg>,
          baseDead: bool, known: Known, r: Reg)
    ensures var e := GenerateAll(k, list, adj, done, spare, dead, baseDead, known);
            (e.known[r].Some? ==> e.known[r] == known[r]) && (k.load && r in Covered(list) ==> e.known[r].None?)
  {
    hide Generate, MoveOf;
    if |list| > 0 {
      var adj0 := AdjFor(list, adj, baseDead);
      var o := Generate(k, list[0], NextStart(list), adj0, done, spare, known);
      KnownShrinks(k, list[1..], o.adj, o.done, SpareAfter(k, list[0].regs, spare, dead), dead, baseDead,
                   KnownAfter(k, list[0], adj0, done, spare, known), r);
    }
  }
}
