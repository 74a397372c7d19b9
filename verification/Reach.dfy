/**
 How far a flush reaches.  If the offsets, the adjustment and the base all lie within one
 window, with a word to spare at both ends, the base stays inside the window and every
 single transfer's offset is at most as wide as the window.
 */
module Reach {
  import opened Words
  import opened Arm
  import opened Immediates
  import opened KnownValues
  import opened AddConstant
  import opened Transfers
  import opened Combiner
  import opened CombinerPlan
  import opened Flush

  /** Offsets at most w, and no empty register list. */
  ghost predicate FitsIn(code: Code, w: int)
  {
    forall i :: 0 <= i < |code| ==> Fit(code[i], w)
  }

  predicate Fit(i: Instr, w: int)
  {
    match i
    case Transfer(_, _, _, off, _) => -w <= off <= w
    case Block(_, _, _, _, s) => s != {}
    case Data(_, _, _, _, _, _) => true
  }

  lemma FitsAppend(a: Code, b: Code, w: int)
    requires FitsIn(a, w) && FitsIn(b, w)
    ensures FitsIn(a + b, w)
  {
    hide Fit;
  }

  lemma MoveByFits(r1: Reg, r2: Reg, i: int, known: Known, w: int)
    ensures FitsIn(MoveBy(r1, r2, i, known), w)
  {
    hide AddCode;
    AddCodeData(r1, r2, Wrap(i), AL, false, known);
  }

  /** The window [lo, hi] around the base; the total adjustment is inside. */
  ghost predicate InWindow(adj: int, done: int, lo: int, hi: int) { lo <= done <= hi && lo <= adj + done <= hi }

  lemma SingleReach(k: Kind, r: Reg, start: int, next: Option<int>, adj: int, done: int, lo: int, hi: int)
    requires InWindow(adj, done, lo, hi) && lo <= start <= hi && (next.Some? ==> lo <= next.value <= hi)
    ensures var o := Single(k, r, start, next, adj, done);
            InWindow(o.adj, o.done, lo, hi) && o.adj + o.done == adj + done && FitsIn(o.code, hi - lo)
  {
  }

  lemma {:induction false} SinglyReach(k: Kind, s: set<Reg>, start: int, next: Option<int>, adj: int, done: int, r: nat,
          lo: int, hi: int)
    requires r <= 16 && InWindow(adj, done, lo, hi) && (next.Some? ==> lo <= next.value <= hi)
    requires lo <= start && start + 4 * (Rank(s, 16) - Rank(s, r)) <= hi + 4
    ensures var o := Singly(k, s, start, next, adj, done, r);
            InWindow(o.adj, o.done, lo, hi) && FitsIn(o.code, hi - lo)
    decreases 16 - r
  {
    hide Single, Fit, InWindow;
    if r < 16 {
      if r in s {
        var one := Single(k, r, start, next, adj, done);
        RankMonotone(s, r + 1, 16);
        SingleReach(k, r, start, next, adj, done, lo, hi);
        SinglyReach(k, s, start + 4, next, one.adj, one.done, r + 1, lo, hi);
        var rest := Singly(k, s, start + 4, next, one.adj, one.done, r + 1);
        FitsAppend(one.code, rest.code, hi - lo);
      } else {
        SinglyReach(k, s, start, next, adj, done, r + 1, lo, hi);
      }
    }
  }

  lemma ShapedReach(k: Kind, p: Saved, adj: int, done: int, known: Known, lo: int, hi: int)
    requires p.regs != {} && InWindow(adj, done, lo, hi) && lo + 4 <= p.start <= p.end <= hi - 4
    requires ShapeOf(p.start - done, p.end - done, adj).Some?
    ensures var o := Shaped(k, p, ShapeOf(p.start - done, p.end - done, adj).value, adj, done, known);
            InWindow(o.adj, o.done, lo, hi) && FitsIn(o.code, hi - lo)
  {
    hide MoveBy;
    var sh := ShapeOf(p.start - done, p.end - done, adj).value;
    MoveByFits(k.base, k.base, sh.addon, known, hi - lo);
    FitsAppend(if sh.addon != 0 then MoveBy(k.base, k.base, sh.addon, known) else [],
               [Block(k.load, k.base, sh.mode, Within(adj, sh.move), p.regs)], hi - lo);
  }

  lemma PlacedReach(k: Kind, p: Saved, b: Reg, altered: bool, adj: int, done: int, known: Known, lo: int, hi: int)
    requires p.regs != {} && InWindow(adj, done, lo, hi) && lo + 4 <= p.start <= p.end <= hi - 4
    ensures var o := Placed(k, p, b, altered, adj, done, known);
            InWindow(o.adj, o.done, lo, hi) && FitsIn(o.code, hi - lo)
  {
    hide MoveBy, EightBits;
    var e := Elsewhere(p.start - done, p.end - done);
    MoveByFits(b, k.base, e.addon, known, hi - lo);
    FitsAppend(MoveBy(b, k.base, e.addon, known), [Block(k.load, b, e.mode, false, p.regs)], hi - lo);
  }

  /** Every run keeps inside the window. */
  lemma GenerateReach(k: Kind, q: Queue, p: Saved, next: Option<int>, adj: int, done: int, spare: set<Reg>,
          known: Known, lo: int, hi: int)
    requires IsSaved(q, p) && InWindow(adj, done, lo, hi)
    requires lo + 4 <= p.start && p.end <= hi - 4 && (next.Some? ==> lo <= next.value <= hi)
    ensures var o := Generate(k, p, next, adj, done, spare, known);
            InWindow(o.adj, o.done, lo, hi) && FitsIn(o.code, hi - lo)
  {
    hide Singly, Shaped, Placed, ShapeOf, FitsIn, PlaceFor, IsSaved, InWindow, MoveOf;
    InRun(q, p);
    RunNonempty(q, p);
    SinglyReachAll(k, q, p, next, adj, done, lo, hi);
    var cache := Claimed(MoveOf(k, p, adj, done, spare), known);
    if p.start != p.end {
      if ShapeOf(p.start - done, p.end - done, adj).Some? {
        ShapedReach(k, p, adj, done, cache, lo, hi);
      } else {
        var place := PlaceFor(k, p, spare);
        if place.Temp? {
          PlacedReach(k, p, place.r, false, adj, done, cache, lo, hi);
        } else if place.Base? {
          PlacedReach(k, p, k.base, true, adj, done, cache, lo, hi);
        }
      }
    }
  }

  lemma SinglyReachAll(k: Kind, q: Queue, p: Saved, next: Option<int>, adj: int, done: int, lo: int, hi: int)
    requires IsSaved(q, p) && InWindow(adj, done, lo, hi)
    requires lo + 4 <= p.start && p.end <= hi - 4 && (next.Some? ==> lo <= next.value <= hi)
    ensures var o := Singly(k, p.regs, p.start, next, adj, done);
            InWindow(o.adj, o.done, lo, hi) && FitsIn(o.code, hi - lo)
  {
    hide Singly, FitsIn, InWindow;
    SinglyReach(k, p.regs, p.start, next, adj, done, 0, lo, hi);
  }

  ghost predicate ListInWindow(list: seq<Saved>, lo: int, hi: int)
  {
    forall i :: 0 <= i < |list| ==> lo + 4 <= list[i].start && list[i].end <= hi - 4
  }

  lemma {:induction false} GenerateAllReach(k: Kind, q: Queue, list: seq<Saved>, adj: int, done: int, spare: set<Reg>,
          dead: set<Reg>, baseDead: bool, known: Known, lo: int, hi: int)
    requires Planned(k, q, list) && ListInWindow(list, lo, hi) && InWindow(adj, done, lo, hi)
    ensures var e := GenerateAll(k, list, adj, done, spare, dead, baseDead, known);
            && InWindow(e.adj, e.done, lo, hi) && FitsIn(e.code, hi - lo)
            && TotalDrift(k, list, adj, done, spare, dead, baseDead, known) >= |list| * (lo - hi)
  {
    hide Generate, Planned, IsSaved, FitsIn, Drift, ListInWindow, KnownAfter;
    if |list| == 0 {
      assert FitsIn([], hi - lo) by { NothingFits(hi - lo); }
    } else {
      var p := list[0];
      var adj0 := AdjFor(list, adj, baseDead);
      var o := Generate(k, p, NextStart(list), adj0, done, spare, known);
      var spare', known' := SpareAfter(k, p.regs, spare, dead), KnownAfter(k, p, adj0, done, spare, known);
      PlannedRest(k, q, list);
      InRun(q, p);
      if |list| >= 2 { NextInWindow(k, q, list, lo, hi); }
      WindowTail(list, lo, hi);
      GenerateReach(k, q, p, NextStart(list), adj0, done, spare, known, lo, hi);
      DriftReach(p, adj0, done, lo, hi);
      GenerateAllReach(k, q - p.regs, list[1..], o.adj, o.done, spare', dead, baseDead, known', lo, hi);
      var rest := GenerateAll(k, list[1..], o.adj, o.done, spare', dead, baseDead, known');
      FitsAppend(o.code, rest.code, hi - lo);
      OneMore(|list|, lo - hi);
    }
  }

  lemma OneMore(n: int, w: int)
    ensures n * w == w + (n - 1) * w
  {
  }

  lemma WindowTail(list: seq<Saved>, lo: int, hi: int)
    requires |list| > 0 && ListInWindow(list, lo, hi)
    ensures lo + 4 <= list[0].start && list[0].end <= hi - 4 && ListInWindow(list[1..], lo, hi)
  {
  }

  lemma NothingFits(w: int)
    ensures FitsIn([], w)
  {
  }

  lemma NextInWindow(k: Kind, q: Queue, list: seq<Saved>, lo: int, hi: int)
    requires Planned(k, q, list) && ListInWindow(list, lo, hi) && |list| >= 2
    ensures lo <= list[1].start <= hi
  {
    hide IsSaved, Covered;
    InRun(q, list[1]);
  }

  lemma DriftReach(p: Saved, adj: int, done: int, lo: int, hi: int)
    requires InWindow(adj, done, lo, hi) && lo + 4 <= p.start <= p.end <= hi - 4
    ensures Drift(p, adj, done) >= lo - hi
  {
  }
}
