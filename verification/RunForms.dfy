/**
 Which form a run is given (ldmstm_generate in arm/gen.c): the base is left alone where an
 addressing mode reaches, is moved only where it has to go anyway, and another base is put where
 one instruction can put it, if there is such a place.
 */
module RunForms {
  import opened Words
  import opened Arm
  import opened Immediates
  import opened KnownValues
  import opened AddConstant
  import opened Transfers
  import opened Combiner
  import opened CombinerPlan
  import Flush
  import Forms

  /** A block of n registers in this mode, from a base at `at`, starts at `start`. */
  predicate Reaches(mode: Mode, n: nat, at: int, start: int)
  {
    at + (match mode case IA => 0 case IB => 4 case DA => 4 - 4 * n case DB => -4 * n) == start
  }

  /**
   A run is done from the base as it stands exactly if one of the four modes reaches it; the base
   is moved for it exactly if it is to go over the whole run anyway.
   */
  lemma ShapeIff(start: int, n: nat, adj: int)
    requires n >= 2
    ensures var end := start + 4 * (n - 1);
            var sh, free := ShapeOf(start, end, adj), exists mode :: Reaches(mode, n, 0, start);
            && (sh.Some? && sh.value.addon == 0 <==> free)
            && (sh.Some? && sh.value.addon != 0 <==> !free && ((start > 0 && adj >= end) || (end < 0 && adj <= end)))
            && (sh.Some? ==> Reaches(sh.value.mode, n, sh.value.addon, start))
            && (sh.Some? && sh.value.addon != 0 ==>
                  sh.value.mode == if start > 0 then if adj == end then IB else IA else if adj == start then DB else DA)
  {
    var end := start + 4 * (n - 1);
    assert Reaches(IA, n, 0, start) <==> start == 0;
    assert Reaches(IB, n, 0, start) <==> start == 4;
    assert Reaches(DA, n, 0, start) <==> end == 0;
    assert Reaches(DB, n, 0, start) <==> end == -4;
  }

  /** Another base is put where a field of an instruction puts it whenever some mode allows that. */
  lemma ElsewhereReaches(start: int, n: nat)
    requires n >= 2
    ensures var e := Elsewhere(start, start + 4 * (n - 1));
            && Reaches(e.mode, n, e.addon, start)
            && (Forms.Field(Wrap(e.addon)) <==> exists mode, at :: Reaches(mode, n, at, start) && Forms.Field(Wrap(at)))
  {
    hide EightBits, Forms.Field;
    var end := start + 4 * (n - 1);
    Forms.FieldIff(Wrap(start));
    Forms.FieldIff(Wrap(start - 4));
    Forms.FieldIff(Wrap(end));
    Forms.FieldIff(Wrap(end + 4));
    var e := Elsewhere(start, end);
    assert Reaches(e.mode, n, e.addon, start);
    forall mode, at | Reaches(mode, n, at, start) && Forms.Field(Wrap(at)) ensures Forms.Field(Wrap(e.addon)) {
      assert at == match mode case IA => start case IB => start - 4 case DA => end case DB => end + 4;
    }
  }

  /** Some of the way from `at` to `to`, with what is left of it beyond `on`. */
  predicate OnTheWay(at: int, on: int, to: int) { at < on <= to || to <= on < at }

  /**
   One register takes one instruction.  The base goes with it to its word if that is on the way; a
   transfer at the base itself takes it on to the next run, or if there is none all the way, where
   the field allows.
   */
  lemma SingleMoves(k: Kind, r: Reg, start: int, next: Option<int>, adj: int, done: int)
    ensures var one := Single(k, r, start, next, adj, done);
            var end := done + adj;
            && |one.code| == 1 && one.done + one.adj == end
            && one.code[0].Transfer? && one.code[0].rd == r && (one.code[0].index.Offset? <==> one.done == done)
            && (start != done ==> one.done == if OnTheWay(done, start, end) then start else done)
            && (start == done && next.None? ==> one.done == if -0xfff <= adj <= 0xfff then end else done)
            && (start == done && next.Some? ==>
                  one.done == if OnTheWay(done, next.value, end) && -0xfff <= next.value - done <= 0xfff then next.value
                              else done)
  {
  }

  /** How many instructions a run takes: as many as registers, but for a base move of more than one. */
  lemma RunLength(k: Kind, p: Saved, next: Option<int>, adj: int, done: int, spare: set<Reg>, known: Known)
    requires p.end == p.start + 4 * (Count(p.regs) - 1) && Count(p.regs) >= 1
    ensures var n, m := |Generate(k, p, next, adj, done, spare, known).code|, MoveOf(k, p, adj, done, spare);
            && n <= Count(p.regs) + 3
            && (m.Stay? || |MoveBy(m.b, k.base, m.addon, Claimed(m, known))| <= 1 ==> n <= Count(p.regs))
  {
    hide MoveBy, ShapeOf, Elsewhere, Count, Single, Claimed;
    if p.start == p.end {
      SinglyLength(k, p.regs, p.start, next, adj, done, 0);
    } else {
      var m := MoveOf(k, p, adj, done, spare);
      if m.Moves? { MoveLength(m.b, k.base, m.addon, Claimed(m, known)); }
      if PlaceFor(k, p, spare).NoPlace? { SinglyLength(k, p.regs, p.start, next, adj, done, 0); }
    }
  }

  lemma MoveLength(r1: Reg, r2: Reg, i: int, known: Known)
    ensures |MoveBy(r1, r2, i, known)| <= 4
  {
    hide AddCode;
    AddCodeShape(r1, r2, Wrap(i), AL, false, known);
  }

  lemma {:induction false} SinglyLength(k: Kind, s: set<Reg>, start: int, next: Option<int>, adj: int, done: int,
          r: nat)
    requires r <= 16
    ensures |Singly(k, s, start, next, adj, done, r).code| == Count(s) - Rank(s, r)
    decreases 16 - r
  {
    hide Single;
    if r < 16 {
      var one := Single(k, r, start, next, adj, done);
      SingleMoves(k, r, start, next, adj, done);
      if r in s {
        SinglyLength(k, s, start + 4, next, one.adj, one.done, r + 1);
      } else {
        SinglyLength(k, s, start, next, adj, done, r + 1);
      }
    }
  }

  /**
   A run in one of the four modes takes the base along with it if the far end of the run is on the
   way of the adjustment, and otherwise records no movement.
   */
  lemma ShapedMoves(k: Kind, p: Saved, next: Option<int>, adj: int, done: int, spare: set<Reg>, known: Known)
    requires p.end == p.start + 4 * (Count(p.regs) - 1) && p.start < p.end
    requires ShapeOf(p.start - done, p.end - done, adj).Some?
    ensures var o, sh := Generate(k, p, next, adj, done, spare, known),
                ShapeOf(p.start - done, p.end - done, adj).value;
            var far := if sh.mode.IA? || sh.mode.IB? then p.end + (if sh.mode.IA? then 4 else 0)
                       else p.start - (if sh.mode.DA? then 4 else 0);
            && o.done == (if OnTheWay(done, far, done + adj) then far else done)
            && o.done + o.adj == done + adj
            && o.code[|o.code| - 1] == Block(k.load, k.base, sh.mode, OnTheWay(done, far, done + adj), p.regs)
  {
    hide MoveBy, Count, Claimed, MoveOf;
  }

  /** Away from the adjustment's way neither the stack pointer nor a global register variable is moved for a run. */
  lemma StackStays(k: Kind, p: Saved, adj: int, done: int, spare: set<Reg>)
    requires ShapeOf(p.start - done, p.end - done, adj).None? && p.start < p.end
    ensures var m := MoveOf(k, p, adj, done, spare);
            && (k.load ==> m.Moves? && m.b == p.last && !m.claims)
            && (!k.load && (k.base == SP || k.base in k.globals) ==>
                  if spare == {} then m.Stay?
                  else m.Moves? && m.b in spare && m.claims && forall r: Reg :: r in spare ==> m.b <= r)
            && (!k.load && k.base != SP && k.base !in k.globals ==> m.Moves? && m.b == k.base)
  {
    hide Elsewhere, ShapeOf;
  }

  /** The last run does not move a base that dies, unless stores have to be placed. */
  lemma DeadBaseStays(k: Kind, p: Saved, adj: int, done: int, spare: set<Reg>, dead: set<Reg>, known: Known)
    requires p.start <= p.end
    requires p.start == p.end || k.load || ShapeOf(p.start - done, p.end - done, 0).Some?
    ensures var e := GenerateAll(k, [p], adj, done, spare, dead, true, known); e.done == done && e.adj == 0
  {
    hide MoveBy, Claimed, MoveOf, Elsewhere, Single;
    assert [p][1..] == [];
    if p.start == p.end { SinglyStays(k, p.regs, p.start, None, done, 0); }
  }

  lemma {:induction false} SinglyStays(k: Kind, s: set<Reg>, start: int, next: Option<int>, done: int, r: nat)
    requires r <= 16
    ensures Singly(k, s, start, next, 0, done, r).done == done && Singly(k, s, start, next, 0, done, r).adj == 0
    decreases 16 - r
  {
    hide Single;
    if r < 16 {
      SingleMoves(k, r, start, next, 0, done);
      SinglyStays(k, s, if r in s then start + 4 else start, next, done, r + 1);
    }
  }

  // ---- which runs a flush makes ----

  /** Every run has one of the registers of mask. */
  ghost predicate AllMeet(list: seq<Saved>, mask: set<Reg>)
  {
    forall i :: 0 <= i < |list| ==> exists r: Reg :: r in list[i].regs && r in mask
  }

  lemma InsertMeets(list: seq<Saved>, atEnd: bool, cur: Saved, base: Reg, adj: int, mask: set<Reg>, r: Reg)
    requires (atEnd ==> |list| > 0) && AllMeet(list, mask) && r in cur.regs && r in mask
    ensures AllMeet(Insert(list, atEnd, cur, base, adj), mask)
  {
  }

  lemma {:induction false} SeedsFrom(q: Queue, mask: set<Reg>, base: Reg, adj: int, limit: nat, r: nat,
          list: seq<Saved>, atEnd: bool)
    requires r <= 16 && limit >= 1 && (atEnd ==> |list| > 0) && AllMeet(list, mask)
    ensures AllMeet(PlanFrom(q, mask, base, adj, limit, r, list, atEnd).list, mask)
    decreases 16 - r
  {
    hide Build, Insert, AllMeet, TakenFrom, Count;
    if r == 16 {
    } else if r in q && r in mask {
      var b := Build(q, r, limit);
      BuildTakes(q, r, limit);
      InsertMeets(list, atEnd, b.saved, base, adj, mask, r);
      InsertSome(list, atEnd, b.saved, base, adj);
      SeedsFrom(b.rest, mask, base, adj, limit, r + 1, Insert(list, atEnd, b.saved, base, adj),
          atEnd || base in b.saved.regs);
    } else {
      SeedsFrom(q, mask, base, adj, limit, r + 1, list, atEnd);
    }
  }

  lemma InsertSome(list: seq<Saved>, atEnd: bool, cur: Saved, base: Reg, adj: int)
    requires atEnd ==> |list| > 0
    ensures |Insert(list, atEnd, cur, base, adj)| > 0
  {
  }

  /**
   Without an adjustment, given or pretended, every run that is made has one of the registers
   asked for; with one, everything is done.
   */
  lemma RunsAskedFor(cfg: Flush.Config, c: Flush.Comb, mask: set<Reg>)
    requires cfg.limit >= 1
    ensures c.adj == 0 && !Flush.Pretends(cfg, c) ==> AllMeet(Flush.PlanFor(cfg, c, mask).list, mask)
    ensures c.adj != 0 || Flush.Pretends(cfg, c) ==> Flush.PlanFor(cfg, c, mask) == Flush.PlanFor(cfg, c, Flush.ALL)
  {
    hide PlanFrom, Flush.Pretends, AllMeet;
    assert AllMeet([], mask) by { NoneMeet(mask); }
    SeedsFrom(c.q, mask, c.base, c.adj, cfg.limit, 0, [], false);
  }

  lemma NoneMeet(mask: set<Reg>)
    ensures AllMeet([], mask)
  {
  }

  // ---- a pretended writeback ----

  /** x and s are queued, and nothing between them. */
  predicate Adjacent(q: Queue, x: Reg, s: Reg) { x < s && x in q && s in q && forall y: Reg :: x < y < s ==> y !in q }

  predicate Opposite(a: int, b: int) { (a < 0 && b > 0) || (a > 0 && b < 0) }

  lemma {:induction false} Hopeless(q: Queue, r: nat, last: int)
    requires r <= 16
    ensures Flush.Pretended(q, r, last, false) == None
    decreases 16 - r
  {
    if r < 16 {
      Hopeless(q, r + 1, last);
      if r in q { Hopeless(q, r + 1, q[r]); }
    }
  }

  /** From register r on, no offset has the other sign than that of the queued register before it. */
  ghost predicate NoFlip(q: Queue, r: nat)
  {
    forall x: Reg, s: Reg :: r <= s && Adjacent(q, x, s) ==> !Opposite(q[x], q[s])
  }

  /** p is the last queued register below r, if there is one. */
  ghost predicate LastBelow(q: Queue, r: nat, p: Option<Reg>)
  {
    match p
    case None => forall y: Reg :: y < r ==> y !in q
    case Some(x) => x < r && x in q && forall y: Reg :: x < y < r ==> y !in q
  }

  lemma NoFlipStep(q: Queue, r: Reg, p: Option<Reg>)
    requires LastBelow(q, r, p)
    ensures NoFlip(q, r) <==> NoFlip(q, r + 1) && (r in q && p.Some? ==> !Opposite(q[p.value], q[r]))
    ensures LastBelow(q, r + 1, if r in q then Some(r) else p)
  {
    if r in q && p.Some? { assert Adjacent(q, p.value, r); }
    assert forall x: Reg :: Adjacent(q, x, r) ==> p == Some(x);
  }

  lemma {:induction false} PretendedFrom(q: Queue, r: nat, last: int, p: Option<Reg>) returns (top: Option<Reg>)
    requires r <= 16 && LastBelow(q, r, p) && last == if p.Some? then q[p.value] else 0
    ensures var f := Flush.Pretended(q, r, last, true);
            && (f.Some? <==> NoFlip(q, r)) && LastBelow(q, 16, top)
            && (f.Some? ==> f.value == if top.Some? then q[top.value] else 0)
    decreases 16 - r
  {
    hide NoFlip, LastBelow;
    if r == 16 {
      top := p;
      NoneLeft(q);
    } else {
      NoFlipStep(q, r, p);
      InQueue(q, r, p);
      top := PretendedFrom(q, r + 1, if r in q then q[r] else last, if r in q then Some(r) else p);
      if r in q && p.Some? && Opposite(last, q[r]) { Hopeless(q, r + 1, last); }
    }
  }

  lemma InQueue(q: Queue, r: nat, p: Option<Reg>)
    requires LastBelow(q, r, p)
    ensures p.Some? ==> p.value in q
  {
  }

  lemma NoneLeft(q: Queue)
    ensures NoFlip(q, 16)
  {
  }

  /**
   A writeback is pretended exactly if no offset has the other sign than that of the queued
   register before it; it is the offset of the last one.
   */
  lemma PretendedIff(q: Queue)
    ensures var f := Flush.Pretended(q);
            && (f.Some? <==> forall x: Reg, s: Reg :: Adjacent(q, x, s) ==> !Opposite(q[x], q[s]))
            && (f.Some? ==> forall s: Reg :: s in q && (forall y: Reg :: y in q ==> y <= s) ==> f.value == q[s])
  {
    var top := PretendedFrom(q, 0, 0, None);
  }

  /**
   The adjustment a flush starts with is pretended only where none is pending, the base is dead and
   not itself to be loaded, and variables need not be kept for a debugger.
   */
  lemma StartIff(cfg: Flush.Config, c: Flush.Comb)
    ensures Flush.Pretends(cfg, c) <==>
              && c.adj == 0 && c.baseDead && c.base !in c.q && !cfg.debugVars
              && forall x: Reg, s: Reg :: Adjacent(c.q, x, s) ==> !Opposite(c.q[x], c.q[s])
    ensures !Flush.Pretends(cfg, c) ==> Flush.StartAdj(cfg, c) == c.adj
    ensures Flush.Pretends(cfg, c) ==>
              forall s: Reg :: s in c.q && (forall y: Reg :: y in c.q ==> y <= s) ==> Flush.StartAdj(cfg, c) == c.q[s]
  {
    hide Flush.Pretended;
    PretendedIff(c.q);
  }
}
