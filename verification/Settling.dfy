/**
 What is settled when an event has been shown, and what is left pending (ldm_c_flush and the
 stack-pointer cases of J_ADDK in arm/gen.c).
 */
module Settling {
  import opened Words
  import opened Arm
  import opened KnownValues
  import opened Transfers
  import opened Combiner
  import opened CombinerPlan
  import opened Flush
  import opened Combining
  import LoadConstant

  /**
   Any other instruction finds the registers it uses as the program has them, however much is
   still held back.
   */
  lemma UseReady(cfg: Config, enabled: bool, c: Comb, regs: set<Reg>, d: set<Reg>, v: State, st: State, r: Reg)
    requires Inv(cfg, enabled, c, d) && Stands(c, d, v, st) && cfg.limit >= 1
    requires !Faults(cfg, enabled, c, Use(regs)) && r in regs && r !in d
    ensures Run(Step(cfg, enabled, c, Use(regs)).code, st).regs[r] == v.regs[r]
    ensures var after := Step(cfg, enabled, c, Use(regs)).after;
            after.pending ==> after.base !in regs && after.q.Keys !! regs
  {
    hide Run, FlushR, FlushFaults, Good, Agrees, Addr, StoreAll, Read, CFlush, Inv;
    UseStep(cfg, enabled, c, regs, d, v, st);
    UseSettles(CFlush(cfg, c, regs).after, Use(regs));
  }

  /** What does not touch the queue leaves it as it is, and emits nothing for it. */
  lemma UntouchedStays(cfg: Config, enabled: bool, c: Comb, regs: set<Reg>)
    requires c.base !in regs && c.q.Keys !! regs
    ensures Step(cfg, enabled, c, Use(regs)) == Flushed([], c)
  {
    UseSettles(c, Use(regs));
    assert c.q.Keys * regs == {};
  }

  /**
   When the stack pointer goes up no load stays behind, and when it goes down no store, unless
   the addition joins a queue of the stack pointer's own.
   */
  lemma FarSideDone(cfg: Config, enabled: bool, c: Comb, k: int, d: set<Reg>)
    requires Inv(cfg, enabled, c, d)
    ensures var after := Step(cfg, enabled, c, Add(SP, k)).after;
            || (c.pending && c.base == SP && k <= 0xfff && after.adj == c.adj + k && after.q == c.q)
            || (after.pending ==>
                  (k > 0 ==> !after.load) && (k < 0 ==> after.load) && after.base != SP && SP !in after.q)
  {
    hide FlushR, Good, MoveBy;
    if !c.pending { NothingToFlush(cfg, c); }
    if c.pending && !Defers(c, SP, k) {
      if StackFlush(c, SP, k) {
        FlushAllEnds(cfg, c, false);
      } else {
        CFlushShape(cfg, enabled, c, {SP}, d);
      }
    }
  }

  lemma NothingToFlush(cfg: Config, c: Comb)
    requires !c.pending
    ensures FlushR(cfg, c, ALL, false) == Flushed([], c)
  {
  }

  lemma CFlushShape(cfg: Config, enabled: bool, c: Comb, regs: set<Reg>, d: set<Reg>)
    requires Inv(cfg, enabled, c, d)
    ensures var after := CFlush(cfg, c, regs).after;
            after.pending ==> after.load == c.load && after.base !in regs && after.q.Keys !! regs
  {
    hide FlushR, Good;
    if c.pending {
      if c.base in regs {
        FlushAllEnds(cfg, c, false);
      } else if c.q.Keys * regs != {} {
        FlushShape(cfg, c, regs, false);
      } else {
        Disjoint(c.q.Keys, regs);
      }
    }
  }

  /** What may stay on its side of the stack pointer does stay, and the addition is all that is emitted. */
  lemma NearSideStays(cfg: Config, enabled: bool, c: Comb, k: int)
    requires c.pending && c.base != SP && SP !in c.q && (k < 0 ==> c.load) && (k > 0 ==> !c.load)
    ensures var f := Step(cfg, enabled, c, Add(SP, k));
            && f.code == MoveBy(SP, SP, k, c.known)
            && f.after == c.(spare := c.spare - {SP}, known := Forget(c.known, {SP}))
  {
    hide MoveBy, FlushR;
    assert c.q.Keys * {SP} == {};
    var code := MoveBy(SP, SP, k, c.known);
    assert [] + code == code;
  }

  /**
   An access through the base of a queue of its kind is held back, unless it loads the base or
   stores a register that is still to be stored elsewhere; nothing is emitted for it.
   */
  lemma QueuedSilently(cfg: Config, c: Comb, a: Access)
    requires c.pending && c.load == a.load && c.base == a.rn && a.rd != a.rn && c.base !in c.q
    requires a.load || a.rd !in c.q || c.q[a.rd] == c.adj + if a.index.PostIndex? then 0 else a.off
    ensures var f := OutInstr(cfg, true, c, a);
            var off := c.adj + if a.index.PostIndex? then 0 else a.off;
            && f.code == [] && f.after.pending && f.after.base == c.base && f.after.load == c.load
            && f.after.adj == c.adj + (if a.index.Offset? then 0 else a.off)
            && a.rd in f.after.q && f.after.q[a.rd] == off
            && (forall r: Reg :: r in f.after.q && r != a.rd ==> r in c.q && f.after.q[r] == c.q[r])
            && (forall r: Reg :: r in c.q && (a.load || c.q[r] != off) ==> r in f.after.q)
            && f.after.known == c.known && f.after.baseDead == a.dead2
            && f.after.dead == c.dead + (if a.dead1 then {a.rd} else {})
            && f.after.spare == c.spare + if a.load then {a.rd} else {}
  {
    hide Discard;
    DiscardOf(c.q, OffsetOf(c, a), 0);
  }

  /** With nothing held back the access starts a queue of its own, unless its register is the base. */
  lemma StartsQueue(cfg: Config, c: Comb, a: Access)
    requires !c.pending && a.rd != a.rn
    ensures var f := OutInstr(cfg, true, c, a);
            && f.code == [] && f.after.pending && f.after.base == a.rn && f.after.load == a.load
            && f.after.q == map[a.rd := if a.index.PostIndex? then 0 else a.off]
            && f.after.adj == (if a.index.Offset? then 0 else a.off)
            && f.after.known == c.known && f.after.baseDead == a.dead2
            && f.after.dead == (if a.dead1 then {a.rd} else {})
            && f.after.spare == c.spare + if a.load then {a.rd} else {}
  {
    hide Discard;
    DiscardOf(map[], OffsetOf(Fresh(c, a), a), 0);
  }

  /** An access that cannot be held back is done at once, and just its two registers are forgotten. */
  lemma DoneAtOnce(cfg: Config, enabled: bool, c: Comb, a: Access)
    requires !c.pending && (!enabled || a.rd == a.rn)
    ensures var f := OutInstr(cfg, enabled, c, a);
            && f.code == [Transfer(a.load, a.rd, a.rn, a.off, a.index)]
            && forall r: Reg :: f.after.known[r] == if r == a.rd || r == a.rn then None else c.known[r]
  {
  }

  /** A constant that has been loaded is recorded; nothing else is learnt. */
  lemma SetRecorded(cfg: Config, enabled: bool, c: Comb, r: Reg, n: Word)
    ensures var f, before := Step(cfg, enabled, c, Set(r, n)), CFlush(cfg, c, {r}).after;
            f.after.known[r] == Some(n) && forall x: Reg :: x != r ==> f.after.known[x] == before.known[x]
  {
    hide CFlush, LoadConstant.LoadCode;
  }

  /** When more accesses through the base are to come, what is left of its adjustment is not added yet. */
  lemma MoreToCome(cfg: Config, c: Comb, mask: set<Reg>)
    requires c.pending
    ensures var f, g := FlushR(cfg, c, mask, true), FlushR(cfg, c, mask, false);
            && f.code == EmittedBy(cfg, c, mask).code && f.after.adj == EmittedBy(cfg, c, mask).adj
            && (g.code == f.code || g.code == f.code + MoveBy(c.base, c.base, f.after.adj, f.after.known))
  {
    hide EmittedBy, PlanFor, MoveBy;
  }

  /** An addition to the base of what is held back joins it, up to 4095 at a time; any other is emitted. */
  lemma AdditionJoins(cfg: Config, enabled: bool, c: Comb, r: Reg, k: int)
    ensures var f := Step(cfg, enabled, c, Add(r, k));
            if c.pending && r == c.base && k <= 4095 then
              f.code == [] && f.after.pending && f.after.q == c.q && f.after.adj == c.adj + k
            else exists before, known :: f.code == before + MoveBy(r, r, k, known)
  {
    hide MoveBy, FlushR, CFlush;
    if !Defers(c, r, k) {
      var f := SettleFor(cfg, c, r, k);
      assert Step(cfg, enabled, c, Add(r, k)).code == f.code + MoveBy(r, r, k, f.after.known);
    }
  }

  // ---- what stays known ----

  lemma {:induction false} KnownElsewhere(k: Kind, list: seq<Saved>, adj: int, done: int, spare: set<Reg>,
          dead: set<Reg>, baseDead: bool, known: Known, r: Reg)
    requires if k.load then r !in Covered(list) else r !in spare + dead
    ensures GenerateAll(k, list, adj, done, spare, dead, baseDead, known).known[r] == known[r]
  {
    hide Generate, MoveOf, SpareAfter;
    if |list| > 0 {
      var adj0 := AdjFor(list, adj, baseDead);
      var o := Generate(k, list[0], NextStart(list), adj0, done, spare, known);
      var after := KnownAfter(k, list[0], adj0, done, spare, known);
      ClaimsSpare(k, list[0], adj0, done, spare);
      MoreSpare(k, list[0].regs, spare, dead);
      KnownElsewhere(k, list[1..], o.adj, o.done, SpareAfter(k, list[0].regs, spare, dead), dead, baseDead, after, r);
    }
  }

  lemma ClaimsSpare(k: Kind, p: Saved, adj: int, done: int, spare: set<Reg>)
    ensures var m := MoveOf(k, p, adj, done, spare); m.Moves? && m.claims ==> m.b in spare
  {
    hide Elsewhere, ShapeOf;
  }

  lemma MoreSpare(k: Kind, s: set<Reg>, spare: set<Reg>, dead: set<Reg>)
    ensures !k.load ==> SpareAfter(k, s, spare, dead) <= spare + dead
  {
  }

  /** A flush forgets no register but the base, those it loads and, for stores, spare and dying ones. */
  lemma FlushRemembers(cfg: Config, c: Comb, mask: set<Reg>, more: bool, r: Reg)
    requires c.pending && Good(cfg, c) && r != c.base && (c.base in c.q ==> c.q.Keys <= mask)
    requires if c.load then r !in c.q.Keys - FlushR(cfg, c, mask, more).after.q.Keys else r !in c.spare + c.dead
    ensures FlushR(cfg, c, mask, more).after.known[r] == c.known[r]
  {
    hide PlanFor, GenerateAll, MoveBy, FlushR, Planned, StartAdj, Good, Covered;
    var list, rest := PlanFor(cfg, c, mask).list, PlanFor(cfg, c, mask).rest;
    FlushStart(cfg, c, mask);
    FlushQueue(cfg, c, mask, more);
    CacheIs(cfg, c, mask, more);
    assert FlushR(cfg, c, mask, more).after.q.Keys == rest.Keys;
    InPlan(KindOf(cfg, c), c.q, list);
    KnownElsewhere(KindOf(cfg, c), list, StartAdj(cfg, c), 0, c.spare, c.dead, c.baseDead, c.known, r);
  }

  /** The base is forgotten exactly if its movement was recorded, or it has been loaded. */
  lemma BaseForgotten(cfg: Config, c: Comb, mask: set<Reg>, more: bool)
    requires c.pending && Good(cfg, c) && c.base !in c.q && c.base !in c.spare + c.dead
    ensures FlushR(cfg, c, mask, more).after.known[c.base]
            == if EmittedBy(cfg, c, mask).done != 0 then None else c.known[c.base]
  {
    hide PlanFor, GenerateAll, MoveBy, FlushR, Planned, StartAdj, Good, Covered;
    var list := PlanFor(cfg, c, mask).list;
    FlushStart(cfg, c, mask);
    CacheIs(cfg, c, mask, more);
    InPlan(KindOf(cfg, c), c.q, list);
    KnownElsewhere(KindOf(cfg, c), list, StartAdj(cfg, c), 0, c.spare, c.dead, c.baseDead, c.known, c.base);
  }
}
