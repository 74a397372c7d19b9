/**
 Feeding the combiner (ldm_addregoff, ldm_outinstr, ldm_c_flush and the cases of
 show_inst_direct for word accesses, J_ADDK and J_MOVK in arm/gen.c): a whole run of
 accesses, additions to registers, loads of constants and flushes has the effect of the
 same events in program order, and keeps the cache of register values in step.
 */
module Combining {
  import opened Words
  import opened Arm
  import opened Immediates
  import opened KnownValues
  import opened AddConstant
  import LoadConstant
  import opened Transfers
  import opened Combiner
  import opened CombinerPlan
  import opened Traces
  import opened Flush
  import opened FlushExact

  /** A word LDR or STR with its dead-register bits (J_DEAD_R1, J_DEAD_R2). */
  datatype Access = Access(load: bool, rd: Reg, rn: Reg, off: int, index: Index, dead1: bool, dead2: bool)

  /** Writeback to the transferred register is unpredictable; R15 is never base or destination. */
  predicate WellFormed(a: Access)
  {
    a.rn != PC && a.rd != PC && (a.index != Offset ==> a.rd != a.rn) && a.off % 4 == 0 && -0xfff <= a.off <= 0xfff
  }

  function InstrOf(a: Access): Instr { Transfer(a.load, a.rd, a.rn, a.off, a.index) }

  /** The offset at which the access happens, from the base as it is in the machine. */
  function OffsetOf(c: Comb, a: Access): int { if a.index.PostIndex? then c.adj else c.adj + a.off }

  function AdjAfter(c: Comb, a: Access): int { if a.index.Offset? then c.adj else c.adj + a.off }

  /** Drop the first pending store to the offset, if any. */
  function Discard(q: Queue, off: int, r: nat := 0): Queue
    requires r <= 16
    decreases 16 - r
  {
    if r == 16 then q
    else if r in q && q[r] == off then q - {r as Reg}
    else Discard(q, off, r + 1)
  }

  predicate Accepts(c: Comb, a: Access)
  {
    && ((a.rd == c.base || c.base in c.q) ==> AdjAfter(c, a) == 0)
    && (a.rd in c.q && !c.load ==> c.q[a.rd] == OffsetOf(c, a))
  }

  /** The queue with the access added. */
  function Queued(c: Comb, a: Access): Comb
  {
    var off := OffsetOf(c, a);
    var q := if a.rd !in c.q && !c.load then Discard(c.q, off) else c.q;
    c.(q := q[a.rd := off], adj := AdjAfter(c, a), baseDead := a.dead2,
       dead := if a.dead1 then c.dead + {a.rd} else c.dead,
       spare := if c.load && c.base != a.rd then c.spare + {a.rd} else c.spare)
  }

  /** A store that was discarded has left its register marked dead, and now it is stored alive. */
  predicate Stale(c: Comb, a: Access) { !a.load && a.rd in c.dead && !a.dead1 }

  /** ldm_addregoff, when it does not refuse. */
  function AddRegOff(cfg: Config, c: Comb, a: Access): Flushed
    requires Accepts(c, a)
  {
    if a.rd == c.base then FlushR(cfg, Queued(c, a), ALL, false) else Flushed([], Queued(c, a))
  }

  /** The state in which the access is tried again after a refusal. */
  function Retry(cfg: Config, c: Comb): Comb
  {
    FlushR(cfg, c, ALL, true).after.(pending := true, q := map[], dead := {})
  }

  function Fresh(c: Comb, a: Access): Comb
  {
    c.(pending := true, load := a.load, base := a.rn, q := map[], dead := {}, adj := 0)
  }

  /** Nothing is known any more of the registers of s. */
  function Killed(c: Comb, s: set<Reg>): Comb { c.(known := Forget(c.known, s)) }

  /** A base that the access moves is forgotten before anything else is done (adjustipvalue). */
  function Adjusted(c: Comb, a: Access): Comb { if a.index.Offset? then c else Killed(c, {a.rn}) }

  /** Then it is not recorded. */
  predicate Ready(c: Comb, a: Access) { a.index.Offset? || c.known[a.rn].None? }

  /** The part of ldm_outinstr reached with nothing pending. */
  function StartAccess(cfg: Config, enabled: bool, c: Comb, a: Access): Flushed
  {
    if !enabled || a.rn == a.rd then Flushed([InstrOf(a)], Killed(c, {a.rd, a.rn}))
    else AddRegOff(cfg, Fresh(c, a), a)
  }

  predicate Switches(enabled: bool, c: Comb, a: Access)
  {
    !enabled || c.load != a.load || c.base != a.rn || (a.rd == a.rn && !a.load)
  }

  /** ldm_outinstr; the result of the second ldm_addregoff is ignored by the caller. */
  function OutInstr(cfg: Config, enabled: bool, c: Comb, a: Access): Flushed
  {
    if !c.pending then StartAccess(cfg, enabled, c, a)
    else if Switches(enabled, c, a) then
      var f := FlushR(cfg, c, ALL, false);
      var o := StartAccess(cfg, enabled, f.after, a);
      Flushed(f.code + o.code, o.after)
    else if Accepts(c, a) then AddRegOff(cfg, c, a)
    else
      var f, c2 := FlushR(cfg, c, ALL, true), Retry(cfg, c);
      if Accepts(c2, a) then
        var o := AddRegOff(cfg, c2, a);
        Flushed(f.code + o.code, o.after)
      else Flushed(f.code, c2)
  }

  /** ldm_c_flush, for instructions that use `regs` and are not conditional. */
  function CFlush(cfg: Config, c: Comb, regs: set<Reg>): Flushed
  {
    if !c.pending then Flushed([], c)
    else if c.base in regs then FlushR(cfg, c, ALL, false)
    else if c.q.Keys * regs != {} then FlushR(cfg, c, regs, false)
    else Flushed([], c)
  }

  predicate Defers(c: Comb, r: Reg, k: int) { c.pending && r == c.base && k <= 0xfff }

  /** When the stack pointer moves, transfers on the far side of it are done first. */
  predicate StackFlush(c: Comb, r: Reg, k: int)
  {
    r == SP && ((k < 0 && !(c.pending && c.load)) || (k > 0 && !(c.pending && !c.load)))
  }

  /** J_ADDK with one register: r = r + k. */
  function AddK(cfg: Config, c: Comb, r: Reg, k: int): Flushed
  {
    if Defers(c, r, k) then Flushed([], c.(adj := c.adj + k))
    else
      var f := SettleFor(cfg, c, r, k);
      Flushed(f.code + MoveBy(r, r, k, f.after.known), f.after)
  }

  /** The flush made before an addition that is not deferred. */
  function SettleFor(cfg: Config, c: Comb, r: Reg, k: int): Flushed
  {
    if StackFlush(c, r, k) then FlushR(cfg, c, ALL, false) else CFlush(cfg, c, {r})
  }

  /** J_MOVK: r = n, which is then recorded. */
  function MovK(cfg: Config, c: Comb, r: Reg, n: Word): Flushed
  {
    var f := CFlush(cfg, c, {r});
    Flushed(f.code + LoadConstant.LoadCode(r, n, false, f.after.known), f.after.(known := f.after.known[r := Some(n)]))
  }

  // ---- the program's own order ----

  datatype Event = Do(a: Access) | Add(r: Reg, k: int) | Set(r: Reg, n: Word) | Use(regs: set<Reg>)

  /** What an event means to the program; Use stands for any instruction that needs `regs` settled. */
  function Meaning(e: Event, st: State): State
  {
    match e
    case Do(a) => Exec(InstrOf(a), st)
    case Add(r, k) => With(st, r, Addr(st.regs[r], k))
    case Set(r, n) => With(st, r, n)
    case Use(_) => st
  }

  /** The registers that an event writes at once. */
  function Written(e: Event): set<Reg>
  {
    match e
    case Do(_) => {}
    case Add(r, _) => {r}
    case Set(r, _) => {r}
    case Use(_) => {}
  }

  /**
   UpdateRegisters: registers written are no longer spare, and nothing is known of them, unless
   just recorded.  After a word access, which may be held back, it does nothing (RU_NONE).
   */
  function Settled(c: Comb, e: Event): Comb
  {
    var less := c.(spare := c.spare - Written(e));
    if e.Do? then c else if e.Set? then less else Killed(less, Written(e))
  }

  /** The case of show_inst_direct for the event. */
  function Shown(cfg: Config, enabled: bool, c: Comb, e: Event): Flushed
  {
    match e
    case Do(a) => OutInstr(cfg, enabled, Adjusted(c, a), a)
    case Add(r, k) => AddK(cfg, c, r, k)
    case Set(r, n) => MovK(cfg, c, r, n)
    case Use(regs) => CFlush(cfg, c, regs)
  }

  function Step(cfg: Config, enabled: bool, c: Comb, e: Event): Flushed
  {
    var f := Shown(cfg, enabled, c, e);
    Flushed(f.code, Settled(f.after, e))
  }

  /** The registers whose value the program no longer needs. */
  function DeadAfter(e: Event, d: set<Reg>): set<Reg>
  {
    match e
    case Do(a) =>
      (d + (if a.dead2 then {a.rn} else {}) - (if a.load then {a.rd} else {})) + (if a.dead1 then {a.rd} else {})
    case Add(_, _) => d
    case Set(r, _) => d - {r}
    case Use(_) => d
  }

  /** The program does not read what it has declared dead, and keeps to words. */
  predicate Allowed(e: Event, d: set<Reg>)
  {
    match e
    case Do(a) => WellFormed(a) && a.rn !in d && (!a.load ==> a.rd !in d)
    case Add(r, k) => r !in d && k % 4 == 0
    case Set(_, _) => true
    case Use(_) => true
  }

  // ---- the invariant between events ----

  ghost predicate Inv(cfg: Config, enabled: bool, c: Comb, d: set<Reg>)
  {
    if c.pending then
      && enabled
      && Good(cfg, c) && c.base !in c.q
      && (c.baseDead ==> c.base in d)
      && (if c.load then c.spare <= d + c.q.Keys else c.spare <= d && c.dead * c.q.Keys <= d)
    else enabled ==> c.spare <= d
  }

  /** The machine is in step with the cache, and with the queue stands for the program's state. */
  ghost predicate Stands(c: Comb, d: set<Reg>, v: State, st: State)
  {
    Agrees(c.known, st.regs) && Same(d, v, Seen(c, st))
  }

  /** What the program sees of the machine. */
  function Seen(c: Comb, st: State): State { if c.pending then Held(c, st) else st }

  // ---- one access accepted ----

  lemma {:induction false} DiscardOf(q: Queue, off: int, r: nat)
    requires r <= 16
    ensures var p := Discard(q, off, r);
            && (forall x: Reg :: x in p ==> x in q && p[x] == q[x])
            && (forall x: Reg :: x in q && (x < r || q[x] != off) ==> x in p)
            && (Apart(q) ==> forall x: Reg :: x in p && x >= r ==> p[x] != off)
    decreases 16 - r
  {
    if r < 16 && !(r in q && q[r] == off) { DiscardOf(q, off, r + 1); }
  }

  /** A store to an address replaces whatever store to it was pending. */
  lemma StoreReplace(q: Queue, p: Queue, r: Reg, off: int, b: Word, regs: Regs, mem: Mem)
    requires Apart(q) && (forall x: Reg :: x in p ==> x in q && p[x] == q[x])
    requires forall x: Reg :: x in q && (x !in p || x == r) ==> Wrap(q[x]) == Wrap(off)
    requires forall x: Reg :: x in p && x != r ==> Wrap(p[x]) != Wrap(off)
    ensures Apart(p[r := off])
    ensures StoreAll(p[r := off], b, regs, mem) == Write(StoreAll(q, b, regs, mem), Addr(b, off), regs[r])
  {
    hide StoreAll, Addr, Wrap, Stored;
    var m := StoreAll(q, b, regs, mem);
    StoresStored(q, b, regs, mem);
    StoresStored(p[r := off], b, regs, mem);
    ReplaceStored(q, p, r, off, b, regs, mem, m);
    StoredUnique(p[r := off], b, regs, mem, StoreAll(p[r := off], b, regs, mem), Write(m, Addr(b, off), regs[r]));
  }

  lemma SameAddr(b: Word, i: int, j: int)
    requires Wrap(i) == Wrap(j)
    ensures Addr(b, i) == Addr(b, j)
  {
    AddrOfWrap(b, i);
    AddrOfWrap(b, j);
  }

  lemma ReplaceStored(q: Queue, p: Queue, r: Reg, off: int, b: Word, regs: Regs, mem: Mem, m: Mem)
    requires Stored(q, b, regs, mem, m) && (forall x: Reg :: x in p ==> x in q && p[x] == q[x])
    requires forall x: Reg :: x in q && (x !in p || x == r) ==> Wrap(q[x]) == Wrap(off)
    requires forall x: Reg :: x in p && x != r ==> Wrap(p[x]) != Wrap(off)
    ensures Stored(p[r := off], b, regs, mem, Write(m, Addr(b, off), regs[r]))
  {
    hide Addr, Wrap;
    var more, m2 := p[r := off], Write(m, Addr(b, off), regs[r]);
    forall x: Reg | x in more ensures Addr(b, more[x]) in m2 && m2[Addr(b, more[x])] == regs[x] {
      if x != r { AddrDiffers(b, p[x], off); }
    }
    forall a: Word | Untouched(more, b, a) ensures (a in m2 <==> a in mem) && (a in m2 ==> m2[a] == mem[a]) {
      assert Addr(b, more[r]) != a;
      forall x: Reg | x in q ensures Addr(b, q[x]) != a {
        if x !in p || x == r { SameAddr(b, q[x], off); } else { assert Addr(b, more[x]) != a; }
      }
      assert Untouched(q, b, a);
    }
  }

  /** Numbers well inside the address space that differ, differ as words. */
  lemma Distinct(i: int, j: int)
    requires -TOP < i < TOP && -TOP < j < TOP && i != j
    ensures Wrap(i) != Wrap(j)
  {
  }

  ghost predicate InReach(c: Comb)
  {
    -TOP < c.adj < TOP && forall r: Reg :: r in c.q ==> -TOP < c.q[r] < TOP
  }

  /** An access seen from the pending adjustment. */
  lemma AccessAt(c: Comb, a: Access, b: Word)
    ensures Addr(Addr(b, c.adj), if a.index.PostIndex? then 0 else a.off) == Addr(b, OffsetOf(c, a))
    ensures Addr(Addr(b, c.adj), if a.index.Offset? then 0 else a.off) == Addr(b, AdjAfter(c, a))
  {
    hide Addr;
    AddrAddr(b, c.adj, c.adj + a.off - c.adj);
    AddrAddr(b, c.adj, a.off);
    AddrZero(Addr(b, c.adj));
  }

  lemma AcceptedStore(cfg: Config, c: Comb, a: Access, st: State)
    requires !c.load && !a.load && c.base == a.rn && a.rd != a.rn
    requires Apart(c.q) && c.base !in c.q && Accepts(c, a) && InReach(c) && InReach(Queued(c, a))
    ensures Apart(Queued(c, a).q) && c.base !in Queued(c, a).q
    ensures Exec(InstrOf(a), Held(c, st)) == Held(Queued(c, a), st)
  {
    hide StoreAll, Addr, Apart, Discard, ExecData, ExecBlock;
    var b, off := st.regs[c.base], OffsetOf(c, a);
    var p := if a.rd !in c.q then Discard(c.q, off) else c.q;
    DiscardOf(c.q, off, 0);
    assert Queued(c, a).q[a.rd] == off;
    Replaces(c.q, p, a.rd, off);
    StoreReplace(c.q, p, a.rd, off, b, st.regs, st.mem);
    AccessAt(c, a, b);
    AddrZero(Addr(b, c.adj));
  }

  lemma Replaces(q: Queue, p: Queue, r: Reg, off: int)
    requires Apart(q) && -TOP < off < TOP && forall x: Reg :: x in q ==> -TOP < q[x] < TOP
    requires if r in q then p == q && q[r] == off else
               && (forall x: Reg :: x in p ==> x in q && p[x] == q[x] && p[x] != off)
               && (forall x: Reg :: x in q && q[x] != off ==> x in p)
    ensures forall x: Reg :: x in q && (x !in p || x == r) ==> Wrap(q[x]) == Wrap(off)
    ensures forall x: Reg :: x in p && x != r ==> Wrap(p[x]) != Wrap(off)
  {
    hide Wrap;
    forall x: Reg | x in p && x != r ensures Wrap(p[x]) != Wrap(off) {
      if r !in q { Distinct(p[x], off); }
    }
  }

  lemma AcceptedLoad(cfg: Config, c: Comb, a: Access, st: State)
    requires c.load && a.load && c.base == a.rn && WellFormed(a) && c.base !in c.q && Accepts(c, a)
    ensures Exec(InstrOf(a), Held(c, st)) == Held(Queued(c, a), st)
  {
    hide Addr, Read, ExecData, ExecBlock;
    var b := st.regs[c.base];
    AccessAt(c, a, b);
    AddrZero(Addr(b, c.adj));
    var v, w := Exec(InstrOf(a), Held(c, st)), Held(Queued(c, a), st);
    forall r: Reg ensures v.regs[r] == w.regs[r] {}
  }

  lemma SameAccess(d: set<Reg>, a: Access, v: State, w: State)
    requires Same(d, v, w) && Allowed(Do(a), d)
    ensures Same(DeadAfter(Do(a), d), Exec(InstrOf(a), v), Exec(InstrOf(a), w))
  {
    hide Addr, Read, ExecData, ExecBlock;
  }

  /** The invariant after an access of another register has been queued. */
  lemma QueuedInv(cfg: Config, enabled: bool, c: Comb, a: Access, d: set<Reg>)
    requires c.pending && Inv(cfg, enabled, c, d) && !Switches(enabled, c, a) && Accepts(c, a) && a.rd != a.rn
    requires Allowed(Do(a), d) && (!c.load ==> Apart(Queued(c, a).q)) && !Stale(c, a)
    requires Ready(c, a)
    ensures Inv(cfg, enabled, Queued(c, a), DeadAfter(Do(a), d))
  {
    hide Apart, Discard;
    var off := OffsetOf(c, a);
    DiscardOf(c.q, off, 0);
    var c' := Queued(c, a);
    assert c'.q.Keys <= c.q.Keys + {a.rd};
    forall r: Reg | r in c'.q ensures c'.q[r] % 4 == 0 {}
  }

  /** The registers that a flush will free are dead, exactly when no mark is left from a discarded store. */
  lemma MarksIff(cfg: Config, enabled: bool, c: Comb, a: Access, d: set<Reg>)
    requires c.pending && Inv(cfg, enabled, c, d) && !Switches(enabled, c, a) && Accepts(c, a) && Allowed(Do(a), d)
    requires !a.load
    ensures Queued(c, a).dead * Queued(c, a).q.Keys <= DeadAfter(Do(a), d) <==> !Stale(c, a)
  {
    hide Apart, Discard, Good;
    var c', d' := Queued(c, a), DeadAfter(Do(a), d);
    DiscardOf(c.q, OffsetOf(c, a), 0);
    if Stale(c, a) {
      assert a.rd in c'.dead * c'.q.Keys && a.rd !in d';
    } else {
      forall r: Reg | r in c'.dead * c'.q.Keys ensures r in d' {
        if r != a.rd { assert r in c.dead * c.q.Keys; }
      }
    }
  }

  lemma AcceptStep(cfg: Config, enabled: bool, c: Comb, a: Access, d: set<Reg>, v: State, st: State)
    requires c.pending && Inv(cfg, enabled, c, d) && Stands(c, d, v, st)
    requires !Switches(enabled, c, a) && Accepts(c, a) && a.rd != a.rn
    requires Allowed(Do(a), d) && InReach(c) && InReach(Queued(c, a)) && !Stale(c, a)
    requires Ready(c, a)
    ensures var c', d' := Queued(c, a), DeadAfter(Do(a), d);
            Inv(cfg, enabled, c', d') && Stands(c', d', Exec(InstrOf(a), v), st)
  {
    hide Held, Exec, Apart, Queued, Same, Good, DeadAfter, Agrees;
    InvStore(cfg, enabled, c, d);
    SameAccess(d, a, v, Held(c, st));
    if c.load {
      AcceptedLoad(cfg, c, a, st);
    } else {
      AcceptedStore(cfg, c, a, st);
    }
    QueuedInv(cfg, enabled, c, a, d);
    QueuedPending(c, a);
  }

  lemma QueuedPending(c: Comb, a: Access)
    ensures Queued(c, a).pending == c.pending && Queued(c, a).known == c.known
  {
  }

  /** Settling forgets, and changes nothing else that the machine stands for. */
  lemma SettledSeen(c: Comb, e: Event, st: State)
    requires Agrees(c.known, st.regs)
    ensures Agrees(Settled(c, e).known, st.regs) && Seen(Settled(c, e), st) == Seen(c, st)
    ensures Settled(c, e).pending == c.pending
  {
    hide Held;
    HeldSame(c, Settled(c, e), st);
  }

  lemma HeldSame(c: Comb, c': Comb, st: State)
    requires c.load == c'.load && c.base == c'.base && c.q == c'.q && c.adj == c'.adj
    ensures Held(c, st) == Held(c', st)
  {
    hide View;
  }

  lemma InvStore(cfg: Config, enabled: bool, c: Comb, d: set<Reg>)
    requires c.pending && Inv(cfg, enabled, c, d)
    ensures c.base !in c.q && (!c.load ==> Apart(c.q))
  {
    hide Apart;
  }

  // ---- flushing between events ----

  /** A flush for which the base is no longer needed leaves nothing to add to it. */
  lemma FlushAdjustment(cfg: Config, c: Comb, mask: set<Reg>)
    requires c.pending
    ensures var f := FlushR(cfg, c, mask, false); f.after.pending || f.after.adj == 0 || c.baseDead
  {
    hide PlanFor, EmittedBy;
  }

  /** The registers after a flush: what is spare, and what is still queued. */
  lemma FlushShape(cfg: Config, c: Comb, mask: set<Reg>, more: bool)
    requires c.pending && Good(cfg, c) && (c.base in c.q ==> c.q.Keys <= mask)
    ensures var after := FlushR(cfg, c, mask, more).after;
            && after.base == c.base && after.load == c.load && after.baseDead == c.baseDead
            && (after.pending <==> after.q != map[])
            && after.q.Keys <= c.q.Keys && after.q.Keys !! mask
            && (mask == ALL ==> after.q == map[])
            && after.dead == c.dead * after.q.Keys
            && after.spare
               == (if c.load then c.spare - (c.q.Keys - after.q.Keys)
                   else c.spare + c.dead * (c.q.Keys - after.q.Keys))
                  + (if c.baseDead && c.base !in c.q && after.q == map[] then {c.base} else {})
  {
    hide PlanFor, GenerateAll, MoveBy, Planned, StartAdj, Apart, Covered, CacheAfter;
    var list, rest := PlanFor(cfg, c, mask).list, PlanFor(cfg, c, mask).rest;
    FlushStart(cfg, c, mask);
    GenerateAllSpare(KindOf(cfg, c), list, StartAdj(cfg, c), 0, c.spare, c.dead, c.baseDead, c.known);
    var e := EmittedBy(cfg, c, mask);
    assert Rebased(rest, e.done).Keys == rest.Keys;
    assert c.q.Keys <= ALL;
    assert rest.Keys !! mask;
    InPlan(KindOf(cfg, c), c.q, list);
  }

  lemma InPlan(k: Kind, q: Queue, list: seq<Saved>)
    requires Planned(k, q, list)
    ensures Covered(list) <= q.Keys
  {
    ManyCovered(k, q, list);
  }

  /** What stays queued after a partial flush is as good as before. */
  lemma FlushGood(cfg: Config, c: Comb, mask: set<Reg>, more: bool)
    requires c.pending && Good(cfg, c) && c.base !in c.q
    ensures var after := FlushR(cfg, c, mask, more).after;
            && (c.load || after.q != map[] ==> Good(cfg, after)) && after.base !in after.q
            && (!c.load ==> Apart(after.q)) && after.adj % 4 == 0
            && (after.adj != 0 && !after.baseDead ==> after.known[after.base].None?)
  {
    hide FlushR, Apart;
    FlushShape(cfg, c, mask, more);
    FlushRest(cfg, c, mask, more);
    FlushCache(cfg, c, mask, more);
  }

  /** The offsets and the adjustment after a flush. */
  lemma FlushRest(cfg: Config, c: Comb, mask: set<Reg>, more: bool)
    requires c.pending && Good(cfg, c) && c.base !in c.q
    ensures var after := FlushR(cfg, c, mask, more).after;
            && (!c.load ==> Apart(after.q)) && after.adj % 4 == 0
            && forall r: Reg :: r in after.q ==> after.q[r] % 4 == 0
  {
    hide PlanFor, GenerateAll, Planned, StartAdj, Apart, Covered, WordMultiples, FlushR, Clear;
    var list, rest := PlanFor(cfg, c, mask).list, PlanFor(cfg, c, mask).rest;
    FlushStart(cfg, c, mask);
    FlushQueue(cfg, c, mask, more);
    GenerateAllMultiples(KindOf(cfg, c), list, StartAdj(cfg, c), 0, c.spare, c.dead, c.baseDead, c.known);
    if !c.load {
      PartsApart(c.q, Covered(list));
      RebasedApart(rest, EmittedBy(cfg, c, mask).done);
    }
  }

  /** The cache after a flush: a live base with an adjustment left is not recorded. */
  lemma FlushCache(cfg: Config, c: Comb, mask: set<Reg>, more: bool)
    requires c.pending && Good(cfg, c) && c.base !in c.q
    ensures var after := FlushR(cfg, c, mask, more).after;
            after.adj != 0 && !after.baseDead ==> after.known[after.base].None?
  {
    hide PlanFor, GenerateAll, Workable, Clear, Agrees, Run;
    var st := State(CachedRegs(c.known), NO_FLAGS, map[]);
    CachedAgrees(c.known);
    if !c.baseDead {
      if c.load { LoadsCount(cfg, c, mask, st); } else { StoresCount(cfg, c, mask, st); }
    }
    CacheIs(cfg, c, mask, more);
    FlushQueue(cfg, c, mask, more);
  }

  lemma LoadsCount(cfg: Config, c: Comb, mask: set<Reg>, st: State)
    requires c.load && Good(cfg, c) && c.base !in c.q && Agrees(c.known, st.regs) && !c.baseDead
    ensures EmittedBy(cfg, c, mask).adj + EmittedBy(cfg, c, mask).done == c.adj
  {
    hide EmittedBy, Good, FlushTrace, Run, Addr, Errors, PlanFor;
    LoadsDone(cfg, c, mask, st);
  }

  lemma StoresCount(cfg: Config, c: Comb, mask: set<Reg>, st: State)
    requires !c.load && Good(cfg, c) && Agrees(c.known, st.regs) && !c.baseDead
    ensures EmittedBy(cfg, c, mask).adj + EmittedBy(cfg, c, mask).done == c.adj
  {
    hide EmittedBy, Good, FlushTrace, Run, Addr, Errors, PlanFor;
    StoresDone(cfg, c, mask, st);
  }

  lemma FlushQueue(cfg: Config, c: Comb, mask: set<Reg>, more: bool)
    requires c.pending
    ensures var after := FlushR(cfg, c, mask, more).after;
            && after.q == Rebased(PlanFor(cfg, c, mask).rest, EmittedBy(cfg, c, mask).done)
            && (after.adj == 0 || after.adj == EmittedBy(cfg, c, mask).adj)
  {
    hide PlanFor, EmittedBy;
  }

  lemma ClobberDead(cfg: Config, enabled: bool, c: Comb, d: set<Reg>)
    requires c.pending && Inv(cfg, enabled, c, d)
    ensures MayClobber(cfg, c) <= d
  {
    hide Apart;
  }

  lemma NothingHeld(c: Comb, d: set<Reg>, v: State, st: State)
    requires Same(d, v, Held(c, st)) && c.q == map[] && (c.adj == 0 || c.base in d)
    ensures Same(d, v, st)
  {
    hide Addr;
    AdjustmentDone(c.load, c.base, c.adj, st);
    AddrZero(st.regs[c.base]);
  }

  /** Any flush keeps the invariant and the program's state. */
  lemma FlushStep(cfg: Config, enabled: bool, c: Comb, mask: set<Reg>, d: set<Reg>, v: State, st: State)
    requires c.pending && Inv(cfg, enabled, c, d) && Stands(c, d, v, st) && !FlushFaults(cfg, c, mask)
    ensures var f := FlushR(cfg, c, mask, false);
            Inv(cfg, enabled, f.after, d) && Stands(f.after, d, v, Run(f.code, st)) && AllEncodable(f.code)
  {
    hide FlushR, FlushFaults, AllEncodable, Held, Good, Run, MayClobber, Same, Agrees;
    var f := FlushR(cfg, c, mask, false);
    FlushRefines(cfg, c, mask, false, st);
    ClobberDead(cfg, enabled, c, d);
    SameMore(MayClobber(cfg, c), d, Held(c, st), Held(f.after, Run(f.code, st)));
    SameTrans(d, v, Held(c, st), Held(f.after, Run(f.code, st)));
    FlushShape(cfg, c, mask, false);
    FlushGood(cfg, c, mask, false);
    if !f.after.pending {
      FlushAdjustment(cfg, c, mask);
      NothingHeld(f.after, d, v, Run(f.code, st));
    }
  }

  /** Whatever the flush did, the queue tried again is empty and keeps the invariant. */
  lemma RetryInv(cfg: Config, enabled: bool, c: Comb, d: set<Reg>)
    requires c.pending && Inv(cfg, enabled, c, d) && c.base !in d
    ensures var c2 := Retry(cfg, c);
            && Inv(cfg, enabled, c2, d) && c2.pending && c2.load == c.load && c2.base == c.base && c2.q == map[]
  {
    hide FlushR;
    FlushShape(cfg, c, ALL, true);
    FlushGood(cfg, c, ALL, true);
  }

  /** The flush made when a queue refuses an access but goes on with the same base. */
  lemma RetryStep(cfg: Config, enabled: bool, c: Comb, d: set<Reg>, v: State, st: State)
    requires c.pending && Inv(cfg, enabled, c, d) && Stands(c, d, v, st) && !FlushFaults(cfg, c, ALL) && c.base !in d
    ensures var f, c2 := FlushR(cfg, c, ALL, true), Retry(cfg, c);
            && Inv(cfg, enabled, c2, d) && Stands(c2, d, v, Run(f.code, st))
            && c2.pending && c2.load == c.load && c2.base == c.base && c2.q == map[] && AllEncodable(f.code)
  {
    hide FlushR, FlushFaults, AllEncodable, Run, MayClobber, Same, View, Agrees;
    var f := FlushR(cfg, c, ALL, true);
    FlushRefines(cfg, c, ALL, true, st);
    ClobberDead(cfg, enabled, c, d);
    SameMore(MayClobber(cfg, c), d, Held(c, st), Held(f.after, Run(f.code, st)));
    SameTrans(d, v, Held(c, st), Held(f.after, Run(f.code, st)));
    FlushShape(cfg, c, ALL, true);
    RetryInv(cfg, enabled, c, d);
  }

  /** A load of the base itself settles the whole queue. */
  lemma BaseStep(cfg: Config, enabled: bool, c: Comb, a: Access, d: set<Reg>, v: State, st: State)
    requires c.pending && Inv(cfg, enabled, c, d) && Stands(c, d, v, st)
    requires !Switches(enabled, c, a) && Accepts(c, a) && a.rd == a.rn && Allowed(Do(a), d)
    requires !FlushFaults(cfg, Queued(c, a), ALL)
    ensures var f, d' := AddRegOff(cfg, c, a), DeadAfter(Do(a), d);
            && AllEncodable(f.code)
            && Inv(cfg, enabled, f.after, d') && Stands(f.after, d', Exec(InstrOf(a), v), Run(f.code, st))
  {
    hide FlushR, FlushFaults, AllEncodable, Held, Run, Same, Exec, DeadAfter, Apart, Agrees;
    var c1, d' := Queued(c, a), DeadAfter(Do(a), d);
    var f := FlushR(cfg, c1, ALL, false);
    AcceptedLoad(cfg, c, a, st);
    SameAccess(d, a, v, Held(c, st));
    BaseQueued(cfg, enabled, c, a, d);
    FlushRefines(cfg, c1, ALL, false, st);
    SameMore({}, d', Held(c1, st), Held(f.after, Run(f.code, st)));
    SameTrans(d', Exec(InstrOf(a), v), Held(c1, st), Held(f.after, Run(f.code, st)));
    FlushShape(cfg, c1, ALL, false);
    BaseAdjustment(cfg, c1);
    NothingHeld(f.after, d', Exec(InstrOf(a), v), Run(f.code, st));
    BaseSpare(cfg, enabled, c, a, d);
  }

  lemma BaseQueued(cfg: Config, enabled: bool, c: Comb, a: Access, d: set<Reg>)
    requires c.pending && Inv(cfg, enabled, c, d) && !Switches(enabled, c, a) && Accepts(c, a) && a.rd == a.rn
    requires Allowed(Do(a), d)
    ensures var c1 := Queued(c, a);
            && c1.pending && c1.load && c1.base == c.base && c.base in c1.q && c1.known == c.known
            && Good(cfg, c1) && c1.q.Keys <= ALL && MayClobber(cfg, c1) == {}
  {
    hide Apart;
  }

  lemma BaseAdjustment(cfg: Config, c: Comb)
    requires c.pending && Good(cfg, c) && c.load && c.base in c.q
    ensures FlushR(cfg, c, ALL, false).after.adj == 0
  {
    hide PlanFor, Planned, Pretended, MoveBy, Apart, GenerateAll;
    assert c.q.Keys <= ALL;
    FlushStart(cfg, c, ALL);
    DeathIrrelevant(KindOf(cfg, c), c.q, PlanFor(cfg, c, ALL).list, 0, c.spare, c.dead, c.baseDead, c.baseDead,
                    c.known);
  }

  lemma BaseSpare(cfg: Config, enabled: bool, c: Comb, a: Access, d: set<Reg>)
    requires c.pending && Inv(cfg, enabled, c, d) && c.load && a.load && c.base == a.rn && a.rd == a.rn
    requires Accepts(c, a) && Allowed(Do(a), d) && Good(cfg, Queued(c, a))
    ensures FlushR(cfg, Queued(c, a), ALL, false).after.spare <= DeadAfter(Do(a), d)
  {
    hide FlushR, Good, Apart;
    assert Queued(c, a).q.Keys <= ALL;
    FlushShape(cfg, Queued(c, a), ALL, false);
  }

  // ---- one event ----

  predicate UseFaults(cfg: Config, c: Comb, regs: set<Reg>)
  {
    c.pending &&
    if c.base in regs then FlushFaults(cfg, c, ALL)
    else c.q.Keys * regs != {} && FlushFaults(cfg, c, regs)
  }

  predicate AccessFaults(cfg: Config, enabled: bool, c: Comb, a: Access)
  {
    c.pending &&
    if Switches(enabled, c, a) then FlushFaults(cfg, c, ALL)
    else if Accepts(c, a) then (a.rd == c.base && FlushFaults(cfg, Queued(c, a), ALL)) || Stale(c, a)
    else FlushFaults(cfg, c, ALL) || Loses(cfg, c, a)
  }

  /** The access is refused twice, and so lost. */
  predicate Loses(cfg: Config, c: Comb, a: Access)
  {
    !Accepts(c, a) && !Accepts(Retry(cfg, c), a)
  }

  /** The addition reads back a register that it has changed, and misses by that. */
  predicate AddMisses(r: Reg, k: int, known: Known) { Slip(r, r, k, known, CachedRegs(known)) != 0 }

  /**
   What can go wrong with an event: a flush that strays or overreaches, a lost load of the base,
   a register still marked dead, and an addition that misses.
   */
  predicate Faults(cfg: Config, enabled: bool, c: Comb, e: Event)
  {
    match e
    case Do(a) => AccessFaults(cfg, enabled, Adjusted(c, a), a)
    case Add(r, k) =>
      !Defers(c, r, k)
      && ((if StackFlush(c, r, k) then c.pending && FlushFaults(cfg, c, ALL) else UseFaults(cfg, c, {r}))
          || AddMisses(r, k, SettleFor(cfg, c, r, k).after.known))
    case Set(r, _) => UseFaults(cfg, c, {r})
    case Use(regs) => UseFaults(cfg, c, regs)
  }

  ghost predicate Near(c: Comb, a: Access) { InReach(c) && InReach(Queued(c, a)) }

  /** Offsets stay inside the address space, so that different offsets are different words. */
  ghost predicate StaysNear(cfg: Config, c: Comb, e: Event) { e.Do? ==> AccessNear(cfg, Adjusted(c, e.a), e.a) }

  ghost predicate AccessNear(cfg: Config, c: Comb, a: Access)
  {
    c.pending ==> Near(c, a) && (!Accepts(c, a) ==> Near(Retry(cfg, c), a))
  }

  /** What is proved of each event: the invariant, the state stood for, and instructions that exist. */
  ghost predicate Refines(cfg: Config, enabled: bool, f: Flushed, e: Event, d: set<Reg>, v: State, st: State)
  {
    && Inv(cfg, enabled, Settled(f.after, e), DeadAfter(e, d))
    && Stands(Settled(f.after, e), DeadAfter(e, d), Meaning(e, v), Run(f.code, st))
    && AllEncodable(f.code)
  }

  lemma StartStep(cfg: Config, enabled: bool, c: Comb, a: Access, d: set<Reg>, v: State, st: State)
    requires !c.pending && Inv(cfg, enabled, c, d) && Stands(c, d, v, st) && Allowed(Do(a), d) && cfg.limit >= 1
    requires Ready(c, a)
    ensures Refines(cfg, enabled, StartAccess(cfg, enabled, c, a), Do(a), d, v, st)
  {
    hide Exec, Run, Same, DeadAfter, View, Agrees;
    if !enabled || a.rn == a.rd {
      SameAccess(d, a, v, st);
      RunOne(InstrOf(a), st);
      SpareAfterAccess(c, a, d);
      AgreesAfter(c, a, st);
    } else {
      var c3 := Fresh(c, a);
      FreshView(c3, st);
      FreshInv(cfg, enabled, c, a, d);
      RunNone(st);
      NothingEncodable();
      FreshStep(cfg, enabled, c3, a, d, v, st);
    }
  }

  lemma SpareAfterAccess(c: Comb, a: Access, d: set<Reg>)
    requires Allowed(Do(a), d)
    ensures a.rn == a.rd && c.spare <= d ==> c.spare <= DeadAfter(Do(a), d)
  {
  }

  /** The access changes only what is then forgotten. */
  lemma AgreesAfter(c: Comb, a: Access, st: State)
    requires Agrees(c.known, st.regs)
    ensures Agrees(Killed(c, {a.rd, a.rn}).known, Exec(InstrOf(a), st).regs)
  {
    hide Addr, Read, ExecData, ExecBlock;
  }

  lemma FreshView(c: Comb, st: State)
    requires c.q == map[] && c.adj == 0
    ensures Held(c, st) == st
  {
    hide Addr;
    AdjustmentDone(c.load, c.base, 0, st);
    AddrZero(st.regs[c.base]);
  }

  /** A queue just begun satisfies the invariant, but for what the death of its old base said. */
  lemma FreshInv(cfg: Config, enabled: bool, c: Comb, a: Access, d: set<Reg>)
    requires enabled && c.spare <= d && cfg.limit >= 1 && Allowed(Do(a), d)
    ensures Inv(cfg, enabled, Fresh(c, a).(baseDead := false), d)
  {
  }

  lemma FreshStep(cfg: Config, enabled: bool, c3: Comb, a: Access, d: set<Reg>, v: State, st: State)
    requires enabled && c3.pending && Inv(cfg, enabled, c3.(baseDead := false), d) && Same(d, v, Held(c3, st))
    requires Agrees(c3.known, st.regs)
    requires c3.q == map[] && c3.dead == {} && c3.adj == 0 && c3.load == a.load && c3.base == a.rn
    requires a.rd != a.rn && Allowed(Do(a), d) && Ready(c3, a)
    ensures Accepts(c3, a)
    ensures var c', d' := Queued(c3, a), DeadAfter(Do(a), d);
            Inv(cfg, enabled, c', d') && Stands(c', d', Exec(InstrOf(a), v), st)
  {
    hide Exec, Same, DeadAfter, View, Discard, Good, Agrees;
    var live := c3.(baseDead := false);
    DiscardOf(c3.q, OffsetOf(c3, a), 0);
    assert Discard(map[], OffsetOf(c3, a)) == map[];
    AcceptStep(cfg, enabled, live, a, d, v, st);
    assert Queued(live, a) == Queued(c3, a);
  }

  /** ldm_outinstr does what the access does, unless it faults. */
  lemma AccessStep(cfg: Config, enabled: bool, c: Comb, a: Access, d: set<Reg>, v: State, st: State)
    requires Inv(cfg, enabled, c, d) && Stands(c, d, v, st) && Allowed(Do(a), d) && cfg.limit >= 1 && Ready(c, a)
    requires !AccessFaults(cfg, enabled, c, a) && AccessNear(cfg, c, a)
    ensures Refines(cfg, enabled, OutInstr(cfg, enabled, c, a), Do(a), d, v, st)
  {
    hide Exec, Run, Same, DeadAfter, FlushR, FlushFaults, AllEncodable, Held, Good, Queued, StartAccess, Agrees,
        Settled;
    if !c.pending {
      StartStep(cfg, enabled, c, a, d, v, st);
    } else if Switches(enabled, c, a) {
      var f := FlushR(cfg, c, ALL, false);
      FlushStep(cfg, enabled, c, ALL, d, v, st);
      FlushAllEnds(cfg, c, false);
      FlushForgets(cfg, c, ALL, false, a.rn);
      StartStep(cfg, enabled, f.after, a, d, v, Run(f.code, st));
      RefinesAfter(cfg, enabled, f.code, StartAccess(cfg, enabled, f.after, a), Do(a), d, v, st);
    } else if Accepts(c, a) {
      QueueStep(cfg, enabled, c, a, d, v, st);
    } else {
      var f, c2 := FlushR(cfg, c, ALL, true), Retry(cfg, c);
      RetryStep(cfg, enabled, c, d, v, st);
      FlushForgets(cfg, c, ALL, true, a.rn);
      if a.rd == a.rn { RetriedLoad(cfg, enabled, c2, a, d); }
      QueueStep(cfg, enabled, c2, a, d, v, Run(f.code, st));
      RefinesAfter(cfg, enabled, f.code, AddRegOff(cfg, c2, a), Do(a), d, v, st);
    }
  }

  /** A flush records nothing. */
  lemma FlushForgets(cfg: Config, c: Comb, mask: set<Reg>, more: bool, r: Reg)
    requires c.pending
    ensures var known := FlushR(cfg, c, mask, more).after.known; known[r].Some? ==> known[r] == c.known[r]
  {
    hide PlanFor, GenerateAll, MoveBy;
    KnownShrinks(KindOf(cfg, c), PlanFor(cfg, c, mask).list, StartAdj(cfg, c), 0, c.spare, c.dead, c.baseDead, c.known,
                 r);
  }

  /** Forgetting the base first keeps everything else. */
  lemma AdjustedStep(cfg: Config, enabled: bool, c: Comb, a: Access, d: set<Reg>, v: State, st: State)
    requires Inv(cfg, enabled, c, d) && Stands(c, d, v, st)
    ensures var c' := Adjusted(c, a); Inv(cfg, enabled, c', d) && Stands(c', d, v, st) && Ready(c', a)
  {
    hide Same, View, Apart;
    HeldSame(c, Adjusted(c, a), st);
  }

  /** Code emitted before the event is dealt with. */
  lemma RefinesAfter(cfg: Config, enabled: bool, code: Code, f: Flushed, e: Event, d: set<Reg>, v: State, st: State)
    requires AllEncodable(code) && Refines(cfg, enabled, f, e, d, v, Run(code, st))
    ensures Refines(cfg, enabled, Flushed(code + f.code, f.after), e, d, v, st)
  {
    hide Run, AllEncodable, Inv, Stands, Meaning, DeadAfter, Settled;
    RunAppend(code, f.code, st);
    EncodableAppend(code, f.code);
  }

  lemma QueueStep(cfg: Config, enabled: bool, c: Comb, a: Access, d: set<Reg>, v: State, st: State)
    requires c.pending && Inv(cfg, enabled, c, d) && Stands(c, d, v, st) && Allowed(Do(a), d)
    requires !Switches(enabled, c, a) && Accepts(c, a) && Near(c, a)
    requires (a.rd == a.rn ==> !FlushFaults(cfg, Queued(c, a), ALL)) && !Stale(c, a) && Ready(c, a)
    ensures Refines(cfg, enabled, AddRegOff(cfg, c, a), Do(a), d, v, st)
  {
    hide Exec, Run, Same, DeadAfter, FlushR, FlushFaults, AllEncodable, Held, Good, Queued, Agrees;
    NothingEncodable();
    if a.rd == a.rn {
      BaseStep(cfg, enabled, c, a, d, v, st);
    } else {
      RunNone(st);
      AcceptStep(cfg, enabled, c, a, d, v, st);
    }
  }

  /** A load of the base accepted at the second attempt is alone in its queue. */
  lemma RetriedLoad(cfg: Config, enabled: bool, c: Comb, a: Access, d: set<Reg>)
    requires c.pending && Inv(cfg, enabled, c, d) && Allowed(Do(a), d) && c.q == map[] && !Switches(enabled, c, a)
    ensures Accepts(c, a) && a.rd == a.rn ==> !FlushFaults(cfg, Queued(c, a), ALL)
  {
    hide PlanFor, Planned, Pretended, Apart, Overreaches, Straddles, Slips, Discard, FlushStrays;
    if Accepts(c, a) && a.rd == a.rn {
      var c1 := Queued(c, a);
      assert c1.q == map[a.rd := a.off];
      BaseQueued(cfg, enabled, c, a, d);
      FlushStart(cfg, c1, ALL);
      var k, list := KindOf(cfg, c1), PlanFor(cfg, c1, ALL).list;
      LoadsInPlace(k, c1.q, list, c1.spare, c1.dead, c1.baseDead, c1.known);
      DeathIrrelevant(k, c1.q, list, 0, c1.spare, c1.dead, c1.baseDead, c1.baseDead, c1.known);
      LoneLoad(k, c1.q, list, 0, 0, c1.spare, c1.dead, c1.baseDead, c1.known, CachedRegs(c1.known)[c1.base]);
      NothingStrays(cfg, c1, ALL);
    }
  }

  /** A queue of one register is one run of one word, for which nothing is added to any register. */
  lemma LoneLoad(k: Kind, q: Queue, list: seq<Saved>, adj: int, done: int, spare: set<Reg>, dead: set<Reg>,
          baseDead: bool, known: Known, b: Word)
    requires Planned(k, q, list) && q.Keys == {k.base}
    ensures !Slips(k, list, adj, done, spare, dead, baseDead, known, b, 0)
  {
    hide Generate, IsSaved, LostAfter, KnownAfter, Covered, Planned, ReadsBack;
    if |list| > 0 {
      PlannedRest(k, q, list);
      InRun(q, list[0]);
      RunNonempty(q, list[0]);
      OneWord(q, list[0]);
      if |list| > 1 {
        PlannedRest(k, q - list[0].regs, list[1..]);
        InRun(q - list[0].regs, list[1..][0]);
        RunNonempty(q - list[0].regs, list[1..][0]);
      }
    }
  }

  lemma OneWord(q: Queue, p: Saved)
    requires IsSaved(q, p) && |q.Keys| == 1
    ensures p.start == p.end && p.regs == q.Keys
  {
    hide Rank;
    InRun(q, p);
    var x := FirstOf(p.regs, 0);
    var y := LastOf(p.regs, 16);
    SameMember(q.Keys, x, y);
  }

  lemma SameMember(s: set<Reg>, x: Reg, y: Reg)
    requires |s| == 1 && x in s && y in s
    ensures x == y && s == {x}
  {
    assert |s - {x}| == 0;
    assert y !in s - {x};
  }

  lemma FlushAllEnds(cfg: Config, c: Comb, more: bool)
    requires c.pending && Good(cfg, c)
    ensures !FlushR(cfg, c, ALL, more).after.pending
  {
    hide Good, FlushR;
    assert c.q.Keys <= ALL;
    FlushShape(cfg, c, ALL, more);
  }

  lemma UseStep(cfg: Config, enabled: bool, c: Comb, regs: set<Reg>, d: set<Reg>, v: State, st: State)
    requires Inv(cfg, enabled, c, d) && Stands(c, d, v, st) && !UseFaults(cfg, c, regs)
    ensures var f := CFlush(cfg, c, regs);
            && Inv(cfg, enabled, f.after, d) && Stands(f.after, d, v, Run(f.code, st)) && AllEncodable(f.code)
            && (f.after.pending ==> f.after.base !in regs && f.after.q.Keys !! regs)
  {
    hide Run, Same, FlushR, FlushFaults, AllEncodable, Held, Good, Agrees;
    RunNone(st);
    NothingEncodable();
    if c.pending {
      if c.base in regs {
        FlushStep(cfg, enabled, c, ALL, d, v, st);
        FlushAllEnds(cfg, c, false);
      } else if c.q.Keys * regs != {} {
        FlushStep(cfg, enabled, c, regs, d, v, st);
        FlushShape(cfg, c, regs, false);
      } else {
        Disjoint(c.q.Keys, regs);
      }
    }
  }

  lemma Disjoint(s: set<Reg>, t: set<Reg>)
    requires s * t == {}
    ensures s !! t
  {
    forall r | r in s ensures r !in t { assert r in t ==> r in s * t; }
  }

  /** Writing a register that is neither the base nor queued commutes with the queue. */
  lemma WriteCommutes(c: Comb, r: Reg, w: Word, st: State)
    requires r != c.base && r !in c.q
    ensures Held(c, With(st, r, w)) == With(Held(c, st), r, w) && Held(c, st).regs[r] == st.regs[r]
  {
    hide Addr, Read, StoreAll;
    var end := With(st, r, w);
    StoreFrame(c.q, st.regs[c.base], st.regs, end.regs, st.mem, 16);
    var x, y := With(Held(c, st), r, w), Held(c, end);
    forall q: Reg ensures x.regs[q] == y.regs[q] {}
  }

  lemma SameAdd(d: set<Reg>, r: Reg, k: int, v: State, w: State)
    requires Same(d, v, w) && r !in d
    ensures Same(d, With(v, r, Addr(v.regs[r], k)), With(w, r, Addr(w.regs[r], k)))
  {
    hide Addr;
  }

  /** Any value may be put into a register, dead or not, by both. */
  lemma SameSet(d: set<Reg>, r: Reg, n: Word, v: State, w: State)
    requires Same(d, v, w)
    ensures Same(d - {r}, With(v, r, n), With(w, r, n))
  {
  }

  /** A deferred addition changes only the adjustment. */
  lemma DeferStep(cfg: Config, enabled: bool, c: Comb, r: Reg, k: int, d: set<Reg>, v: State, st: State)
    requires Inv(cfg, enabled, c, d) && Stands(c, d, v, st) && Defers(c, r, k) && r !in d && k % 4 == 0
    ensures var c' := Settled(c.(adj := c.adj + k), Add(r, k));
            Inv(cfg, enabled, c', d) && Stands(c', d, With(v, r, Addr(v.regs[r], k)), st)
  {
    hide Same, Addr, StoreAll, Read, Apart, Settled, Agrees;
    var c' := c.(adj := c.adj + k);
    SameAdd(d, r, k, v, Held(c, st));
    HeldBase(c, st);
    AddrAddr(st.regs[c.base], c.adj, k);
    var x, y := With(Held(c, st), r, Addr(Held(c, st).regs[r], k)), Held(c', st);
    forall q: Reg ensures x.regs[q] == y.regs[q] {}
    assert x == y;
    SettledSeen(c', Add(r, k), st);
    DeferInv(cfg, enabled, c, r, k, d);
  }

  lemma DeferInv(cfg: Config, enabled: bool, c: Comb, r: Reg, k: int, d: set<Reg>)
    requires Inv(cfg, enabled, c, d) && Defers(c, r, k) && k % 4 == 0
    ensures Inv(cfg, enabled, Settled(c.(adj := c.adj + k), Add(r, k)), d)
  {
    hide Apart;
  }

  /** An addition that does not miss in the registers as the cache has them, does not miss in the machine. */
  lemma AddExact(r: Reg, k: int, known: Known, st: State)
    requires Agrees(known, st.regs) && !AddMisses(r, k, known)
    ensures Run(MoveBy(r, r, k, known), st) == With(st, r, Addr(st.regs[r], k))
  {
    hide MoveBy, Run, Slip, Addr;
    MoveByAdds(r, r, k, known, st);
    if known[r].Some? {
      SlipSame(r, r, k, known, st.regs, CachedRegs(known));
    } else {
      NoSlip(r, r, k, known, st.regs);
    }
  }

  lemma AddKStep(cfg: Config, enabled: bool, c: Comb, r: Reg, k: int, d: set<Reg>, v: State, st: State)
    requires Inv(cfg, enabled, c, d) && Stands(c, d, v, st) && Allowed(Add(r, k), d)
             && !Faults(cfg, enabled, c, Add(r, k))
    ensures Refines(cfg, enabled, AddK(cfg, c, r, k), Add(r, k), d, v, st)
  {
    hide Run, Same, FlushR, FlushFaults, AllEncodable, Held, Good, CFlush, Addr, MoveBy, With, Agrees, Settled, Slip;
    if Defers(c, r, k) {
      RunNone(st);
      NothingEncodable();
      DeferStep(cfg, enabled, c, r, k, d, v, st);
    } else {
      var f := SettleFor(cfg, c, r, k);
      if !StackFlush(c, r, k) {
        UseStep(cfg, enabled, c, {r}, d, v, st);
      } else {
        FlushSettles(cfg, enabled, c, d, v, st);
      }
      AddSettled(cfg, enabled, f, r, k, d, v, st);
      MoveByEncodable(r, r, k, f.after.known);
      EncodableAppend(f.code, MoveBy(r, r, k, f.after.known));
    }
  }

  lemma FlushSettles(cfg: Config, enabled: bool, c: Comb, d: set<Reg>, v: State, st: State)
    requires Inv(cfg, enabled, c, d) && Stands(c, d, v, st) && (c.pending ==> !FlushFaults(cfg, c, ALL))
    ensures var f := FlushR(cfg, c, ALL, false);
            !f.after.pending && Inv(cfg, enabled, f.after, d) && Stands(f.after, d, v, Run(f.code, st))
                && AllEncodable(f.code)
  {
    hide Run, Same, FlushFaults, AllEncodable, Held, Good, EmittedBy, PlanFor, Agrees;
    NothingEncodable();
    if c.pending {
      FlushStep(cfg, enabled, c, ALL, d, v, st);
      FlushAllEnds(cfg, c, false);
    } else {
      RunNone(st);
    }
  }

  lemma AddSettled(cfg: Config, enabled: bool, f: Flushed, r: Reg, k: int, d: set<Reg>, v: State, st: State)
    requires Inv(cfg, enabled, f.after, d) && Stands(f.after, d, v, Run(f.code, st)) && r !in d
    requires !AddMisses(r, k, f.after.known)
    requires f.after.pending ==> f.after.base != r && r !in f.after.q
    ensures var c', code := Settled(f.after, Add(r, k)), f.code + MoveBy(r, r, k, f.after.known);
            Inv(cfg, enabled, c', d) && Stands(c', d, With(v, r, Addr(v.regs[r], k)), Run(code, st))
  {
    hide Run, Same, Held, Addr, MoveBy, Good, AddMisses;
    var mid, known := Run(f.code, st), f.after.known;
    var w := Addr(mid.regs[r], k);
    RunAppend(f.code, MoveBy(r, r, k, known), st);
    AddExact(r, k, known, mid);
    SameAdd(d, r, k, v, Seen(f.after, mid));
    if f.after.pending { WriteCommutes(f.after, r, w, mid); }
    HeldSame(f.after, Settled(f.after, Add(r, k)), With(mid, r, w));
    WriteInv(cfg, enabled, f.after, Add(r, k), r, f.after.known, d);
  }

  /** Writing a register that is neither base nor queued, and recording it or not, keeps the invariant. */
  lemma WriteInv(cfg: Config, enabled: bool, c: Comb, e: Event, r: Reg, known: Known, d: set<Reg>)
    requires Inv(cfg, enabled, c, d) && (c.pending ==> c.base != r && r !in c.q)
    requires Written(e) == {r} && forall x: Reg :: x != r ==> known[x] == c.known[x]
    ensures Inv(cfg, enabled, Settled(c.(known := known), e), d)
    ensures Inv(cfg, enabled, Settled(c.(known := known), e), d - {r})
  {
    hide Apart;
  }

  lemma MovKStep(cfg: Config, enabled: bool, c: Comb, r: Reg, n: Word, d: set<Reg>, v: State, st: State)
    requires Inv(cfg, enabled, c, d) && Stands(c, d, v, st) && !Faults(cfg, enabled, c, Set(r, n))
    ensures Refines(cfg, enabled, MovK(cfg, c, r, n), Set(r, n), d, v, st)
  {
    hide Run, Same, FlushFaults, AllEncodable, Held, Good, CFlush, LoadConstant.LoadCode, Agrees;
    var f := CFlush(cfg, c, {r});
    var known, mid, code := f.after.known, Run(f.code, st), LoadConstant.LoadCode(r, n, false, f.after.known);
    UseStep(cfg, enabled, c, {r}, d, v, st);
    RunAppend(f.code, code, st);
    LoadConstant.LoadCorrect(r, n, false, known, mid);
    LoadConstant.LoadKeepsCache(r, n, false, known, mid);
    LoadConstant.LoadEncodable(r, n, false, known);
    EncodableAppend(f.code, code);
    assert Run(code, mid) == With(mid, r, n);
    SameSet(d, r, n, v, Seen(f.after, mid));
    if f.after.pending { WriteCommutes(f.after, r, n, mid); }
    var c' := f.after.(known := known[r := Some(n)]);
    HeldSame(f.after, Settled(c', Set(r, n)), With(mid, r, n));
    WriteInv(cfg, enabled, f.after, Set(r, n), r, known[r := Some(n)], d);
  }

  /** One event: the code does what the event means, and the invariant stays, unless it faults. */
  lemma StepRefines(cfg: Config, enabled: bool, c: Comb, e: Event, d: set<Reg>, v: State, st: State)
    requires Inv(cfg, enabled, c, d) && Stands(c, d, v, st) && Allowed(e, d) && cfg.limit >= 1
    requires !Faults(cfg, enabled, c, e) && StaysNear(cfg, c, e)
    ensures var f := Step(cfg, enabled, c, e);
            && Inv(cfg, enabled, f.after, DeadAfter(e, d))
            && Stands(f.after, DeadAfter(e, d), Meaning(e, v), Run(f.code, st))
            && AllEncodable(f.code)
  {
    hide Inv, Stands, Run, OutInstr, AddK, MovK, CFlush, Exec, AccessFaults, AccessNear, Adjusted, AllEncodable,
        Settled;
    if e.Do? {
      AdjustedStep(cfg, enabled, c, e.a, d, v, st);
      AccessStep(cfg, enabled, Adjusted(c, e.a), e.a, d, v, st);
    } else if e.Add? {
      AddKStep(cfg, enabled, c, e.r, e.k, d, v, st);
    } else if e.Set? {
      MovKStep(cfg, enabled, c, e.r, e.n, d, v, st);
    } else {
      UseStep(cfg, enabled, c, e.regs, d, v, st);
      UseSettles(CFlush(cfg, c, e.regs).after, e);
    }
  }

  lemma UseSettles(c: Comb, e: Event)
    requires e.Use?
    ensures Settled(c, e) == c
  {
    assert Forget(c.known, {}) == c.known;
  }

  // ---- whole runs ----

  function Feed(cfg: Config, enabled: bool, c: Comb, es: seq<Event>): Flushed
    decreases |es|
  {
    if |es| == 0 then Flushed([], c)
    else
      var f := Step(cfg, enabled, c, es[0]);
      var rest := Feed(cfg, enabled, f.after, es[1..]);
      Flushed(f.code + rest.code, rest.after)
  }

  function Program(es: seq<Event>, st: State): State
  {
    if |es| == 0 then st else Program(es[1..], Meaning(es[0], st))
  }

  function DeadAtEnd(es: seq<Event>, d: set<Reg>): set<Reg>
  {
    if |es| == 0 then d else DeadAtEnd(es[1..], DeadAfter(es[0], d))
  }

  /** The run keeps its own promises about dead registers, never faults and stays near. */
  ghost predicate Clean(cfg: Config, enabled: bool, c: Comb, es: seq<Event>, d: set<Reg>)
    decreases |es|
  {
    |es| > 0 ==>
      && Allowed(es[0], d) && !Faults(cfg, enabled, c, es[0]) && StaysNear(cfg, c, es[0])
      && Clean(cfg, enabled, Step(cfg, enabled, c, es[0]).after, es[1..], DeadAfter(es[0], d))
  }

  lemma {:induction false} RunRefines(cfg: Config, enabled: bool, c: Comb, es: seq<Event>, d: set<Reg>, v: State,
          st: State)
    requires Inv(cfg, enabled, c, d) && Stands(c, d, v, st) && Clean(cfg, enabled, c, es, d) && cfg.limit >= 1
    ensures var f := Feed(cfg, enabled, c, es);
            && Inv(cfg, enabled, f.after, DeadAtEnd(es, d))
            && Stands(f.after, DeadAtEnd(es, d), Program(es, v), Run(f.code, st))
            && AllEncodable(f.code)
    decreases |es|
  {
    hide Inv, Stands, Run, Step, Meaning, DeadAfter, Allowed, Faults, StaysNear, AllEncodable;
    if |es| == 0 {
      RunNone(st);
      NothingEncodable();
    } else {
      var e := es[0];
      var f := Step(cfg, enabled, c, e);
      StepRefines(cfg, enabled, c, e, d, v, st);
      RunRefines(cfg, enabled, f.after, es[1..], DeadAfter(e, d), Meaning(e, v), Run(f.code, st));
      RunAppend(f.code, Feed(cfg, enabled, f.after, es[1..]).code, st);
      EncodableAppend(f.code, Feed(cfg, enabled, f.after, es[1..]).code);
    }
  }

  /**
   Any run of accesses, additions, loads of constants and uses, ended by a flush, becomes
   instructions that can be encoded and that leave the memory, flags and live registers that it
   leaves in program order.
   */
  lemma WholeRun(cfg: Config, enabled: bool, c: Comb, es: seq<Event>, d: set<Reg>, st: State)
    requires !c.pending && c.spare <= d && Agrees(c.known, st.regs) && Clean(cfg, enabled, c, es, d) && cfg.limit >= 1
    requires var last := Feed(cfg, enabled, c, es).after; last.pending ==> !FlushFaults(cfg, last, ALL)
    ensures var f := Feed(cfg, enabled, c, es);
            var code := f.code + FlushR(cfg, f.after, ALL, false).code;
            Same(DeadAtEnd(es, d), Program(es, st), Run(code, st)) && AllEncodable(code)
  {
    hide Run, Step, Meaning, DeadAfter, FlushR, FlushFaults, AllEncodable, Feed, DeadAtEnd, Program, Same, Held, Good,
        Clean;
    var f := Feed(cfg, enabled, c, es);
    SameSelf(d, st);
    RunRefines(cfg, enabled, c, es, d, st, st);
    FlushSettles(cfg, enabled, f.after, DeadAtEnd(es, d), Program(es, st), Run(f.code, st));
    RunAppend(f.code, FlushR(cfg, f.after, ALL, false).code, st);
    EncodableAppend(f.code, FlushR(cfg, f.after, ALL, false).code);
  }
}
