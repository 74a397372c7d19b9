/**
 A load of the base register while other loads through that register are held back: it must
 come last, and cannot be queued while an adjustment is pending.  When exactly it is right.
 */
module BaseLoads {
  import opened Words
  import opened Arm
  import opened Immediates
  import opened KnownValues
  import opened AddConstant
  import opened Transfers
  import opened Combiner
  import opened CombinerPlan
  import opened Traces
  import opened Flush
  import opened FlushExact
  import opened Combining

  /** A load whose register is still needed misses its word. */
  predicate LiveMiss(cfg: Config, c: Comb, d: set<Reg>)
  {
    exists r: Reg :: r in c.q && r !in d && Misses(cfg, c, ALL, r)
  }

  /** A load refused at first fails, if its value is needed: the base is then astray, or it is refused again. */
  predicate Fails(cfg: Config, c: Comb, a: Access)
  {
    !a.dead1 && (FlushLost(cfg, c, ALL) != 0 || Loses(cfg, c, a))
  }

  /**
   What goes wrong with a load of the base: an offset too wide, a live register that gets another
   word, or, when the load itself is live, a base astray or a load refused twice.
   */
  predicate BaseFaults(cfg: Config, c: Comb, a: Access, d: set<Reg>)
  {
    var d' := DeadAfter(Do(a), d);
    if Accepts(c, a) then FlushOverreaches(cfg, Queued(c, a), ALL) || LiveMiss(cfg, Queued(c, a), d')
    else FlushOverreaches(cfg, c, ALL) || LiveMiss(cfg, c, d') || Fails(cfg, c, a)
  }

  /** The program's state after the load, and a cache in step. */
  ghost predicate RightAt(c: Comb, a: Access, d: set<Reg>, o: Flushed, st: State)
  {
    Stands(o.after, DeadAfter(Do(a), d), Exec(InstrOf(a), Held(c, st)), Run(o.code, st))
  }

  /** The instructions can be encoded and in every state that matches the cache do what the load does. */
  ghost predicate BaseRight(cfg: Config, c: Comb, a: Access, d: set<Reg>)
  {
    var o := OutInstr(cfg, true, c, a);
    AllEncodable(o.code) && forall st: State :: Agrees(c.known, st.regs) ==> RightAt(c, a, d, o, st)
  }

  /** A load of the base register through a queue of loads on that same base. */
  ghost predicate BaseLoad(cfg: Config, c: Comb, a: Access, d: set<Reg>)
  {
    && c.pending && Inv(cfg, true, c, d) && Allowed(Do(a), d)
    && c.load && a.load && a.rn == c.base && a.rd == c.base
  }

  lemma BaseLoadFacts(cfg: Config, c: Comb, a: Access, d: set<Reg>)
    requires BaseLoad(cfg, c, a, d)
    ensures c.base !in c.q && !c.baseDead && a.index == Offset && c.base !in d && Good(cfg, c) && !Switches(true, c, a)
    ensures DeadAfter(Do(a), d) == if a.dead1 then d + {c.base} else d
    ensures Accepts(c, a) <==> c.adj == 0
    ensures c.adj != 0 ==> c.known[c.base].None?
  {
    hide Apart;
  }

  // ---- accepted ----

  /** After a flush of everything nothing is held back any more. */
  lemma AllDone(cfg: Config, c: Comb, st: State)
    requires c.pending && Good(cfg, c) && c.load && c.base in c.q
    ensures var f := FlushR(cfg, c, ALL, false);
            !f.after.pending && Held(f.after, Run(f.code, st)) == Run(f.code, st)
  {
    hide FlushR, Run, Good, Held;
    assert c.q.Keys <= ALL;
    FlushShape(cfg, c, ALL, false);
    BaseAdjustment(cfg, c);
    FreshView(FlushR(cfg, c, ALL, false).after, Run(FlushR(cfg, c, ALL, false).code, st));
  }

  /** What the program expects of a queue of loads, register by register. */
  lemma HeldLoads(c: Comb, st: State)
    requires c.load
    ensures var held, at := Held(c, st), st.regs[c.base];
            && held.mem == st.mem && held.flags == st.flags
            && forall r: Reg :: held.regs[r] == if r in c.q then Read(st.mem, Addr(at, c.q[r]))
                                                else if r == c.base then Addr(at, c.adj) else st.regs[r]
  {
    hide Addr, Read, LoadAll;
    var at := st.regs[c.base];
    forall r: Reg
      ensures Held(c, st).regs[r] == if r in c.q then Read(st.mem, Addr(at, c.q[r]))
                                     else if r == c.base then Addr(at, c.adj) else st.regs[r]
    {
      LoadAllAt(c.q, at, st.mem, st.regs[c.base := Addr(at, c.adj)], r);
    }
  }

  /** The same of the machine after the flush, with the errors of the flush. */
  lemma LoadedBy(cfg: Config, c: Comb, more: bool, st: State)
    requires c.pending && c.load && Good(cfg, c) && Agrees(c.known, st.regs)
    ensures var f, at := FlushR(cfg, c, ALL, more), st.regs[c.base];
            var err, held := Errors(cfg, c, ALL, at), Held(f.after, Run(f.code, st));
            && held.mem == st.mem && held.flags == st.flags && Run(f.code, st).mem == st.mem
            && (forall r: Reg :: r in c.q ==> held.regs[r] == Read(st.mem, Addr(at, c.q[r] + err[r])))
            && (forall r: Reg :: r !in c.q && r != c.base ==> held.regs[r] == st.regs[r])
            && (!c.baseDead && c.base !in c.q ==>
                  held.regs[c.base] == Addr(at, c.adj + FlushLost(cfg, c, ALL)))
  {
    hide FlushR, Run, Good, Held, Errors, Misses, FlushTrace, FlushLost, Addr, Read, Agrees, AgreesBut;
    assert c.q.Keys <= ALL;
    FlushLoads(cfg, c, ALL, more, st);
    TracksStart(c, st);
    ErrorsAny(cfg, c, ALL, st.regs[c.base]);
  }

  lemma LoadedCache(cfg: Config, c: Comb, more: bool, st: State)
    requires c.pending && c.load && Good(cfg, c) && Agrees(c.known, st.regs)
    requires c.base in c.q || c.known[c.base].None?
    ensures Agrees(FlushR(cfg, c, ALL, more).after.known, Run(FlushR(cfg, c, ALL, more).code, st).regs)
  {
    hide FlushR, Run, Good, Held, Errors, FlushTrace, Addr, Read, Agrees, AgreesBut, Fetched, CacheAfter;
    var f := FlushR(cfg, c, ALL, more);
    assert c.q.Keys <= ALL;
    FlushLoads(cfg, c, ALL, more, st);
    CacheIs(cfg, c, ALL, more);
    AgreesAll(f.after.known, Run(f.code, st).regs, c.base);
  }

  /** The two sides of an accepted load, in one state. */
  lemma AcceptedSides(cfg: Config, c: Comb, a: Access, d: set<Reg>, st: State)
    requires BaseLoad(cfg, c, a, d) && Accepts(c, a) && Agrees(c.known, st.regs)
    ensures var o, c1, at := OutInstr(cfg, true, c, a), Queued(c, a), st.regs[c.base];
            var want, err, end := Exec(InstrOf(a), Held(c, st)), Errors(cfg, c1, ALL, at), Run(o.code, st);
            && !o.after.pending && Agrees(o.after.known, end.regs)
            && want.mem == end.mem == st.mem && want.flags == end.flags == st.flags
            && (forall r: Reg :: r in c1.q ==> want.regs[r] == Read(st.mem, Addr(at, c1.q[r])))
            && (forall r: Reg :: r in c1.q ==> end.regs[r] == Read(st.mem, Addr(at, c1.q[r] + err[r])))
            && (forall r: Reg :: r !in c1.q ==> want.regs[r] == end.regs[r])
  {
    hide Held, FlushR, Run, Good, Queued, Errors, Exec, Agrees, Inv, Addr, Read, FlushTrace;
    var c1 := Queued(c, a);
    BaseLoadFacts(cfg, c, a, d);
    BaseQueued(cfg, true, c, a, d);
    AcceptedLoad(cfg, c, a, st);
    HeldLoads(c1, st);
    LoadedBy(cfg, c1, false, st);
    LoadedCache(cfg, c1, false, st);
    AllDone(cfg, c1, st);
    assert OutInstr(cfg, true, c, a) == FlushR(cfg, c1, ALL, false);
  }

  /** A word that is not where the error leads. */
  lemma MissShows(b: Word, off: int, w: Word)
    requires w != 0
    ensures var mem: Mem := map[Addr(b, off) := 1]; Read(mem, Addr(b, off)) == 1 && Read(mem, Addr(b, off + w)) == 0
  {
    hide Addr;
    AddrMisses(b, off, w);
  }

  lemma NoLiveMiss(cfg: Config, c: Comb, d: set<Reg>, st: State)
    requires Agrees(c.known, st.regs) && !LiveMiss(cfg, c, d)
    ensures forall r: Reg :: r in c.q && r !in d ==> Errors(cfg, c, ALL, st.regs[c.base])[r] == 0
  {
    hide Errors, Misses, Agrees, Possible;
    TracksStart(c, st);
    ErrorsAny(cfg, c, ALL, st.regs[c.base]);
  }

  lemma AcceptedIff(cfg: Config, c: Comb, a: Access, d: set<Reg>)
    requires BaseLoad(cfg, c, a, d) && Accepts(c, a)
    ensures var o := OutInstr(cfg, true, c, a);
            (forall st: State :: Agrees(c.known, st.regs) ==> RightAt(c, a, d, o, st))
            <==> !LiveMiss(cfg, Queued(c, a), DeadAfter(Do(a), d))
  {
    hide OutInstr, Agrees, Queued, DeadAfter, Accepts, RightAt, BaseLoad, LiveMiss;
    if LiveMiss(cfg, Queued(c, a), DeadAfter(Do(a), d)) {
      var st := AcceptedWrong(cfg, c, a, d);
    } else {
      forall st: State | Agrees(c.known, st.regs) ensures RightAt(c, a, d, OutInstr(cfg, true, c, a), st) {
        AcceptedRight(cfg, c, a, d, st);
      }
    }
  }

  lemma AcceptedRight(cfg: Config, c: Comb, a: Access, d: set<Reg>, st: State)
    requires BaseLoad(cfg, c, a, d) && Accepts(c, a) && Agrees(c.known, st.regs)
    requires !LiveMiss(cfg, Queued(c, a), DeadAfter(Do(a), d))
    ensures RightAt(c, a, d, OutInstr(cfg, true, c, a), st)
  {
    hide OutInstr, Run, Inv, Agrees, Queued, Exec, Addr, Read, Errors, DeadAfter, Held, Accepts, LiveMiss;
    BaseLoadFacts(cfg, c, a, d);
    BaseQueued(cfg, true, c, a, d);
    AcceptedSides(cfg, c, a, d, st);
    NoLiveMiss(cfg, Queued(c, a), DeadAfter(Do(a), d), st);
  }

  lemma AcceptedWrong(cfg: Config, c: Comb, a: Access, d: set<Reg>) returns (st: State)
    requires BaseLoad(cfg, c, a, d) && Accepts(c, a) && LiveMiss(cfg, Queued(c, a), DeadAfter(Do(a), d))
    ensures Agrees(c.known, st.regs) && !RightAt(c, a, d, OutInstr(cfg, true, c, a), st)
  {
    hide OutInstr, Run, Inv, Agrees, Queued, Exec, Addr, Read, Errors, Misses, DeadAfter, Held, Accepts;
    var c1, d' := Queued(c, a), DeadAfter(Do(a), d);
    var r: Reg :| r in c1.q && r !in d' && Misses(cfg, c1, ALL, r);
    var at := AcceptedMiss(cfg, c, a, d, r);
    st := State(CachedRegs(c.known)[c.base := at], NO_FLAGS, map[Addr(at, c1.q[r]) := 1]);
    AcceptedSides(cfg, c, a, d, st);
    MissShows(at, c1.q[r], Errors(cfg, c1, ALL, at)[r]);
  }

  /** A start from which the register misses. */
  lemma AcceptedMiss(cfg: Config, c: Comb, a: Access, d: set<Reg>, r: Reg) returns (at: Word)
    requires BaseLoad(cfg, c, a, d) && Accepts(c, a) && r in Queued(c, a).q && Misses(cfg, Queued(c, a), ALL, r)
    ensures Agrees(c.known, CachedRegs(c.known)[c.base := at]) && Errors(cfg, Queued(c, a), ALL, at)[r] != 0
  {
    hide Queued, Errors, Misses, Agrees, Inv, Good, CachedRegs, Possible;
    BaseLoadFacts(cfg, c, a, d);
    BaseQueued(cfg, true, c, a, d);
    at := MissFrom(cfg, Queued(c, a), ALL, r);
    BegunAgrees(Queued(c, a), at);
  }

  // ---- refused at first ----

  /** The queue tried again holds nothing but the adjustment. */
  lemma RetryQueue(cfg: Config, c: Comb, a: Access, d: set<Reg>)
    requires BaseLoad(cfg, c, a, d)
    ensures Retry(cfg, c).base == c.base && Retry(cfg, c).q == map[] && Retry(cfg, c).pending && Retry(cfg, c).load
    ensures Loses(cfg, c, a) <==> c.adj != 0 && Retry(cfg, c).adj != 0
  {
    hide FlushR, Good;
    assert c.q.Keys <= ALL;
    FlushShape(cfg, c, ALL, true);
  }

  /** Where the base then is, and what has been loaded. */
  lemma RetrySides(cfg: Config, c: Comb, a: Access, d: set<Reg>, st: State)
    requires BaseLoad(cfg, c, a, d) && !Accepts(c, a) && Agrees(c.known, st.regs)
    ensures var c2, at := Retry(cfg, c), st.regs[c.base];
            var err, mid := Errors(cfg, c, ALL, at), Run(FlushR(cfg, c, ALL, true).code, st);
            var held := Held(c2, mid);
            && Agrees(c2.known, mid.regs) && Inv(cfg, true, c2, d)
            && held.mem == mid.mem == st.mem && held.flags == st.flags
            && (forall r: Reg :: r in c.q ==> held.regs[r] == Read(st.mem, Addr(at, c.q[r] + err[r])))
            && (forall r: Reg :: r !in c.q && r != c.base ==> held.regs[r] == st.regs[r])
            && held.regs[c.base] == Addr(at, c.adj + FlushLost(cfg, c, ALL))
  {
    hide FlushR, Run, Good, Errors, FlushLost, Addr, Read, View, Agrees, Inv;
    BaseLoadFacts(cfg, c, a, d);
    RetryQueue(cfg, c, a, d);
    LoadedBy(cfg, c, true, st);
    LoadedCache(cfg, c, true, st);
    RetryInv(cfg, true, c, d);
    assert c.q.Keys <= ALL;
    FlushShape(cfg, c, ALL, true);
    HeldSame(FlushR(cfg, c, ALL, true).after, Retry(cfg, c), Run(FlushR(cfg, c, ALL, true).code, st));
  }

  /** The load itself: done from wherever the base is, or lost. */
  function Outcome(cfg: Config, c: Comb, a: Access, held: State): State
  {
    if Loses(cfg, c, a) then held else Exec(InstrOf(a), held)
  }

  lemma RefusedSeen(cfg: Config, c: Comb, a: Access, d: set<Reg>, st: State)
    requires BaseLoad(cfg, c, a, d) && !Accepts(c, a) && Agrees(c.known, st.regs)
    ensures var o, mid := OutInstr(cfg, true, c, a), Run(FlushR(cfg, c, ALL, true).code, st);
            && Stands(o.after, DeadAfter(Do(a), d), Outcome(cfg, c, a, Held(Retry(cfg, c), mid)), Run(o.code, st))
            && (AllEncodable(o.code) <==> !FlushOverreaches(cfg, c, ALL))
  {
    hide FlushR, Run, Good, Errors, FlushLost, Addr, Read, Held, Agrees, Inv, FlushOverreaches, AllEncodable, Exec,
        Same, DeadAfter, Queued, FlushFaults;
    var f, c2, d' := FlushR(cfg, c, ALL, true), Retry(cfg, c), DeadAfter(Do(a), d);
    var mid := Run(f.code, st);
    BaseLoadFacts(cfg, c, a, d);
    RetryQueue(cfg, c, a, d);
    RetrySides(cfg, c, a, d, st);
    assert c.q.Keys <= ALL;
    FlushEncodableIff(cfg, c, ALL, true);
    SameSelf(d, Held(c2, mid));
    if Accepts(c2, a) {
      RetriedLoad(cfg, true, c2, a, d);
      BaseStep(cfg, true, c2, a, d, Held(c2, mid), mid);
      RunAppend(f.code, AddRegOff(cfg, c2, a).code, st);
      EncodableAppend(f.code, AddRegOff(cfg, c2, a).code);
    } else {
      SameSelf(d', Held(c2, mid));
    }
  }

  /** What the program expects, register by register. */
  lemma WantedLoad(cfg: Config, c: Comb, a: Access, d: set<Reg>, st: State)
    requires BaseLoad(cfg, c, a, d)
    ensures var want, at := Exec(InstrOf(a), Held(c, st)), st.regs[c.base];
            && want.mem == st.mem && want.flags == st.flags
            && want.regs[c.base] == Read(st.mem, Addr(Addr(at, c.adj), a.off))
            && forall r: Reg :: r != c.base ==>
                 want.regs[r] == if r in c.q then Read(st.mem, Addr(at, c.q[r])) else st.regs[r]
  {
    hide Held, Addr, Read, ExecData, ExecBlock, Inv;
    BaseLoadFacts(cfg, c, a, d);
    HeldLoads(c, st);
  }

  /** What it gets. */
  lemma OutcomeAt(cfg: Config, c: Comb, a: Access, d: set<Reg>, held: State)
    requires BaseLoad(cfg, c, a, d)
    ensures var got := Outcome(cfg, c, a, held);
            && got.mem == held.mem && got.flags == held.flags
            && (forall r: Reg :: r != c.base ==> got.regs[r] == held.regs[r])
            && got.regs[c.base] == if Loses(cfg, c, a) then held.regs[c.base]
                                   else Read(held.mem, Addr(held.regs[c.base], a.off))
  {
    hide Addr, Read, ExecData, ExecBlock, Inv, Loses;
    BaseLoadFacts(cfg, c, a, d);
  }

  lemma RefusedRight(cfg: Config, c: Comb, a: Access, d: set<Reg>, st: State)
    requires BaseLoad(cfg, c, a, d) && !Accepts(c, a) && Agrees(c.known, st.regs)
    requires !LiveMiss(cfg, c, DeadAfter(Do(a), d)) && !Fails(cfg, c, a)
    ensures RightAt(c, a, d, OutInstr(cfg, true, c, a), st)
  {
    hide FlushR, Run, Good, Errors, FlushLost, Addr, Read, Held, Agrees, Inv, Exec, Queued, Loses, Accepts, Outcome,
        OutInstr, DeadAfter, Retry, LiveMiss, Switches;
    var d', mid := DeadAfter(Do(a), d), Run(FlushR(cfg, c, ALL, true).code, st);
    var held := Held(Retry(cfg, c), mid);
    var want, got := Exec(InstrOf(a), Held(c, st)), Outcome(cfg, c, a, held);
    BaseLoadFacts(cfg, c, a, d);
    RetrySides(cfg, c, a, d, st);
    RefusedSeen(cfg, c, a, d, st);
    WantedLoad(cfg, c, a, d, st);
    OutcomeAt(cfg, c, a, d, held);
    NoLiveMiss(cfg, c, d', st);
    forall r: Reg | r !in d' ensures want.regs[r] == got.regs[r] {}
  }

  /** In this state a register that is still needed ends with another value than the program's. */
  lemma RefusedWrong(cfg: Config, c: Comb, a: Access, d: set<Reg>) returns (st: State)
    requires BaseLoad(cfg, c, a, d) && !Accepts(c, a)
    requires LiveMiss(cfg, c, DeadAfter(Do(a), d)) || Fails(cfg, c, a)
    ensures Agrees(c.known, st.regs) && !RightAt(c, a, d, OutInstr(cfg, true, c, a), st)
  {
    hide FlushR, Run, Good, Errors, Misses, FlushLost, Addr, Read, Held, Agrees, Inv, Exec, Queued, Loses, Accepts,
        Outcome, OutInstr, DeadAfter, Retry, CachedRegs, Possible;
    var d', lost := DeadAfter(Do(a), d), FlushLost(cfg, c, ALL);
    BaseLoadFacts(cfg, c, a, d);
    if x: Reg :| x in c.q && x !in d' && Misses(cfg, c, ALL, x) {
      assert c.q.Keys <= ALL;
      var at := MissFrom(cfg, c, ALL, x);
      BegunAgrees(c, at);
      st := State(CachedRegs(c.known)[c.base := at], NO_FLAGS, map[Addr(at, c.q[x]) := 1]);
      MissShows(at, c.q[x], Errors(cfg, c, ALL, at)[x]);
      RefusedDiffers(cfg, c, a, d, st, x);
    } else {
      var regs := CachedRegs(c.known);
      var at := regs[c.base];
      CachedAgrees(c.known);
      var here, there := Addr(at, c.adj), Addr(at, c.adj + lost);
      var w: Word := if Loses(cfg, c, a) && there == 1 then 2 else 1;
      st := State(regs, NO_FLAGS, map[Addr(here, a.off) := w]);
      OnlyWord(Addr(here, a.off), Addr(there, a.off), w);
      if !Loses(cfg, c, a) {
        AddrMisses(at, c.adj, lost);
        OtherAddress(there, here, a.off);
      }
      RefusedDiffers(cfg, c, a, d, st, c.base);
    }
  }

  lemma OnlyWord(a: Word, b: Word, w: Word)
    ensures var mem: Mem := map[a := w]; Read(mem, a) == w && (b != a ==> Read(mem, b) == 0)
  {
  }

  lemma OtherAddress(x: Word, y: Word, off: int)
    requires x != y
    ensures Addr(x, off) != Addr(y, off)
  {
  }

  /** One register that differs is enough. */
  lemma RefusedDiffers(cfg: Config, c: Comb, a: Access, d: set<Reg>, st: State, x: Reg)
    requires BaseLoad(cfg, c, a, d) && !Accepts(c, a) && Agrees(c.known, st.regs) && x !in DeadAfter(Do(a), d)
    requires var at := st.regs[c.base];
             var err, there := Errors(cfg, c, ALL, at), Addr(at, c.adj + FlushLost(cfg, c, ALL));
             if x == c.base then
               Read(st.mem, Addr(Addr(at, c.adj), a.off))
               != if Loses(cfg, c, a) then there else Read(st.mem, Addr(there, a.off))
             else x in c.q && Read(st.mem, Addr(at, c.q[x])) != Read(st.mem, Addr(at, c.q[x] + err[x]))
    ensures !RightAt(c, a, d, OutInstr(cfg, true, c, a), st)
  {
    hide FlushR, Run, Good, Errors, FlushLost, Addr, Read, Held, Agrees, Inv, Exec, Queued, Loses, Accepts,
        Outcome, OutInstr, DeadAfter, Retry;
    var mid := Run(FlushR(cfg, c, ALL, true).code, st);
    RetrySides(cfg, c, a, d, st);
    RefusedSeen(cfg, c, a, d, st);
    WantedLoad(cfg, c, a, d, st);
    OutcomeAt(cfg, c, a, d, Held(Retry(cfg, c), mid));
  }

  // ---- the exact condition ----

  lemma BaseEncodable(cfg: Config, c: Comb, a: Access, d: set<Reg>)
    requires BaseLoad(cfg, c, a, d)
    ensures AllEncodable(OutInstr(cfg, true, c, a).code)
            <==> !FlushOverreaches(cfg, if Accepts(c, a) then Queued(c, a) else c, ALL)
  {
    hide FlushOverreaches, AllEncodable, Inv, FlushR, Good, Queued, Agrees;
    BaseLoadFacts(cfg, c, a, d);
    if Accepts(c, a) {
      BaseQueued(cfg, true, c, a, d);
      FlushEncodableIff(cfg, Queued(c, a), ALL, false);
    } else {
      var st := State(CachedRegs(c.known), NO_FLAGS, map[]);
      CachedAgrees(c.known);
      RefusedSeen(cfg, c, a, d, st);
    }
  }

  /**
   A load of the base register through a queue on that same base is done, in every state that
   matches the cache, exactly when the flush it causes needs no offset too wide and gives every
   register still needed its word and, for a load that is itself needed, it is not refused twice
   and the flush does not leave the base astray.
   */
  lemma BaseLoadIff(cfg: Config, c: Comb, a: Access, d: set<Reg>)
    requires BaseLoad(cfg, c, a, d)
    ensures Loses(cfg, c, a) <==> c.adj != 0 && Retry(cfg, c).adj != 0
    ensures BaseRight(cfg, c, a, d) <==> !BaseFaults(cfg, c, a, d)
  {
    hide RightAt, OutInstr, Inv, Agrees, AllEncodable, FlushOverreaches, LiveMiss, DeadAfter, Queued, Accepts, Retry,
        FlushLost, BaseLoad, Loses;
    RetryQueue(cfg, c, a, d);
    BaseEncodable(cfg, c, a, d);
    if Accepts(c, a) {
      AcceptedIff(cfg, c, a, d);
    } else if LiveMiss(cfg, c, DeadAfter(Do(a), d)) || Fails(cfg, c, a) {
      var st := RefusedWrong(cfg, c, a, d);
    } else {
      forall st: State | Agrees(c.known, st.regs) ensures RightAt(c, a, d, OutInstr(cfg, true, c, a), st) {
        RefusedRight(cfg, c, a, d, st);
      }
    }
  }

  /**
   When such a load is refused the base is not recorded, and the condition is one on the plan of
   the flush: a register still needed whose run follows a straddling one or is read back, or, for
   a load that is needed, any run that straddles.
   */
  lemma RefusedFaults(cfg: Config, c: Comb, a: Access, d: set<Reg>)
    requires BaseLoad(cfg, c, a, d) && !Accepts(c, a) && Spans(c, -REACH, REACH)
    ensures BaseFaults(cfg, c, a, d)
            <==> || FlushOverreaches(cfg, c, ALL)
                 || (exists r: Reg :: r in c.q && r !in DeadAfter(Do(a), d)
                       && (FlushFollows(cfg, c, ALL, r) || r in FlushReadBack(cfg, c, ALL)))
                 || (!a.dead1 && (FlushStraddles(cfg, c, ALL) || Loses(cfg, c, a)))
  {
    hide Inv, FlushOverreaches, DeadAfter, Loses, FlushLost, Misses, FlushFollows, FlushReadBack, FlushStraddles, Good,
        Spans;
    BaseLoadFacts(cfg, c, a, d);
    forall r: Reg | r in c.q
      ensures Misses(cfg, c, ALL, r) <==> FlushFollows(cfg, c, ALL, r) || r in FlushReadBack(cfg, c, ALL)
    {
      MissIff(cfg, c, r);
    }
    LostIff(cfg, c);
  }
}
