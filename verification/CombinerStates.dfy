/**
 The combiner as the compiler runs it: file-level state updated by ldm_type,
 ldmstm_generate, ldm_flush_r, ldm_addregoff, ldm_outinstr, ldm_c_flush and the cases of
 show_inst_direct that feed it (arm/gen.c).
 Each method is tied to the function that specifies it; WholeRun and FlushExactIff say
 what those functions are for.
 */
module CombinerStates {
  import opened Words
  import opened Arm
  import opened Immediates
  import opened KnownValues
  import LoadConstant
  import opened Transfers
  import opened Combiner
  import opened CombinerPlan
  import opened Traces
  import opened Flush
  import opened Combining
  import opened FlushExact

  /** ldm_reinit, with the registers that are free and those whose values are known. */
  function Empty(spare: set<Reg>, known: Known): Comb { Comb(false, false, 0, map[], {}, 0, false, spare, known) }

  class CombinerState {
    const cfg: Config
    const enabled: bool
    var pending: bool
    var isload: bool
    var basereg: Reg
    var offset: Queue
    var deadregs: set<Reg>
    var baseadjust: int
    var baseadjusted: int
    var basedead: bool
    var spareregs: set<Reg>
    var known: Known
    var code: Code

    /** The state as a value; baseadjusted means something only during a flush. */
    function Value(): Comb
      reads this
    {
      Comb(pending, isload, basereg, offset, deadregs, baseadjust, basedead, spareregs, known)
    }

    function RunKind(): Kind
      reads this
    {
      Kind(isload, basereg, cfg.globals)
    }

    constructor (cfg: Config, enabled: bool, spare: set<Reg>, known: Known)
      ensures Value() == Empty(spare, known) && code == [] && this.cfg == cfg && this.enabled == enabled
    {
      this.cfg := cfg;
      this.enabled := enabled;
      pending := false;
      isload := false;
      basereg := 0;
      offset := map[];
      deadregs := {};
      baseadjust := 0;
      baseadjusted := 0;
      basedead := false;
      spareregs := spare;
      this.known := known;
      code := [];
    }

    method Put(c: Code)
      modifies `code
      ensures code == old(code) + c
    {
      code := code + c;
    }

    /** Record a movement that is part of the adjustment, and ask for writeback. */
    method LdmType(end: int) returns (wb: bool)
      modifies `baseadjust, `baseadjusted
      ensures wb == Within(old(baseadjust), end)
      ensures baseadjust == if wb then old(baseadjust) - end else old(baseadjust)
      ensures baseadjusted == if wb then old(baseadjusted) + end else old(baseadjusted)
    {
      wb := Within(baseadjust, end);
      if wb {
        baseadjusted := baseadjusted + end;
        baseadjust := baseadjust - end;
      }
    }

    method PutSingle(r: Reg, start: int, next: Option<int>)
      modifies `code, `baseadjust, `baseadjusted
      ensures var o := Single(RunKind(), r, start, next, old(baseadjust), old(baseadjusted));
              code == old(code) + o.code && baseadjust == o.adj && baseadjusted == o.done
    {
      var off := start - baseadjusted;
      var index := Offset;
      if off == 0 && baseadjust != 0 {
        if next.None? {
          if -0xfff <= baseadjust <= 0xfff { off := baseadjust; }
        } else {
          var n := next.value - baseadjusted;
          if Within(baseadjust, n) && -0xfff <= n <= 0xfff { off := n; }
        }
        if off != 0 {
          index := PostIndex;
          baseadjusted := baseadjusted + off;
          baseadjust := baseadjust - off;
        }
      } else {
        var wb := LdmType(off);
        if wb { index := PreIndex; }
      }
      Put([Transfer(isload, r, basereg, off, index)]);
    }

    method PutSingly(p: Saved, next: Option<int>)
      modifies `code, `baseadjust, `baseadjusted
      ensures var o := Singly(RunKind(), p.regs, p.start, next, old(baseadjust), old(baseadjusted));
              code == old(code) + o.code && baseadjust == o.adj && baseadjusted == o.done
    {
      hide Single;
      var start := p.start;
      ghost var o := Singly(RunKind(), p.regs, p.start, next, baseadjust, baseadjusted);
      var r := 0;
      while r < 16
        invariant r <= 16
        invariant var rest := Singly(RunKind(), p.regs, start, next, baseadjust, baseadjusted, r);
                  code + rest.code == old(code) + o.code && rest.adj == o.adj && rest.done == o.done
      {
        if r in p.regs {
          ghost var before := code;
          ghost var rest := Singly(RunKind(), p.regs, start, next, baseadjust, baseadjusted, r);
          PutSingle(r, start, next);
          start := start + 4;
          ghost var later := Singly(RunKind(), p.regs, start, next, baseadjust, baseadjusted, r + 1);
          assert before + rest.code == code + later.code;
        }
        r := r + 1;
      }
    }

    /** KillKnownRegisterValues */
    method Kill(s: set<Reg>)
      modifies `known
      ensures known == Forget(old(known), s)
    {
      var r := 0;
      while r < 16
        invariant r <= 16
        invariant forall x: Reg :: known[x] == if x in s && x < r then None else old(known)[x]
      {
        if r in s { known := known[r := None]; }
        r := r + 1;
      }
      assert known == Forget(old(known), s);
    }

    /** A register to use for a while; what was known of it is lost. */
    method GetTempReg() returns (r: Option<Reg>)
      modifies `known
      ensures r == Lowest(spareregs)
      ensures known == if r.Some? then old(known)[r.value := None] else old(known)
    {
      var k := 0;
      while k < 16
        invariant k <= 16 && Lowest(spareregs) == Lowest(spareregs, k) && known == old(known)
      {
        if k in spareregs {
          known := known[k := None];
          return Some(k);
        }
        k := k + 1;
      }
      return None;
    }

    /** A run reached from the base. */
    method PutShaped(p: Saved, sh: Shape)
      modifies `code, `baseadjust, `baseadjusted
      ensures var o := Shaped(RunKind(), p, sh, old(baseadjust), old(baseadjusted), known);
              code == old(code) + o.code && baseadjust == o.adj && baseadjusted == o.done
    {
      hide MoveBy;
      var wb := LdmType(sh.move);
      if sh.addon != 0 { Put(MoveBy(basereg, basereg, sh.addon, known)); }
      Put([Block(isload, basereg, sh.mode, wb, p.regs)]);
    }

    /** A run for which b gets an address of its own. */
    method PutPlaced(p: Saved, b: Reg, altered: bool)
      modifies `code, `baseadjust, `baseadjusted
      ensures var o := Placed(RunKind(), p, b, altered, old(baseadjust), old(baseadjusted), known);
              code == old(code) + o.code && baseadjust == o.adj && baseadjusted == o.done
    {
      hide MoveBy, Elsewhere;
      var e := Elsewhere(p.start - baseadjusted, p.end - baseadjusted);
      Put(MoveBy(b, basereg, e.addon, known));
      Put([Block(isload, b, e.mode, false, p.regs)]);
      if altered {
        baseadjusted := baseadjusted + e.addon;
        baseadjust := baseadjust - e.addon;
      }
    }

    /** ldmstm_generate */
    method GenerateRun(p: Saved, next: Option<int>)
      modifies `code, `baseadjust, `baseadjusted, `known
      ensures var m := MoveOf(RunKind(), p, old(baseadjust), old(baseadjusted), spareregs);
              var o := Generate(RunKind(), p, next, old(baseadjust), old(baseadjusted), spareregs, old(known));
              && code == old(code) + o.code && baseadjust == o.adj && baseadjusted == o.done
              && known == Claimed(m, old(known))
    {
      hide Shaped, Placed, ShapeOf, Singly, Elsewhere, Lowest;
      if p.start == p.end {
        PutSingly(p, next);
        return;
      }
      var sh := ShapeOf(p.start - baseadjusted, p.end - baseadjusted, baseadjust);
      if sh.Some? {
        PutShaped(p, sh.value);
        return;
      }
      if isload {
        PutPlaced(p, p.last, false);
      } else if basereg == SP || basereg in cfg.globals {
        var temp := GetTempReg();
        if temp.None? { PutSingly(p, next); } else { PutPlaced(p, temp.value, false); }
      } else {
        PutPlaced(p, basereg, true);
      }
    }

    /** Take a run that starts from register r out of the queue. */
    method BuildRun(r: Reg) returns (cur: Saved)
      requires r in offset
      modifies `offset
      ensures var b := Build(old(offset), r, cfg.limit); cur == b.saved && offset == b.rest
    {
      hide IsSaved;
      ghost var down := Down(offset - {r}, Saved(offset[r], offset[r], {r}, r), r - 1, 1, cfg.limit);
      ghost var up := Up(down.rest, down.saved, r + 1, down.count, cfg.limit);
      cur := Saved(offset[r], offset[r], {r}, r);
      offset := offset - {r};
      var count: nat := 1;
      var lastr: int := r - 1;
      while lastr >= 0 && count < cfg.limit
        invariant -1 <= lastr < 16
        invariant Down(offset, cur, lastr, count, cfg.limit) == down
        decreases lastr
      {
        var q: Reg := lastr;
        if q in offset && offset[q] == cur.start - 4 {
          offset := offset - {q};
          cur := AddLow(cur, q);
        }
        lastr := lastr - 1;
        count := count + 1;
      }
      var upr: nat := r + 1;
      while upr < 16 && count < cfg.limit
        invariant upr <= 16
        invariant Up(offset, cur, upr, count, cfg.limit) == up
        decreases 16 - upr
      {
        var q: Reg := upr;
        if q in offset && offset[q] == cur.end + 4 {
          offset := offset - {q};
          cur := AddHigh(cur, q);
        }
        upr := upr + 1;
        count := count + 1;
      }
    }

    /** Put a run in its place in the list. */
    method InsertRun(list: seq<Saved>, atEnd: bool, cur: Saved) returns (more: seq<Saved>)
      requires atEnd ==> |list| > 0
      ensures more == Insert(list, atEnd, cur, basereg, baseadjust)
    {
      if basereg in cur.regs { return list + [cur]; }
      var stop := if atEnd then |list| - 1 else |list|;
      var i := 0;
      while i < stop
          && !((baseadjust > 0 && cur.start < list[i].start) || (baseadjust < 0 && cur.start > list[i].start))
        invariant i <= stop && Position(list, stop, cur, baseadjust) == Position(list, stop, cur, baseadjust, i)
      {
        i := i + 1;
      }
      more := list[..i] + [cur] + list[i..];
    }

    /** Pretend writeback for a dead base, unless the sign of an offset differs from that of the one before. */
    method PretendWriteback() returns (fake: bool)
      requires baseadjust == 0
      modifies `baseadjust
      ensures fake == Pretended(offset).Some?
      ensures baseadjust == if fake then Pretended(offset).value else 0
    {
      var maxoffset: int := 0;
      fake := true;
      var r: nat := 0;
      while r < 16
        invariant r <= 16 && Pretended(offset) == Pretended(offset, r, maxoffset, fake)
      {
        if r in offset {
          var off := offset[r];
          if maxoffset == 0 || (maxoffset >= 0 && off >= 0) || (maxoffset <= 0 && off <= 0) {
            maxoffset := off;
          } else {
            fake := false;
          }
        }
        r := r + 1;
      }
      if fake { baseadjust := maxoffset; }
    }

    /** Divide the registers of `mask` into runs. */
    method PlanRuns(mask: set<Reg>) returns (list: seq<Saved>)
      modifies `offset
      ensures var plan := PlanOf(old(offset), mask, basereg, baseadjust, cfg.limit);
              list == plan.list && offset == plan.rest
    {
      hide Build, Insert;
      ghost var plan := PlanOf(offset, mask, basereg, baseadjust, cfg.limit);
      list := [];
      var atEnd := false;
      var r: nat := 0;
      while r < 16
        invariant r <= 16 && (atEnd ==> |list| > 0)
        invariant PlanFrom(offset, mask, basereg, baseadjust, cfg.limit, r, list, atEnd) == plan
      {
        if r in offset && r in mask {
          var cur := BuildRun(r);
          InsertNonempty(list, atEnd, cur, basereg, baseadjust);
          list := InsertRun(list, atEnd, cur);
          if basereg in cur.regs { atEnd := true; }
        }
        r := r + 1;
      }
    }

    /** Generate the code of the first run of a list, and see what that frees or claims. */
    method GenerateFirst(list: seq<Saved>)
      requires |list| > 0
      modifies `code, `baseadjust, `baseadjusted, `spareregs, `known
      ensures var adj0 := AdjFor(list, old(baseadjust), basedead);
              var o := Generate(RunKind(), list[0], NextStart(list), adj0, old(baseadjusted), old(spareregs),
                  old(known));
              && code == old(code) + o.code && baseadjust == o.adj && baseadjusted == o.done
              && spareregs == SpareAfter(RunKind(), list[0].regs, old(spareregs), deadregs)
              && known == KnownAfter(RunKind(), list[0], adj0, old(baseadjusted), old(spareregs), old(known))
    {
      hide Generate, MoveOf;
      if basedead && |list| == 1 { baseadjust := 0; }
      LoadsClaimNothing(RunKind(), list[0], baseadjust, baseadjusted, spareregs, known);
      GenerateRun(list[0], NextStart(list));
      if isload {
        Kill(list[0].regs);
        spareregs := spareregs - list[0].regs;
      } else {
        spareregs := spareregs + list[0].regs * deadregs;
      }
    }

    /** Generate the code of every run of the list. */
    method GenerateRuns(list: seq<Saved>)
      modifies `code, `baseadjust, `baseadjusted, `spareregs, `known
      ensures var e := GenerateAll(RunKind(), list, old(baseadjust), old(baseadjusted), old(spareregs), deadregs,
              basedead, old(known));
              && code == old(code) + e.code && baseadjust == e.adj && baseadjusted == e.done && spareregs == e.spare
              && known == e.known
    {
      hide Generate, KnownAfter, SpareAfter;
      ghost var e := GenerateAll(RunKind(), list, baseadjust, baseadjusted, spareregs, deadregs, basedead, known);
      var ldm := list;
      while |ldm| > 0
        invariant var rest := GenerateAll(RunKind(), ldm, baseadjust, baseadjusted, spareregs, deadregs, basedead,
                      known);
                  code + rest.code == old(code) + e.code && rest.adj == e.adj && rest.done == e.done
                      && rest.spare == e.spare && rest.known == e.known
        decreases |ldm|
      {
        ghost var before := code;
        ghost var rest := GenerateAll(RunKind(), ldm, baseadjust, baseadjusted, spareregs, deadregs, basedead, known);
        GenerateFirst(ldm);
        ldm := ldm[1..];
        ghost var later := GenerateAll(RunKind(), ldm, baseadjust, baseadjusted, spareregs, deadregs, basedead, known);
        assert before + rest.code == code + later.code;
      }
    }

    /** The registers to flush, and the writeback pretended for a dead base. */
    method StartFlush(mask: set<Reg>) returns (regs: set<Reg>)
      modifies `baseadjust
      ensures baseadjust == StartAdj(cfg, old(Value())) && regs == StartMask(cfg, old(Value()), mask)
    {
      hide Pretended;
      regs := mask;
      if baseadjust != 0 {
        regs := ALL;
      } else if basedead && basereg !in offset && !cfg.debugVars {
        var fake := PretendWriteback();
        if fake { regs := ALL; }
      }
    }

    /** What is left to do after the runs of a flush. */
    method EndFlush(basefree: bool, moreforbase: bool)
      modifies `code, `offset, `deadregs, `baseadjust, `spareregs, `known
      ensures var known0 := if baseadjusted != 0 then old(known)[basereg := None] else old(known);
              var add := old(offset) == map[] && old(baseadjust) != 0 && !basedead && !moreforbase;
              && code == old(code) + (if add then MoveBy(basereg, basereg, old(baseadjust), known0) else [])
              && offset == Rebased(old(offset), baseadjusted) && deadregs == old(deadregs) * old(offset).Keys
              && baseadjust == (if add then 0 else old(baseadjust)) && known == known0
              && spareregs == if old(offset) == map[] && basefree then old(spareregs) + {basereg} else old(spareregs)
    {
      hide MoveBy;
      deadregs := deadregs * offset.Keys;
      if offset == map[] && basefree { spareregs := spareregs + {basereg}; }
      if baseadjusted != 0 { known := known[basereg := None]; }
      if offset != map[] {
        offset := Rebased(offset, baseadjusted);
      } else if baseadjust != 0 && !basedead && !moreforbase {
        Put(MoveBy(basereg, basereg, baseadjust, known));
        baseadjust := 0;
      }
    }

    /** ldm_flush_r */
    method FlushRegs(mask: set<Reg>, moreforbase: bool)
      modifies `code, `pending, `offset, `deadregs, `baseadjust, `baseadjusted, `spareregs, `known
      ensures var f := FlushR(cfg, old(Value()), mask, moreforbase);
              code == old(code) + f.code && Value() == f.after
    {
      hide GenerateAll, PlanOf, StartAdj, StartMask, MoveBy;
      if !pending { return; }
      ghost var c := Value();
      var regs := StartFlush(mask);
      baseadjusted := 0;
      var basefree := basedead && basereg !in offset;
      var ldm := PlanRuns(regs);
      pending := offset != map[];
      GenerateRuns(ldm);
      EndFlush(basefree, moreforbase);
    }

    /** Forget the first pending store to the same place: nothing has used it. */
    method DiscardStore(off: int)
      modifies `offset
      ensures offset == Discard(old(offset), off)
    {
      var r: nat := 0;
      while r < 16
        invariant r <= 16 && Discard(offset, off) == Discard(offset, off, r)
        invariant offset == old(offset)
      {
        if r in offset && offset[r] == off {
          offset := offset - {r as Reg};
          return;
        }
        r := r + 1;
      }
    }

    /** The access at this offset, with what it says of its registers. */
    method Record(a: Access, off: int, newadjust: int)
      modifies `offset, `deadregs, `baseadjust, `spareregs, `basedead
      ensures var c := old(Value());
              Value() == c.(q := c.q[a.rd := off], adj := newadjust, baseDead := a.dead2,
                            dead := if a.dead1 then c.dead + {a.rd} else c.dead,
                            spare := if c.load && c.base != a.rd then c.spare + {a.rd} else c.spare)
    {
      offset := offset[a.rd := off];
      baseadjust := newadjust;
      basedead := a.dead2;
      if a.dead1 { deadregs := deadregs + {a.rd}; }
      if isload && basereg != a.rd { spareregs := spareregs + {a.rd}; }
    }

    /** The part of ldm_addregoff that decides and records. */
    method Enqueue(a: Access) returns (ok: bool)
      requires pending
      modifies `offset, `deadregs, `baseadjust, `spareregs, `basedead
      ensures ok == Accepts(old(Value()), a)
      ensures !ok ==> Value() == old(Value())
      ensures ok ==> Value() == Queued(old(Value()), a)
    {
      hide Discard;
      var off, newadjust := baseadjust, baseadjust + a.off;
      if !a.index.PostIndex? {
        off := baseadjust + a.off;
        newadjust := if a.index.PreIndex? then off else baseadjust;
      }
      if (a.rd == basereg || basereg in offset) && newadjust != 0 { return false; }
      if a.rd in offset {
        if !isload && offset[a.rd] != off { return false; }
      } else if !isload {
        DiscardStore(off);
      }
      Record(a, off, newadjust);
      return true;
    }

    /** ldm_addregoff */
    method AddRegister(a: Access) returns (ok: bool)
      requires pending
      modifies `code, `pending, `offset, `deadregs, `baseadjust, `baseadjusted, `spareregs, `basedead, `known
      ensures ok == Accepts(old(Value()), a)
      ensures !ok ==> Value() == old(Value()) && code == old(code)
      ensures ok ==> var f := AddRegOff(cfg, old(Value()), a); code == old(code) + f.code && Value() == f.after
    {
      hide FlushR, Queued, Accepts;
      ok := Enqueue(a);
      if ok && a.rd == basereg { FlushRegs(ALL, false); }
    }

    /** ldm_outinstr */
    method OutInstruction(a: Access)
      modifies this
      ensures var f := OutInstr(cfg, enabled, old(Value()), a);
              code == old(code) + f.code && Value() == f.after
    {
      hide FlushR, Queued, Accepts, AddRegOff;
      ghost var c := Value();
      if pending {
        if !enabled || isload != a.load || basereg != a.rn || (a.rd == a.rn && !a.load) {
          FlushRegs(ALL, false);
        } else {
          var ok := AddRegister(a);
          if ok { return; }
          FlushRegs(ALL, true);
          ghost var flushed := code;
          pending := true;
          offset := map[];
          deadregs := {};
          assert Value() == Retry(cfg, c);
          ok := AddRegister(a);
          return;
        }
      }
      StartInstruction(a);
    }

    method StartInstruction(a: Access)
      modifies this
      ensures var f := StartAccess(cfg, enabled, old(Value()), a);
              code == old(code) + f.code && Value() == f.after
    {
      hide FlushR, Queued;
      ghost var c := Value();
      if !enabled || a.rn == a.rd {
        Put([InstrOf(a)]);
        Kill({a.rd, a.rn});
        return;
      }
      pending := true;
      isload := a.load;
      basereg := a.rn;
      offset := map[];
      deadregs := {};
      baseadjust := 0;
      assert Value() == Fresh(c, a);
      var ok := AddRegister(a);
    }

    /** ldm_c_flush */
    method FlushFor(regs: set<Reg>)
      modifies `code, `pending, `offset, `deadregs, `baseadjust, `baseadjusted, `spareregs, `known
      ensures var f := CFlush(cfg, old(Value()), regs);
              code == old(code) + f.code && Value() == f.after
    {
      hide FlushR;
      if pending {
        if basereg in regs {
          FlushRegs(ALL, false);
        } else if offset.Keys * regs != {} {
          FlushRegs(regs, false);
        }
      }
    }

    /** J_ADDK with one register. */
    method AddConstantTo(r: Reg, k: int)
      modifies `code, `pending, `offset, `deadregs, `baseadjust, `baseadjusted, `spareregs, `known
      ensures var f := AddK(cfg, old(Value()), r, k);
              code == old(code) + f.code && Value() == f.after
    {
      hide FlushR, CFlush, MoveBy;
      if pending && r == basereg && k <= 0xfff {
        baseadjust := baseadjust + k;
        return;
      }
      if r == SP && ((k < 0 && !(pending && isload)) || (k > 0 && !(pending && !isload))) {
        FlushRegs(ALL, false);
      } else {
        FlushFor({r});
      }
      Put(MoveBy(r, r, k, known));
    }

    /** J_MOVK */
    method SetConstant(r: Reg, n: Word)
      modifies `code, `pending, `offset, `deadregs, `baseadjust, `baseadjusted, `spareregs, `known
      ensures var f := MovK(cfg, old(Value()), r, n);
              code == old(code) + f.code && Value() == f.after
    {
      hide CFlush, LoadConstant.LoadCode;
      FlushFor({r});
      Put(LoadConstant.LoadCode(r, n, false, known));
      known := known[r := Some(n)];
    }

    /** J_LDRK and J_STRK: adjustipvalue for a base that is moved, then ldm_outinstr. */
    method AccessWord(a: Access)
      modifies this
      ensures var f := OutInstr(cfg, enabled, Adjusted(old(Value()), a), a);
              code == old(code) + f.code && Value() == f.after
    {
      hide OutInstr;
      if !a.index.Offset? { Kill({a.rn}); }
      OutInstruction(a);
    }

    /** UpdateRegisters, after the case for the event: a word access is passed over (RU_NONE). */
    method UpdateRegisters(e: Event)
      modifies `spareregs, `known
      ensures Value() == Settled(old(Value()), e)
    {
      if !e.Do? {
        spareregs := spareregs - Written(e);
        if !e.Set? { Kill(Written(e)); }
      }
    }

    /** show_inst_direct */
    method Show(e: Event)
      modifies this
      ensures var f := Step(cfg, enabled, old(Value()), e);
              code == old(code) + f.code && Value() == f.after
    {
      hide OutInstr, AddK, MovK, CFlush, Settled;
      match e {
        case Do(a) => AccessWord(a);
        case Add(r, k) => AddConstantTo(r, k);
        case Set(r, n) => SetConstant(r, n);
        case Use(regs) => FlushFor(regs);
      }
      UpdateRegisters(e);
    }

    /** Any run of events: the emitted code and the queue are those of Feed, about which WholeRun speaks. */
    method FeedAll(es: seq<Event>)
      modifies this
      ensures var f := Feed(cfg, enabled, old(Value()), es);
              code == old(code) + f.code && Value() == f.after
    {
      hide Step;
      ghost var f := Feed(cfg, enabled, Value(), es);
      var todo := es;
      while |todo| > 0
        invariant var rest := Feed(cfg, enabled, Value(), todo);
                  code + rest.code == old(code) + f.code && rest.after == f.after
        decreases |todo|
      {
        ghost var before, rest := code, Feed(cfg, enabled, Value(), todo);
        Show(todo[0]);
        todo := todo[1..];
        assert before + rest.code == code + Feed(cfg, enabled, Value(), todo).code;
      }
    }
  }

  lemma LoadsClaimNothing(k: Kind, p: Saved, adj: int, done: int, spare: set<Reg>, known: Known)
    ensures k.load ==> Claimed(MoveOf(k, p, adj, done, spare), known) == known
  {
  }

  lemma InsertNonempty(list: seq<Saved>, atEnd: bool, cur: Saved, base: Reg, adj: int)
    requires atEnd ==> |list| > 0
    ensures |Insert(list, atEnd, cur, base, adj)| == |list| + 1
  {
  }

  /**
   Compile a run of accesses, additions, loads of constants and uses from an empty combiner and
   flush it: the code can be encoded, and for every initial state in step with the cache it
   leaves the memory, the flags and the live registers that the program leaves.
   */
  method CompileRun(cfg: Config, enabled: bool, spare: set<Reg>, known: Known, es: seq<Event>, ghost d: set<Reg>)
    returns (code: Code)
    requires cfg.limit >= 1 && spare <= d && Clean(cfg, enabled, Empty(spare, known), es, d)
    requires var last := Feed(cfg, enabled, Empty(spare, known), es).after;
             last.pending ==> !FlushFaults(cfg, last, ALL)
    ensures AllEncodable(code)
    ensures forall st: State :: Agrees(known, st.regs) ==> Same(DeadAtEnd(es, d), Program(es, st), Run(code, st))
  {
    hide Feed, FlushR, FlushFaults, AllEncodable, Clean, Run, Program, Same, DeadAtEnd, Agrees;
    var c := Empty(spare, known);
    var s := new CombinerState(cfg, enabled, spare, known);
    s.FeedAll(es);
    ghost var f := Feed(cfg, enabled, c, es);
    assert s.code == f.code;
    s.FlushRegs(ALL, false);
    code := s.code;
    CachedAgrees(known);
    WholeRun(cfg, enabled, c, es, d, State(CachedRegs(known), NO_FLAGS, map[]));
    forall st: State | Agrees(known, st.regs) ensures Same(DeadAtEnd(es, d), Program(es, st), Run(code, st)) {
      WholeRun(cfg, enabled, c, es, d, st);
    }
  }
}
