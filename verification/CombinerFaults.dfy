/**
 Short programs on which the combiner goes wrong: one whose queue straddles its adjustment,
 one whose flush needs an offset of more than twelve bits, one whose load of the base is
 lost, and one in which a register still marked dead is taken for a spare one.
 */
module CombinerFaults {
  import opened Words
  import opened Arm
  import opened Immediates
  import KV = KnownValues
  import opened Transfers
  import opened Combiner
  import opened CombinerPlan
  import opened Traces
  import opened Flush
  import opened FlushExact
  import opened Combining

  // ---- a run of two loads that straddles ----

  const NOTHING: Comb := Comb(false, false, 0, map[], {}, 0, false, {}, UNKNOWN)

  function LoadOf(rd: Reg, off: int, index: Index): Event { Do(Access(true, rd, 0, off, index, false, false)) }

  /** LDR r1, [r0, #-20]; LDR r2, [r0, #-16]! */
  const STRADDLING: seq<Event> := [LoadOf(1, -20, Offset), LoadOf(2, -16, PreIndex)]

  lemma FeedTwo(cfg: Config, e1: Event, e2: Event)
    ensures var f1 := Step(cfg, true, NOTHING, e1);
            var f2 := Step(cfg, true, f1.after, e2);
            Feed(cfg, true, NOTHING, [e1, e2]) == Flushed(f1.code + f2.code, f2.after)
  {
    hide Step;
    var f1 := Step(cfg, true, NOTHING, e1);
    var f2 := Step(cfg, true, f1.after, e2);
    assert [e1, e2][1..] == [e2];
    assert [e2][1..] == [];
    assert Feed(cfg, true, f2.after, []) == Flushed([], f2.after);
    assert f2.code + [] == f2.code;
  }

  lemma NothingKnown(s: set<Reg>)
    ensures Forget(UNKNOWN, s) == UNKNOWN
  {
  }

  lemma TwoLoads(cfg: Config, o1: int, o2: int, i1: Index, i2: Index)
    requires !i2.PostIndex?
    ensures var adj1 := if i1.Offset? then 0 else o1;
            Feed(cfg, true, NOTHING, [LoadOf(1, o1, i1), LoadOf(2, o2, i2)])
            == Flushed([], Comb(true, true, 0, map[1 := if i1.PostIndex? then 0 else o1, 2 := adj1 + o2], {},
                                if i2.Offset? then adj1 else adj1 + o2, false, {1, 2}, UNKNOWN))
  {
    hide FlushR, Forget;
    FeedTwo(cfg, LoadOf(1, o1, i1), LoadOf(2, o2, i2));
    var q1: Queue := map[1 := if i1.PostIndex? then 0 else o1];
    var c1 := Comb(true, true, 0, q1, {}, if i1.Offset? then 0 else o1, false, {1}, UNKNOWN);
    NothingKnown({0});
    assert Step(cfg, true, NOTHING, LoadOf(1, o1, i1)) == Flushed([], c1);
  }

  lemma {:induction false} PlanEmpty(mask: set<Reg>, base: Reg, adj: int, limit: nat, r: nat, list: seq<Saved>,
          atEnd: bool)
    requires r <= 16 && (atEnd ==> |list| > 0)
    ensures PlanFrom(map[], mask, base, adj, limit, r, list, atEnd) == Plan(list, map[])
    decreases 16 - r
  {
    if r < 16 { PlanEmpty(mask, base, adj, limit, r + 1, list, atEnd); }
  }

  lemma {:induction false} UpNothing(rest: Queue, cur: Saved, u: nat, count: nat, limit: nat)
    requires u <= 16 && forall r: Reg :: r in rest && r >= u ==> rest[r] != cur.end + 4
    ensures Up(rest, cur, u, count, limit).saved == cur && Up(rest, cur, u, count, limit).rest == rest
    decreases 16 - u
  {
    if u < 16 && count < limit { UpNothing(rest, cur, u + 1, count + 1, limit); }
  }

  lemma {:induction false} DownNothing(rest: Queue, cur: Saved, l: int, count: nat, limit: nat)
    requires l < 16 && forall r: Reg :: r in rest && r <= l ==> rest[r] != cur.start - 4
    ensures Down(rest, cur, l, count, limit).saved == cur && Down(rest, cur, l, count, limit).rest == rest
    decreases l + 1
  {
    if l >= 0 && count < limit { DownNothing(rest, cur, l - 1, count + 1, limit); }
  }

  /** Registers 1 and 2 make a run if nothing else joins them. */
  lemma BuildPair(q: Queue, limit: nat)
    requires limit >= 3 && 1 in q && 2 in q && q[2] == q[1] + 4 && 0 !in q
    requires forall r: Reg :: r in q && r > 2 ==> q[r] != q[1] + 8
    ensures Build(q, 1, limit).saved == Saved(q[1], q[1] + 4, {1, 2}, 2) && Build(q, 1, limit).rest == q - {1, 2}
  {
    var x := q[1];
    var one := Saved(x, x, {1}, 1);
    var rest := q - {1 as Reg};
    assert Down(rest, one, 0, 1, limit) == Building(one, rest, 2);
    var two := AddHigh(one, 2);
    assert Up(rest, one, 2, 2, limit) == Up(rest - {2 as Reg}, two, 3, 3, limit);
    assert rest - {2 as Reg} == q - {1, 2};
    UpNothing(q - {1, 2}, two, 3, 3, limit);
  }

  lemma BuildOne(q: Queue, r: Reg, limit: nat)
    requires r in q && forall x: Reg :: x in q && x != r ==> q[x] != q[r] - 4 && q[x] != q[r] + 4
    ensures Build(q, r, limit).saved == Saved(q[r], q[r], {r}, r) && Build(q, r, limit).rest == q - {r}
  {
    hide Down, Up;
    var one := Saved(q[r], q[r], {r}, r);
    DownNothing(q - {r}, one, r - 1, 1, limit);
    UpNothing(q - {r}, one, r + 1, Down(q - {r}, one, r - 1, 1, limit).count, limit);
  }

  lemma PlanPair(x: int, adj: int, limit: nat)
    requires limit >= 3
    ensures PlanOf(map[1 := x, 2 := x + 4], ALL, 0, adj, limit).list == [Saved(x, x + 4, {1, 2}, 2)]
  {
    hide Build, PlanFrom, Insert;
    var q: Queue := map[1 := x, 2 := x + 4];
    BuildPair(q, limit);
    assert q - {1, 2} == map[];
    var p := Saved(x, x + 4, {1, 2}, 2);
    InsertFirst(p, 0, adj);
    PlanStep(q, 0, adj, limit, 0, []);
    PlanStep(q, 0, adj, limit, 1, []);
    PlanEmpty(ALL, 0, adj, limit, 2, [p], false);
  }

  lemma InsertFirst(p: Saved, base: Reg, adj: int)
    ensures Insert([], false, p, base, adj) == [p]
  {
  }

  /** One step of planning when the base is not loaded. */
  lemma PlanStep(q: Queue, base: Reg, adj: int, limit: nat, r: Reg, list: seq<Saved>)
    requires r in q ==> base !in Build(q, r, limit).saved.regs
    ensures r !in q ==>
            PlanFrom(q, ALL, base, adj, limit, r, list, false) == PlanFrom(q, ALL, base, adj, limit, r + 1, list, false)
    ensures r in q ==>
              var b := Build(q, r, limit);
              PlanFrom(q, ALL, base, adj, limit, r, list, false)
              == PlanFrom(b.rest, ALL, base, adj, limit, r + 1, Insert(list, false, b.saved, base, adj), false)
  {
    hide Build, Insert;
  }

  /** Fed to an empty combiner, those two loads leave a queue whose flush straddles. */
  lemma StraddlingRun(cfg: Config)
    requires cfg.limit >= 3
    ensures var c := Feed(cfg, true, NOTHING, STRADDLING).after;
            && Good(cfg, c) && Spans(c, -REACH, REACH) && FlushStraddles(cfg, c, ALL) && FlushStrays(cfg, c, ALL)
    ensures forall st: State :: var f := FlushR(cfg, Feed(cfg, true, NOTHING, STRADDLING).after, ALL, false);
              Run(f.code, st).regs[0] != Program(STRADDLING, st).regs[0]
  {
    hide Feed, PlanOf, Run, GenerateAll, Program, FlushStrays;
    TwoLoads(cfg, -20, -16, Offset, PreIndex);
    PlanPair(-20, -16, cfg.limit);
    var c := Feed(cfg, true, NOTHING, STRADDLING).after;
    assert c == Comb(true, true, 0, map[1 := -20, 2 := -16], {}, -16, false, {1, 2}, UNKNOWN);
    FlushStraddlesIff(cfg, c, ALL);
    forall st: State
      ensures Run(FlushR(cfg, c, ALL, false).code, st).regs[0] != Program(STRADDLING, st).regs[0]
    {
      StraddlingBase(cfg, c, st);
    }
  }

  lemma StraddlingBase(cfg: Config, c: Comb, st: State)
    requires cfg.limit >= 3 && c == Comb(true, true, 0, map[1 := -20, 2 := -16], {}, -16, false, {1, 2}, UNKNOWN)
    requires FlushStraddles(cfg, c, ALL) && Good(cfg, c) && Spans(c, -REACH, REACH)
    ensures Run(FlushR(cfg, c, ALL, false).code, st).regs[0] != Program(STRADDLING, st).regs[0]
  {
    hide FlushR, Run, FlushStraddles, Good, Spans, Addr, FlushLost;
    var f := FlushR(cfg, c, ALL, false);
    LostIff(cfg, c);
    BaseEnds(cfg, c, ALL, false, st);
    AddrMisses(st.regs[0], -16, FlushLost(cfg, c, ALL));
    assert c.q.Keys <= ALL;
    FlushShape(cfg, c, ALL, false);
    FlushAdjustment(cfg, c, ALL);
    HeldBase(f.after, Run(f.code, st));
    AddrZero(Run(f.code, st).regs[0]);
    StraddlingProgram(st);
  }

  lemma StraddlingProgram(st: State)
    ensures Program(STRADDLING, st).regs[0] == Addr(st.regs[0], -16)
  {
    hide Addr, Read;
    var s1 := Meaning(STRADDLING[0], st);
    assert STRADDLING[1..] == [STRADDLING[1]];
    assert STRADDLING[1..][1..] == [];
    assert Program([], Meaning(STRADDLING[1], s1)) == Meaning(STRADDLING[1], s1);
    assert s1.regs[0] == st.regs[0];
  }

  // ---- a run whose flush needs a thirteen-bit offset ----

  /** LDR r1, [r0], #4092; LDR r2, [r0, #4092] */
  const FAR: seq<Event> := [LoadOf(1, 4092, PostIndex), LoadOf(2, 4092, Offset)]

  lemma PlanFarApart(cfg: Config)
    requires cfg.limit >= 3
    ensures PlanOf(map[1 := 0, 2 := 8184], ALL, 0, 4092, cfg.limit).list
            == [Saved(0, 0, {1}, 1), Saved(8184, 8184, {2}, 2)]
  {
    hide Build, PlanFrom, Insert;
    var q: Queue := map[1 := 0, 2 := 8184];
    var rest: Queue := map[2 := 8184];
    var p1, p2 := Saved(0, 0, {1}, 1), Saved(8184, 8184, {2}, 2);
    BuildOne(q, 1, cfg.limit);
    assert q - {1 as Reg} == rest;
    BuildOne(rest, 2, cfg.limit);
    assert rest - {2 as Reg} == map[];
    InsertFirst(p1, 0, 4092);
    InsertSecond(p1, p2);
    PlanStep(q, 0, 4092, cfg.limit, 0, []);
    PlanStep(q, 0, 4092, cfg.limit, 1, []);
    PlanStep(rest, 0, 4092, cfg.limit, 2, [p1]);
    PlanEmpty(ALL, 0, 4092, cfg.limit, 3, [p1, p2], false);
  }

  lemma InsertSecond(p1: Saved, p2: Saved)
    requires p1.start < p2.start && 0 !in p2.regs
    ensures Insert([p1], false, p2, 0, 4092) == [p1, p2]
  {
    assert Position([p1], 1, p2, 4092) == 1;
  }

  /** Those two accesses fit their fields, but the flush of the queue they leave does not. */
  lemma FarRun(cfg: Config)
    requires cfg.limit >= 3
    ensures forall i :: 0 <= i < |FAR| ==> FAR[i].Do? && Encodable(InstrOf(FAR[i].a))
    ensures var c := Feed(cfg, true, NOTHING, FAR).after;
            Good(cfg, c) && FlushOverreaches(cfg, c, ALL)
                && Transfer(true, 2, 0, 8184, Offset) in FlushR(cfg, c, ALL, false).code
    ensures !Encodable(Transfer(true, 2, 0, 8184, Offset))
  {
    hide Feed, PlanOf, MoveBy, FlushR, FlushOverreaches, AllEncodable, Generate, GenerateAll;
    TwoLoads(cfg, 4092, 4092, PostIndex, Offset);
    PlanFarApart(cfg);
    var c := Comb(true, true, 0, map[1 := 0, 2 := 8184], {}, 4092, false, {1, 2}, UNKNOWN);
    assert Feed(cfg, true, NOTHING, FAR).after == c;
    var k, far := KindOf(cfg, c), Transfer(true, 2, 0, 8184, Offset);
    FarRuns(k, c.spare);
    LastOfTwo(k, Saved(0, 0, {1}, 1), Saved(8184, 8184, {2}, 2), c.spare, c.known, far);
    InFlush(cfg, c, far);
    FlushEncodableIff(cfg, c, ALL, false);
    NotEncodable(FlushR(cfg, c, ALL, false).code, far);
  }

  /** The first run cannot take the adjustment in one step, so the second is reached from where the base was. */
  lemma FarRuns(k: Kind, spare: set<Reg>)
    requires k.load && k.base == 0
    ensures var o := Generate(k, Saved(0, 0, {1}, 1), Some(8184), 4092, 0, spare, UNKNOWN); o.adj == 4092 && o.done == 0
    ensures forall s, w :: Transfer(true, 2, 0, 8184, Offset)
                           in Generate(k, Saved(8184, 8184, {2}, 2), None, 4092, 0, s, w).code
  {
    hide MoveBy, Singly;
    SinglySingle(k, 1, 0, Some(8184), 4092, 0);
    SinglySingle(k, 2, 8184, None, 4092, 0);
  }

  lemma NotEncodable(code: Code, i: Instr)
    requires i in code && !Encodable(i)
    ensures !AllEncodable(code)
  {
  }

  lemma InFlush(cfg: Config, c: Comb, i: Instr)
    requires c.pending && i in EmittedBy(cfg, c, ALL).code
    ensures i in FlushR(cfg, c, ALL, false).code
  {
    hide EmittedBy, PlanFor, MoveBy;
  }

  lemma LastOfTwo(k: Kind, p1: Saved, p2: Saved, spare: set<Reg>, known: KV.Known, far: Instr)
    requires Generate(k, p1, Some(p2.start), 4092, 0, spare, known).adj == 4092
    requires Generate(k, p1, Some(p2.start), 4092, 0, spare, known).done == 0
    requires forall s, w :: far in Generate(k, p2, None, 4092, 0, s, w).code
    ensures far in GenerateAll(k, [p1, p2], 4092, 0, spare, {}, false, known).code
  {
    hide Generate, KnownAfter;
    var o := Generate(k, p1, Some(p2.start), 4092, 0, spare, known);
    var spare', known' := SpareAfter(k, p1.regs, spare, {}), KnownAfter(k, p1, 4092, 0, spare, known);
    assert [p1, p2][1..] == [p2];
    assert far in GenerateAll(k, [p2], 4092, 0, spare', {}, false, known').code;
  }

  lemma SinglySingle(k: Kind, r: Reg, start: int, next: Option<int>, adj: int, done: int)
    ensures Singly(k, {r}, start, next, adj, done) == Single(k, r, start, next, adj, done)
  {
    hide Single;
    SinglyTo(k, r, start, next, adj, done, 0);
  }

  lemma {:induction false} SinglyTo(k: Kind, r: Reg, start: int, next: Option<int>, adj: int, done: int, i: nat)
    requires i <= 16
    ensures Singly(k, {r}, start, next, adj, done, i)
            == if i <= r then Single(k, r, start, next, adj, done) else Output([], adj, done)
    decreases 16 - i
  {
    hide Single;
    if i < 16 {
      SinglyTo(k, r, start, next, adj, done, i + 1);
      if i == r {
        var one := Single(k, r, start, next, adj, done);
        SinglyTo(k, r, start + 4, next, one.adj, one.done, i + 1);
        assert one.code + [] == one.code;
      }
    }
  }

  // ---- a run whose load of the base is lost ----

  const LOST_LOAD: Access := Access(true, 0, 0, 0, Offset, false, false)

  /** LDR r1, [r0]; LDR r2, [r0, #4]; ADD r0, r0, #100; LDR r0, [r0] */
  const LOSING: seq<Event> := [LoadOf(1, 0, Offset), LoadOf(2, 4, Offset), Add(0, 100), Do(LOST_LOAD)]

  /** What is held back when the last load arrives. */
  const BEFORE_LOSS: Comb := Comb(true, true, 0, map[1 := 0, 2 := 4], {}, 100, false, {1, 2}, UNKNOWN)

  lemma {:induction false} FeedAppend(cfg: Config, c: Comb, es: seq<Event>, fs: seq<Event>)
    ensures var f := Feed(cfg, true, c, es);
            var g := Feed(cfg, true, f.after, fs);
            Feed(cfg, true, c, es + fs) == Flushed(f.code + g.code, g.after)
    decreases |es|
  {
    hide Step;
    if |es| == 0 {
      assert es + fs == fs;
    } else {
      assert (es + fs)[1..] == es[1..] + fs;
      FeedAppend(cfg, Step(cfg, true, c, es[0]).after, es[1..], fs);
    }
  }

  /** Nothing has been emitted when the last load arrives. */
  lemma FeedLosing(cfg: Config)
    ensures var o := OutInstr(cfg, true, BEFORE_LOSS, LOST_LOAD);
            Feed(cfg, true, NOTHING, LOSING) == o
  {
    hide OutInstr, FlushR, Forget;
    TwoLoads(cfg, 0, 4, Offset, Offset);
    FeedAppend(cfg, NOTHING, LOSING[..2], LOSING[2..]);
    assert LOSING[..2] == [LoadOf(1, 0, Offset), LoadOf(2, 4, Offset)];
    assert LOSING[..2] + LOSING[2..] == LOSING;
    var c := BEFORE_LOSS.(adj := 0);
    NothingKnown({0});
    assert Step(cfg, true, c, LOSING[2]) == Flushed([], BEFORE_LOSS);
    assert LOSING[2..][1..] == [LOSING[3]];
    var o := OutInstr(cfg, true, BEFORE_LOSS, LOST_LOAD);
    assert [LOSING[3]][1..] == [];
    assert Feed(cfg, true, BEFORE_LOSS, [LOSING[3]]) == Flushed(o.code + [], o.after);
    assert o.code + [] == o.code;
  }

  lemma OneRun(k: Kind, p: Saved, adj: int, spare: set<Reg>, dead: set<Reg>, known: KV.Known)
    ensures var o := Generate(k, p, None, adj, 0, spare, known);
            var e := GenerateAll(k, [p], adj, 0, spare, dead, false, known);
            && e.adj == o.adj && e.done == o.done && e.code == o.code
            && e.known == KnownAfter(k, p, adj, 0, spare, known)
    ensures Straddles(k, [p], adj, 0, spare, dead, false, known) <==> Straddle(p, adj, 0)
    ensures Overreaches(k, [p], adj, 0, spare, dead, false, known) <==> RunTooFar(k, p, None, adj, 0, spare)
  {
    hide Generate, RunTooFar, KnownAfter;
    var o := Generate(k, p, None, adj, 0, spare, known);
    assert [p][1..] == [];
    assert o.code + [] == o.code;
    assert GenerateAll(k, [], o.adj, o.done, SpareAfter(k, p.regs, spare, dead), dead, false,
                       KnownAfter(k, p, adj, 0, spare, known)).code == [];
  }

  /** The flush absorbs 8 of the 100; the rest is still there when the load is tried again. */
  lemma StillAdjusted(cfg: Config)
    requires cfg.limit >= 3
    ensures Good(cfg, BEFORE_LOSS) && !FlushFaults(cfg, BEFORE_LOSS, ALL)
    ensures Retry(cfg, BEFORE_LOSS).adj == 92
  {
    hide PlanOf, GenerateAll, Straddles, Overreaches, FlushStrays;
    PlanPair(0, 100, cfg.limit);
    OneRun(KindOf(cfg, BEFORE_LOSS), Saved(0, 4, {1, 2}, 2), 100, {1, 2}, {}, UNKNOWN);
    assert FlushR(cfg, BEFORE_LOSS, ALL, true).after.adj == 92;
    FlushStraddlesIff(cfg, BEFORE_LOSS, ALL);
  }

  lemma ProgramOfFour(es: seq<Event>, st: State)
    requires |es| == 4
    ensures Program(es, st) == Meaning(es[3], Meaning(es[2], Meaning(es[1], Meaning(es[0], st))))
  {
    hide Meaning;
    var es1, s1 := es[1..], Meaning(es[0], st);
    var es2, s2 := es1[1..], Meaning(es1[0], s1);
    var es3, s3 := es2[1..], Meaning(es2[0], s2);
    assert Program(es1, s1) == Program(es2, s2) == Program(es3, s3) == Program(es3[1..], Meaning(es3[0], s3));
  }

  lemma LosingProgram(st: State)
    ensures Program(LOSING, st).regs[0] == Read(st.mem, Addr(st.regs[0], 100))
  {
    hide Addr, Read;
    var s1 := Meaning(LOSING[0], st);
    var s2 := Meaning(LOSING[1], s1);
    var s3 := Meaning(LOSING[2], s2);
    ProgramOfFour(LOSING, st);
    AddrZero(s3.regs[0]);
  }

  /** Whatever the memory holds, the register ends as the sum, not as the word loaded. */
  lemma LosingRun(cfg: Config, st: State)
    requires cfg.limit >= 3
    ensures var f := Feed(cfg, true, NOTHING, LOSING);
            Run(f.code + FlushR(cfg, f.after, ALL, false).code, st).regs[0] == Addr(st.regs[0], 100)
    ensures Program(LOSING, st).regs[0] == Read(st.mem, Addr(st.regs[0], 100))
  {
    hide Feed, FlushR, Run, FlushFaults, AllEncodable, Good, Addr, Retry, Held, Same, Program;
    var c, c2 := BEFORE_LOSS, Retry(cfg, BEFORE_LOSS);
    var mid := Run(FlushR(cfg, c, ALL, true).code, st);
    LosingProgram(st);
    FeedLosing(cfg);
    StillAdjusted(cfg);
    SameSelf({}, Held(c, st));
    RetryStep(cfg, true, c, {}, Held(c, st), st);
    assert OutInstr(cfg, true, c, LOST_LOAD) == Flushed(FlushR(cfg, c, ALL, true).code, c2);
    FlushOfNothing(cfg, c2, Held(c, st), mid);
    RunAppend(FlushR(cfg, c, ALL, true).code, FlushR(cfg, c2, ALL, false).code, st);
    HeldBase(c, st);
  }

  /** The last flush only adds what is left of the adjustment. */
  lemma FlushOfNothing(cfg: Config, c: Comb, v: State, st: State)
    requires Inv(cfg, true, c, {}) && Stands(c, {}, v, st) && c.pending && c.q == map[]
    ensures Run(FlushR(cfg, c, ALL, false).code, st).regs[0] == v.regs[0]
  {
    hide FlushR, Run, Good, Held, PlanFrom;
    PlanEmpty(StartMask(cfg, c, ALL), c.base, StartAdj(cfg, c), cfg.limit, 0, [], false);
    assert PlanFor(cfg, c, ALL).list == [];
    FlushSettles(cfg, true, c, {}, v, st);
  }

  // ---- a run in which a register still marked dead is taken for a spare one ----

  function StoreOn(base: Reg, rd: Reg, off: int, dead: bool): Event
  {
    Do(Access(false, rd, base, off, Offset, dead, false))
  }

  function StoreOf(rd: Reg, off: int, dead: bool): Event { StoreOn(SP, rd, off, dead) }

  /** STR r0, [sp] (its last use); STR r3, [sp]; MOV r0, #5; STR r0, [sp, #8]; STR r1, [sp, #100]; STR r2, [sp, #104] */
  const STALE: seq<Event> :=
    [StoreOf(0, 0, true), StoreOf(3, 0, false), Set(0, 5), StoreOf(0, 8, false), StoreOf(1, 100, false),
     StoreOf(2, 104, false)]

  const FIVE: KV.Known := UNKNOWN[0 := Some(5)]

  /** The first store was discarded, but its register is still marked dead. */
  const MARKED: Comb := Comb(true, false, SP, map[3 := 0], {0}, 0, false, {}, FIVE)

  /** What is held back at the end. */
  const REUSED: Comb := Comb(true, false, SP, map[3 := 0, 0 := 8, 1 := 100, 2 := 104], {0}, 0, false, {}, FIVE)

  /** A store that is queued with others and replaces none. */
  lemma StoreQueued(cfg: Config, c: Comb, rd: Reg, off: int)
    requires c.pending && !c.load && c.adj == 0 && !c.baseDead && rd != c.base
    requires c.base !in c.q && rd !in c.q && forall x: Reg :: x in c.q ==> c.q[x] != off
    ensures Step(cfg, true, c, StoreOn(c.base, rd, off, false)) == Flushed([], c.(q := c.q[rd := off]))
  {
    DiscardOf(c.q, off, 0);
    var p := Discard(c.q, off);
    forall x: Reg | x in c.q ensures x in p {}
    assert p == c.q;
    assert Forget(c.known, {}) == c.known;
  }

  lemma MarkedFirst(cfg: Config)
    ensures Feed(cfg, true, NOTHING, STALE[..3]) == Flushed([Data(AL, MOV, false, 0, 0, Imm(0, 5))], MARKED)
    ensures Stale(MARKED, StoreOf(0, 8, false).a)
  {
    var c1 := Comb(true, false, SP, map[0 := 0], {0}, 0, false, {}, UNKNOWN);
    var c2 := Comb(true, false, SP, map[3 := 0], {0}, 0, false, {}, UNKNOWN);
    FirstMarked(cfg, c1, c2);
    SecondMarked(cfg, c2);
    FeedThree(cfg, STALE[0], STALE[1], STALE[2], c1, c2);
    assert STALE[..3] == [STALE[0], STALE[1], STALE[2]];
  }

  lemma FirstMarked(cfg: Config, c1: Comb, c2: Comb)
    requires c1 == Comb(true, false, SP, map[0 := 0], {0}, 0, false, {}, UNKNOWN)
    requires c2 == Comb(true, false, SP, map[3 := 0], {0}, 0, false, {}, UNKNOWN)
    ensures Step(cfg, true, NOTHING, STALE[0]) == Flushed([], c1)
    ensures Step(cfg, true, c1, STALE[1]) == Flushed([], c2)
  {
    NothingKnown({});
    assert Discard(map[], 0) == map[] by { DiscardOf(map[], 0, 0); }
    assert Discard(map[0 := 0], 0) == map[];
  }

  lemma SecondMarked(cfg: Config, c2: Comb)
    requires c2 == Comb(true, false, SP, map[3 := 0], {0}, 0, false, {}, UNKNOWN)
    ensures Step(cfg, true, c2, STALE[2]) == Flushed([Data(AL, MOV, false, 0, 0, Imm(0, 5))], MARKED)
  {
    hide FlushR;
    assert EightBits(5) == Some(Imm(0, 5));
    assert c2.q.Keys * {0} == {};
  }

  lemma FeedThree(cfg: Config, e1: Event, e2: Event, e3: Event, c1: Comb, c2: Comb)
    requires Step(cfg, true, NOTHING, e1) == Flushed([], c1) && Step(cfg, true, c1, e2) == Flushed([], c2)
    ensures Feed(cfg, true, NOTHING, [e1, e2, e3]) == Step(cfg, true, c2, e3)
  {
    hide Step;
    assert [e1, e2, e3][1..] == [e2, e3];
    assert [e2, e3][1..] == [e3];
    assert [e3][1..] == [];
    var f := Step(cfg, true, c2, e3);
    assert f.code + [] == f.code;
    assert Feed(cfg, true, f.after, []) == Flushed([], f.after);
    assert Feed(cfg, true, c2, [e3]) == f;
    assert Feed(cfg, true, c1, [e2, e3]) == f;
  }

  lemma ReusedLater(cfg: Config)
    ensures Feed(cfg, true, MARKED, STALE[3..]) == Flushed([], REUSED)
  {
    hide Step;
    var c1 := MARKED.(q := map[3 := 0, 0 := 8]);
    var c2 := MARKED.(q := map[3 := 0, 0 := 8, 1 := 100]);
    StoreQueued(cfg, MARKED, 0, 8);
    StoreQueued(cfg, c1, 1, 100);
    StoreQueued(cfg, c2, 2, 104);
    var es := STALE[3..];
    assert es == [StoreOf(0, 8, false), StoreOf(1, 100, false), StoreOf(2, 104, false)];
    assert es[1..] == [StoreOf(1, 100, false), StoreOf(2, 104, false)];
    assert es[1..][1..] == [StoreOf(2, 104, false)];
    assert es[1..][1..][1..] == [];
    assert Feed(cfg, true, REUSED, []) == Flushed([], REUSED);
    assert Feed(cfg, true, c2, es[1..][1..]) == Flushed([], REUSED);
    assert Feed(cfg, true, c1, es[1..]) == Flushed([], REUSED);
  }

  lemma FeedStale(cfg: Config)
    ensures Feed(cfg, true, NOTHING, STALE) == Flushed([Data(AL, MOV, false, 0, 0, Imm(0, 5))], REUSED)
  {
    hide Feed;
    MarkedFirst(cfg);
    ReusedLater(cfg);
    FeedAppend(cfg, NOTHING, STALE[..3], STALE[3..]);
    assert STALE[..3] + STALE[3..] == STALE;
  }

  const R0: Saved := Saved(8, 8, {0}, 0)
  const R1R2: Saved := Saved(100, 104, {1, 2}, 2)
  const R3: Saved := Saved(0, 0, {3}, 3)

  lemma PlanReused(limit: nat)
    requires limit >= 3
    ensures PlanOf(REUSED.q, ALL, SP, 0, limit) == Plan([R0, R1R2, R3], map[])
  {
    hide Build, PlanFrom, Insert;
    var q := REUSED.q;
    var q1: Queue := map[3 := 0, 1 := 100, 2 := 104];
    var q2: Queue := map[3 := 0];
    BuildOne(q, 0, limit);
    assert q - {0 as Reg} == q1;
    BuildPair(q1, limit);
    assert q1 - {1, 2} == q2;
    BuildOne(q2, 3, limit);
    assert q2 - {3 as Reg} == map[];
    InsertFirst(R0, SP, 0);
    InsertLast([R0], R1R2);
    InsertLast([R0, R1R2], R3);
    PlanStep(q, SP, 0, limit, 0, []);
    PlanStep(q1, SP, 0, limit, 1, [R0]);
    PlanStep(q2, SP, 0, limit, 2, [R0, R1R2]);
    PlanStep(q2, SP, 0, limit, 3, [R0, R1R2]);
    assert [R0] + [R1R2] == [R0, R1R2];
    assert [R0, R1R2] + [R3] == [R0, R1R2, R3];
    PlanEmpty(ALL, SP, 0, limit, 4, [R0, R1R2, R3], false);
  }

  /** Without an adjustment runs stay in the order in which they were found. */
  lemma InsertLast(list: seq<Saved>, p: Saved)
    requires SP !in p.regs
    ensures Insert(list, false, p, SP, 0) == list + [p]
  {
    AtTheEnd(list, p, 0);
  }

  lemma {:induction false} AtTheEnd(list: seq<Saved>, p: Saved, i: nat)
    requires i <= |list|
    ensures Position(list, |list|, p, 0, i) == |list|
    decreases |list| - i
  {
    if i < |list| { AtTheEnd(list, p, i + 1); }
  }

  /** Once r0 has been stored it counts as spare, and takes the address of the next run. */
  lemma ReusedCode(cfg: Config)
    requires cfg.limit >= 3
    ensures var f := FlushR(cfg, REUSED, ALL, false);
            f.code == [Transfer(false, 0, SP, 8, Offset)]
                      + (MoveBy(0, SP, 100, UNKNOWN) + [Block(false, 0, IA, false, {1, 2})])
                      + [Transfer(false, 3, SP, 0, Offset)]
  {
    hide MoveBy, PlanOf, GenerateAll;
    var k := KindOf(cfg, REUSED);
    PlanReused(cfg.limit);
    ReusedRuns(k);
  }

  lemma ReusedRuns(k: Kind)
    requires k == Kind(false, SP, k.globals)
    ensures var e := GenerateAll(k, [R0, R1R2, R3], 0, 0, {}, {0}, false, FIVE);
            && e.adj == 0
            && e.code == [Transfer(false, 0, SP, 8, Offset)]
                         + (MoveBy(0, SP, 100, UNKNOWN) + [Block(false, 0, IA, false, {1, 2})])
                         + [Transfer(false, 3, SP, 0, Offset)]
  {
    hide MoveBy, Generate, KnownAfter, SpareAfter;
    var list1, list2 := [R1R2, R3], [R3];
    assert [R0, R1R2, R3][1..] == list1 && list1[1..] == list2;
    ReusedEach(k);
    OneRun(k, R3, 0, {0}, {0}, UNKNOWN);
    var e2 := GenerateAll(k, list2, 0, 0, {0}, {0}, false, UNKNOWN);
    var e1 := GenerateAll(k, list1, 0, 0, {0}, {0}, false, FIVE);
    assert e1.code == MoveBy(0, SP, 100, UNKNOWN) + [Block(false, 0, IA, false, {1, 2})] + e2.code && e1.adj == 0;
  }

  /** Each of the three runs. */
  lemma ReusedEach(k: Kind)
    requires k == Kind(false, SP, k.globals)
    ensures Generate(k, R0, Some(100), 0, 0, {}, FIVE) == Output([Transfer(false, 0, SP, 8, Offset)], 0, 0)
    ensures SpareAfter(k, R0.regs, {}, {0}) == {0} && KnownAfter(k, R0, 0, 0, {}, FIVE) == FIVE
    ensures Generate(k, R1R2, Some(0), 0, 0, {0}, FIVE)
            == Output(MoveBy(0, SP, 100, UNKNOWN) + [Block(false, 0, IA, false, {1, 2})], 0, 0)
    ensures SpareAfter(k, R1R2.regs, {0}, {0}) == {0} && KnownAfter(k, R1R2, 0, 0, {0}, FIVE) == UNKNOWN
    ensures Generate(k, R3, None, 0, 0, {0}, UNKNOWN) == Output([Transfer(false, 3, SP, 0, Offset)], 0, 0)
  {
    hide MoveBy, Singly;
    SinglySingle(k, 0, 8, Some(100), 0, 0);
    SinglySingle(k, 3, 0, None, 0, 0);
    assert EightBits(100) == Some(Imm(0, 100));
    assert Lowest({0}) == Some(0);
    assert FIVE[0 := None] == UNKNOWN;
    assert MoveOf(k, R1R2, 0, 0, {0}) == Moves(0, 100, true);
  }

  /** Stores without writeback change no register. */
  lemma StoreKeepsRegs(i: Instr, st: State)
    requires (i.Transfer? && !i.load && i.index.Offset?) || (i.Block? && !i.load && !i.wb)
    ensures Run([i], st).regs == st.regs
  {
    hide Addr, StoreAll;
    RunOne(i, st);
  }

  lemma StaleCodeRuns(st: State)
    ensures var code := [Transfer(false, 0, SP, 8, Offset)]
                        + (MoveBy(0, SP, 100, UNKNOWN) + [Block(false, 0, IA, false, {1, 2})])
                        + [Transfer(false, 3, SP, 0, Offset)];
            Run([Data(AL, MOV, false, 0, 0, Imm(0, 5))] + code, st).regs[0] == Addr(st.regs[SP], 100)
  {
    hide Run, MoveBy, Addr, Slip;
    var mov, str0, str3 := Data(AL, MOV, false, 0, 0, Imm(0, 5)), Transfer(false, 0, SP, 8, Offset),
        Transfer(false, 3, SP, 0, Offset);
    var stm, move := Block(false, 0, IA, false, {1, 2}), MoveBy(0, SP, 100, UNKNOWN);
    var s1 := Run([mov], st);
    FiveMoved(st);
    var s2 := Run([str0], s1);
    StoreKeepsRegs(str0, s1);
    var s3 := Run(move, s2);
    MoveByAdds(0, SP, 100, UNKNOWN, s2);
    NoSlip(0, SP, 100, UNKNOWN, s2.regs);
    var s4 := Run([stm], s3);
    StoreKeepsRegs(stm, s3);
    StoreKeepsRegs(str3, s4);
    RunAppend(move, [stm], s2);
    RunAppend([str0], move + [stm], s1);
    RunAppend([str0] + (move + [stm]), [str3], s1);
    RunAppend([mov], [str0] + (move + [stm]) + [str3], st);
  }

  lemma FiveMoved(st: State)
    ensures Run([Data(AL, MOV, false, 0, 0, Imm(0, 5))], st).regs[SP] == st.regs[SP]
  {
    RunOne(Data(AL, MOV, false, 0, 0, Imm(0, 5)), st);
  }

  lemma {:induction false} StoresKeepRegs(es: seq<Event>, st: State)
    requires forall i :: 0 <= i < |es| ==> es[i].Do? && !es[i].a.load && es[i].a.index.Offset?
    ensures Program(es, st).regs == st.regs
  {
    hide Addr;
    if |es| > 0 { StoresKeepRegs(es[1..], Meaning(es[0], st)); }
  }

  lemma StaleProgram(st: State)
    ensures Program(STALE, st).regs[0] == 5
  {
    hide Addr;
    var es1, s1 := STALE[1..], Meaning(STALE[0], st);
    var es2, s2 := es1[1..], Meaning(es1[0], s1);
    var es3, s3 := es2[1..], Meaning(es2[0], s2);
    assert es2[0] == Set(0, 5);
    assert Program(STALE, st) == Program(es1, s1) == Program(es2, s2) == Program(es3, s3);
    assert es3 == [StoreOf(0, 8, false), StoreOf(1, 100, false), StoreOf(2, 104, false)];
    StoresKeepRegs(es3, s3);
  }

  /** r0 ends as the address, not as 5, whatever the machine held. */
  lemma StaleRun(cfg: Config, st: State)
    requires cfg.limit >= 3
    ensures Faults(cfg, true, MARKED, STALE[3]) && Allowed(STALE[3], {})
    ensures var f := Feed(cfg, true, NOTHING, STALE);
            Run(f.code + FlushR(cfg, f.after, ALL, false).code, st).regs[0] == Addr(st.regs[SP], 100)
    ensures Program(STALE, st).regs[0] == 5
  {
    hide Feed, FlushR, Run, Addr, Program, MoveBy, Exec;
    FeedStale(cfg);
    ReusedCode(cfg);
    MarkedFirst(cfg);
    StaleCodeRuns(st);
    StaleProgram(st);
  }
}
