/**
 How a flush divides the queue into runs (arm/gen.c, first half of ldm_flush_r).

 Registers are taken in ascending order; each collects neighbours below and above it
 whose offsets continue the run, while the number of registers looked at stays under
 the limit.  Runs are kept sorted by offset in the direction of the adjustment, and a
 run that loads the base itself goes last.
 */
module CombinerPlan {
  import opened Arm
  import opened Transfers
  import opened Combiner

  datatype Building = Building(saved: Saved, rest: Queue, count: nat)

  function AddLow(p: Saved, r: Reg): Saved { Saved(p.start - 4, p.end, p.regs + {r}, p.last) }

  function AddHigh(p: Saved, r: Reg): Saved { Saved(p.start, p.end + 4, p.regs + {r}, r) }

  function Down(rest: Queue, cur: Saved, l: int, count: nat, limit: nat): Building
    requires l < 16
    decreases l + 1
  {
    if l < 0 || count >= limit then Building(cur, rest, count)
    else
      var r: Reg := l;
      if r in rest && rest[r] == cur.start - 4
      then Down(rest - {r}, AddLow(cur, r), l - 1, count + 1, limit)
      else Down(rest, cur, l - 1, count + 1, limit)
  }

  function Up(rest: Queue, cur: Saved, u: nat, count: nat, limit: nat): Building
    requires u <= 16
    decreases 16 - u
  {
    if u == 16 || count >= limit then Building(cur, rest, count)
    else
      var r: Reg := u;
      if r in rest && rest[r] == cur.end + 4
      then Up(rest - {r}, AddHigh(cur, r), u + 1, count + 1, limit)
      else Up(rest, cur, u + 1, count + 1, limit)
  }

  /** The run that starts from register r. */
  function Build(q: Queue, r: Reg, limit: nat): Building
    requires r in q
  {
    var b := Down(q - {r}, Saved(q[r], q[r], {r}, r), r - 1, 1, limit);
    Up(b.rest, b.saved, r + 1, b.count, limit)
  }

  // ---- ranks ----

  lemma {:induction false} RankAdd(s: set<Reg>, x: Reg, k: nat)
    requires x !in s && k <= 16
    ensures Rank(s + {x}, k) == Rank(s, k) + if x < k then 1 else 0
  {
    if k > 0 { RankAdd(s, x, k - 1); }
  }

  lemma {:induction false} RankNone(s: set<Reg>, k: nat)
    requires forall x: Reg :: x in s ==> x >= k
    ensures Rank(s, k) == 0
  {
    if k > 0 { RankNone(s, k - 1); }
  }

  lemma {:induction false} RankAll(s: set<Reg>, k: nat, j: nat)
    requires k <= j <= 16 && forall x: Reg :: x in s ==> x < k
    ensures Rank(s, k) == Rank(s, j)
  {
    if k < j { RankAll(s, k, j - 1); }
  }

  lemma {:induction false} RankAgree(s: set<Reg>, t: set<Reg>, k: nat)
    requires k <= 16 && forall x: Reg :: x < k ==> (x in s <==> x in t)
    ensures Rank(s, k) == Rank(t, k)
  {
    if k > 0 { RankAgree(s, t, k - 1); }
  }

  lemma {:induction false} RankBetween(s: set<Reg>, t: set<Reg>, j: nat, k: nat)
    requires j <= k <= 16 && forall x: Reg :: j <= x < k ==> (x in s <==> x in t)
    ensures Rank(s, k) - Rank(s, j) == Rank(t, k) - Rank(t, j)
  {
    if j < k { RankBetween(s, t, j, k - 1); }
  }

  // ---- building a run ----

  /** A run taken out of q, and what it leaves. */
  ghost predicate TakenFrom(q: Queue, p: Saved, rest: Queue)
  {
    IsSaved(q, p) && rest == q - p.regs
  }

  lemma TakeLow(q: Queue, p: Saved, rest: Queue, r: Reg)
    requires TakenFrom(q, p, rest) && r in rest && rest[r] == p.start - 4
    requires forall x: Reg :: x in p.regs ==> x > r
    ensures TakenFrom(q, AddLow(p, r), rest - {r})
  {
    hide Rank;
    var s := p.regs + {r};
    RankAdd(p.regs, r, 16);
    RankAdd(p.regs, r, r);
    RankNone(p.regs, r);
    forall x: Reg | x in s ensures q[x] == p.start - 4 + 4 * Rank(s, x) {
      RankAdd(p.regs, r, x);
    }
  }

  lemma TakeHigh(q: Queue, p: Saved, rest: Queue, r: Reg)
    requires TakenFrom(q, p, rest) && r in rest && rest[r] == p.end + 4
    requires forall x: Reg :: x in p.regs ==> x < r
    ensures TakenFrom(q, AddHigh(p, r), rest - {r})
  {
    hide Rank;
    var s := p.regs + {r};
    RankAdd(p.regs, r, 16);
    RankAdd(p.regs, r, r);
    RankAll(p.regs, r, 16);
    forall x: Reg | x in s ensures q[x] == p.start + 4 * Rank(s, x) {
      RankAdd(p.regs, r, x);
    }
  }

  lemma {:induction false} DownTakes(q: Queue, rest: Queue, cur: Saved, l: int, count: nat, limit: nat, top: Reg)
    requires l < top && TakenFrom(q, cur, rest) && forall x: Reg :: x in cur.regs ==> l < x <= top
    requires Rank(cur.regs, 16) <= count && 1 <= limit && (count <= limit)
    ensures var b := Down(rest, cur, l, count, limit);
            && TakenFrom(q, b.saved, b.rest)
            && (forall x: Reg :: x in b.saved.regs ==> x <= top)
            && cur.regs <= b.saved.regs
            && Rank(b.saved.regs, 16) <= b.count <= limit
    decreases l + 1
  {
    hide Rank, TakenFrom;
    if l >= 0 && count < limit {
      var r: Reg := l;
      if r in rest && rest[r] == cur.start - 4 {
        TakeLow(q, cur, rest, r);
        RankAdd(cur.regs, r, 16);
        DownTakes(q, rest - {r}, AddLow(cur, r), l - 1, count + 1, limit, top);
      } else {
        DownTakes(q, rest, cur, l - 1, count + 1, limit, top);
      }
    }
  }

  lemma {:induction false} UpTakes(q: Queue, rest: Queue, cur: Saved, u: nat, count: nat, limit: nat)
    requires u <= 16 && TakenFrom(q, cur, rest) && forall x: Reg :: x in cur.regs ==> x < u
    requires Rank(cur.regs, 16) <= count <= limit
    ensures var b := Up(rest, cur, u, count, limit);
            && TakenFrom(q, b.saved, b.rest)
            && cur.regs <= b.saved.regs
            && Rank(b.saved.regs, 16) <= limit
    decreases 16 - u
  {
    hide Rank, TakenFrom;
    if u < 16 && count < limit {
      var r: Reg := u;
      if r in rest && rest[r] == cur.end + 4 {
        TakeHigh(q, cur, rest, r);
        RankAdd(cur.regs, r, 16);
        UpTakes(q, rest - {r}, AddHigh(cur, r), u + 1, count + 1, limit);
      } else {
        UpTakes(q, rest, cur, u + 1, count + 1, limit);
      }
    }
  }

  /** A run is consecutive, holds its seed, and never exceeds the limit on block transfers. */
  lemma BuildTakes(q: Queue, r: Reg, limit: nat)
    requires r in q && limit >= 1
    ensures var b := Build(q, r, limit);
            && TakenFrom(q, b.saved, b.rest)
            && r in b.saved.regs
            && Count(b.saved.regs) <= limit
  {
    hide Down, Up;
    var one := Saved(q[r], q[r], {r}, r);
    SeedTaken(q, r);
    DownTakes(q, q - {r}, one, r - 1, 1, limit, r);
    var b := Down(q - {r}, one, r - 1, 1, limit);
    UpTakes(q, b.rest, b.saved, r + 1, b.count, limit);
  }

  lemma SeedTaken(q: Queue, r: Reg)
    requires r in q
    ensures TakenFrom(q, Saved(q[r], q[r], {r}, r), q - {r})
    ensures Rank({r}, 16) == 1
  {
    var none: set<Reg> := {};
    RankNone(none, 16);
    RankNone(none, r);
    RankAdd(none, r, 16);
    RankAdd(none, r, r);
    assert none + {r} == {r};
  }

  // ---- which registers a run takes ----

  /** Whether x, below r, continues the run downwards from what f has between them. */
  predicate JoinsLow(q: Queue, f: set<Reg>, r: Reg, x: Reg)
    requires r in q
  {
    x in q && q[x] == q[r] - 4 * (Rank(f, r) - Rank(f, x + 1) + 1)
  }

  /** Whether x, above r, continues it upwards. */
  predicate JoinsHigh(q: Queue, f: set<Reg>, r: Reg, x: Reg)
    requires r in q
  {
    x in q && q[x] == q[r] + 4 * (Rank(f, x) - Rank(f, r))
  }

  function Smaller(a: int, b: int): int { if a < b then a else b }

  lemma {:induction false} DownGreedy(q: Queue, rest: Queue, cur: Saved, l: int, count: nat, limit: nat, r: Reg)
    requires -1 <= l < r && r in q && TakenFrom(q, cur, rest) && r in cur.regs && cur.last == r
    requires count <= limit && forall x: Reg :: x in cur.regs ==> l < x <= r
    ensures var b := Down(rest, cur, l, count, limit);
            var f := b.saved.regs;
            && TakenFrom(q, b.saved, b.rest) && b.saved.last == r
            && b.count == count + Smaller(l + 1, limit - count)
            && (forall x: Reg :: l < x ==> (x in f <==> x in cur.regs))
            && (forall x: Reg :: x <= l ==> (x in f <==> l - x < limit - count && JoinsLow(q, f, r, x)))
    decreases l + 1
  {
    hide Rank, Consecutive, JoinsLow, Count;
    if l >= 0 && count < limit {
      var x: Reg := l;
      var joins := x in rest && rest[x] == cur.start - 4;
      var cur' := if joins then AddLow(cur, x) else cur;
      var rest' := if joins then rest - {x} else rest;
      if joins { TakeLow(q, cur, rest, x); }
      DownGreedy(q, rest', cur', l - 1, count + 1, limit, r);
      var f := Down(rest', cur', l - 1, count + 1, limit).saved.regs;
      assert joins <==> JoinsLow(q, f, r, x) by { LowStep(q, rest, cur, f, r, x); }
    }
  }

  lemma LowStep(q: Queue, rest: Queue, cur: Saved, f: set<Reg>, r: Reg, l: Reg)
    requires l < r && r in q && TakenFrom(q, cur, rest) && r in cur.regs
    requires forall x: Reg :: x in cur.regs ==> l < x <= r
    requires forall x: Reg :: l < x ==> (x in f <==> x in cur.regs)
    ensures l in rest && rest[l] == cur.start - 4 <==> JoinsLow(q, f, r, l)
  {
    hide Rank, Count;
    RankBetween(f, cur.regs, l + 1, r);
    RankNone(cur.regs, l + 1);
  }

  lemma {:induction false} UpGreedy(q: Queue, rest: Queue, cur: Saved, u: nat, count: nat, limit: nat, r: Reg)
    requires r < u <= 16 && r in q && TakenFrom(q, cur, rest) && r in cur.regs && cur.last >= r
    requires count <= limit && forall x: Reg :: x in cur.regs ==> x < u && x <= cur.last
    ensures var b := Up(rest, cur, u, count, limit);
            var f := b.saved.regs;
            && TakenFrom(q, b.saved, b.rest)
            && (forall x: Reg :: x in f ==> x <= b.saved.last)
            && (forall x: Reg :: x < u ==> (x in f <==> x in cur.regs))
            && (forall x: Reg :: u <= x ==> (x in f <==> x - u < limit - count && JoinsHigh(q, f, r, x)))
    decreases 16 - u
  {
    hide Rank, Consecutive, JoinsHigh, Count;
    if u < 16 && count < limit {
      var x: Reg := u;
      var joins := x in rest && rest[x] == cur.end + 4;
      var cur' := if joins then AddHigh(cur, x) else cur;
      var rest' := if joins then rest - {x} else rest;
      if joins { TakeHigh(q, cur, rest, x); }
      UpGreedy(q, rest', cur', u + 1, count + 1, limit, r);
      var f := Up(rest', cur', u + 1, count + 1, limit).saved.regs;
      assert joins <==> JoinsHigh(q, f, r, x) by { HighStep(q, rest, cur, f, r, x); }
    }
  }

  lemma HighStep(q: Queue, rest: Queue, cur: Saved, f: set<Reg>, r: Reg, u: Reg)
    requires r < u && r in q && TakenFrom(q, cur, rest) && r in cur.regs
    requires forall x: Reg :: x in cur.regs ==> x < u
    requires forall x: Reg :: x < u ==> (x in f <==> x in cur.regs)
    ensures u in rest && rest[u] == cur.end + 4 <==> JoinsHigh(q, f, r, u)
  {
    hide Rank;
    RankAgree(f, cur.regs, u);
    RankAgree(f, cur.regs, r);
    RankAll(cur.regs, u, 16);
  }

  /**
   Just which registers join a run: going down from the seed and then up, each register whose
   offset continues the run, until the limit is reached by those looked at, taken or not.
   */
  lemma BuildGreedy(q: Queue, r: Reg, limit: nat)
    requires r in q && limit >= 1
    ensures var p := Build(q, r, limit).saved;
            && r in p.regs && p.last in p.regs
            && (forall x: Reg :: x in p.regs ==> x <= p.last)
            && (forall x: Reg :: x < r ==> (x in p.regs <==> r - x < limit && JoinsLow(q, p.regs, r, x)))
            && (forall x: Reg :: r < x ==>
                  (x in p.regs <==> x - r < limit - Smaller(r, limit - 1) && JoinsHigh(q, p.regs, r, x)))
  {
    hide Down, Up, Rank, Count, Consecutive;
    var one := Saved(q[r], q[r], {r}, r);
    SeedTaken(q, r);
    DownGreedy(q, q - {r}, one, r - 1, 1, limit, r);
    var b := Down(q - {r}, one, r - 1, 1, limit);
    UpGreedy(q, b.rest, b.saved, r + 1, b.count, limit, r);
    var f := Up(b.rest, b.saved, r + 1, b.count, limit).saved.regs;
    forall x: Reg | x < r ensures JoinsLow(q, f, r, x) <==> JoinsLow(q, b.saved.regs, r, x) {
      RankAgree(f, b.saved.regs, r);
      RankAgree(f, b.saved.regs, x + 1);
    }
  }

  // ---- ordering the runs ----

  /** Where a run goes before position `stop`: ascending if the base will move up, descending if down. */
  function Position(list: seq<Saved>, stop: nat, cur: Saved, adj: int, i: nat := 0): (j: nat)
    requires i <= stop <= |list|
    ensures i <= j <= stop
    decreases stop - i
  {
    if i == stop || (adj > 0 && cur.start < list[i].start) || (adj < 0 && cur.start > list[i].start) then i
    else Position(list, stop, cur, adj, i + 1)
  }

  function InsertAt(list: seq<Saved>, i: nat, cur: Saved): seq<Saved>
    requires i <= |list|
  {
    list[..i] + [cur] + list[i..]
  }

  /** `atEnd` says that the last run of the list loads the base. */
  function Insert(list: seq<Saved>, atEnd: bool, cur: Saved, base: Reg, adj: int): seq<Saved>
    requires atEnd ==> |list| > 0
  {
    if base in cur.regs then list + [cur]
    else InsertAt(list, Position(list, if atEnd then |list| - 1 else |list|, cur, adj), cur)
  }

  datatype Plan = Plan(list: seq<Saved>, rest: Queue)

  /** The runs made from the registers of `mask` (the loop over r in ldm_flush_r). */
  function PlanFrom(q: Queue, mask: set<Reg>, base: Reg, adj: int, limit: nat, r: nat, list: seq<Saved>,
          atEnd: bool): Plan
    requires r <= 16 && (atEnd ==> |list| > 0)
    decreases 16 - r
  {
    if r == 16 then Plan(list, q)
    else if r in q && r in mask then
      var b := Build(q, r, limit);
      PlanFrom(b.rest, mask, base, adj, limit, r + 1, Insert(list, atEnd, b.saved, base, adj),
          atEnd || base in b.saved.regs)
    else PlanFrom(q, mask, base, adj, limit, r + 1, list, atEnd)
  }

  function PlanOf(q: Queue, mask: set<Reg>, base: Reg, adj: int, limit: nat): Plan
  {
    PlanFrom(q, mask, base, adj, limit, 0, [], false)
  }

  // ---- the plan is in order ----

  /** Offset a may come before offset b when the base moves by adj. */
  predicate InOrder(adj: int, a: int, b: int) { (adj > 0 ==> a <= b) && (adj < 0 ==> a >= b) }

  ghost predicate Ordered(list: seq<Saved>, n: nat, adj: int)
    requires n <= |list|
  {
    forall i, j :: 0 <= i < j < n ==> InOrder(adj, list[i].start, list[j].start)
  }

  lemma {:induction false} PositionSplits(list: seq<Saved>, stop: nat, cur: Saved, adj: int, i: nat)
    requires i <= stop <= |list|
    ensures var j := Position(list, stop, cur, adj, i);
            && (forall m :: i <= m < j ==> InOrder(adj, list[m].start, cur.start))
            && (j < stop ==> InOrder(adj, cur.start, list[j].start))
    decreases stop - i
  {
    if i < stop && !((adj > 0 && cur.start < list[i].start) || (adj < 0 && cur.start > list[i].start)) {
      PositionSplits(list, stop, cur, adj, i + 1);
    }
  }

  lemma InsertOrdered(list: seq<Saved>, stop: nat, cur: Saved, adj: int)
    requires stop <= |list| && Ordered(list, stop, adj)
    ensures var more := InsertAt(list, Position(list, stop, cur, adj), cur);
            |more| == |list| + 1 && Ordered(more, stop + 1, adj)
  {
    hide InsertAt, Position;
    var i := Position(list, stop, cur, adj);
    PositionSplits(list, stop, cur, adj, 0);
    InsertedAt(list, i, cur, 0);
    var more := InsertAt(list, i, cur);
    forall a, b | 0 <= a < b < stop + 1 ensures InOrder(adj, more[a].start, more[b].start) {
      InsertedAt(list, i, cur, a);
      InsertedAt(list, i, cur, b);
      if a < i && b == i {
        assert InOrder(adj, list[a].start, cur.start);
      } else if a == i {
        assert InOrder(adj, cur.start, list[i].start);
        assert i < b - 1 ==> InOrder(adj, list[i].start, list[b - 1].start);
      }
    }
  }

  /** All the runs are in order, but for a last one that loads the base. */
  ghost predicate OrderedPlan(list: seq<Saved>, base: Reg, adj: int)
  {
    Ordered(list, |list|, adj)
    || (|list| > 0 && base in list[|list| - 1].regs && Ordered(list, |list| - 1, adj))
  }

  lemma InsertKeepsOrder(list: seq<Saved>, atEnd: bool, cur: Saved, base: Reg, adj: int)
    requires atEnd ==> |list| > 0 && base in list[|list| - 1].regs && base !in cur.regs
    requires Ordered(list, if atEnd then |list| - 1 else |list|, adj)
    ensures var more := Insert(list, atEnd, cur, base, adj);
            && |more| == |list| + 1
            && (atEnd || base in cur.regs ==> base in more[|list|].regs)
            && Ordered(more, if atEnd || base in cur.regs then |list| else |list| + 1, adj)
  {
    if base !in cur.regs {
      var stop := if atEnd then |list| - 1 else |list|;
      InsertOrdered(list, stop, cur, adj);
      if atEnd { InsertedAt(list, Position(list, stop, cur, adj), cur, |list|); }
    }
  }

  lemma BuildIn(q: Queue, r: Reg, limit: nat)
    requires r in q && limit >= 1
    ensures var b := Build(q, r, limit); b.saved.regs <= q.Keys && b.rest == q - b.saved.regs
  {
    hide Build, Count;
    BuildTakes(q, r, limit);
    InRun(q, Build(q, r, limit).saved);
  }

  lemma {:induction false} PlanFromOrdered(q: Queue, mask: set<Reg>, base: Reg, adj: int, limit: nat, r: nat,
          list: seq<Saved>, atEnd: bool)
    requires r <= 16 && limit >= 1 && (atEnd ==> |list| > 0 && base in list[|list| - 1].regs && base !in q)
    requires Ordered(list, if atEnd then |list| - 1 else |list|, adj)
    ensures OrderedPlan(PlanFrom(q, mask, base, adj, limit, r, list, atEnd).list, base, adj)
    decreases 16 - r
  {
    hide Ordered, Insert, Build;
    if r == 16 {
    } else if r in q && r in mask {
      var b := Build(q, r, limit);
      BuildIn(q, r, limit);
      InsertKeepsOrder(list, atEnd, b.saved, base, adj);
      PlanFromOrdered(b.rest, mask, base, adj, limit, r + 1, Insert(list, atEnd, b.saved, base, adj),
          atEnd || base in b.saved.regs);
    } else {
      PlanFromOrdered(q, mask, base, adj, limit, r + 1, list, atEnd);
    }
  }

  /**
   The runs of a plan go up if the base is to be moved up and down if it is to be moved down, so
   that no transfer is left on the wrong side of a stack pointer that has moved; only a run that
   loads the base is put last whatever its place.
   */
  lemma PlanOrdered(q: Queue, mask: set<Reg>, base: Reg, adj: int, limit: nat)
    requires limit >= 1
    ensures OrderedPlan(PlanOf(q, mask, base, adj, limit).list, base, adj)
  {
    hide PlanFrom;
    PlanFromOrdered(q, mask, base, adj, limit, 0, [], false);
  }

  // ---- the plan is a plan ----

  lemma {:induction false} CoveredAppend(a: seq<Saved>, b: seq<Saved>)
    ensures Covered(a + b) == Covered(a) + Covered(b)
  {
    if |a| == 0 {
      assert a + b == b;
    } else {
      assert (a + b)[1..] == a[1..] + b;
      CoveredAppend(a[1..], b);
    }
  }

  lemma CoveredOne(p: Saved)
    ensures Covered([p]) == p.regs
  {
    assert [p][1..] == [];
  }

  lemma CoveredInsert(list: seq<Saved>, i: nat, cur: Saved)
    requires i <= |list|
    ensures Covered(InsertAt(list, i, cur)) == Covered(list) + cur.regs
  {
    hide Covered;
    CoveredAppend(list[..i] + [cur], list[i..]);
    CoveredAppend(list[..i], [cur]);
    CoveredOne(cur);
    CoveredAppend(list[..i], list[i..]);
    assert list[..i] + list[i..] == list;
  }

  lemma {:induction false} CoveredHas(list: seq<Saved>, i: nat)
    requires i < |list|
    ensures list[i].regs <= Covered(list)
  {
    if i > 0 { CoveredHas(list[1..], i - 1); }
  }

  /** The state of planning: runs so far, disjoint, out of q0; the base, if taken, in the last. */
  ghost predicate Planning(q0: Queue, q: Queue, base: Reg, limit: nat, list: seq<Saved>, atEnd: bool)
  {
    && q == q0 - Covered(list)
    && Covered(list) <= q0.Keys
    && (forall i :: 0 <= i < |list| ==> IsSaved(q0, list[i]) && Count(list[i].regs) <= limit)
    && (forall i, j :: 0 <= i < j < |list| ==> list[i].regs !! list[j].regs)
    && (atEnd ==> |list| > 0 && base in list[|list| - 1].regs)
    && (!atEnd ==> base !in Covered(list))
    && (forall i :: 0 <= i < |list| - 1 ==> base !in list[i].regs)
  }

  lemma PlanningInsertAt(q0: Queue, q: Queue, base: Reg, limit: nat, list: seq<Saved>, atEnd: bool, i: nat, cur: Saved)
    requires Planning(q0, q, base, limit, list, atEnd) && i <= |list|
    requires TakenFrom(q, cur, q - cur.regs) && Count(cur.regs) <= limit
    requires if base in cur.regs then i == |list| else atEnd ==> i < |list|
    ensures Planning(q0, q - cur.regs, base, limit, InsertAt(list, i, cur), atEnd || base in cur.regs)
  {
    hide Count, Covered, IsSaved, InsertAt;
    var more := InsertAt(list, i, cur);
    CoveredInsert(list, i, cur);
    InsertedAt(list, i, cur, |list|);
    InRun(q, cur);
    assert q0 - Covered(list) - cur.regs == q0 - Covered(more);
    SavedOfMore(q0, Covered(list), cur);
    forall j | 0 <= j < |list| ensures list[j].regs !! cur.regs && list[j].regs <= Covered(list) {
      CoveredHas(list, j);
    }
    forall j | 0 <= j < |more|
      ensures IsSaved(q0, more[j]) && Count(more[j].regs) <= limit && (j < |more| - 1 ==> base !in more[j].regs)
    {
      InsertedAt(list, i, cur, j);
    }
    forall a, b | 0 <= a < b < |more| ensures more[a].regs !! more[b].regs {
      InsertedAt(list, i, cur, a);
      InsertedAt(list, i, cur, b);
    }
  }

  lemma InsertedAt(list: seq<Saved>, i: nat, cur: Saved, j: nat)
    requires i <= |list| && j <= |list|
    ensures |InsertAt(list, i, cur)| == |list| + 1
    ensures InsertAt(list, i, cur)[j] == if j < i then list[j] else if j == i then cur else list[j - 1]
  {
  }

  lemma SavedOfMore(q0: Queue, s: set<Reg>, p: Saved)
    requires IsSaved(q0 - s, p)
    ensures IsSaved(q0, p)
  {
    hide Rank, Count;
  }

  lemma {:induction false} PlanFromOk(q0: Queue, q: Queue, mask: set<Reg>, base: Reg, adj: int, limit: nat, r: nat,
          list: seq<Saved>, atEnd: bool)
    requires r <= 16 && limit >= 1 && Planning(q0, q, base, limit, list, atEnd)
    requires forall x: Reg :: x in q && x in mask ==> x >= r
    ensures var plan := PlanFrom(q, mask, base, adj, limit, r, list, atEnd);
            && Planning(q0, plan.rest, base, limit, plan.list, base in Covered(plan.list))
            && plan.rest.Keys !! mask
    decreases 16 - r
  {
    hide Planning, Build, TakenFrom, Insert, Covered;
    if r == 16 {
      assert base in Covered(list) <==> atEnd by { AtEnd(q0, q, base, limit, list, atEnd); }
    } else if r in q && r in mask {
      var b := Build(q, r, limit);
      BuildTakes(q, r, limit);
      PlanningStep(q0, q, base, adj, limit, list, atEnd, b.saved, b.rest);
      PlanFromOk(q0, b.rest, mask, base, adj, limit, r + 1, Insert(list, atEnd, b.saved, base, adj),
          atEnd || base in b.saved.regs);
    } else {
      PlanFromOk(q0, q, mask, base, adj, limit, r + 1, list, atEnd);
    }
  }

  lemma PlanningStep(q0: Queue, q: Queue, base: Reg, adj: int, limit: nat, list: seq<Saved>, atEnd: bool, cur: Saved,
          rest: Queue)
    requires Planning(q0, q, base, limit, list, atEnd)
    requires TakenFrom(q, cur, rest) && Count(cur.regs) <= limit
    ensures atEnd ==> |list| > 0
    ensures Planning(q0, rest, base, limit, Insert(list, atEnd, cur, base, adj), atEnd || base in cur.regs)
    ensures forall x: Reg :: x in rest ==> x in q && x !in cur.regs
    ensures |Insert(list, atEnd, cur, base, adj)| > 0
  {
    hide Planning, Count, Covered, IsSaved;
    assert atEnd ==> |list| > 0 by { AtEnd(q0, q, base, limit, list, atEnd); }
    if base in cur.regs {
      assert InsertAt(list, |list|, cur) == list + [cur];
      PlanningInsertAt(q0, q, base, limit, list, atEnd, |list|, cur);
    } else {
      var i := Position(list, if atEnd then |list| - 1 else |list|, cur, adj);
      PlanningInsertAt(q0, q, base, limit, list, atEnd, i, cur);
    }
  }

  lemma AtEnd(q0: Queue, q: Queue, base: Reg, limit: nat, list: seq<Saved>, atEnd: bool)
    requires Planning(q0, q, base, limit, list, atEnd)
    ensures atEnd ==> |list| > 0
    ensures base in Covered(list) <==> atEnd
  {
    hide Covered, IsSaved;
    if atEnd { CoveredHas(list, |list| - 1); }
  }

  /**
   The plan of a flush: runs within the limit, together exactly the queue less what is
   left, and nothing of `mask` is left.
   */
  lemma PlanOfOk(k: Kind, q: Queue, mask: set<Reg>, adj: int, limit: nat)
    requires limit >= 1 && (k.base in q ==> q.Keys <= mask)
    ensures var plan := PlanOf(q, mask, k.base, adj, limit);
            && Planned(k, q, plan.list)
            && plan.rest == q - Covered(plan.list)
            && plan.rest.Keys !! mask
            && (forall i :: 0 <= i < |plan.list| ==> Count(plan.list[i].regs) <= limit)
  {
    hide PlanFrom, Count, IsSaved;
    assert q - Covered([]) == q by { NothingCovered(q); }
    PlanFromOk(q, q, mask, k.base, adj, limit, 0, [], false);
  }
}
