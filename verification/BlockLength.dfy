/**
 How many instructions a block copy, clear or push takes, against the number for which the
 literal pool is kept in reach (show_inst_direct of arm/gen.c).
 */
module BlockLength {
  import opened Words
  import opened Arm
  import opened Immediates
  import opened KnownValues
  import opened AddConstant
  import opened LoadConstant
  import opened Transfers
  import Combiner
  import opened PushPop
  import opened BlockMove

  /** The instructions of an expansion; a loop ends with a branch. */
  function Emitted(x: Expansion): nat
  {
    match x
    case Line(code) => |code|
    case Looped(before, body, after) => |before| + |body| + 1 + |after|
  }

  /** num_instr */
  function Reserved(p: Request): nat { if p.what.Clear? then Count(DataRegs(p)) + 6 else 7 }

  /** How many registers hold data. */
  function Width(p: Request): int
  {
    var free, n := Count(WorkRegs(p)) - (if UsesLoop(p) then 1 else 0), p.size / 4;
    if n < p.limit then if free < n then free else n else if free < p.limit then free else p.limit
  }

  lemma WidthIs(p: Request)
    requires Sensible(p)
    ensures Count(DataRegs(p)) == Width(p)
  {
    hide Rank, WorkRegs;
    var w := WorkRegs(p);
    var most := if WordCount(p) < p.limit then WordCount(p) else p.limit;
    if UsesLoop(p) {
      SomeData(p);
      DroppedCount(w, Counter(p));
      TrimmedCount(w - {Counter(p)}, most);
    } else {
      TrimmedCount(w, most);
    }
  }

  function PerTrip(p: Request): nat { if p.what.Clear? then 1 else 2 }

  /** Of a piece that is not the last, one register goes by LDR and STR and more by LDM and STM. */
  lemma OneByOne(load: bool, rn: Reg, mode: Mode, wb: bool, s: set<Reg>)
    requires Count(s) >= 1
    ensures var i := OutLdm(load, rn, mode, wb, s);
            (i.Transfer? <==> Count(s) == 1) && (i.Transfer? ==> (i.index.Offset? <==> !wb))
  {
    hide Rank;
    if Combiner.Lowest(s).None? { RankNoneBelow(s, 16); }
  }

  /** Every filling but the last is written in that way. */
  lemma FillingsOneByOne(p: Request, s: set<Reg>, c: nat)
    requires 1 <= Count(s) < c && !SourceHelps(p, s, c)
    ensures |Straight(p, s, c)| >= PerTrip(p)
    ensures forall i :: 0 <= i < PerTrip(p) ==>
              (Straight(p, s, c)[i].Transfer? <==> Count(s) == 1)
  {
    hide Count, OutLdm;
    OneByOne(true, p.r2, ModeOf(p), true, s);
    OneByOne(false, p.r1, ModeOf(p), true, s);
  }

  /** s has the lowest registers of t. */
  predicate LowestOf(s: set<Reg>, t: set<Reg>)
  {
    s <= t && forall r: Reg, x: Reg :: r in s && x in t && x < r ==> x in s
  }

  lemma LowerIsLowest(s: set<Reg>, n: nat)
    ensures LowestOf(Lower(s, n), s)
  {
    forall r: Reg, x: Reg | r in Lower(s, n) && x in s && x < r ensures x in Lower(s, n) {
      Combiner.RankMonotone(s, x, r);
    }
  }

  /** The counter of a loop is the lowest work register, and the data registers are the lowest of the others. */
  lemma LowestTaken(p: Request)
    requires Sensible(p)
    ensures UsesLoop(p) ==> Counter(p) in WorkRegs(p) && forall r: Reg :: r in WorkRegs(p) ==> Counter(p) <= r
    ensures LowestOf(DataRegs(p), if UsesLoop(p) then WorkRegs(p) - {Counter(p)} else WorkRegs(p))
  {
    hide Rank, WorkRegs, Lower, Count;
    SomeData(p);
    var s := if UsesLoop(p) then WorkRegs(p) - {Counter(p)} else WorkRegs(p);
    LowerIsLowest(s, if WordCount(p) < p.limit then WordCount(p) else p.limit);
  }

  /** What is left at the end goes through the lowest of the data registers, one for each word. */
  lemma LastLowest(p: Request, s: set<Reg>, loadWb: bool, c: nat)
    requires 0 < c <= Count(s)
    ensures forall i :: 0 <= i < |Last(p, s, loadWb, c)| ==>
              && Last(p, s, loadWb, c)[i].Block?
              && LowestOf(Last(p, s, loadWb, c)[i].regs, s) && Count(Last(p, s, loadWb, c)[i].regs) == c
  {
    hide Rank, Lower, Count, LowestOf;
    LowerIsLowest(s, c);
    PieceCounts(s, c);
  }

  // ---- a line ----

  /** The dying source register may take one more word. */
  predicate MayHelp(p: Request, d: nat) { Moves(p) && d < p.limit && p.deadR2 && !p.post }

  /** How often d registers are filled for c words. */
  function Trips(p: Request, d: nat, c: nat): nat
    requires d >= 1 || c == 0
  {
    if c == 0 then 0 else if MayHelp(p, d) && c > d then (c - 2) / d + 1 else (c - 1) / d + 1
  }

  lemma {:induction false} StraightLength(p: Request, s: set<Reg>, c: nat)
    requires Count(s) >= 1 || c == 0
    ensures |Straight(p, s, c)| == PerTrip(p) * Trips(p, Count(s), c)
    decreases c
  {
    hide Count, Put, Lower;
    var d := Count(s);
    if c > d && !SourceHelps(p, s, c) {
      StraightLength(p, s, c - d);
      TripMore(p, d, c);
    } else if c > 0 {
      OneTrip(p, d, c);
    }
  }

  lemma TripMore(p: Request, d: nat, c: nat)
    requires d >= 1 && c > d && !(MayHelp(p, d) && c == d + 1)
    ensures Trips(p, d, c) == 1 + Trips(p, d, c - d)
  {
    LessOne(c - 1, d);
    if MayHelp(p, d) {
      LessOne(c - 2, d);
      if c - d <= d { QuotientZero(c - 2 - d, d); QuotientZero(c - d - 1, d); }
    }
  }

  lemma OneTrip(p: Request, d: nat, c: nat)
    requires d >= 1 && c > 0 && (c <= d || (MayHelp(p, d) && c == d + 1))
    ensures Trips(p, d, c) == 1
  {
    if c <= d { QuotientZero(c - 1, d); } else { QuotientZero(c - 2, d); }
  }

  lemma LessOne(x: nat, d: nat)
    requires d >= 1 && x >= d
    ensures x / d == (x - d) / d + 1
  {
    var q, r := x / d, x % d;
    assert x == q * d + r;
    assert q != 0;
    assert x - d == (q - 1) * d + r;
    DivUnique(x - d, d, q - 1, r);
  }

  lemma QuotientZero(x: int, d: nat)
    requires d >= 1 && 0 <= x < d
    ensures x / d == 0
  {
  }

  lemma LoadZero(r: Reg, known: Known)
    ensures |LoadCode(r, 0, false, known)| == 1
  {
    ZeroFits(0);
  }

  lemma {:induction false} ZerosLength(s: set<Reg>, r: nat)
    requires r <= 16
    ensures |ZeroCode(s, r)| == Rank(s, 16) - Rank(s, r)
    decreases 16 - r
  {
    hide LoadCode;
    if r < 16 {
      ZerosLength(s, r + 1);
      if r in s { LoadZero(r, UNKNOWN); }
    }
  }

  /** The length of a line: the zeros of a clear, and a load and a store, or a store, for each filling. */
  lemma LineLength(p: Request, known: Known)
    requires Sensible(p) && !UsesLoop(p)
    ensures Width(p) >= 1 || p.size == 0
    ensures Emitted(Expand(p, known))
            == (if p.what.Clear? then Width(p) else 0) + PerTrip(p) * Trips(p, Width(p), p.size / 4)
  {
    hide Rank, Straight, ZeroCode, DataRegs, Trips;
    SomeData(p);
    WidthIs(p);
    StraightLength(p, DataRegs(p), WordCount(p));
    ZerosLength(DataRegs(p), 0);
    assert Rank(DataRegs(p), 0) == 0 by { NoneBelow(DataRegs(p)); }
  }

  lemma NoneBelow(s: set<Reg>)
    ensures Rank(s, 0) == 0
  {
  }

  // ---- a loop ----

  /** How many instructions load the counter. */
  function CounterLoad(p: Request, known: Known): nat
    requires Sensible(p) && UsesLoop(p)
  {
    SomeData(p);
    Rounds(p, WordCount(p), Count(DataRegs(p)));
    |LoadCode(Counter(p), WordCount(p) / Count(DataRegs(p)), false, Cleared(p, known))|
  }

  /** The length of a loop: the counter is loaded, counted down and tested, and a rest is left for the end. */
  lemma LoopLength(p: Request, known: Known)
    requires Sensible(p) && UsesLoop(p)
    ensures Width(p) >= 1
    ensures Emitted(Expand(p, known))
            == (if p.what.Clear? then Width(p) else 0) + CounterLoad(p, known) + PerTrip(p) + 2
               + if p.size / 4 % Width(p) > 0 then PerTrip(p) else 0
  {
    hide Rank, LoadCode, ZeroCode, DataRegs, Lower, Cleared, Counter, UsesLoop, Put, CountDown;
    SomeData(p);
    WidthIs(p);
    ZerosLength(DataRegs(p), 0);
    NoneBelow(DataRegs(p));
    OneDown(Counter(p));
    Rounds(p, WordCount(p), Count(DataRegs(p)));
  }

  lemma OneDown(r: Reg)
    ensures |CountDown(r)| == 1
  {
    assert EightBits(1) == Some(Imm(0, 1));
    assert Neg(M - 1) == 1;
  }

  // ---- is enough reserved? ----

  /**
   The instructions emitted fit the number reserved exactly when a line fills its registers no
   more than three times (six for a clear), and a loop loads its counter, with what it does for
   a rest, in three instructions.
   */
  lemma ReservedIff(p: Request, known: Known)
    requires Sensible(p)
    ensures Width(p) >= 1 || p.size == 0
    ensures Emitted(Expand(p, known)) <= Reserved(p) <==>
              if UsesLoop(p) then CounterLoad(p, known) + (if p.size / 4 % Width(p) > 0 then PerTrip(p) else 0) <= 3
              else Trips(p, Width(p), p.size / 4) <= if p.what.Clear? then 6 else 3
  {
    hide Expand, CounterLoad, Trips, Width, DataRegs, UsesLoop, Count;
    WidthIs(p);
    if UsesLoop(p) { LoopLength(p, known); } else { LineLength(p, known); }
  }

  /** A loop is written exactly where a line without regard to the limit would need more than four fillings. */
  lemma LoopIff(p: Request)
    requires Sensible(p)
    ensures UsesLoop(p) <==> p.size > 24 && (p.size / 4 - 1) / Count(WorkRegs(p)) + 1 > 4
  {
    hide Count, WorkRegs;
    var n, w := p.size / 4, Count(WorkRegs(p));
    FourOrMore(n - 1, w);
  }

  lemma FourOrMore(x: int, w: nat)
    requires w >= 1
    ensures x / w >= 4 <==> x >= 4 * w
  {
    var q, r := x / w, x % w;
    assert x == q * w + r;
    if q >= 4 {
      MulMono(4, q, w);
    } else if q >= 0 {
      MulMono(q, 3, w);
    } else {
      Negative(q, w);
    }
  }

  lemma Negative(q: int, w: nat)
    requires q < 0
    ensures q * w <= 0 - w
  {
    MulMono(1, -q, w);
    assert (-q) * w == -(q * w);
  }

  /** A clear whose registers the limit allows always fits. */
  lemma ClearFits(p: Request, known: Known)
    requires Sensible(p) && p.what.Clear? && Count(WorkRegs(p)) <= p.limit && !UsesLoop(p)
    ensures Emitted(Expand(p, known)) <= Reserved(p)
  {
    hide Expand, DataRegs, Count, WorkRegs;
    ReservedIff(p, known);
    var n, d := p.size / 4, Width(p);
    if n > 0 {
      if d == n {
        QuotientZero(n - 1, d);
      } else if n > 6 {
        FourOrMore(n - 1, d);
      } else {
        SmallQuotient(n - 1, d);
      }
    }
  }

  lemma SmallQuotient(x: nat, d: nat)
    requires d >= 1
    ensures x / d <= x
  {
    MulMono(1, d, x / d);
  }
}
