/**
 Adding a 32-bit constant to a register (armthumb/arminst.c).

 A constant that fits no immediate field is peeled a byte at a time from the bottom.
 Each peeled byte comes from a window, and may be added or subtracted.
 */
module AddConstant {
  import opened Words
  import opened Arm
  import opened Immediates
  import opened KnownValues
  import opened Buffers

  /** The chunk to add, or to subtract, next. */
  datatype Split = Split(subtract: bool, chunk: Word)

  /**
   The bits of n under `tail`, at pair p, are all ones (or all zeros).  `tail` is a
   signed variable shifted right, so once it has touched bit 31 it covers every pair
   from p up.
   */
  predicate TailIs(n: Word, i: nat, p: nat, ones: bool)
    requires p <= 15
  {
    if i < 11 then Above(n, p) % 4 == (if ones then 3 else 0)
    else Above(n, p) == (if ones then Scale(1, 16 - p) - 1 else 0)
  }

  /** How many pairs at the top of window i repeat the tail. */
  function Slide(n: Word, i: nat, ones: bool, k: nat): (s: nat)
    requires k <= 3 && i <= 11
    ensures k <= s <= 3
    ensures forall p {:trigger TailIs(n, i, p, ones)} :: i + 3 - s < p <= i + 3 - k ==> TailIs(n, i, p, ones)
    ensures s < 3 ==> !TailIs(n, i, i + 3 - s, ones)
    decreases 3 - k
  {
    if k < 3 && TailIs(n, i, i + 3 - k, ones) then Slide(n, i, ones, k + 1) else k
  }

  function SplitAt(n: Word, base: nat, top: nat, i: nat): Split
    requires base < 16 && top <= 15
  {
    if TailIs(n, i, top, true) then Split(true, Window(Neg(n), base)) else Split(false, Window(n, base))
  }

  function SlideOf(n: Word, i: nat): (k: nat)
    requires i <= 11
    ensures k <= 3
  {
    if Window(n, i) == Scale(255, i) then 0 else Slide(n, i, TailIs(n, i, i + 4, true), 0)
  }

  /** The next chunk of a constant that fits no immediate field. */
  function SplitForAdd(r: Reg, n: Word): Split
    requires n > 0 && LowPair(n) <= 11
  {
    var i := LowPair(n);
    if r == SP then
      if n >= TOP then Split(true, Window(Neg(n), i)) else Split(false, Window(n, i))
    else
      var k := SlideOf(n, i);
      var j := (i + 16 - k) % 16;
      if Window(n, j) >= 0x100_0000 then SplitAt(n, j, i + 4 - k, i) else SplitAt(n, i, i + 4, i)
  }

  function Remaining(n: Word, s: Split): Word
  {
    if s.subtract then Wrap(n + s.chunk) else Wrap(n - s.chunk)
  }

  // ---- progress ----

  /** The pairs of n above its trailing zeros are those of q. */
  lemma {:induction false} AboveOf(n: Word, q: Word, i: nat, e: nat)
    requires n == Scale(q, i)
    ensures Above(n, i + e) == Above(q, e)
  {
    if i > 0 { AboveOf(n / 4, q, i - 1, e); }
  }

  /** The bottom byte of q has nothing above its lowest 4 - k pairs. */
  predicate Narrow(q: nat, k: nat)
    requires k <= 3
  {
    q % 256 < (if k == 0 then 256 else if k == 1 then 64 else if k == 2 then 16 else 4)
  }

  lemma NarrowScaled(q: Word, k: nat)
    requires k <= 3 && Narrow(q, k)
    ensures Scale(q, k) % 256 == Scale(q % 256, k)
  {
    var d, m := q / 256, q % 256;
    if k == 1 {
      DivUnique(q * 4, 256, 4 * d, m * 4);
    } else if k == 2 {
      ScaleTwo(q);
      ScaleTwo(m);
      DivUnique(q * 16, 256, 16 * d, m * 16);
    } else if k == 3 {
      ScaleThree(q);
      ScaleThree(m);
      DivUnique(q * 64, 256, 64 * d, m * 64);
    }
  }

  lemma NarrowWindow(n: Word, q: Word, i: nat, k: nat)
    requires n == Scale(q, i) && k <= i <= 11 && k <= 3 && Narrow(q, k)
    ensures Window(n, i - k) == Scale(q % 256, i)
  {
    hide Window, Scale;
    WindowAt(n, q, i, k);
    NarrowScaled(q, k);
    ScaleScale(q % 256, k, i - k);
  }

  /** Taking the window out of n clears everything below pair i + 4. */
  lemma ChunkProgress(n: Word, q: Word, i: nat, k: nat) returns (m: nat)
    requires n == Scale(q, i) && i <= 11 && k <= 3 && Narrow(q, k)
    ensures Window(n, (i + 16 - k) % 16) <= n
    ensures n - Window(n, (i + 16 - k) % 16) == Scale(m, i + 4) && m % 4 == q / 256 % 4
  {
    hide Window, Scale;
    if k <= i {
      NarrowWindow(n, q, i, k);
      m := q / 256;
      ScaleByte(m, i);
      ScaleAdd(256 * m, q % 256, i);
      ScaleNat(m, i + 4);
    } else {
      m := WrappedProgress(n, q, i, k);
    }
  }

  lemma ScaleNat(q: nat, k: nat)
    ensures Scale(q, k) >= 0
  {
  }

  lemma WrappedProgress(n: Word, q: Word, i: nat, k: nat) returns (m: nat)
    requires n == Scale(q, i) && i < k <= 3 && Narrow(q, k)
    ensures Window(n, i + 16 - k) <= n
    ensures n - Window(n, i + 16 - k) == Scale(m, i + 4) && m % 4 == q / 256 % 4
  {
    hide Window, Scale, LowPart, TopPart;
    var d := k - i;
    WindowWrapped(n, d);
    LowPartOf(n, q, i, k);
    // n == Scale(256 * (q / 256), i) + LowPart(n, d)
    ScaleAdd(256 * (q / 256), q % 256, i);
    ScaleByte(q / 256, i);
    ScaleScale(TopPart(n, d), 12 - k, i + 4);
    ScaleSub(q / 256, Scale(TopPart(n, d), 12 - k), i + 4);
    var r := q / 256 - Scale(TopPart(n, d), 12 - k);
    LowAndTop(n, d);
    ScaleSign(r, i + 4);
    ScaleMod4(TopPart(n, d), 12 - k);
    m := r;
  }

  lemma ScaleMod4(q: int, k: nat)
    requires k > 0
    ensures Scale(q, k) % 4 == 0
  {
    var r := Scale(q, k - 1);
    hide Scale;
    assert (4 * r) % 4 == 0;
  }

  /** A rest of r - m - 1 or r - m, for a multiple r of four, modulo four. */
  lemma FoursMinus(r: int, m: int, d: int)
    requires r % 4 == 0
    ensures (r - d - 1) % 4 == (3 - d) % 4
    ensures m % 4 == (3 - d) % 4 ==> (r - m) % 4 == (d + 1) % 4
  {
  }

  lemma ScaleSign(q: int, k: nat)
    ensures Scale(q, k) >= 0 ==> q >= 0
  {
  }

  lemma LowAndTop(n: Word, d: nat)
    requires 1 <= d <= 3
    ensures LowPart(n, d) + Scale(TopPart(n, d), 16 - d) <= n
  {
    TopScale(TopPart(n, d), d);
  }

  lemma LowPartOf(n: Word, q: Word, i: nat, k: nat)
    requires n == Scale(q, i) && i < k <= 3 && Narrow(q, k)
    ensures LowPart(n, k - i) == Scale(q % 256, i)
  {
    var d, m := q / 256, q % 256;
    assert q == 256 * d + m;
    ScaleTwo(q);
    ScaleTwo(m);
    if i == 0 {
      DivUnique(n, if k == 1 then 64 else if k == 2 then 16 else 4,
                if k == 1 then 4 * d else if k == 2 then 16 * d else 64 * d, m);
    } else if i == 1 {
      DivUnique(n, if k == 2 then 64 else 16, if k == 2 then 16 * d else 64 * d, 4 * m);
    } else {
      DivUnique(n, 64, 64 * d, 16 * m);
    }
  }

  // ---- the window that was slid over repeats of the tail ----

  lemma TailDigit(n: Word, q: Word, i: nat, e: nat, ones: bool)
    requires n == Scale(q, i) && i <= 11 && e <= 4
    requires TailIs(n, i, i + e, ones)
    ensures Above(q, e) % 4 == if ones then 3 else 0
    ensures TailIs(n, i, i + e, true) == ones
  {
    AboveOf(n, q, i, e);
    assert Scale(1, 16 - (i + e)) == 4 * Scale(1, 15 - (i + e));
  }

  /** If the pairs slid over are 00 the low byte of q is narrow; if 11, its complement is. */
  lemma SlidNarrow(n: Word, q: Word, i: nat, k: nat, ones: bool)
    requires n == Scale(q, i) && q % 4 != 0 && i <= 11 && k <= 3
    requires forall p {:trigger TailIs(n, i, p, ones)} :: i + 3 - k < p <= i + 3 ==> TailIs(n, i, p, ones)
    ensures Narrow(if ones then 256 - q % 256 else q, k)
  {
    hide TailIs;
    if k >= 1 {
      assert TailIs(n, i, i + 3, ones);
      TailDigit(n, q, i, 3, ones);
    }
    if k >= 2 {
      assert TailIs(n, i, i + 2, ones);
      TailDigit(n, q, i, 2, ones);
    }
    if k >= 3 {
      assert TailIs(n, i, i + 1, ones);
      TailDigit(n, q, i, 1, ones);
    }
    ByteOfDigits(q, k, ones);
  }

  lemma ByteOfDigits(q: Word, k: nat, ones: bool)
    requires q % 4 != 0 && k <= 3
    requires k >= 1 ==> Above(q, 3) % 4 == if ones then 3 else 0
    requires k >= 2 ==> Above(q, 2) % 4 == if ones then 3 else 0
    requires k >= 3 ==> Above(q, 1) % 4 == if ones then 3 else 0
    ensures Narrow(if ones then 256 - q % 256 else q, k)
  {
    var d0, d1, d2, d3 := q % 4, q / 4 % 4, q / 4 / 4 % 4, q / 4 / 4 / 4 % 4;
    AboveSteps(q);
    ByteDigits(q, d0, d1, d2, d3);
    hide Above, Narrow;
    NarrowDigits(q, if ones then 3 else 0, d0, d1, d2, d3, k);
  }

  lemma NarrowDigits(q: Word, d: nat, d0: nat, d1: nat, d2: nat, d3: nat, k: nat)
    requires 1 <= d0 <= 3 && d1 <= 3 && d2 <= 3 && d3 <= 3 && q % 256 == d0 + 4 * d1 + 16 * d2 + 64 * d3
    requires (d == 0 || d == 3) && k <= 3
    requires (k >= 1 ==> d3 == d) && (k >= 2 ==> d2 == d) && (k >= 3 ==> d1 == d)
    ensures Narrow(if d == 3 then 256 - q % 256 else q, k)
  {
    if d == 3 { ByteMod(256 - q % 256); }
  }

  lemma ByteMod(b: nat)
    requires b < 256
    ensures b % 256 == b
  {
  }

  lemma ByteDigits(q: Word, d0: nat, d1: nat, d2: nat, d3: nat)
    requires d0 == q % 4 && d1 == q / 4 % 4 && d2 == q / 4 / 4 % 4 && d3 == q / 4 / 4 / 4 % 4
    ensures q % 256 == d0 + 4 * d1 + 16 * d2 + 64 * d3
  {
    DivUnique(q, 256, q / 4 / 4 / 4 / 4, d0 + 4 * d1 + 16 * d2 + 64 * d3);
  }

  lemma AboveSteps(q: Word)
    ensures Above(q, 1) == q / 4 && Above(q, 2) == q / 4 / 4 && Above(q, 3) == q / 4 / 4 / 4
  {
    assert Above(q, 1) == q / 4;
    assert Above(q / 4, 1) == q / 4 / 4;
    assert Above(q / 4, 2) == q / 4 / 4 / 4;
  }

  /** The negation of n has the same trailing zeros, and the complementary low byte above them. */
  lemma NegOf(n: Word, q: Word, i: nat) returns (c: Word)
    requires n > 0 && n == Scale(q, i) && q % 4 != 0 && i <= 11
    ensures Neg(n) == Scale(c, i)
    ensures c % 256 == 256 - q % 256 && c / 256 % 4 == (3 - q / 256) % 4
  {
    hide Scale;
    ScaleOfOne();
    ScaleScale(256, 12 - i, i);
    var r := Scale(1, 12 - i);
    ScaleByte(1, 12 - i);
    ScaleScale(1, 4, 12 - i);
    ScaleScaleByte(12 - i);
    assert Scale(256, 12 - i) == 256 * r;
    ScaleSub(256 * r, q, i);
    if q > 256 * r { ScaleLess(256 * r, q, i); }
    ScaleNat(1, 12 - i);
    ScaleUp(256 * r - q, i);
    c := 256 * r - q;
    DivUnique(c, 256, r - q / 256 - 1, 256 - q % 256);
    ScaleMod4(1, 12 - i);
    FoursMinus(r, 0, q / 256);
  }

  lemma {:induction false} ScaleScaleByte(k: nat)
    ensures Scale(256, k) == 256 * Scale(1, k)
  {
    if k > 0 { ScaleScaleByte(k - 1); }
  }

  lemma ScaleUp(q: int, k: nat)
    ensures q >= 0 ==> q <= Scale(q, k)
  {
  }

  lemma SubtractionProgress(n: Word, q: Word, i: nat, k: nat) returns (m: int)
    requires n > 0 && n == Scale(q, i) && q % 4 != 0 && i <= 11 && k <= 3
    requires Narrow(256 - q % 256, k)
    ensures Remaining(n, Split(true, Window(Neg(n), (i + 16 - k) % 16))) == Scale(m, i + 4)
    ensures Window(Neg(n), (i + 16 - k) % 16) <= Neg(n) && m % 4 == (q / 256 + 1) % 4
  {
    hide Window, Scale, Neg, Wrap;
    var c := NegOf(n, q, i);
    var m' := ChunkProgress(Neg(n), c, i, k);
    Complement(n, Window(Neg(n), (i + 16 - k) % 16));
    if m' == 0 {
      ScaleZero(i + 4);
      m := 0;
    } else {
      // 2^32 is a multiple of 4^(i + 4)
      ScaleOfOne();
      ScaleScale(1, 12 - i, i + 4);
      ScaleSub(Scale(1, 12 - i), m', i + 4);
      m := Scale(1, 12 - i) - m';
      ScaleUp(m', i + 4);
      ScaleMod4(1, 12 - i);
      FoursMinus(Scale(1, 12 - i), m', q / 256);
    }
  }

  /** Adding w to n leaves what taking w from -n leaves, negated. */
  lemma Complement(n: Word, w: Word)
    requires n > 0 && w <= Neg(n)
    ensures Wrap(n + w) == if Neg(n) == w then 0 else M - (Neg(n) - w)
  {
  }

  /** The window chosen: k pairs below the lowest nonzero one, after sliding over the tail. */
  lemma SplitShape(r: Reg, n: Word) returns (k: nat, ones: bool)
    requires n > 0 && LowPair(n) <= 11
    ensures k <= 3
    ensures r == SP ==> k == 0 && ones == (n >= TOP)
    ensures r != SP ==> (ones <==> Strip(n) / 256 % 4 == 3)
    ensures k > 0 ==> forall p {:trigger TailIs(n, LowPair(n), p, ones)} ::
              LowPair(n) + 3 - k < p <= LowPair(n) + 3 ==> TailIs(n, LowPair(n), p, ones)
    ensures var j := (LowPair(n) + 16 - k) % 16;
            SplitForAdd(r, n) == if ones then Split(true, Window(Neg(n), j)) else Split(false, Window(n, j))
  {
    hide Window, TailIs, Scale, Strip, Slide;
    var i := LowPair(n);
    k, ones := 0, n >= TOP;
    if r != SP {
      ones := TailIs(n, i, i + 4, true);
      TailPair(n, Strip(n), i);
      var s := SlideOf(n, i);
      if s > 0 && Window(n, (i + 16 - s) % 16) >= 0x100_0000 {
        k := s;
        assert TailIs(n, i, i + 4 - k, ones);
        TailDigit(n, Strip(n), i, 4 - k, ones);
      }
    }
  }

  /** The pair above the window. */
  lemma TailPair(n: Word, q: Word, i: nat)
    requires n == Scale(q, i) && i <= 11
    ensures TailIs(n, i, i + 4, true) <==> q / 256 % 4 == 3
  {
    hide Above, Scale;
    AboveOf(n, q, i, 4);
    FifthPair(q);
    TopIsOnes(n);
  }

  lemma FifthPair(q: Word)
    ensures Above(q, 4) == q / 256
  {
    AboveSteps(q / 4);
    assert Above(q, 4) == Above(q / 4, 3);
    hide Above;
    DivDiv(q, 4, 64);
    DivDiv(q / 4, 4, 16);
    DivDiv(q / 4 / 4, 4, 4);
  }

  lemma TopIsOnes(n: Word)
    ensures Above(n, 15) < 4 && Scale(1, 1) - 1 == 3
  {
    ScaleOfOne();
    ScaleFour(1, 15);
    AboveTop(n, 15);
  }

  lemma {:induction false} AboveTop(n: Word, p: nat)
    requires n < Scale(4, p)
    ensures Above(n, p) < 4
  {
    if p > 0 { AboveTop(n / 4, p - 1); }
  }

  lemma ChunkTaken(n: Word, w: Word)
    requires w <= n
    ensures Remaining(n, Split(false, w)) == n - w
  {
  }

  /**
   Each step leaves at least eight more trailing zero bits, including when the window
   wraps round the word, and its chunk fits an immediate field.  Unless SP is moved, it
   subtracts exactly if the next pair is 11, which then, like a next pair 00, is cleared as well.
   */
  lemma SplitProgress(r: Reg, n: Word) returns (m: int)
    requires n > 0 && LowPair(n) <= 11
    ensures Remaining(n, SplitForAdd(r, n)) == Scale(m, LowPair(n) + 4)
    ensures var next := Strip(n) / 256 % 4;
            r != SP ==> (SplitForAdd(r, n).subtract <==> next == 3) && (next == 0 || next == 3 ==> m % 4 == 0)
    ensures EightBits(SplitForAdd(r, n).chunk).Some?
    ensures var s := SplitForAdd(r, n); s.chunk <= if s.subtract then Neg(n) else n
    ensures r == SP ==> SplitForAdd(r, n).subtract == (n >= TOP)
  {
    hide Window, EightBits, TailIs, SplitForAdd, Remaining, LowPair, Strip, Scale, Neg;
    var i, q := LowPair(n), Strip(n);
    var k, ones := SplitShape(r, n);
    WindowEncodable(n, (i + 16 - k) % 16);
    WindowEncodable(Neg(n), (i + 16 - k) % 16);
    if k > 0 { SlidNarrow(n, q, i, k, ones); }
    if ones {
      m := SubtractionProgress(n, q, i, k);
      assert q / 256 % 4 == 3 ==> m % 4 == 0;
    } else {
      m := ChunkProgress(n, q, i, k);
      ChunkTaken(n, Window(n, (i + 16 - k) % 16));
    }
  }

  /**
   Just which byte is taken, unless SP is moved: the one at the lowest nonzero pair, or, if it then
   reaches into the top byte of the word, the one slid down over those of its pairs that repeat what
   is above them, so that it takes pairs from the top of the word along.
   */
  lemma SplitWhere(r: Reg, n: Word) returns (k: nat)
    requires r != SP && n > 0 && LowPair(n) < 11
    ensures var i := LowPair(n);
            var above := if Above(n, i + 4) % 4 == 3 then 3 else 0;
            && k <= 3 && (Window(n, i) == Scale(255, i) ==> k == 0)
            && (forall p :: i + 3 - k < p <= i + 3 ==> Above(n, p) % 4 == above)
            && (k < 3 && Window(n, i) != Scale(255, i) ==> Above(n, i + 3 - k) % 4 != above)
    ensures var i, j, split := LowPair(n), (LowPair(n) + 16 - k) % 16, SplitForAdd(r, n);
            split.chunk == Window(if split.subtract then Neg(n) else n, if Window(n, j) >= 0x100_0000 then j else i)
  {
    hide Window, Above, Scale, Strip, Slide;
    var i := LowPair(n);
    k := SlideOf(n, i);
    assert TailIs(n, i, i + 4, true) <==> Above(n, i + 4) % 4 == 3;
    forall p | i + 3 - k < p <= i + 3 ensures Above(n, p) % 4 == if Above(n, i + 4) % 4 == 3 then 3 else 0 {
      assert TailIs(n, i, p, TailIs(n, i, i + 4, true));
    }
  }

  // ---- the emitted code ----

  const ADD_ASK := Ask(true, false, false, false, false)

  /** What the emitter relies on when n itself fits no immediate field. */
  lemma NextStep(r: Reg, n: Word)
    requires EightBits(n).None?
    ensures n > 0 && LowPair(n) <= 11
    ensures EightBits(SplitForAdd(r, n).chunk).Some?
    ensures Zeros(n) + 4 <= Zeros(Remaining(n, SplitForAdd(r, n)))
    ensures Zeros(n) <= 11
  {
    hide Window, TailIs, SplitForAdd;
    if n > 0 {
      if LowPair(n) >= 12 { HighEncodable(n); }
      hide EightBits, Remaining;
      var m := SplitProgress(r, n);
      var rest := Remaining(n, SplitForAdd(r, n));
      if rest > 0 { LowPairOfMultiple(rest, m, LowPair(n) + 4); }
    }
  }

  lemma ZerosFit(n: Word)
    ensures Zeros(n) <= 16
  {
    if n > 0 { LowPairFits(n); }
  }

  /** The instructions for r1 = r2 + n; `cond` and `s` go on the last of them only. */
  function AddCode(r1: Reg, r2: Reg, n: Word, cond: Cond, s: bool, known: Known): Code
    decreases 16 - Zeros(n)
  {
    if n == 0 && cond == AL && !s then
      if r1 == r2 then [] else [Data(AL, MOV, false, r1, 0, Shifted(r2, LSL, 0))]
    else
      var up, down := EightBits(n), EightBits(Neg(n));
      if up.Some? then [Data(cond, ADD, s, r1, r2, up.value)]
      else if down.Some? then [Data(cond, SUB, s, r1, r2, down.value)]
      else
        var f := RegisterContainingValue(known, n, ADD_ASK);
        LookupSound(known, n, ADD_ASK);
        if f.Negated? then [Data(cond, SUB, s, r1, r2, Shift(f.r, f.shift))]
        else if !f.NotFound? then [Data(cond, ADD, s, r1, r2, Shift(f.r, f.shift))]
        else
          NextStep(r1, n);
          ZerosFit(n);
          ZerosFit(Remaining(n, SplitForAdd(r1, n)));
          var split := SplitForAdd(r1, n);
          [Data(AL, if split.subtract then SUB else ADD, false, r1, r2, EightBits(split.chunk).value)]
          + AddCode(r1, r1, Remaining(n, split), cond, s, known)
  }

  /** No single instruction does it: the constant has to be split. */
  predicate Splits(n: Word, known: Known)
  {
    EightBits(n).None? && EightBits(Neg(n)).None? && RegisterContainingValue(known, n, ADD_ASK).NotFound?
  }

  /**
   The one thing that can go wrong: after r1 has been given a partial sum, the cache is
   asked again and offers r1, whose recorded value is by then out of date.
   */
  predicate ReadsBack(r1: Reg, n: Word, known: Known, first: bool := true)
    decreases 16 - Zeros(n)
  {
    if EightBits(n).Some? || EightBits(Neg(n)).Some? then false
    else
      var f := RegisterContainingValue(known, n, ADD_ASK);
      if !f.NotFound? then !first && f.r == r1
      else
        NextStep(r1, n);
        ZerosFit(n);
        ZerosFit(Remaining(n, SplitForAdd(r1, n)));
        ReadsBack(r1, Remaining(n, SplitForAdd(r1, n)), known, false)
  }

  function MostInstructions(zeros: nat): (k: nat)
    ensures k == if zeros >= 12 then 1 else if zeros >= 8 then 2 else if zeros >= 4 then 3 else 4
  {
    if zeros >= 12 then 1 else if zeros >= 8 then 2 else if zeros >= 4 then 3 else 4
  }

  /** At most four instructions, of which only the last may set flags or be conditional. */
  lemma {:induction false} AddCodeShape(r1: Reg, r2: Reg, n: Word, cond: Cond, s: bool, known: Known)
    ensures |AddCode(r1, r2, n, cond, s, known)| <= MostInstructions(Zeros(n)) <= 4
    ensures var c := AddCode(r1, r2, n, cond, s, known);
            forall j :: 0 <= j < |c| - 1 ==>
              c[j].Data? && c[j].cond == AL && !c[j].s && c[j].rd == r1 && (c[j].op == ADD || c[j].op == SUB)
                  && c[j].op2.Imm?
    decreases 16 - Zeros(n)
  {
    hide EightBits, RegisterContainingValue, SplitForAdd, Remaining, Zeros;
    if Splits(n, known) {
      NextStep(r1, n);
      ZerosFit(n);
      ZerosFit(Remaining(n, SplitForAdd(r1, n)));
      AddCodeShape(r1, r1, Remaining(n, SplitForAdd(r1, n)), cond, s, known);
    }
  }

  /** Adding a constant is data processing only. */
  lemma {:induction false} AddCodeData(r1: Reg, r2: Reg, n: Word, cond: Cond, s: bool, known: Known)
    ensures forall i :: 0 <= i < |AddCode(r1, r2, n, cond, s, known)| ==>
            AddCode(r1, r2, n, cond, s, known)[i].Data?
    decreases 16 - Zeros(n)
  {
    hide AddCode, EightBits, RegisterContainingValue, SplitForAdd, Zeros, Remaining, Neg;
    AddCodeDirect(r1, r2, n, cond, s, known);
    ZeroFits(n);
    if Splits(n, known) {
      AddCodeSplits(r1, r2, n, cond, s, known);
      AddCodeData(r1, r1, Remaining(n, SplitForAdd(r1, n)), cond, s, known);
    }
  }

  // ---- what the code computes ----

  /** The effect asked for: r1 = r2 + n, nothing else but the flags when s asks for them. */
  ghost predicate Adds(st: State, end: State, r1: Reg, r2: Reg, n: Word, s: bool)
  {
    && end.regs == st.regs[r1 := Wrap(st.regs[r2] + n)]
    && end.mem == st.mem
    && (if s then end.flags.z == (end.regs[r1] == 0) && end.flags.n == (end.regs[r1] >= TOP)
        else end.flags == st.flags)
  }

  lemma AddStep(st: State, subtract: bool, s: bool, r1: Reg, r2: Reg, o: Operand, n: Word)
    requires OperandValue(st.regs, o) == n
    ensures Adds(st, Exec(Data(AL, if subtract then SUB else ADD, s, r1, r2, o), st), r1, r2,
                 if subtract then Neg(n) else n, s)
  {
    hide OperandValue, ShifterCarry, Result, ResultFlags, ExecTransfer, ExecBlock;
    AddSubResult(st.regs[r2], n, ShifterCarry(st.regs, o, st.flags.c), st.flags);
  }

  lemma AddSubResult(a: Word, b: Word, c: bool, f: Flags)
    ensures Result(ADD, a, b) == Wrap(a + b)
    ensures Result(SUB, a, b) == Wrap(a + Neg(b))
    ensures ResultFlags(ADD, a, b, c, f).z == (Wrap(a + b) == 0)
    ensures ResultFlags(ADD, a, b, c, f).n == (Wrap(a + b) >= TOP)
    ensures ResultFlags(SUB, a, b, c, f).z == (Wrap(a + Neg(b)) == 0)
    ensures ResultFlags(SUB, a, b, c, f).n == (Wrap(a + Neg(b)) >= TOP)
  {
    hide And, Bic, Orr, Eor;
    assert Sum(a, Not(b), 1) == Wrap(a + Neg(b));
  }

  lemma MoveStep(st: State, r1: Reg, r2: Reg)
    ensures Adds(st, Exec(Data(AL, MOV, false, r1, 0, Shifted(r2, LSL, 0)), st), r1, r2, 0, false)
  {
    hide And, Bic, Orr, Eor;
  }

  lemma AddsThen(st: State, mid: State, end: State, r1: Reg, r2: Reg, n: Word, m: Word, s: bool)
    requires Adds(st, mid, r1, r2, n, false) && Adds(mid, end, r1, r1, m, s)
    ensures Adds(st, end, r1, r2, Wrap(n + m), s)
  {
    hide Wrap;
    WrapAdd(st.regs[r2], n, m);
  }

  lemma WrapAdd(a: Word, n: Word, m: Word)
    ensures Wrap(Wrap(a + n) + m) == Wrap(a + Wrap(n + m))
  {
  }

  /** The cache is right about every register but r1, and about r1 until it has been written. */
  ghost predicate AgreesBut(known: Known, regs: Regs, r1: Reg, first: bool)
  {
    forall r: Reg :: known[r].Some? && (first || r != r1) ==> regs[r] == known[r].value
  }

  lemma FoundStep(st: State, f: Found, s: bool, r1: Reg, r2: Reg, n: Word, known: Known)
    requires f.Exact? || f.Negated?
    requires Denotes(f, known, n) && st.regs[f.r] == known[f.r].value
    ensures Adds(st, Exec(Data(AL, if f.Negated? then SUB else ADD, s, r1, r2, Shift(f.r, f.shift)), st), r1, r2, n, s)
  {
    hide Exec, ShiftBy, Adds;
    AddStep(st, f.Negated?, s, r1, r2, Shift(f.r, f.shift), Apply(f.shift, st.regs[f.r]));
    NegNot(n);
    NegNot(Apply(f.shift, st.regs[f.r]));
  }

  lemma {:induction false} AddCorrectFrom(r1: Reg, r2: Reg, n: Word, s: bool, known: Known, st: State, first: bool)
    requires AgreesBut(known, st.regs, r1, first) && !ReadsBack(r1, n, known, first)
    ensures Adds(st, Run(AddCode(r1, r2, n, AL, s, known), st), r1, r2, n, s)
    decreases 16 - Zeros(n)
  {
    hide Exec, EightBits, RegisterContainingValue, SplitForAdd, Remaining, Zeros, Denotes, Neg;
    var c := AddCode(r1, r2, n, AL, s, known);
    var up, down := EightBits(n), EightBits(Neg(n));
    EightBitsSound(n);
    EightBitsSound(Neg(n));
    NegNot(n);
    if n == 0 && !s {
      if r1 != r2 {
        MoveStep(st, r1, r2);
        RunOne(c[0], st);
      } else {
        assert st.regs[r1 := Wrap(st.regs[r1])] == st.regs;
      }
    } else if up.Some? {
      AddStep(st, false, s, r1, r2, up.value, n);
      RunOne(c[0], st);
    } else if down.Some? {
      AddStep(st, true, s, r1, r2, down.value, Neg(n));
      RunOne(c[0], st);
    } else {
      var f := RegisterContainingValue(known, n, ADD_ASK);
      LookupSound(known, n, ADD_ASK);
      if !f.NotFound? {
        FoundKnown(f, known, n);
        FoundStep(st, f, s, r1, r2, n, known);
        RunOne(c[0], st);
      } else {
        SplitThenRest(r1, r2, n, s, known, st, first);
      }
    }
  }

  lemma FoundKnown(f: Found, known: Known, n: Word)
    requires Denotes(f, known, n) && (f.Exact? || f.Negated?)
    ensures known[f.r].Some?
  {
  }

  /** What a split instruction adds to its source register. */
  function Part(s: Split): Word { if s.subtract then Neg(s.chunk) else s.chunk }

  lemma PartAndRest(n: Word, s: Split)
    ensures Wrap(Part(s) + Remaining(n, s)) == n
  {
  }

  lemma AddCodeSplits(r1: Reg, r2: Reg, n: Word, cond: Cond, s: bool, known: Known)
    requires Splits(n, known)
    ensures n > 0 && LowPair(n) <= 11
    ensures var split := SplitForAdd(r1, n);
            && EightBits(split.chunk).Some?
            && Zeros(n) + 4 <= Zeros(Remaining(n, split)) <= 16
            && AddCode(r1, r2, n, cond, s, known)
               == [Data(AL, if split.subtract then SUB else ADD, false, r1, r2, EightBits(split.chunk).value)]
                  + AddCode(r1, r1, Remaining(n, split), cond, s, known)
  {
    hide EightBits, RegisterContainingValue, SplitForAdd, Zeros, Remaining;
    NextStep(r1, n);
    ZerosFit(Remaining(n, SplitForAdd(r1, n)));
    if n == 0 && !s && cond == AL { ZeroFits(n); }
  }

  lemma ZeroFits(n: Word)
    ensures n == 0 ==> EightBits(n).Some?
  {
  }

  /** The first instruction of a split, and what is left for the others. */
  lemma SplitStep(r1: Reg, r2: Reg, n: Word, s: bool, known: Known, st: State) returns (split: Split, mid: State)
    requires Splits(n, known)
    ensures n > 0 && LowPair(n) <= 11
    ensures split == SplitForAdd(r1, n) && Adds(st, mid, r1, r2, Part(split), false)
    ensures Zeros(n) + 4 <= Zeros(Remaining(n, split)) <= 16
    ensures Run(AddCode(r1, r2, n, AL, s, known), st) == Run(AddCode(r1, r1, Remaining(n, split), AL, s, known), mid)
  {
    hide Exec, EightBits, AddCode, SplitForAdd, Zeros, Adds, Remaining, Splits;
    AddCodeSplits(r1, r2, n, AL, s, known);
    split := SplitForAdd(r1, n);
    EightBitsSound(split.chunk);
    AddStep(st, split.subtract, false, r1, r2, EightBits(split.chunk).value, split.chunk);
    var c := AddCode(r1, r2, n, AL, s, known);
    mid := Exec(c[0], st);
    assert c[1..] == AddCode(r1, r1, Remaining(n, split), AL, s, known);
  }

  lemma SplitThenRest(r1: Reg, r2: Reg, n: Word, s: bool, known: Known, st: State, first: bool)
    requires AgreesBut(known, st.regs, r1, first) && !ReadsBack(r1, n, known, first) && Splits(n, known)
    ensures Adds(st, Run(AddCode(r1, r2, n, AL, s, known), st), r1, r2, n, s)
    decreases 16 - Zeros(n), 0
  {
    hide Run, EightBits, RegisterContainingValue, SplitForAdd, Zeros, Remaining, AddCode, Part;
    var split, mid := SplitStep(r1, r2, n, s, known, st);
    var rest := Remaining(n, split);
    AddCorrectFrom(r1, r1, rest, s, known, mid, false);
    AddsThen(st, mid, Run(AddCode(r1, r1, rest, AL, s, known), mid), r1, r2, Part(split), rest, s);
    PartAndRest(n, split);
  }

  /** Executing the sequence adds n, provided the cache does not offer r1 back. */
  lemma AddCorrect(r1: Reg, r2: Reg, n: Word, s: bool, known: Known, st: State)
    requires Agrees(known, st.regs) && !ReadsBack(r1, n, known)
    ensures Adds(st, Run(AddCode(r1, r2, n, AL, s, known), st), r1, r2, n, s)
  {
    AddCorrectFrom(r1, r2, n, s, known, st, true);
  }

  /** It is enough that the cache says nothing about r1. */
  lemma {:induction false} UnknownNotReadBack(r1: Reg, n: Word, known: Known, first: bool := true)
    requires known[r1].None?
    ensures !ReadsBack(r1, n, known, first)
    decreases 16 - Zeros(n)
  {
    hide EightBits, RegisterContainingValue, SplitForAdd, Remaining, Zeros;
    LookupSound(known, n, ADD_ASK);
    if Splits(n, known) {
      NextStep(r1, n);
      ZerosFit(n);
      ZerosFit(Remaining(n, SplitForAdd(r1, n)));
      UnknownNotReadBack(r1, Remaining(n, SplitForAdd(r1, n)), known, false);
    }
  }

  // ---- when the code is wrong ----

  /** The amount still to be added when the stale register is used. */
  function StaleRest(r1: Reg, n: Word, known: Known, first: bool): Word
    requires ReadsBack(r1, n, known, first)
    decreases 16 - Zeros(n)
  {
    if !RegisterContainingValue(known, n, ADD_ASK).NotFound? then n
    else
      NextStep(r1, n);
      ZerosFit(Remaining(n, SplitForAdd(r1, n)));
      StaleRest(r1, Remaining(n, SplitForAdd(r1, n)), known, false)
  }

  /** The answer with which the cache offers r1 back. */
  function StaleAnswer(r1: Reg, n: Word, known: Known, first: bool := true): (f: Found)
    requires ReadsBack(r1, n, known, first)
    ensures f.Exact? || f.Negated?
  {
    hide RegisterContainingValue;
    StaleFound(r1, n, known, first);
    RegisterContainingValue(known, StaleRest(r1, n, known, first), ADD_ASK)
  }

  /** Asked for a shifted register, the cache offers one, or one to be negated. */
  lemma AddAnswers(known: Known, n: Word)
    ensures var f := RegisterContainingValue(known, n, ADD_ASK); f.NotFound? || f.Exact? || f.Negated?
  {
    hide RegisterContainingValue, Denotes;
    LookupSound(known, n, ADD_ASK);
  }

  lemma {:induction false} StaleFound(r1: Reg, n: Word, known: Known, first: bool)
    requires ReadsBack(r1, n, known, first)
    ensures var m := StaleRest(r1, n, known, first);
            var f := RegisterContainingValue(known, m, ADD_ASK);
            m != 0 && (f.Exact? || f.Negated?) && f.r == r1
    decreases 16 - Zeros(n)
  {
    hide EightBits, RegisterContainingValue, ReadsBack, StaleRest, SplitForAdd, Remaining, Zeros;
    AddAnswers(known, n);
    if RegisterContainingValue(known, n, ADD_ASK).NotFound? {
      var rest := StaleNext(r1, n, known, first);
      StaleFound(r1, rest, known, false);
    } else {
      StaleHere(r1, n, known, first);
    }
  }

  lemma StaleHere(r1: Reg, n: Word, known: Known, first: bool)
    requires ReadsBack(r1, n, known, first) && !RegisterContainingValue(known, n, ADD_ASK).NotFound?
    ensures n != 0 && StaleRest(r1, n, known, first) == n && RegisterContainingValue(known, n, ADD_ASK).r == r1
    ensures !first && EightBits(n).None? && EightBits(Neg(n)).None?
  {
    hide EightBits, RegisterContainingValue;
    ZeroFits(n);
  }

  lemma StaleNext(r1: Reg, n: Word, known: Known, first: bool) returns (rest: Word)
    requires ReadsBack(r1, n, known, first) && RegisterContainingValue(known, n, ADD_ASK).NotFound?
    ensures Splits(n, known) && n > 0 && LowPair(n) <= 11 && rest == Remaining(n, SplitForAdd(r1, n))
    ensures ReadsBack(r1, rest, known, false) && StaleRest(r1, n, known, first) == StaleRest(r1, rest, known, false)
    ensures 16 - Zeros(rest) < 16 - Zeros(n) && Zeros(rest) <= 16
  {
    hide EightBits, RegisterContainingValue, SplitForAdd, Remaining, Zeros;
    NextStep(r1, n);
    ZerosFit(n);
    rest := Remaining(n, SplitForAdd(r1, n));
    ZerosFit(rest);
  }

  /** What the register offered as m contributes when it holds p. */
  function Contributes(f: Found, p: Word): Word
    requires f.Exact? || f.Negated?
  {
    if f.Negated? then Neg(Apply(f.shift, p)) else Apply(f.shift, p)
  }

  /** Started from x, r1 holds this partial sum when it is read back. */
  function Partial(r1: Reg, n: Word, known: Known, first: bool, x: Word): Word
    requires ReadsBack(r1, n, known, first)
  {
    Wrap(x + Wrap(n - StaleRest(r1, n, known, first)))
  }

  /** Reading r1 back does no harm: its partial sum happens to contribute the amount still to be added. */
  predicate Harmless(r1: Reg, n: Word, known: Known, x: Word)
    requires ReadsBack(r1, n, known)
  {
    Contributes(StaleAnswer(r1, n, known), Partial(r1, n, known, true, x)) == StaleRest(r1, n, known, true)
  }

  lemma ShiftOperand(regs: Regs, r: Reg, sh: ShiftSpec)
    ensures OperandValue(regs, Shift(r, sh)) == Apply(sh, regs[r])
  {
  }

  /** The code adds what the partial sum contributes. */
  lemma {:induction false} StaleRun(r1: Reg, r2: Reg, n: Word, known: Known, st: State, first: bool)
    requires ReadsBack(r1, n, known, first) && (!first ==> r2 == r1)
    ensures var p := Partial(r1, n, known, first, st.regs[r2]);
            Run(AddCode(r1, r2, n, AL, false, known), st).regs[r1]
            == Wrap(p + Contributes(StaleAnswer(r1, n, known, first), p))
    decreases 16 - Zeros(n)
  {
    hide Exec, EightBits, SplitForAdd, Zeros, Denotes, Remaining, RegisterContainingValue, Apply, AddCode, Run,
        ReadsBack, StaleRest, Wrap, Contributes;
    var f := RegisterContainingValue(known, n, ADD_ASK);
    if !f.NotFound? {
      AddAnswers(known, n);
      StaleHere(r1, n, known, first);
      StaleSum(r1, n, known, f, st);
      Unmoved(st.regs[r1], n);
    } else {
      AddAnswers(known, n);
      var rest := StaleNext(r1, n, known, first);
      StaleLater(r1, r2, n, known, st, first);
    }
  }

  lemma Unmoved(x: Word, n: Word)
    ensures Wrap(x + Wrap(n - n)) == x
  {
  }

  /** The last instruction adds r1, shifted, to itself. */
  lemma StaleSum(r1: Reg, n: Word, known: Known, f: Found, st: State)
    requires EightBits(n).None? && EightBits(Neg(n)).None? && n != 0
    requires f == RegisterContainingValue(known, n, ADD_ASK) && (f.Exact? || f.Negated?) && f.r == r1
    ensures Run(AddCode(r1, r1, n, AL, false, known), st).regs[r1] == Wrap(st.regs[r1] + Contributes(f, st.regs[r1]))
  {
    hide Exec, EightBits, RegisterContainingValue, Apply, AddCode, Run, Wrap, Neg, Shift;
    AddCodeDirect(r1, r1, n, AL, false, known);
    ShiftOperand(st.regs, f.r, f.shift);
    AddStep(st, f.Negated?, false, r1, r1, Shift(f.r, f.shift), Apply(f.shift, st.regs[r1]));
    RunOne(AddCode(r1, r1, n, AL, false, known)[0], st);
  }

  lemma StaleLater(r1: Reg, r2: Reg, n: Word, known: Known, st: State, first: bool)
    requires ReadsBack(r1, n, known, first) && (!first ==> r2 == r1) && Splits(n, known)
    ensures var p := Partial(r1, n, known, first, st.regs[r2]);
            Run(AddCode(r1, r2, n, AL, false, known), st).regs[r1]
            == Wrap(p + Contributes(StaleAnswer(r1, n, known, first), p))
    decreases 16 - Zeros(n), 0
  {
    hide EightBits, SplitForAdd, Zeros, Remaining, RegisterContainingValue, AddCode, Run, Part, Contributes, Wrap;
    var split, mid := SplitStep(r1, r2, n, false, known, st);
    var rest := StaleNext(r1, n, known, first);
    PartAndRest(n, split);
    PartialSum(st.regs[r2], Part(split), rest, n, StaleRest(r1, rest, known, false));
    StaleRun(r1, r1, rest, known, mid, false);
  }

  lemma PartialSum(x: Word, part: Word, rest: Word, n: Word, stale: Word)
    requires Wrap(part + rest) == n
    ensures Wrap(Wrap(x + part) + Wrap(rest - stale)) == Wrap(x + Wrap(n - stale))
  {
    var k := (part + rest) / M;
    assert part + rest == k * M + n;
    WrapParts(x + part, rest - stale);
    WrapParts(x, n - stale);
    hide Wrap;
    SameRemainder(x + n - stale, x + part + rest - stale, k);
  }

  lemma WrapParts(a: int, b: int)
    ensures Wrap(Wrap(a) + Wrap(b)) == Wrap(a + b)
    ensures Wrap(a + Wrap(b)) == Wrap(a + b)
  {
    var i, j := a / M, b / M;
    assert a == i * M + Wrap(a) && b == j * M + Wrap(b);
    hide Wrap;
    SameRemainder(Wrap(a) + Wrap(b), a + b, i + j);
    SameRemainder(a + Wrap(b), a + b, j);
  }

  lemma RestoredSum(x: Word, n: Word, m: Word)
    ensures Wrap(Wrap(x + Wrap(n - m)) + m) == Wrap(x + n)
  {
    WrapParts(x, n - m);
    WrapParts(m, x + n - m);
  }

  /** Two words added to the same one give the same sum only if they are the same. */
  lemma SameSum(p: Word, a: Word, m: Word)
    ensures Wrap(p + a) == Wrap(p + m) <==> a == m
  {
  }

  /** In a state that matches the cache: right exactly if r1 is not read back, or that does no harm. */
  lemma AddRightAt(r1: Reg, r2: Reg, n: Word, known: Known, st: State)
    requires Agrees(known, st.regs)
    ensures Run(AddCode(r1, r2, n, AL, false, known), st).regs[r1] == Wrap(st.regs[r2] + n)
            <==> (ReadsBack(r1, n, known) ==> Harmless(r1, n, known, st.regs[r2]))
  {
    hide AddCode, Run, ReadsBack, StaleRest, Wrap, Contributes, StaleAnswer;
    if ReadsBack(r1, n, known) {
      StaleRun(r1, r2, n, known, st, true);
      var m := StaleRest(r1, n, known, true);
      var p := Partial(r1, n, known, true, st.regs[r2]);
      RestoredSum(st.regs[r2], n, m);
      SameSum(p, Contributes(StaleAnswer(r1, n, known), p), m);
    } else {
      AddCorrect(r1, r2, n, false, known, st);
    }
  }

  /** A state that matches the cache and has v in r2. */
  ghost function StateWith(known: Known, r2: Reg, v: Word): State
  {
    State(seq(16, r requires 0 <= r < 16 => if r == r2 then v else if known[r].Some? then known[r].value else 0),
          Flags(false, false, false, false), map[])
  }

  lemma {:induction false} ShiftOfZero(kind: ShiftKind, k: Amount)
    ensures ShiftBy(kind, 0, k) == 0
  {
    if k > 0 { ShiftOfZero(kind, k - 1); }
  }

  /** Started so that the partial sum is 0, the register contributes 0 where something else is needed. */
  lemma NotHarmless(r1: Reg, n: Word, known: Known)
    requires ReadsBack(r1, n, known)
    ensures !Harmless(r1, n, known, Wrap(StaleRest(r1, n, known, true) - n))
  {
    hide ReadsBack, StaleRest, RegisterContainingValue, ShiftBy;
    StaleFound(r1, n, known, true);
    WrapParts(StaleRest(r1, n, known, true) - n, n - StaleRest(r1, n, known, true));
    var f := StaleAnswer(r1, n, known);
    ShiftOfZero(f.shift.kind, f.shift.amount);
  }

  /** Every state that matches the cache gets the sum. */
  ghost predicate AddsAlways(r1: Reg, r2: Reg, n: Word, known: Known)
  {
    forall st: State :: Agrees(known, st.regs) ==>
      Run(AddCode(r1, r2, n, AL, false, known), st).regs[r1] == Wrap(st.regs[r2] + n)
  }

  /**
   The sequence adds n in every state that matches the cache exactly when the cache does
   not offer r1 back after the first instruction; or, if the cache holds the value of r2
   and so fixes the partial sum, when that sum does no harm.
   */
  lemma AddCorrectIff(r1: Reg, r2: Reg, n: Word, known: Known)
    ensures known[r2].None? ==> (AddsAlways(r1, r2, n, known) <==> !ReadsBack(r1, n, known))
    ensures known[r2].Some? ==>
              (AddsAlways(r1, r2, n, known) <==>
               (ReadsBack(r1, n, known) ==> Harmless(r1, n, known, known[r2].value)))
  {
    hide AddCode, Run, ReadsBack, Wrap, Harmless, StaleRest;
    forall st: State | Agrees(known, st.regs)
      ensures Run(AddCode(r1, r2, n, AL, false, known), st).regs[r1] == Wrap(st.regs[r2] + n)
              <==> (ReadsBack(r1, n, known) ==> Harmless(r1, n, known, st.regs[r2]))
    {
      AddRightAt(r1, r2, n, known, st);
    }
    if ReadsBack(r1, n, known) { NotHarmless(r1, n, known); }
    var x := if known[r2].Some? then known[r2].value
             else if ReadsBack(r1, n, known) then Wrap(StaleRest(r1, n, known, true) - n) else 0;
    assert Agrees(known, StateWith(known, r2, x).regs);
    assert StateWith(known, r2, x).regs[r2] == x;
  }

  // ---- what the code adds, whatever the registers hold ----

  /** The amount added when the answers of the cache are taken from the registers as they are. */
  function Added(r1: Reg, r2: Reg, n: Word, known: Known, regs: Regs): Word
    decreases 16 - Zeros(n)
  {
    hide EightBits, RegisterContainingValue, SplitForAdd, Remaining, Zeros;
    if EightBits(n).Some? || EightBits(Neg(n)).Some? then n
    else
      AddAnswers(known, n);
      var f := RegisterContainingValue(known, n, ADD_ASK);
      if !f.NotFound? then Contributes(f, regs[f.r])
      else
        NextStep(r1, n);
        ZerosFit(n);
        ZerosFit(Remaining(n, SplitForAdd(r1, n)));
        var split := SplitForAdd(r1, n);
        var p := Wrap(regs[r2] + Part(split));
        Wrap(Part(split) + Added(r1, r1, Remaining(n, split), known, regs[r1 := p]))
  }

  /** In every state the sequence adds exactly that to r2, and changes nothing but r1 (and, with s, flags). */
  lemma {:induction false} AddsAmount(r1: Reg, r2: Reg, n: Word, s: bool, known: Known, st: State)
    ensures Adds(st, Run(AddCode(r1, r2, n, AL, s, known), st), r1, r2, Added(r1, r2, n, known, st.regs), s)
    decreases 16 - Zeros(n)
  {
    hide Exec, EightBits, RegisterContainingValue, SplitForAdd, Remaining, Zeros, Neg, AddCode, Adds, Added, Run,
        Splits, Apply;
    AddCodeDirect(r1, r2, n, AL, s, known);
    AddedCases(r1, r2, n, known, st.regs);
    var c, f := AddCode(r1, r2, n, AL, s, known), RegisterContainingValue(known, n, ADD_ASK);
    if EightBits(n).Some? || EightBits(Neg(n)).Some? {
      DirectAdds(r1, r2, n, s, known, st);
    } else if !f.NotFound? {
      ZeroFits(n);
      ShiftOperand(st.regs, f.r, f.shift);
      AddStep(st, f.Negated?, s, r1, r2, Shift(f.r, f.shift), Apply(f.shift, st.regs[f.r]));
      RunOne(c[0], st);
    } else {
      ZeroFits(n);
      var split, mid := SplitStep(r1, r2, n, s, known, st);
      var rest := Remaining(n, split);
      AddsAmount(r1, r1, rest, s, known, mid);
      AddsRegs(st, mid, r1, r2, Part(split));
      AddsThen(st, mid, Run(AddCode(r1, r1, rest, AL, s, known), mid), r1, r2, Part(split),
               Added(r1, r1, rest, known, mid.regs), s);
    }
  }

  lemma AddsRegs(st: State, mid: State, r1: Reg, r2: Reg, n: Word)
    requires Adds(st, mid, r1, r2, n, false)
    ensures mid.regs == st.regs[r1 := Wrap(st.regs[r2] + n)]
  {
  }

  lemma AddedCases(r1: Reg, r2: Reg, n: Word, known: Known, regs: Regs)
    ensures var f := RegisterContainingValue(known, n, ADD_ASK);
            if EightBits(n).Some? || EightBits(Neg(n)).Some? then Added(r1, r2, n, known, regs) == n
            else if !f.NotFound? then
              (f.Exact? || f.Negated?) && Added(r1, r2, n, known, regs) == Contributes(f, regs[f.r])
            else
              n > 0 && LowPair(n) <= 11 && Splits(n, known)
              && var split := SplitForAdd(r1, n);
              Added(r1, r2, n, known, regs)
              == Wrap(Part(split) + Added(r1, r1, Remaining(n, split), known, regs[r1 := Wrap(regs[r2] + Part(split))]))
  {
    hide EightBits, RegisterContainingValue, SplitForAdd, Remaining, Zeros;
    AddAnswers(known, n);
    if Splits(n, known) { NextStep(r1, n); }
  }

  /** One instruction, or none: the constant itself is added. */
  lemma DirectAdds(r1: Reg, r2: Reg, n: Word, s: bool, known: Known, st: State)
    requires EightBits(n).Some? || EightBits(Neg(n)).Some?
    ensures Adds(st, Run(AddCode(r1, r2, n, AL, s, known), st), r1, r2, n, s)
  {
    hide AddCode, Run, Exec, EightBits, RegisterContainingValue, Neg, Adds;
    AddCodeDirect(r1, r2, n, AL, s, known);
    var c, up, down := AddCode(r1, r2, n, AL, s, known), EightBits(n), EightBits(Neg(n));
    EightBitsSound(n);
    EightBitsSound(Neg(n));
    NegNot(n);
    if n == 0 && !s {
      if r1 != r2 { MoveStep(st, r1, r2); RunOne(c[0], st); } else { RunNone(st); NothingAdds(st, r1); }
    } else if up.Some? {
      ImmOperand(st.regs, up.value);
      AddStep(st, false, s, r1, r2, up.value, n);
      RunOne(c[0], st);
    } else {
      ImmOperand(st.regs, down.value);
      AddStep(st, true, s, r1, r2, down.value, Neg(n));
      RunOne(c[0], st);
    }
  }

  lemma ImmOperand(regs: Regs, o: Operand)
    requires o.Imm?
    ensures OperandValue(regs, o) == ImmValue(o.rot, o.byte)
  {
  }

  lemma NothingAdds(st: State, r: Reg)
    ensures Adds(st, st, r, r, 0, false)
  {
    assert st.regs[r := Wrap(st.regs[r])] == st.regs;
  }

  /** With the cache in step, what is added is n exactly if r1 is not read back, or that does no harm. */
  lemma AddedRight(r1: Reg, r2: Reg, n: Word, known: Known, regs: Regs)
    requires Agrees(known, regs)
    ensures Added(r1, r2, n, known, regs) == n <==> (ReadsBack(r1, n, known) ==> Harmless(r1, n, known, regs[r2]))
  {
    hide AddCode, Run, ReadsBack, Harmless, Added, Agrees;
    var st := State(regs, Flags(false, false, false, false), map[]);
    AddsAmount(r1, r2, n, false, known, st);
    AddRightAt(r1, r2, n, known, st);
    SameSum(regs[r2], Added(r1, r2, n, known, regs), n);
  }

  // ---- a register read back is never right for every start ----

  /** Ones, shifted by fewer places than there are, are not 0. */
  lemma OnesShiftedStay(kind: ShiftKind, k: Amount)
    ensures ShiftBy(kind, M - 1, k) != 0
  {
    hide Lsl, Lsr, Asr, Ror;
    PowerBelow(k);
    match kind {
      case LSL => LslOfOnes(k);
      case LSR => LsrIsQuotient(M - 1, k); OnesDivided(Pow2(k));
      case _ => OnesStay(k);
    }
  }

  lemma PowerBelow(k: Amount)
    ensures 1 <= Pow2(k) <= TOP
  {
    Pow2At31();
    Pow2Add(k, 31 - k);
    MulMono(1, Pow2(31 - k), Pow2(k));
  }

  lemma {:induction false} LslOfOnes(k: Amount)
    ensures Lsl(M - 1, k) == M - Pow2(k)
  {
    if k > 0 {
      LslOfOnes(k - 1);
      PowerBelow(k - 1);
    }
  }

  lemma OnesDivided(d: nat)
    requires 1 <= d <= TOP
    ensures (M - 1) / d != 0
  {
    DivUnique(M - 1, d, (M - 1) / d, (M - 1) % d);
  }

  lemma {:induction false} OnesStay(k: nat)
    ensures Asr(M - 1, k) == M - 1 && Ror(M - 1, k) == M - 1
  {
    if k > 0 { OnesStay(k - 1); }
  }

  /** With r1 read back, what is added depends on what r1 has then become. */
  lemma AddedStale(r1: Reg, r2: Reg, n: Word, known: Known, regs: Regs)
    requires Agrees(known, regs) && ReadsBack(r1, n, known)
    ensures var p := Partial(r1, n, known, true, regs[r2]);
            Wrap(regs[r2] + Added(r1, r2, n, known, regs)) == Wrap(p + Contributes(StaleAnswer(r1, n, known), p))
  {
    hide AddCode, Run, ReadsBack, Added, Partial, Contributes, StaleAnswer, Adds, Wrap, Agrees;
    var st := State(regs, Flags(false, false, false, false), map[]);
    var end := Run(AddCode(r1, r2, n, AL, false, known), st);
    AddsAmount(r1, r2, n, false, known, st);
    AddsRegs(st, end, r1, r2, Added(r1, r2, n, known, regs));
    StaleRun(r1, r2, n, known, st, true);
  }

  /** Two starts from which different amounts are added. */
  lemma AddedVaries(r1: Reg, r2: Reg, n: Word, known: Known, regs1: Regs, regs2: Regs)
    requires Agrees(known, regs1) && Agrees(known, regs2) && ReadsBack(r1, n, known)
    requires regs1[r2] == Wrap(StaleRest(r1, n, known, true) - n)
    requires regs2[r2] == Wrap(StaleRest(r1, n, known, true) - n - 1)
    ensures Added(r1, r2, n, known, regs1) != Added(r1, r2, n, known, regs2)
  {
    hide ReadsBack, Added, StaleRest, StaleAnswer, Agrees, Wrap, Partial, Contributes;
    var m, f := StaleRest(r1, n, known, true), StaleAnswer(r1, n, known);
    AddedStale(r1, r2, n, known, regs1);
    AddedStale(r1, r2, n, known, regs2);
    PartialFrom(r1, n, known, 0);
    PartialFrom(r1, n, known, -1);
    ContributesOnes(f);
    WrapParts(-1, m - n);
    SmallWraps();
    AmountsDiffer(Wrap(m - n), Wrap(m - n - 1), Added(r1, r2, n, known, regs1), Added(r1, r2, n, known, regs2),
                  Contributes(f, M - 1));
  }

  lemma SmallWraps()
    ensures Wrap(0) == 0 && Wrap(-1) == M - 1
  {
  }

  lemma PartialFrom(r1: Reg, n: Word, known: Known, j: int)
    requires ReadsBack(r1, n, known)
    ensures Partial(r1, n, known, true, Wrap(StaleRest(r1, n, known, true) - n + j)) == Wrap(j)
  {
    hide ReadsBack, StaleRest, Wrap;
    var m := StaleRest(r1, n, known, true);
    WrapParts(m - n + j, n - m);
  }

  lemma ContributesOnes(f: Found)
    requires f.Exact? || f.Negated?
    ensures Contributes(f, 0) == 0 && Contributes(f, M - 1) != 0
  {
    hide ShiftBy;
    ShiftOfZero(f.shift.kind, f.shift.amount);
    OnesShiftedStay(f.shift.kind, f.shift.amount);
  }

  lemma AmountsDiffer(x1: Word, x2: Word, a1: Word, a2: Word, c: Word)
    requires x2 == Wrap(x1 - 1) && Wrap(x1 + a1) == 0 && Wrap(x2 + a2) == Wrap(M - 1 + c) && c != 0
    ensures a1 != a2
  {
  }

  /** Only the source register and the recorded registers matter. */
  lemma {:induction false} AddedSame(r1: Reg, r2: Reg, n: Word, known: Known, regs: Regs, regs': Regs)
    requires regs[r2] == regs'[r2] && forall r: Reg :: known[r].Some? ==> regs[r] == regs'[r]
    ensures Added(r1, r2, n, known, regs) == Added(r1, r2, n, known, regs')
    decreases 16 - Zeros(n)
  {
    hide EightBits, RegisterContainingValue, SplitForAdd, Remaining, Zeros, Added, Splits, Apply;
    AddedCases(r1, r2, n, known, regs);
    AddedCases(r1, r2, n, known, regs');
    LookupKnown(known, n);
    if EightBits(n).None? && EightBits(Neg(n)).None? && RegisterContainingValue(known, n, ADD_ASK).NotFound? {
      var split := SplitForAdd(r1, n);
      var p := Wrap(regs[r2] + Part(split));
      NextStep(r1, n);
      ZerosFit(n);
      ZerosFit(Remaining(n, split));
      AddedSame(r1, r1, Remaining(n, split), known, regs[r1 := p], regs'[r1 := p]);
    }
  }

  lemma LookupKnown(known: Known, n: Word)
    ensures var f := RegisterContainingValue(known, n, ADD_ASK); f.Exact? || f.Negated? ==> known[f.r].Some?
  {
    hide RegisterContainingValue;
    LookupSound(known, n, ADD_ASK);
  }

  // ---- the stack pointer moves one way ----

  /** How far, as a signed amount, the stack pointer has moved. */
  function Moved(from: Word, to: Word): int { Signed(Wrap(to - from)) }

  /** a lies between 0 and b. */
  predicate Towards(a: int, b: int) { 0 <= a <= b || b <= a <= 0 }

  /** Where the stack pointer stands, relative to r2's value, after j instructions. */
  ghost function Position(c: Code, r2: Reg, st: State, j: nat): int
    requires j <= |c|
  {
    if j == 0 then 0 else Moved(st.regs[r2], Run(c[..j], st).regs[SP])
  }

  lemma SplitSigns(n: Word)
    requires n > 0 && LowPair(n) <= 11
    ensures var s := SplitForAdd(SP, n);
            && Signed(Part(s)) + Signed(Remaining(n, s)) == Signed(n)
            && Towards(Signed(Part(s)), Signed(n))
            && Towards(Signed(Remaining(n, s)), Signed(n))
  {
    hide SplitForAdd, LowPair, Window, TailIs, EightBits;
    var m := SplitProgress(SP, n);
    var s := SplitForAdd(SP, n);
    PartSigns(n, s);
  }

  lemma PartSigns(n: Word, s: Split)
    requires n > 0 && s.subtract == (n >= TOP) && s.chunk <= if s.subtract then Neg(n) else n
    ensures Signed(Part(s)) + Signed(Remaining(n, s)) == Signed(n)
    ensures Towards(Signed(Part(s)), Signed(n))
    ensures Towards(Signed(Remaining(n, s)), Signed(n))
  {
    if s.subtract {
      assert Neg(n) == M - n;
    }
  }

  lemma MovedFurther(a: Word, part: Word, x: Word, rest: int, whole: int)
    requires Signed(part) + rest == whole && -TOP <= whole < TOP
    requires Towards(Signed(part), whole) && Towards(rest, whole)
    requires Towards(Moved(Wrap(a + part), x), rest)
    ensures Moved(a, x) == Signed(part) + Moved(Wrap(a + part), x)
  {
    MovedSum(a, part, x);
    SignedOfWrap(Signed(part) + Moved(Wrap(a + part), x));
  }

  lemma MovedSum(a: Word, part: Word, x: Word)
    ensures Wrap(Signed(part) + Moved(Wrap(a + part), x)) == Wrap(x - a)
  {
    var b := Wrap(a + part);
    var d := Wrap(x - b);
    var k1 := WrapTurns(a + part);
    var k2 := WrapTurns(x - b);
    var k3 := SignedTurns(part);
    var k4 := SignedTurns(d);
    hide Wrap, Signed;
    assert Signed(part) + Signed(d) == (x - a) + (k1 - k2 - k3 - k4) * M;
    WrapBy(x - a, k1 - k2 - k3 - k4);
  }

  lemma WrapTurns(i: int) returns (k: int)
    ensures Wrap(i) == i - k * M
  {
    k := i / M;
  }

  lemma SignedTurns(w: Word) returns (k: int)
    ensures Signed(w) == w - k * M
  {
    k := if w < TOP then 0 else 1;
  }

  lemma WrapBy(i: int, k: int)
    ensures Wrap(i + k * M) == Wrap(i)
  {
  }

  lemma SignedOfWrap(i: int)
    requires -TOP <= i < TOP
    ensures Signed(Wrap(i)) == i
  {
  }

  /**
   When SP is the destination and is not read back, each instruction moves it towards its final
   value: the partial sums run monotonically from 0 to n and never pass it.
   */
  lemma StackMonotone(r2: Reg, n: Word, known: Known, st: State, j: nat)
    requires Agrees(known, st.regs) && !ReadsBack(SP, n, known)
    requires j < |AddCode(SP, r2, n, AL, false, known)|
    ensures var c := AddCode(SP, r2, n, AL, false, known);
            && Towards(Position(c, r2, st, j), Position(c, r2, st, j + 1))
            && Towards(Position(c, r2, st, j + 1), Signed(n))
  {
    hide AddCode, Position, ReadsBack;
    StackMonotoneFrom(r2, n, known, st, j, true);
  }

  lemma {:induction false} StackMonotoneFrom(r2: Reg, n: Word, known: Known, st: State, j: nat, first: bool)
    requires AgreesBut(known, st.regs, SP, first) && !ReadsBack(SP, n, known, first)
    requires j < |AddCode(SP, r2, n, AL, false, known)|
    ensures var c := AddCode(SP, r2, n, AL, false, known);
            && Towards(Position(c, r2, st, j), Position(c, r2, st, j + 1))
            && Towards(Position(c, r2, st, j + 1), Signed(n))
    decreases 16 - Zeros(n)
  {
    hide Exec, EightBits, RegisterContainingValue, SplitForAdd, Zeros, Denotes, Remaining, Position, AddCode, Splits,
        ReadsBack;
    if |AddCode(SP, r2, n, AL, false, known)| > 1 {
      StackSplits(r2, n, known);
      StackMonotoneSplit(r2, n, known, st, j, first);
    } else {
      WholeMove(r2, n, known, st, first);
    }
  }

  lemma WholeMove(r2: Reg, n: Word, known: Known, st: State, first: bool)
    requires AgreesBut(known, st.regs, SP, first) && !ReadsBack(SP, n, known, first)
    requires |AddCode(SP, r2, n, AL, false, known)| == 1
    ensures var c := AddCode(SP, r2, n, AL, false, known);
            Position(c, r2, st, 0) == 0 && Position(c, r2, st, 1) == Signed(n)
  {
    hide AddCode, Run, Exec, Signed, AgreesBut, Wrap, ReadsBack;
    AddCorrectFrom(SP, r2, n, false, known, st, first);
    var c := AddCode(SP, r2, n, AL, false, known);
    assert c[..1] == c && c[..0] == [];
    RunNone(st);
    Difference(st.regs[r2], n);
  }

  lemma Difference(x: Word, n: Word)
    ensures Wrap(Wrap(x + n) - x) == n && Wrap(x - x) == 0 && Signed(0) == 0
  {
  }

  lemma StackMonotoneSplit(r2: Reg, n: Word, known: Known, st: State, j: nat, first: bool)
    requires AgreesBut(known, st.regs, SP, first) && !ReadsBack(SP, n, known, first) && Splits(n, known)
    requires j < |AddCode(SP, r2, n, AL, false, known)|
    ensures var c := AddCode(SP, r2, n, AL, false, known);
            && Towards(Position(c, r2, st, j), Position(c, r2, st, j + 1))
            && Towards(Position(c, r2, st, j + 1), Signed(n))
    decreases 16 - Zeros(n), 0
  {
    hide Exec, EightBits, RegisterContainingValue, SplitForAdd, Zeros, Remaining, Part, AddCode, Run, Position, Splits,
        ReadsBack;
    var split, mid, d := FirstMove(r2, n, known, st, first);
    SplitSigns(n);
    var rest := Remaining(n, split);
    if j == 0 {
      PositionAtStart(AddCode(SP, r2, n, AL, false, known), r2, st);
      PositionAtStart(d, SP, mid);
      LaterPosition(r2, n, known, st, split, mid, d, 0);
    } else {
      StackMonotoneFrom(SP, rest, known, mid, j - 1, false);
      LaterPosition(r2, n, known, st, split, mid, d, j);
      LaterPosition(r2, n, known, st, split, mid, d, j - 1);
    }
  }

  lemma PositionAtStart(c: Code, r2: Reg, st: State)
    ensures Position(c, r2, st, 0) == 0
  {
  }

  /** The first instruction moves SP by its part; `d` is the code for what remains. */
  lemma FirstMove(r2: Reg, n: Word, known: Known, st: State, first: bool)
    returns (split: Split, mid: State, d: Code)
    requires AgreesBut(known, st.regs, SP, first) && !ReadsBack(SP, n, known, first) && Splits(n, known)
    ensures n > 0 && LowPair(n) <= 11 && split == SplitForAdd(SP, n)
    ensures d == AddCode(SP, SP, Remaining(n, split), AL, false, known)
    ensures Zeros(n) + 4 <= Zeros(Remaining(n, split)) <= 16
    ensures AgreesBut(known, mid.regs, SP, false) && mid.regs[SP] == Wrap(st.regs[r2] + Part(split))
    ensures !ReadsBack(SP, Remaining(n, split), known, false)
    ensures var c := AddCode(SP, r2, n, AL, false, known);
            |c| == |d| + 1 && forall j :: 0 <= j <= |d| ==> Run(c[..j + 1], st) == Run(d[..j], mid)
  {
    hide Exec, EightBits, RegisterContainingValue, SplitForAdd, Zeros, Remaining, Part, AddCode, Splits;
    AddCodeSplits(SP, r2, n, AL, false, known);
    var c := AddCode(SP, r2, n, AL, false, known);
    split := SplitForAdd(SP, n);
    d := c[1..];
    mid := Exec(c[0], st);
    EightBitsSound(split.chunk);
    AddStep(st, split.subtract, false, SP, r2, EightBits(split.chunk).value, split.chunk);
    PartOf(split);
    RunPrefixes(c, st);
    RestNotReadBack(SP, n, known, first);
  }

  lemma RestNotReadBack(r1: Reg, n: Word, known: Known, first: bool)
    requires !ReadsBack(r1, n, known, first) && Splits(n, known)
    ensures n > 0 && LowPair(n) <= 11 && !ReadsBack(r1, Remaining(n, SplitForAdd(r1, n)), known, false)
  {
    hide EightBits, RegisterContainingValue, SplitForAdd, Zeros, Remaining, LowPair;
    NextStep(r1, n);
  }

  /** Running a prefix is running its first instruction and then the rest. */
  lemma RunPrefixes(c: Code, st: State)
    requires |c| > 0
    ensures forall j :: 0 <= j < |c| ==> Run(c[..j + 1], st) == Run(c[1..][..j], Exec(c[0], st))
  {
    hide Exec;
    forall j | 0 <= j < |c|
      ensures Run(c[..j + 1], st) == Run(c[1..][..j], Exec(c[0], st))
    {
      assert c[..j + 1][1..] == c[1..][..j] && c[..j + 1][0] == c[0];
    }
  }

  lemma PartOf(s: Split)
    ensures Part(s) == if s.subtract then Neg(s.chunk) else s.chunk
  {
  }

  lemma LaterPosition(r2: Reg, n: Word, known: Known, st: State, split: Split, mid: State, d: Code, j: nat)
    requires n > 0 && LowPair(n) <= 11 && split == SplitForAdd(SP, n) && j <= |d|
    requires mid.regs[SP] == Wrap(st.regs[r2] + Part(split))
    requires Towards(Position(d, SP, mid, j), Signed(Remaining(n, split)))
    requires var c := AddCode(SP, r2, n, AL, false, known);
             |c| == |d| + 1 && Run(c[..j + 1], st) == Run(d[..j], mid)
    ensures Position(AddCode(SP, r2, n, AL, false, known), r2, st, j + 1)
         == Signed(Part(split)) + Position(d, SP, mid, j)
  {
    hide SplitForAdd, Remaining, Part, AddCode, Run, LowPair, Moved;
    SplitSigns(n);
    var x := Run(d[..j], mid).regs[SP];
    if j == 0 {
      assert d[..0] == [];
      RunNone(mid);
      MovedBySelf(mid.regs[SP]);
    }
    MovedFurther(st.regs[r2], Part(split), x, Signed(Remaining(n, split)), Signed(n));
  }

  lemma MovedBySelf(a: Word)
    ensures Moved(a, a) == 0
  {
  }

  lemma StackSplits(r2: Reg, n: Word, known: Known)
    requires |AddCode(SP, r2, n, AL, false, known)| > 1
    ensures Splits(n, known)
  {
    LookupSound(known, n, ADD_ASK);
  }

  // ---- as the source writes it ----

  lemma SlideStep(n: Word, i: nat, ones: bool, k: nat)
    requires k <= 3 && i <= 11
    ensures Slide(n, i, ones, k) == if k < 3 && TailIs(n, i, i + 3 - k, ones) then Slide(n, i, ones, k + 1) else k
  {
  }

  /** Move `mask` and `tail` up to the lowest nonzero pair. */
  method FindLowPair(n: Word) returns (i: nat)
    requires n > 0
    ensures i == LowPair(n)
  {
    hide Scale, Strip;
    var q := n;
    i := 0;
    while q % 4 == 0
      invariant q > 0 && LowPair(n) == i + LowPair(q)
      decreases q
    {
      q := q / 4;
      i := i + 1;
    }
  }

  /** Find the chunk by moving `mask` and `tail` over n; the two masks are the pair indices i - k and top. */
  method FindSplit(r: Reg, n: Word) returns (s: Split)
    requires n > 0 && LowPair(n) <= 11
    ensures s == SplitForAdd(r, n)
  {
    hide Window, TailIs, Scale, Strip, Slide, LowPair;
    var i := FindLowPair(n);
    var base, top := i, i + 4;
    if r != SP && Window(n, i) != Scale(255, i) {
      var ones := TailIs(n, i, top, true);
      var k := 0;
      while k < 3 && TailIs(n, i, i + 3 - k, ones)
        invariant k <= 3
        invariant Slide(n, i, ones, k) == Slide(n, i, ones, 0)
      {
        SlideStep(n, i, ones, k);
        k := k + 1;
      }
      SlideStep(n, i, ones, k);
      var mask1 := (i + 16 - k) % 16;
      if Window(n, mask1) >= 0x100_0000 {
        base, top := mask1, i + 4 - k;
      }
    }
    if (r == SP && n >= TOP) || (r != SP && TailIs(n, i, top, true)) {
      return Split(true, Window(Neg(n), base));
    } else {
      return Split(false, Window(n, base));
    }
  }

  lemma AddCodeDirect(r1: Reg, r2: Reg, n: Word, cond: Cond, s: bool, known: Known)
    ensures var c, up, down := AddCode(r1, r2, n, cond, s, known), EightBits(n), EightBits(Neg(n));
            var f := RegisterContainingValue(known, n, ADD_ASK);
            if n == 0 && cond == AL && !s then
              c == if r1 == r2 then [] else [Data(AL, MOV, false, r1, 0, Shifted(r2, LSL, 0))]
            else if up.Some? then c == [Data(cond, ADD, s, r1, r2, up.value)]
            else if down.Some? then c == [Data(cond, SUB, s, r1, r2, down.value)]
            else if !f.NotFound? then
              (f.Exact? || f.Negated?)
                  && c == [Data(cond, if f.Negated? then SUB else ADD, s, r1, r2, Shift(f.r, f.shift))]
            else Splits(n, known)
  {
    hide EightBits, RegisterContainingValue, SplitForAdd, Zeros, Remaining;
    LookupSound(known, n, ADD_ASK);
  }

  /** Write the sequence for r1 = r2 + n into the buffer; AddCodeShape shows that four slots suffice. */
  method ArmAddInteger(r1: Reg, r2: Reg, n: Word, cond: Cond, s: bool, known: Known, v: InstrBuffer)
    requires v.Valid() && v.len + |AddCode(r1, r2, n, cond, s, known)| <= v.slots.Length
    modifies v`len, v.slots
    ensures v.Valid() && v.Contents() == old(v.Contents()) + AddCode(r1, r2, n, cond, s, known)
    decreases 16 - Zeros(n), 1
  {
    hide AddCode, EightBits, RegisterContainingValue, SplitForAdd, Zeros, Remaining, Splits, Neg;
    AddCodeDirect(r1, r2, n, cond, s, known);
    if n == 0 && cond == AL && !s {
      if r1 != r2 {
        v.Emit(Data(AL, MOV, false, r1, 0, Shifted(r2, LSL, 0)));
      }
      return;
    }
    var packed := FindEightBits(n);
    if packed.Some? {
      v.Emit(Data(cond, ADD, s, r1, r2, packed.value));
      return;
    }
    packed := FindEightBits(Neg(n));
    if packed.Some? {
      v.Emit(Data(cond, SUB, s, r1, r2, packed.value));
      return;
    }
    var f := RegisterContainingValue(known, n, ADD_ASK);
    if !f.NotFound? {
      v.Emit(Data(cond, if f.Negated? then SUB else ADD, s, r1, r2, Shift(f.r, f.shift)));
      return;
    }
    AddPart(r1, r2, n, cond, s, known, v);
  }

  /** A chunk, and then what remains. */
  method AddPart(r1: Reg, r2: Reg, n: Word, cond: Cond, s: bool, known: Known, v: InstrBuffer)
    requires Splits(n, known) && v.Valid() && v.len + |AddCode(r1, r2, n, cond, s, known)| <= v.slots.Length
    modifies v`len, v.slots
    ensures v.Valid() && v.Contents() == old(v.Contents()) + AddCode(r1, r2, n, cond, s, known)
    decreases 16 - Zeros(n), 0
  {
    hide AddCode, EightBits, RegisterContainingValue, SplitForAdd, Zeros, Remaining, Neg;
    AddCodeSplits(r1, r2, n, cond, s, known);
    var split := FindSplit(r1, n);
    var packed := FindEightBits(split.chunk);
    v.Emit(Data(AL, if split.subtract then SUB else ADD, false, r1, r2, packed.value));
    ArmAddInteger(r1, r1, Remaining(n, split), cond, s, known, v);
  }
}
