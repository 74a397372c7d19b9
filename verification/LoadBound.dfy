/**
 How long a load can become (load_integer in arm/gen.c keeps the sequence in an array of
 five).  The symmetric form loads a half and adds its rotation; each half it can pick lies
 in sixteen adjacent bits or in two bytes a halfword apart, and loads in at most two
 instructions.
 */
module LoadBound {
  import opened Words
  import opened Arm
  import opened Immediates
  import opened KnownValues
  import opened AddConstant
  import opened LoadConstant
  import opened Buffers

  // ---- the pairs of a shifted word ----

  lemma {:induction false} ShiftedAbove(t: nat, c: nat, p: nat)
    requires Scale(t, c) < M
    ensures p < c ==> Above(Scale(t, c), p) % 4 == 0
    ensures p >= c ==> t < M && Above(Scale(t, c), p) == Above(t, p - c)
  {
    ScaleGrows(t, c);
    if p > 0 && c > 0 { ShiftedAbove(t, c - 1, p - 1); }
    if c > 0 { ScaleMod4(t, c); }
  }

  lemma {:induction false} AboveSmall(t: Word, p: nat)
    requires t < Scale(1, p)
    ensures Above(t, p) == 0
  {
    if p > 0 { AboveSmall(t / 4, p - 1); }
  }

  lemma {:induction false} AboveMono(p: nat)
    ensures Above(0, p) == 0
  {
    if p > 0 { AboveMono(p - 1); }
  }

  lemma {:induction false} AboveAdd(t: Word, p: nat, q: nat)
    ensures Above(t, p + q) == Above(Above(t, p), q)
  {
    if p > 0 { AboveAdd(t / 4, p - 1, q); }
  }

  /** A word below 4^w has no pairs from w on. */
  lemma NothingAbove(t: Word, w: nat, p: nat)
    requires t < Scale(1, w) && w <= p
    ensures Above(t, p) == 0
  {
    AboveSmall(t, w);
    AboveAdd(t, w, p - w);
    AboveMono(p - w);
  }

  /** Clear low pairs can be divided out. */
  lemma {:induction false} ClearPairs(t: Word, i: nat)
    requires forall j :: 0 <= j < i ==> Pair(t, j) == 0
    ensures t == Scale(Above(t, i), i)
  {
    if i > 0 {
      assert Pair(t, 0) == 0;
      forall j | 0 <= j < i - 1 ensures Pair(t / 4, j) == 0 { assert Pair(t, j + 1) == 0; }
      ClearPairs(t / 4, i - 1);
    }
  }

  /** Low pairs that are all 11 are one less than the next power of 4. */
  lemma {:induction false} OnesPairs(t: Word, m: nat)
    requires forall j :: 0 <= j < m ==> Pair(t, j) == 3
    ensures t == Scale(1, m) - 1 + Scale(Above(t, m), m)
  {
    if m > 0 {
      assert Pair(t, 0) == 3;
      forall j | 0 <= j < m - 1 ensures Pair(t / 4, j) == 3 { assert Pair(t, j + 1) == 3; }
      OnesPairs(t / 4, m - 1);
    }
  }

  lemma KindOfShifted(t: nat, c: nat, p: nat)
    requires Scale(t, c) < M && c <= p < 16
    ensures t < M && KindAt(Scale(t, c), p) == KindAt(t, p - c)
  {
    ShiftedAbove(t, c, p);
  }

  /** Outside the w pairs from c on, a shifted number below 4^w has only 00s. */
  lemma KindOutside(t: nat, c: nat, w: nat, p: nat)
    requires Scale(t, c) < M && t < Scale(1, w) && p < 16 && (p < c || c + w <= p)
    ensures KindAt(Scale(t, c), p) == ZeroPairs
  {
    ShiftedAbove(t, c, p);
    if c <= p { NothingAbove(t, w, p - c); }
  }

  /** A byte at an even place fits an immediate field. */
  lemma ByteFits(b: nat, k: nat)
    requires b < 256 && Scale(b, k) < M
    ensures EightBits(Scale(b, k)).Some?
  {
    hide EightBits, Scale;
    if k <= 15 {
      ScaledWindow(Scale(b, k), b, k);
      WindowEncodable(Scale(b, k), k);
    } else {
      if b > 0 { ScaleLess(0, b, k); ScaleZero(k); AtLeastM(b, k); }
      ScaleZero(k);
      ZeroFits(0);
    }
  }

  lemma AtLeastM(b: nat, k: nat)
    requires b > 0 && k >= 16
    ensures Scale(b, k) >= M
  {
    hide Scale;
    ScaleOfOne();
    if b > 1 { ScaleLess(1, b, 16); }
    ScaleScale(b, 16, k - 16);
    ScaleGrows(Scale(b, 16), k - 16);
  }

  /** Rotated down, a byte on top of lower bits has those bits above it. */
  lemma RotatedOver(n: Word, low: nat, g: nat, e: nat)
    requires n == Scale(g, e) + low && low < Scale(1, e) && 0 < e < 16
    ensures RorPairs(n, e) == Scale(low, 16 - e) + g
  {
    hide Scale, RolPairs, RorPairs;
    RolPairsForm(n, g, low, 16 - e);
    RolPairsAdd(n, 16 - e, e);
    RolPairsFull(n);
    RolRorPairs(RolPairs(n, 16 - e), e);
  }

  /** A byte on top of lower bits is what the window at its place holds. */
  lemma WindowOver(n: Word, z: nat, c: nat, g: nat, e: nat)
    requires n == Scale(z, c) + Scale(g, e) && Scale(z, c) < Scale(1, e)
    requires c <= e <= c + 12 && 0 < e < 16 && g < 256
    ensures Window(n, e) == Scale(g, e)
  {
    hide Scale, RolPairs, RorPairs;
    RotatedOver(n, Scale(z, c), g, e);
    ScaleScale(z, c, 16 - e);
    ScaleScale(z, c + 12 - e, 4);
    var x := Scale(z, c + 12 - e);
    TimesByte(x);
    assert Scale(Scale(z, c), 16 - e) == 256 * x;
    DivUnique(RorPairs(n, e), 256, x, g);
    RorPairsDivides(g, e);
    RolRorPairs(Scale(g, e), e);
  }

  lemma TimesByte(x: int)
    ensures Scale(x, 4) == 256 * x
  {
    assert Scale(x, 1) == 4 * x;
    assert Scale(x, 3) == 64 * x;
  }

  // ---- the strings of a half ----

  /** Pairs outside the w pairs from c on make a run of 00s. */
  lemma OutsideRun(t: nat, c: nat, w: nat, a: nat, size: nat)
    requires Scale(t, c) < M && t < Scale(1, w) && a < 16 && size <= 16
    requires forall j {:trigger KindOn(Scale(t, c), j)} :: a <= j < a + size ==> j % 16 < c || c + w <= j % 16
    ensures IsRun(Scale(t, c), a, size, ZeroPairs)
  {
    hide Scale, KindAt;
    forall j | a <= j < a + size ensures KindOn(Scale(t, c), j) == ZeroPairs {
      assert KindOn(Scale(t, c), j) == KindAt(Scale(t, c), j % 16);
      KindOutside(t, c, w, j % 16);
    }
  }

  /** The pairs just below the end of a recorded string belong to it. */
  lemma BelowEnd(n: Word, r: Str, j: nat)
    requires Recorded(n, r) && j < EndOf(r) <= j + r.size
    ensures KindAt(n, j) == r.value
  {
    hide KindAt;
    if r.pos + r.size == EndOf(r) {
      assert KindOn(n, j) == r.value;
    } else {
      assert KindOn(n, j + 16) == r.value;
    }
  }

  lemma EndDiffers(n: Word, r: Str)
    requires Recorded(n, r) && r.size > 0
    ensures KindAt(n, EndOf(r)) != r.value
  {
    hide KindAt;
  }

  /** The longest string is the outer one: it is long, and the later of equals. */
  lemma OuterLongest(n: Word, a: nat, size: nat)
    requires n != 0 && n != M - 1 && IsRun(n, a, size, ZeroPairs) && 0 < size && a < 16 <= a + size
    ensures var r := ScanTo(n, 17).long1;
            Recorded(n, r) && size <= r.size && (r.value.ZeroPairs? || (r.value.OnePairs? && size < r.size))
  {
    hide KindAt, ScanTo;
    assert KindOn(n, 15) == ZeroPairs;
    LongestStrings(n);
    assert Noted(ScanTo(n, 17), a, size);
    LaterKept(n, a, size);
  }

  // ---- sixteen adjacent bits ----

  lemma WideLongest(t: nat, c: nat)
    requires 0 < Scale(t, c) < M && t < 0x1_0000 && c <= 7
    ensures Scale(t, c) != M - 1
    ensures var r := ScanTo(Scale(t, c), 17).long1;
            Recorded(Scale(t, c), r) && r.value.ZeroPairs? && r.size >= 8
  {
    hide Scale, KindAt, ScanTo;
    var n := Scale(t, c);
    SixteenBits();
    OutsideRun(t, c, 8, c + 8, 8);
    assert n != M - 1 by {
      KindOutside(t, c, 8, 15);
      if n == M - 1 { TopPairOnes(); }
    }
    OuterLongest(n, c + 8, 8);
    var r := ScanTo(n, 17).long1;
    var j := if c <= r.pos < c + 8 then c + 8 else r.pos;
    assert r.value.OnePairs? ==> KindOn(n, j) == OnePairs;
    KindOutside(t, c, 8, j);
  }

  lemma SixteenBits()
    ensures Scale(1, 8) == 0x1_0000 && Scale(1, 12) == 0x100_0000 && Scale(1, 4) == 256
  {
    ScaleScale(1, 4, 4);
    assert Scale(1, 4) == 256;
    assert Scale(256, 4) == 0x1_0000;
    ScaleOfOne();
  }

  lemma TopPairOnes()
    ensures KindAt(M - 1, 15) == OnePairs
  {
    hide Scale;
    ScaleOfOne();
    ScaleSub(4, 1, 15);
    var h, l := SplitWord(M - 1, 15);
    assert Scale(3, 15) == 0xc000_0000 by { ScaleAdd(1, 1, 15); ScaleAdd(2, 1, 15); }
    ScaleAdd(1, 1, 15);
    ScaleFour(1, 15);
    if h < 3 { AtMost(h, 2, 15); } else { AtMost(3, h, 15); }
    if h > 3 { AtMost(4, h, 15); }
  }

  lemma AtMost(a: nat, b: nat, k: nat)
    requires a <= b
    ensures Scale(a, k) <= Scale(b, k)
  {
    hide Scale;
    if a < b { ScaleLess(a, b, k); }
  }

  /** What lies above the chunk is a byte. */
  lemma RestFits(n: Word, b: nat, e: nat)
    requires n == Scale(b, e) && b < 0x1_0000 && e <= 15
    ensures EightBits(Wrap(n - Window(n, e))).Some?
  {
    hide Scale, Window, EightBits;
    ScaledWindow(n, b, e);
    ScaleAdd(b % 256, 256 * (b / 256), e);
    assert b == b % 256 + 256 * (b / 256);
    ScaleByte(b / 256, e);
    ScaleNat(b % 256, e);
    ByteFits(b / 256, e + 4);
    WrapSmall(n - Window(n, e));
  }

  /** A long string of 11s begins and ends among the sixteen bits. */
  lemma OnesWithin(t: nat, c: nat, r: Str)
    requires Scale(t, c) < M && t < 0x1_0000 && c <= 7 && r.size > 0
    requires IsRun(Scale(t, c), r.pos, r.size, OnePairs)
    ensures c <= r.pos && r.pos + r.size <= c + 8
    ensures forall j :: r.pos - c <= j < r.pos - c + r.size ==> Pair(t, j) == 3
  {
    hide Scale, KindAt;
    var n := Scale(t, c);
    SixteenBits();
    assert KindOn(n, r.pos) == OnePairs;
    if r.pos < c || c + 8 <= r.pos { KindOutside(t, c, 8, r.pos); }
    KindOutside(t, c, 8, c + 8);
    assert r.pos <= c + 8 < r.pos + r.size ==> KindOn(n, c + 8) == OnePairs;
    forall j | r.pos - c <= j < r.pos - c + r.size ensures Pair(t, j) == 3 {
      assert KindOn(n, j + c) == OnePairs;
      KindOfShifted(t, c, j + c);
      PairOfKind(t, j);
    }
  }

  lemma PairOfKind(t: Word, j: nat)
    requires j < 16
    ensures KindAt(t, j) == OnePairs <==> Pair(t, j) == 3
    ensures KindAt(t, j) == ZeroPairs <==> Pair(t, j) == 0
  {
  }

  /** A number with a string of m 11s from pair i on. */
  lemma OnesForm(t: Word, i: nat, m: nat) returns (lo: nat, g: nat)
    requires forall j :: i <= j < i + m ==> Pair(t, j) == 3
    ensures lo < Scale(1, i) && t == lo + Scale(1, i + m) - Scale(1, i) + Scale(g, i + m)
  {
    hide Scale, Above;
    var hi, low := SplitWord(t, i);
    forall j | 0 <= j < m ensures Pair(hi, j) == 3 {
      AboveAdd(t, i, j);
      assert Pair(t, i + j) == 3;
    }
    OnesPairs(hi, m);
    lo, g := low, Above(hi, m);
    ScaleAdd(Scale(1, m) - 1, Scale(g, m), i);
    ScaleSub(Scale(1, m), 1, i);
    ScaleScale(1, m, i);
    ScaleScale(g, m, i);
  }

  /** Past a long string of 11s, the chunk incremented by one leaves a byte to be subtracted. */
  lemma BelowOnesFits(t: nat, c: nat, r: Str)
    requires Scale(t, c) < M && t < 0x1_0000 && c <= 7 && r.size > 4
    requires IsRun(Scale(t, c), r.pos, r.size, OnePairs)
    ensures var n, e := Scale(t, c), EndOf(r);
            e != 0 && EightBits(Neg(Wrap(n - Wrap(Window(n, e) + Scale(1, e))))).Some?
  {
    hide Scale, Window, EightBits, IsRun, Neg, Wrap;
    OnesWithin(t, c, r);
    var n, e, i := Scale(t, c), r.pos + r.size, r.pos - c;
    var lo, g := OnesForm(t, i, r.size);
    var z := lo + Scale(1, i + r.size) - Scale(1, i);
    OneGrows(i, i + r.size);
    HighIsByte(t, i + r.size, z, g);
    ScaleAdd(z, Scale(g, i + r.size), c);
    ScaleScale(g, i + r.size, c);
    ScaleScale(1, i + r.size, c);
    ScaleLess(z, Scale(1, i + r.size), c);
    WindowOver(n, z, c, g, e);
    ScaleSub(z, Scale(1, i + r.size), c);
    ScaleSub(0, Scale(1, i) - lo, c);
    ScaleZero(c);
    var y := Scale(1, i) - lo;
    assert n - (Window(n, e) + Scale(1, e)) == -Scale(y, c);
    SmallGap(i, lo, c);
    ByteFits(y, c);
    ScaleLess(0, y, c);
    NegOfWrap(n, Window(n, e) + Scale(1, e), Scale(y, c));
  }

  /** What is above five pairs of a sixteen-bit number is less than a byte. */
  lemma HighIsByte(t: nat, k: nat, z: int, g: nat)
    requires t == z + Scale(g, k) && t < 0x1_0000 && k >= 5 && z >= 0
    ensures g < 64
  {
    hide Scale;
    ScaleScale(g, 5, k - 5);
    ScaleScale(g, 1, 4);
    TimesByte(Scale(g, 1));
    assert Scale(g, 1) == 4 * g by { ScaleFour(g, 0); ScaleNone(4 * g); }
    ScaleGrows(Scale(g, 5), k - 5);
  }

  lemma ScaleNone(x: int)
    ensures Scale(x, 0) == x
  {
  }

  lemma SmallGap(i: nat, lo: nat, c: nat)
    requires i <= 3 && lo < Scale(1, i) && c <= 7
    ensures 0 < Scale(1, i) - lo <= 64 && Scale(Scale(1, i) - lo, c) < M
  {
    assert Scale(1, 1) == 4 && Scale(1, 2) == 16 && Scale(1, 3) == 64;
    hide Scale;
    var y := Scale(1, i) - lo;
    AtMost(y, 256, c);
    ScaleByte(1, c);
    ScaleOfOne();
    OneGrows(c + 4, 16);
  }

  lemma OneGrows(i: nat, k: nat)
    requires i < k
    ensures Scale(1, i) < Scale(1, k)
  {
    hide Scale;
    ScaleScale(1, k - i, i);
    assert Scale(1, k - i) > 1 by { MoreThanOne(k - i); }
    ScaleLess(1, Scale(1, k - i), i);
  }

  lemma MoreThanOne(k: nat)
    requires k > 0
    ensures Scale(1, k) > 1
  {
  }

  lemma NegOfWrap(n: Word, k: int, y: int)
    requires n - k == -y && 0 < y < M
    ensures Neg(Wrap(n - Wrap(k))) == y
  {
    assert Wrap(n - Wrap(k)) == Wrap(n - k) by { WrapTwice(n, k); }
    assert Wrap(-y) == M - y;
  }

  lemma WrapTwice(n: Word, k: int)
    ensures Wrap(n - Wrap(k)) == Wrap(n - k)
  {
    SameRemainder(n - k, n - Wrap(k), k / M);
  }

  /** The remainder or its negative fits an immediate field: one more instruction. */
  predicate OneMore(n: Word)
  {
    EightBits(ChooseFirst(n).remainder).Some? || EightBits(Neg(ChooseFirst(n).remainder)).Some?
  }

  lemma WideOneMore(t: nat, c: nat)
    requires 0 < Scale(t, c) < M && t < 0x1_0000 && c <= 7
    ensures OneMore(Scale(t, c))
  {
    hide Scale, Window, EightBits, IsRun, Neg, Wrap, KindAt, ScanTo;
    var n := Scale(t, c);
    var s := ScanTo(n, 17);
    WideLongest(t, c);
    LongestStrings(n);
    if s.long2.value.OnePairs? && s.long2.size > 4 {
      BelowOnesFits(t, c, s.long2);
    } else {
      WideChunk(t, c, s.long1);
    }
  }

  /** Above the outer string of 00s the chunk leaves a byte. */
  lemma WideChunk(t: nat, c: nat, r: Str)
    requires Scale(t, c) < M && t < 0x1_0000 && c <= 7
    requires Recorded(Scale(t, c), r) && r.value.ZeroPairs? && r.size >= 8
    ensures EightBits(Wrap(Scale(t, c) - Window(Scale(t, c), EndOf(r)))).Some?
  {
    hide Scale, Window, EightBits, KindAt, Recorded, Above;
    var n, e := Scale(t, c), EndOf(r);
    SixteenBits();
    EndDiffers(n, r);
    if e < c || c + 8 <= e { KindOutside(t, c, 8, e); }
    forall j | 0 <= j < e - c ensures Pair(t, j) == 0 {
      BelowEnd(n, r, j + c);
      KindOfShifted(t, c, j + c);
      PairOfKind(t, j);
    }
    ClearPairs(t, e - c);
    var b := Above(t, e - c);
    ScaleGrows(b, e - c);
    ScaleScale(b, e - c, c);
    RestFits(n, b, e);
  }

  // ---- two bytes a halfword apart ----

  lemma {:induction false} AboveSum(l: Word, v: nat, k: nat, p: nat)
    requires l + Scale(v, k) < M && p <= k
    ensures Above(l + Scale(v, k), p) == Above(l, p) + Scale(v, k - p)
  {
    if p > 0 {
      assert (l + Scale(v, k)) / 4 == l / 4 + Scale(v, k - 1);
      AboveSum(l / 4, v, k - 1, p - 1);
    }
  }

  /** The pairs of two bytes a halfword apart. */
  lemma TwoBytes(l: nat, u: nat, p: nat)
    requires l < 256 && u < 256 && l + Scale(u, 8) < M && p < 16
    ensures p < 4 ==> KindAt(l + Scale(u, 8), p) == KindAt(l, p)
    ensures 4 <= p < 8 ==> KindAt(l + Scale(u, 8), p) == ZeroPairs
    ensures 8 <= p ==> KindAt(l + Scale(u, 8), p) == KindAt(u, p - 8)
  {
    hide Scale, Above;
    SixteenBits();
    if p < 8 {
      AboveSum(l, u, 8, p);
      ScaleMod4(u, 8 - p);
      SumMod4(Scale(u, 8 - p), Above(l, p));
      if p >= 4 { NothingAbove(l, 4, p); }
    } else {
      AboveSum(l, u, 8, 8);
      NothingAbove(l, 4, 8);
      ScaleNone(u);
      AboveAdd(l + Scale(u, 8), 8, p - 8);
    }
  }

  /** The half n & (0xff00ff << 2c). */
  function Bytes(l: nat, u: nat, c: nat): int { Scale(l + Scale(u, 8), c) }

  lemma BytesOutside(l: nat, u: nat, c: nat, p: nat)
    requires l < 256 && u < 256 && c <= 3 && Bytes(l, u, c) < M && p < 16
    requires p < c || c + 4 <= p < c + 8 || c + 12 <= p
    ensures KindAt(Bytes(l, u, c), p) == ZeroPairs
  {
    hide Scale, KindAt;
    BytesBound(l, u);
    if c + 4 <= p < c + 8 {
      KindOfShifted(l + Scale(u, 8), c, p);
      TwoBytes(l, u, p - c);
    } else {
      KindOutside(l + Scale(u, 8), c, 12, p);
    }
  }

  lemma BytesBound(l: nat, u: nat)
    requires l < 256 && u < 256
    ensures Scale(u, 8) == 0x1_0000 * u && l + Scale(u, 8) < Scale(1, 12)
  {
    hide Scale;
    SixteenBits();
    ScaleScale(u, 4, 4);
    TimesByte(u);
    TimesByte(256 * u);
  }

  lemma NarrowLongest(l: nat, u: nat, c: nat)
    requires l < 256 && u < 256 && c <= 3 && 0 < Bytes(l, u, c) < M
    ensures Bytes(l, u, c) != M - 1
    ensures var r := ScanTo(Bytes(l, u, c), 17).long1;
            Recorded(Bytes(l, u, c), r) && r.value.ZeroPairs? && r.size >= 4
  {
    hide Scale, KindAt, ScanTo, Bytes;
    var n: Word := Bytes(l, u, c);
    forall j | c + 12 <= j < c + 16 ensures KindOn(n, j) == ZeroPairs { BytesOutside(l, u, c, j % 16); }
    BytesOutside(l, u, c, 15);
    if n == M - 1 { TopPairOnes(); }
    OuterLongest(n, c + 12, 4);
    var r := ScanTo(n, 17).long1;
    if r.value.OnePairs? { ShortOnes(l, u, c, r); }
  }

  /** No string of 11s is longer than a byte. */
  lemma ShortOnes(l: nat, u: nat, c: nat, r: Str)
    requires l < 256 && u < 256 && c <= 3 && 0 <= Bytes(l, u, c) < M
    requires IsRun(Bytes(l, u, c), r.pos, r.size, OnePairs)
    ensures r.size <= 4
  {
    hide Scale, KindAt, Bytes;
    var j := if c <= r.pos < c + 4 then c + 4 else if c + 8 <= r.pos < c + 12 then c + 12 else r.pos;
    assert r.size > 4 ==> KindOn(Bytes(l, u, c), j) == OnePairs;
    BytesOutside(l, u, c, j);
  }

  lemma NarrowOneMore(l: nat, u: nat, c: nat)
    requires l < 256 && u < 256 && c <= 3 && 0 < Bytes(l, u, c) < M
    ensures OneMore(Bytes(l, u, c))
  {
    hide Scale, Window, EightBits, IsRun, Neg, Wrap, KindAt, ScanTo, Bytes;
    var n: Word := Bytes(l, u, c);
    var s := ScanTo(n, 17);
    NarrowLongest(l, u, c);
    LongestStrings(n);
    if s.long2.value.OnePairs? { ShortOnes(l, u, c, s.long2); }
    NarrowChunk(l, u, c, s.long1);
  }

  /** Past a string of four or more 00s comes one of the bytes, and the other is left. */
  lemma NarrowChunk(l: nat, u: nat, c: nat, r: Str)
    requires l < 256 && u < 256 && c <= 3 && 0 <= Bytes(l, u, c) < M
    requires Recorded(Bytes(l, u, c), r) && r.value.ZeroPairs? && r.size >= 4
    ensures EightBits(Wrap(Bytes(l, u, c) - Window(Bytes(l, u, c), EndOf(r)))).Some?
  {
    hide Scale, Window, EightBits, KindAt, Recorded, Bytes;
    var n: Word := Bytes(l, u, c);
    var e := EndOf(r);
    EndDiffers(n, r);
    if e < c || c + 4 <= e < c + 8 || c + 12 <= e { BytesOutside(l, u, c, e); }
    if e < c + 4 {
      forall j | 0 <= j < e - c ensures Pair(l, j) == 0 {
        BelowEnd(n, r, j + c);
        LowKind(l, u, c, j);
      }
      LowChunk(l, u, c, e - c);
    } else {
      forall j | 0 <= j < e - c - 8 ensures Pair(u, j) == 0 {
        BelowEnd(n, r, j + c + 8);
        HighKind(l, u, c, j);
      }
      HighChunk(l, u, c, e - c - 8);
    }
  }

  lemma LowKind(l: nat, u: nat, c: nat, j: nat)
    requires l < 256 && u < 256 && c <= 3 && 0 <= Bytes(l, u, c) < M && j < 4
    ensures KindAt(Bytes(l, u, c), j + c) == ZeroPairs <==> Pair(l, j) == 0
  {
    hide Scale, KindAt;
    KindOfShifted(l + Scale(u, 8), c, j + c);
    TwoBytes(l, u, j);
    PairOfKind(l, j);
  }

  lemma HighKind(l: nat, u: nat, c: nat, j: nat)
    requires l < 256 && u < 256 && c <= 3 && 0 <= Bytes(l, u, c) < M && j < 4
    ensures KindAt(Bytes(l, u, c), j + c + 8) == ZeroPairs <==> Pair(u, j) == 0
  {
    hide Scale, KindAt;
    KindOfShifted(l + Scale(u, 8), c, j + c + 8);
    TwoBytes(l, u, j + 8);
    PairOfKind(u, j);
  }

  lemma LowChunk(l: nat, u: nat, c: nat, i: nat)
    requires l < 256 && u < 256 && c <= 3 && i <= 3 && 0 <= Bytes(l, u, c) < M
    requires forall j :: 0 <= j < i ==> Pair(l, j) == 0
    ensures EightBits(Wrap(Bytes(l, u, c) - Window(Bytes(l, u, c), c + i))).Some?
  {
    hide Scale, Window, EightBits, Above;
    var n: Word := Bytes(l, u, c);
    ClearPairs(l, i);
    var b := Above(l, i);
    ScaleGrows(b, i);
    ScaleScale(u, 8 - i, i);
    var q := b + Scale(u, 8 - i);
    ScaleAdd(b, Scale(u, 8 - i), i);
    ScaleScale(q, i, c);
    ScaleScale(u, 4 - i, 4);
    TimesByte(Scale(u, 4 - i));
    ScaleGrows(q, i + c);
    DivUnique(q, 256, Scale(u, 4 - i), b);
    ScaledWindow(n, q, c + i);
    ScaleAdd(b, Scale(u, 8 - i), c + i);
    ScaleScale(u, 8 - i, c + i);
    assert n - Window(n, c + i) == Scale(u, 8 + c);
    ScaleNat(b, c + i);
    ByteFits(u, 8 + c);
    WrapSmall(Scale(u, 8 + c));
  }

  lemma HighChunk(l: nat, u: nat, c: nat, i: nat)
    requires l < 256 && u < 256 && c <= 3 && i <= 3 && 0 <= Bytes(l, u, c) < M
    requires forall j :: 0 <= j < i ==> Pair(u, j) == 0
    ensures EightBits(Wrap(Bytes(l, u, c) - Window(Bytes(l, u, c), c + 8 + i))).Some?
  {
    hide Scale, Window, EightBits, Above;
    var n: Word := Bytes(l, u, c);
    var e := c + 8 + i;
    ClearPairs(u, i);
    var b := Above(u, i);
    ScaleGrows(b, i);
    ScaleScale(b, i, 8);
    ScaleScale(b, 8 + i, c);
    ScaleAdd(l, Scale(u, 8), c);
    assert n == Scale(l, c) + Scale(b, e);
    SixteenBits();
    AtMost(l, 256, c);
    ScaleByte(1, c);
    OneGrows(c + 4, e);
    WindowOver(n, l, c, b, e);
    ScaleNat(b, e);
    ScaleNat(l, c);
    ByteFits(l, c);
    WrapSmall(Scale(l, c));
  }

  // ---- every half, and every load ----

  lemma HalfOneMore(n: Word, wide: bool, c: nat)
    requires c < (if wide then 8 else 4)
    ensures Half(n, wide, c) != 0 ==> 0 < Half(n, wide, c) < M && OneMore(Half(n, wide, c))
  {
    hide Scale, OneMore, Above;
    HalfFits(n, wide, c);
    var t := Above(n, c);
    if wide {
      if Half(n, wide, c) != 0 { WideOneMore(t % 0x1_0000, c); }
    } else {
      BytesBound(t % 256, t / 0x1_0000 % 256);
      if Half(n, wide, c) != 0 { NarrowOneMore(t % 256, t / 0x1_0000 % 256, c); }
    }
  }

  /** The half that symmetricload finds is one of those. */
  lemma {:induction false} FoundOneMore(n: Word, wide: bool, c: nat)
    requires c <= (if wide then 8 else 4)
    ensures var y := FindSymmetry(n, wide, c); y.Some? && y.value.half != 0 ==> OneMore(y.value.half)
    decreases 8 - c
  {
    hide OneMore, Half, FindRotation, Ror;
    if c < (if wide then 8 else 4) {
      HalfFits(n, wide, c);
      HalfOneMore(n, wide, c);
      FoundOneMore(n, wide, c + 1);
    }
  }

  /** Chunk and rest: two instructions when the rest or its negative fits. */
  lemma HalfLength(r: Reg, n: Word, known: Known)
    requires n == 0 || OneMore(n)
    ensures |LoadCode(r, n, false, known)| <= 2
  {
    hide EightBits, RegisterContainingValue, ChooseFirst, Symmetric, Denotes;
    if n == 0 { ZeroFits(0); }
    if EightBits(n).None? && EightBits(Not(n)).None? {
      LoadCases(n);
      LookupSound(known, n, LOAD_ASK);
    }
  }

  /** Loading a constant takes at most five instructions, the room the source provides. */
  lemma LoadLength(r: Reg, n: Word, s: bool, known: Known)
    ensures |LoadCode(r, n, s, known)| <= 5
  {
    hide EightBits, RegisterContainingValue, ChooseFirst, FindSymmetry, Denotes, AddCode, OneMore, Ror;
    if EightBits(n).None? && EightBits(Not(n)).None? {
      LoadCases(n);
      LookupSound(known, n, LOAD_ASK);
      AddCodeShape(r, r, ChooseFirst(n).remainder, AL, s, known[r := None]);
      FoundOneMore(n, true, 0);
      FoundOneMore(n, false, 0);
      if Symmetric(n).Some? { HalfLength(r, Symmetric(n).value.half, known); }
    }
  }

  /**
   load_integer: the sequence is put into an array of five slots, and the table then says
   what the register holds.
   */
  method LoadInteger(r: Reg, n: Word, s: bool, table: RegisterValues) returns (v: InstrBuffer)
    modifies table
    ensures v.Valid() && v.slots.Length == 5 && v.Contents() == LoadCode(r, n, s, old(table.known))
    ensures table.known == old(table.known)[r := Some(n)]
  {
    LoadLength(r, n, s, table.known);
    v := new InstrBuffer(5);
    LoadIntegerI(r, n, s, table, v);
    table.Set(r, n);
  }
}
