/**
 32-bit machine words.

 A register or memory cell holds a `Word`, an integer in [0, 2^32).  The compiler's
 `int32` arithmetic wraps, so it is arithmetic on words too.  Bit tests on constants
 are written with division and remainder: the pair of bits at position 2i of n is
 n / 4^i % 4.
 */
module Words {

  datatype Option<+T> = None | Some(value: T)

  const M: int := 0x1_0000_0000
  const TOP: int := 0x8000_0000

  type Word = x: int | 0 <= x < 0x1_0000_0000

  /** An `int32` or an address computation, reduced to the word that represents it. */
  function Wrap(i: int): (w: Word) { i % M }

  /** The value of a word read as a two's complement integer. */
  function Signed(w: Word): (i: int)
    ensures -TOP <= i < TOP
    ensures Wrap(i) == w
  {
    if w < TOP then w else w - M
  }

  function Neg(x: Word): Word { Wrap(M - x) }

  function Not(x: Word): Word { M - 1 - x }

  function Pow2(k: nat): (p: nat)
    ensures p > 0
  {
    if k == 0 then 1 else 2 * Pow2(k - 1)
  }

  /** q shifted left by k pairs of bits, without wrapping. */
  function Scale(q: int, k: nat): (r: int)
    ensures q >= 0 ==> r >= q
    ensures q <= 0 ==> r <= q
  {
    if k == 0 then q else 4 * Scale(q, k - 1)
  }

  // ---- shifts and rotations, one place at a time ----

  function Lsl(x: Word, k: nat): Word { if k == 0 then x else Lsl(x, k - 1) * 2 % M }

  function Lsr(x: Word, k: nat): Word { if k == 0 then x else Lsr(x, k - 1) / 2 }

  function Asr(x: Word, k: nat): Word
  {
    if k == 0 then x
    else var y := Asr(x, k - 1); y / 2 + (if y >= TOP then TOP else 0)
  }

  function Ror(x: Word, k: nat): Word
  {
    if k == 0 then x
    else var y := Ror(x, k - 1); y / 2 + (y % 2) * TOP
  }

  /** Rotate left by two places: the step of the immediate-field search. */
  function Rol2(x: Word): Word { x * 4 % M + x / 0x4000_0000 }

  function Ror2(x: Word): Word { x / 4 + (x % 4) * 0x4000_0000 }

  /** Rotations by k pairs of bits. */
  function RolPairs(x: Word, k: nat): Word { if k == 0 then x else Rol2(RolPairs(x, k - 1)) }

  function RorPairs(x: Word, k: nat): Word { if k == 0 then x else Ror2(RorPairs(x, k - 1)) }

  // ---- bitwise operations ----

  function And(x: nat, y: nat): (r: nat)
    ensures r <= x && r <= y
    decreases x
  {
    if x == 0 || y == 0 then 0
    else 2 * And(x / 2, y / 2) + (if x % 2 == 1 && y % 2 == 1 then 1 else 0)
  }

  function Bic(x: nat, y: nat): (r: nat)
    ensures r <= x
    decreases x
  {
    if x == 0 then 0
    else 2 * Bic(x / 2, y / 2) + (if x % 2 == 1 && y % 2 == 0 then 1 else 0)
  }

  function Orr(x: nat, y: nat): (r: nat)
    ensures x <= r && y <= r
    decreases x + y
  {
    if x == 0 && y == 0 then 0
    else 2 * Orr(x / 2, y / 2) + (if x % 2 == 1 || y % 2 == 1 then 1 else 0)
  }

  function Eor(x: nat, y: nat): (r: nat)
    decreases x + y
  {
    if x == 0 && y == 0 then 0
    else 2 * Eor(x / 2, y / 2) + (if x % 2 != y % 2 then 1 else 0)
  }

  lemma {:induction false} OrZero(x: nat)
    ensures Orr(x, 0) == x && Orr(0, x) == x && Eor(x, 0) == x
  {
    if x > 0 { OrZero(x / 2); }
  }

  lemma {:induction false} OrrBound(x: nat, y: nat, k: nat)
    requires x < Pow2(k) && y < Pow2(k)
    ensures Orr(x, y) < Pow2(k)
    ensures Eor(x, y) < Pow2(k)
  {
    if k > 0 {
      OrrBound(x / 2, y / 2, k - 1);
    }
  }

  // ---- powers of two ----

  lemma {:induction false} Pow2Add(a: nat, b: nat)
    ensures Pow2(a + b) == Pow2(a) * Pow2(b)
  {
    if b > 0 {
      Pow2Add(a, b - 1);
      assert Pow2(a) * (2 * Pow2(b - 1)) == 2 * (Pow2(a) * Pow2(b - 1));
    }
  }

  lemma Pow2At32()
    ensures Pow2(32) == M
  {
    assert Pow2(8) == 256;
    Pow2Add(8, 8);
    Pow2Add(16, 16);
  }

  lemma Pow2At31()
    ensures Pow2(31) == TOP
  {
    Pow2At32();
  }

  // ---- scaling is linear ----

  lemma {:induction false} ScaleAdd(a: int, b: int, k: nat)
    ensures Scale(a + b, k) == Scale(a, k) + Scale(b, k)
  {
    if k > 0 { ScaleAdd(a, b, k - 1); }
  }

  lemma {:induction false} ScaleScale(q: int, j: nat, k: nat)
    ensures Scale(q, j + k) == Scale(Scale(q, j), k)
  {
    if k > 0 { ScaleScale(q, j, k - 1); }
  }

  lemma {:induction false} ScaleLess(a: int, b: int, k: nat)
    requires a < b
    ensures Scale(a, k) < Scale(b, k)
  {
    if k > 0 { ScaleLess(a, b, k - 1); }
  }

  lemma {:induction false} ScaleZero(k: nat)
    ensures Scale(0, k) == 0
  {
    if k > 0 { ScaleZero(k - 1); }
  }

  lemma ScaleSub(a: int, b: int, k: nat)
    ensures Scale(a - b, k) == Scale(a, k) - Scale(b, k)
  {
    ScaleAdd(a - b, b, k);
  }

  lemma ScaleFour(q: int, k: nat)
    ensures Scale(4 * q, k) == Scale(q, k + 1)
  {
    ScaleScale(q, 1, k);
  }

  lemma ScaleByte(q: int, k: nat)
    ensures Scale(256 * q, k) == Scale(q, k + 4)
  {
    assert Scale(q, 1) == 4 * q;
    assert Scale(q, 3) == 64 * q;
    ScaleScale(q, 4, k);
  }

  lemma ScaleOfOne()
    ensures Scale(1, 16) == M && Scale(1, 15) == 0x4000_0000 && Scale(256, 12) == M && Scale(1, 12) == 0x100_0000
  {
    assert Scale(1, 4) == 256;
    ScaleScale(1, 4, 4);
    assert Scale(256, 4) == 0x1_0000;
    ScaleScale(1, 8, 4);
    assert Scale(0x1_0000, 4) == 0x100_0000;
    ScaleScale(1, 12, 3);
    assert Scale(0x100_0000, 3) == 0x4000_0000;
    ScaleByte(1, 12);
    assert Scale(1, 16) == 4 * Scale(1, 15);
  }

  // ---- division ----

  lemma MulMono(a: nat, b: nat, c: nat)
    requires a <= b
    ensures a * c <= b * c
  {
  }

  /** Quotient and remainder are determined by what they satisfy. */
  lemma DivUnique(x: nat, y: nat, d: nat, m: nat)
    requires y > 0 && x == d * y + m && m < y
    ensures x / y == d && x % y == m
  {
    var e, f := x / y, x % y;
    assert x == e * y + f;
    if e < d { MulMono(e + 1, d, y); }
    if d < e { MulMono(d + 1, e, y); }
  }

  // ---- shifts are products and quotients ----

  lemma {:induction false} LslIsProduct(x: Word, k: nat)
    ensures Lsl(x, k) == Wrap(x * Pow2(k))
  {
    if k > 0 {
      LslIsProduct(x, k - 1);
      var y := x * Pow2(k - 1);
      assert x * Pow2(k) == y * 2;
      DoubleWrap(y);
    }
  }

  lemma DoubleWrap(y: int)
    ensures Wrap(y) * 2 % M == Wrap(y * 2)
  {
    var k := y / M;
    assert y == k * M + Wrap(y);
    hide Wrap;
    SameRemainder(Wrap(y) * 2, y * 2, 2 * k);
  }

  lemma SameRemainder(i: int, j: int, k: int)
    requires j == i + k * M
    ensures i % M == Wrap(j)
  {
  }

  /** Dividing twice is dividing by the product. */
  lemma DivDiv(x: nat, a: nat, b: nat)
    requires a > 0 && b > 0
    ensures a * b > 0 && x / a / b == x / (a * b)
  {
    var q, r := x / a, x % a;
    QuotientOfQuotient(x, a, b, q, r, q / b, q % b);
  }

  lemma QuotientOfQuotient(x: nat, a: nat, b: nat, q: nat, r: nat, s: nat, t: nat)
    requires a > 0 && b > 0 && x == a * q + r && r < a && q == b * s + t && t < b
    ensures a * b > 0 && x / (a * b) == s
  {
    ProductOfSum(a, b, s, t);
    MulMono(t + 1, b, a);
    DivUnique(x, a * b, s, a * t + r);
  }

  lemma ProductOfSum(a: int, b: int, s: int, t: int)
    ensures a * (b * s + t) == s * (a * b) + a * t
  {
  }

  lemma {:induction false} LsrIsQuotient(x: Word, k: nat)
    ensures Lsr(x, k) == x / Pow2(k)
  {
    if k > 0 {
      LsrIsQuotient(x, k - 1);
      DivDiv(x, Pow2(k - 1), 2);
    }
  }

  // ---- rotations undo each other ----

  lemma Rol2Splits(h: nat, l: nat)
    requires h < 4 && l < 0x4000_0000
    ensures Rol2(h * 0x4000_0000 + l) == 4 * l + h
  {
    var x := h * 0x4000_0000 + l;
    DivUnique(x * 4, M, h, 4 * l);
    DivUnique(x, 0x4000_0000, h, l);
  }

  lemma Ror2Rol2(x: Word)
    ensures Ror2(Rol2(x)) == x
    ensures Rol2(Ror2(x)) == x
  {
    var h, l := x / 0x4000_0000, x % 0x4000_0000;
    Rol2Splits(h, l);
    DivUnique(4 * l + h, 4, l, h);
    Rol2Splits(x % 4, x / 4);
  }

  /** Rotating a multiple of 4^k right by k pairs divides it. */
  lemma {:induction false} RorPairsDivides(b: Word, k: nat)
    requires Scale(b, k) < M
    ensures RorPairs(Scale(b, k), k) == b
  {
    if k > 0 {
      RorPairsDivides(b, k - 1);
      RorPairsFirst(Scale(b, k), k);
    }
  }

  lemma {:induction false} RorPairsFirst(x: Word, k: nat)
    requires k > 0
    ensures RorPairs(x, k) == RorPairs(Ror2(x), k - 1)
  {
    if k > 1 { RorPairsFirst(x, k - 1); }
  }

  lemma {:induction false} RolPairsFirst(x: Word, k: nat)
    requires k > 0
    ensures RolPairs(x, k) == RolPairs(Rol2(x), k - 1)
  {
    if k > 1 { RolPairsFirst(x, k - 1); }
  }

  lemma {:induction false} RolRorPairs(x: Word, k: nat)
    ensures RolPairs(RorPairs(x, k), k) == x
    ensures RorPairs(RolPairs(x, k), k) == x
  {
    if k > 0 {
      RolRorPairs(x, k - 1);
      RolPairsFirst(RorPairs(x, k), k);
      Ror2Rol2(RorPairs(x, k - 1));
      RorPairsFirst(RolPairs(x, k), k);
      Ror2Rol2(RolPairs(x, k - 1));
    }
  }

  lemma {:induction false} RolPairsAdd(x: Word, j: nat, k: nat)
    ensures RolPairs(x, j + k) == RolPairs(RolPairs(x, j), k)
  {
    if k > 0 { RolPairsAdd(x, j, k - 1); }
  }

  /** The top k pairs move to the bottom. */
  lemma {:induction false} RolPairsForm(x: Word, h: nat, l: nat, k: nat)
    requires k <= 16 && l < Scale(1, 16 - k)
    requires x == Scale(h, 16 - k) + l
    ensures RolPairs(x, k) == Scale(l, k) + h
  {
    hide Scale, Rol2, RolPairs;
    if k == 0 {
      RolPairsNone(x, h, l);
    } else {
      var g, t := h / 4, h % 4;
      var l' := Scale(t, 16 - k) + l;
      TakeTopPair(g, t, 16 - k);
      ScaleDigit(t, 16 - k);
      RolPairsForm(x, g, l', k - 1);
      RolPairsNext(x, k);
      RolOnce(g, t, l, k);
    }
  }

  lemma RolPairsNone(x: Word, h: nat, l: nat)
    requires x == Scale(h, 16) + l
    ensures RolPairs(x, 0) == Scale(l, 0) + h
  {
    ScaleOfOne();
    if h > 0 { ScaleTop(h); }
  }

  lemma RolPairsNext(x: Word, k: nat)
    requires k > 0
    ensures RolPairs(x, k) == Rol2(RolPairs(x, k - 1))
  {
  }

  lemma ScaleTop(h: nat)
    requires h > 0
    ensures Scale(h, 16) >= M
  {
    ScaleOfOne();
    if h > 1 { ScaleLess(1, h, 16); }
  }

  lemma TakeTopPair(g: nat, t: nat, j: nat)
    ensures Scale(4 * g + t, j) == Scale(g, j + 1) + Scale(t, j)
  {
    ScaleAdd(4 * g, t, j);
    ScaleFour(g, j);
  }

  lemma ScaleDigit(t: nat, j: nat)
    requires t < 4
    ensures Scale(t, j) + Scale(1, j) <= Scale(1, j + 1)
  {
    ScaleAdd(t, 1, j);
    ScaleFour(1, j);
    if t + 1 < 4 { ScaleLess(t + 1, 4, j); }
  }

  lemma RolOnce(g: nat, t: nat, l: nat, k: nat)
    requires 0 < k <= 16 && t < 4 && l < Scale(1, 16 - k)
    requires 0 <= Scale(Scale(t, 16 - k) + l, k - 1) + g < M
    requires Scale(g, 17 - k) < M
    ensures Rol2(Scale(Scale(t, 16 - k) + l, k - 1) + g) == Scale(l, k) + (4 * g + t)
  {
    ScaleAdd(Scale(t, 16 - k), l, k - 1);
    ScaleScale(t, 16 - k, k - 1);
    assert Scale(t, 15) == t * 0x4000_0000 by { DigitAt15(t); }
    LowPartFits(g, l, k);
    Rol2Splits(t, Scale(l, k - 1) + g);
  }

  lemma DigitAt15(t: nat)
    requires t < 4
    ensures Scale(t, 15) == t * 0x4000_0000
  {
    ScaleOfOne();
    ScaleAdd(1, 1, 15);
    ScaleAdd(2, 1, 15);
    ScaleAdd(0, 0, 15);
  }

  lemma LowPartFits(g: nat, l: nat, k: nat)
    requires 0 < k <= 16 && l < Scale(1, 16 - k) && Scale(g, 17 - k) < M
    ensures Scale(l, k - 1) + g < 0x4000_0000
  {
    hide Scale;
    ScaleOfOne();
    // g < Scale(1, k - 1), and l + 1 <= Scale(1, 16 - k)
    if g >= Scale(1, k - 1) {
      if g > Scale(1, k - 1) { ScaleLess(Scale(1, k - 1), g, 17 - k); }
      ScaleScale(1, k - 1, 17 - k);
    }
    if l + 1 < Scale(1, 16 - k) { ScaleLess(l + 1, Scale(1, 16 - k), k - 1); }
    ScaleAdd(l, 1, k - 1);
    ScaleScale(1, 16 - k, k - 1);
  }

  /** Sixteen pairs make a whole turn. */
  lemma RolPairsFull(x: Word)
    ensures RolPairs(x, 16) == x
  {
    RolPairsForm(x, x, 0, 16);
  }
}
