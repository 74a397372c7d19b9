/**
 64-bit arithmetic on 32-bit halves (ncc-support/int64-runtime.c).

 A `Dword` is the union u64u: two unsigned halves.  Shifts and ORs of halves are the
 32-bit operations of Words.
 */
module Int64 {
  import opened Words

  const M2: int := 0x1_0000_0000_0000_0000

  datatype Dword = Dword(hi: Word, lo: Word)

  function Val(d: Dword): (v: int)
    ensures 0 <= v < M2
  {
    d.hi * M + d.lo
  }

  /** The value of a Dword as a signed number. */
  function SVal(d: Dword): (v: int)
    ensures -M2 / 2 <= v < M2 / 2
    ensures v % M2 == Val(d)
  {
    if d.hi >= TOP then Val(d) - M2 else Val(d)
  }

  // ---- OR of bits that do not overlap ----

  lemma {:induction false} OrrDisjoint(q: nat, y: nat, k: nat)
    requires y < Pow2(k)
    ensures Orr(q * Pow2(k), y) == q * Pow2(k) + y
  {
    if k == 0 {
      OrZero(q);
    } else {
      var x := q * Pow2(k - 1);
      assert q * Pow2(k) == 2 * x;
      OrrDisjoint(q, y / 2, k - 1);
      OrrStep(2 * x, y);
    }
  }

  lemma OrrStep(x: nat, y: nat)
    ensures Orr(x, y) == 2 * Orr(x / 2, y / 2) + (if x % 2 == 1 || y % 2 == 1 then 1 else 0)
  {
    if x == 0 && y == 0 { OrZero(0); }
  }

  // ---- multiplication ----

  function LowHalf(x: Word): nat { x % 0x1_0000 }

  function HighHalf(x: Word): nat { x / 0x1_0000 }

  lemma HalvesMultiply(a: nat, b: nat)
    requires a < 0x1_0000 && b < 0x1_0000
    ensures a * b <= 0xfffe_0001
  {
    MulMono(a, 0xffff, b);
  }

  /** A 16-bit shift left within a word. */
  function Up16(x: nat): Word { x * 0x1_0000 % M }

  /** The four 32-bit products put together. */
  function Assemble(p00: Word, p01: Word, p10: Word, p11: Word): Dword
  {
    var mid := Wrap(HighHalf(p00) + LowHalf(p01) + LowHalf(p10));
    OrrIsWord(LowHalf(p00), Up16(mid));
    Dword(Wrap(p11 + HighHalf(p01) + HighHalf(p10) + HighHalf(mid)), Orr(LowHalf(p00), Up16(mid)))
  }

  /** x * y as a Dword, from 16-bit pieces (mul32x32_64). */
  function Mul32(x: Word, y: Word): Dword
  {
    var x0, x1, y0, y1 := LowHalf(x), HighHalf(x), LowHalf(y), HighHalf(y);
    Assemble(Wrap(x0 * y0), Wrap(x0 * y1), Wrap(x1 * y0), Wrap(x1 * y1))
  }

  lemma OrrIsWord(x: Word, y: Word)
    ensures Orr(x, y) < M
  {
    Pow2At32();
    OrrBound(x, y, 32);
  }

  lemma {:induction false} OrrSwap(x: nat, y: nat)
    ensures Orr(x, y) == Orr(y, x)
    decreases x + y
  {
    if !(x == 0 && y == 0) { OrrSwap(x / 2, y / 2); }
  }

  /** The low half of a product: 16 bits under 16 bits. */
  lemma OrrAbove(low: nat, mid: nat)
    requires low < 0x1_0000
    ensures Orr(low, Up16(mid)) == low + Up16(mid)
  {
    var q := mid % 0x1_0000;
    assert Up16(mid) == q * 0x1_0000;
    assert Pow2(16) == 0x1_0000 by { assert Pow2(8) == 256; Pow2Add(8, 8); }
    OrrDisjoint(q, low, 16);
    OrrSwap(low, Up16(mid));
  }

  lemma AssembleVal(p00: Word, p01: Word, p10: Word, p11: Word)
    requires p00 <= 0xfffe_0001 && p01 <= 0xfffe_0001 && p10 <= 0xfffe_0001 && p11 <= 0xfffe_0001
    ensures Val(Assemble(p00, p01, p10, p11)) == p11 * M + (p01 + p10) * 0x1_0000 + p00
  {
    hide Orr, Up16, LowHalf, HighHalf;
    var mid := HighHalf(p00) + LowHalf(p01) + LowHalf(p10);
    LowFits(p00);
    OrrAbove(LowHalf(p00), mid);
    Sums(p00, p01, p10, p11, mid);
  }

  lemma LowFits(x: Word)
    ensures LowHalf(x) < 0x1_0000
  {
  }

  /** No carry is lost: the 64-bit product is exact. */
  lemma Mul32Exact(x: Word, y: Word)
    ensures Val(Mul32(x, y)) == x * y
  {
    hide Assemble, Val;
    PiecesExact(LowHalf(x), HighHalf(x), LowHalf(y), HighHalf(y));
    Halves(x);
    Halves(y);
    hide LowHalf, HighHalf;
  }

  lemma Halves(x: Word)
    ensures x == HighHalf(x) * 0x1_0000 + LowHalf(x)
  {
  }

  lemma PiecesExact(x0: nat, x1: nat, y0: nat, y1: nat)
    requires x0 < 0x1_0000 && x1 < 0x1_0000 && y0 < 0x1_0000 && y1 < 0x1_0000
    ensures Val(Assemble(Wrap(x0 * y0), Wrap(x0 * y1), Wrap(x1 * y0), Wrap(x1 * y1)))
            == (x1 * 0x1_0000 + x0) * (y1 * 0x1_0000 + y0)
  {
    hide Assemble, Val;
    HalvesMultiply(x0, y0);
    HalvesMultiply(x0, y1);
    HalvesMultiply(x1, y0);
    HalvesMultiply(x1, y1);
    Pieces(x0, x1, y0, y1);
    AssembleWrapped(x0 * y0, x0 * y1, x1 * y0, x1 * y1);
  }

  lemma AssembleWrapped(p00: nat, p01: nat, p10: nat, p11: nat)
    requires p00 <= 0xfffe_0001 && p01 <= 0xfffe_0001 && p10 <= 0xfffe_0001 && p11 <= 0xfffe_0001
    ensures Val(Assemble(Wrap(p00), Wrap(p01), Wrap(p10), Wrap(p11))) == p11 * M + (p01 + p10) * 0x1_0000 + p00
  {
    hide Assemble, Val;
    AssembleVal(p00, p01, p10, p11);
  }

  lemma Pieces(x0: nat, x1: nat, y0: nat, y1: nat)
    ensures (x1 * 0x1_0000 + x0) * (y1 * 0x1_0000 + y0)
            == x1 * y1 * M + (x0 * y1 + x1 * y0) * 0x1_0000 + x0 * y0
  {
  }

  lemma Sums(p00: Word, p01: Word, p10: Word, p11: Word, mid: nat)
    requires p00 <= 0xfffe_0001 && p01 <= 0xfffe_0001 && p10 <= 0xfffe_0001 && p11 <= 0xfffe_0001
    requires mid == HighHalf(p00) + LowHalf(p01) + LowHalf(p10)
    ensures mid < M
    ensures var hi := Wrap(p11 + HighHalf(p01) + HighHalf(p10) + HighHalf(mid));
            hi * M + (LowHalf(p00) + Up16(mid)) == p11 * M + (p01 + p10) * 0x1_0000 + p00
  {
    Up16IsLow(mid);
    HalvesOf(p00);
    HalvesOf(p01);
    HalvesOf(p10);
    HalvesOf(mid);
    hide LowHalf, HighHalf, Up16;
    assert HighHalf(mid) <= 2;
  }

  lemma HalvesOf(x: Word)
    ensures x == HighHalf(x) * 0x1_0000 + LowHalf(x) && LowHalf(x) < 0x1_0000
  {
  }

  lemma Up16IsLow(x: Word)
    ensures Up16(x) == LowHalf(x) * 0x1_0000
  {
    WordModulo(x * 0x1_0000, HighHalf(x), LowHalf(x) * 0x1_0000);
  }

  /** The low 64 bits of a product (_ll_mul). */
  function Mul(x: Dword, y: Dword): Dword
  {
    var ac := Mul32(x.lo, y.lo);
    var ad := Mul32(x.lo, y.hi);
    var bc := Mul32(x.hi, y.lo);
    Dword(Wrap(Wrap(ac.hi + ad.lo) + bc.lo), ac.lo)
  }

  /** _ll_mul is the product modulo 2^64. */
  lemma MulCorrect(x: Dword, y: Dword)
    ensures Val(Mul(x, y)) == Val(x) * Val(y) % M2
  {
    hide Mul32;
    var ac, ad, bc := Mul32(x.lo, y.lo), Mul32(x.lo, y.hi), Mul32(x.hi, y.lo);
    Mul32Exact(x.lo, y.lo);
    Mul32Exact(x.lo, y.hi);
    Mul32Exact(x.hi, y.lo);
    ProductParts(x, y, Val(ac), Val(ad), Val(bc));
    Fold(ac, ad, bc, x.hi * y.hi);
  }

  lemma ProductParts(x: Dword, y: Dword, ac: int, ad: int, bc: int)
    requires ac == x.lo * y.lo && ad == x.lo * y.hi && bc == x.hi * y.lo
    ensures Val(x) * Val(y) == x.hi * y.hi * M2 + (ad + bc) * M + ac
  {
    Expand(x.hi, x.lo, y.hi, y.lo);
  }

  lemma Expand(a: int, b: int, c: int, d: int)
    ensures (a * M + b) * (c * M + d) == a * c * M2 + (b * c + a * d) * M + b * d
  {
  }

  lemma Fold(ac: Dword, ad: Dword, bc: Dword, k: nat)
    ensures (k * M2 + (Val(ad) + Val(bc)) * M + Val(ac)) % M2 == Wrap(Wrap(ac.hi + ad.lo) + bc.lo) * M + ac.lo
  {
    var s := ac.hi + ad.lo + bc.lo;
    var e := s / M;
    assert Wrap(Wrap(ac.hi + ad.lo) + bc.lo) == s - e * M;
    ModuloIs(k * M2 + (Val(ad) + Val(bc)) * M + Val(ac), k + ad.hi + bc.hi + e, (s - e * M) * M + ac.lo);
  }

  lemma ModuloIs(x: int, q: int, r: int)
    requires x == q * M2 + r && 0 <= r < M2
    ensures x % M2 == r
  {
  }

  // ---- negation and comparison ----

  function NegD(x: Dword): Dword
  {
    var lo := Wrap(Not(x.lo) + 1);
    Dword(Wrap(Not(x.hi) + (if lo == 0 then 1 else 0)), lo)
  }

  lemma NegDCorrect(x: Dword)
    ensures Val(NegD(x)) == (M2 - Val(x)) % M2
  {
  }

  /** u64_ucmp */
  function UCmp(a: Dword, b: Dword): (r: int)
    ensures r == if Val(a) > Val(b) then 1 else if Val(a) < Val(b) then -1 else 0
  {
    if a.hi != b.hi then if a.hi > b.hi then 1 else -1
    else if a.lo != b.lo then if a.lo > b.lo then 1 else -1
    else 0
  }

  /** u64_scmp: the high halves are compared as signed. */
  function SCmp(a: Dword, b: Dword): (r: int)
    ensures r == if SVal(a) > SVal(b) then 1 else if SVal(a) < SVal(b) then -1 else 0
  {
    if a.hi != b.hi then if Signed(a.hi) > Signed(b.hi) then 1 else -1
    else if a.lo != b.lo then if a.lo > b.lo then 1 else -1
    else 0
  }

  // ---- shifts ----

  /** The two parts into which a shift by k cuts a word. */
  lemma CutWord(x: nat, k: nat)
    requires k <= 32
    ensures Pow2(k) * Pow2(32 - k) == M
    ensures x == x / Pow2(k) * Pow2(k) + x % Pow2(k) && 0 <= x % Pow2(k) < Pow2(k)
  {
    Pow2At32();
    Pow2Add(k, 32 - k);
    hide Pow2;
    CutAt(x, Pow2(k));
  }

  lemma CutAt(x: nat, p: nat)
    requires p > 0
    ensures x == x / p * p + x % p && 0 <= x % p < p
  {
  }

  /** Shifting left keeps the low part. */
  lemma LslKeeps(x: Word, k: nat)
    requires k <= 32
    ensures Lsl(x, k) == x % Pow2(32 - k) * Pow2(k)
  {
    hide Pow2, Lsl;
    LslIsProduct(x, k);
    CutWord(x, 32 - k);
    LowTimes(x, Pow2(k), Pow2(32 - k));
  }

  lemma LowTimes(x: nat, p: nat, q: nat)
    requires p > 0 && q > 0 && q * p == M
    ensures Wrap(x * p) == x % q * p
  {
    var a, b := x / q, x % q;
    assert x == a * q + b;
    TimesSum(a, b, p, q);
    MulMono(b + 1, q, p);
    WordModulo(x * p, a, b * p);
  }

  lemma TimesSum(a: int, b: int, p: int, q: int)
    ensures (a * q + b) * p == a * (q * p) + b * p
  {
  }

  lemma WordModulo(x: int, q: int, r: int)
    requires x == q * M + r && 0 <= r < M
    ensures Wrap(x) == r
  {
  }

  lemma QuotientBelow(x: nat, k: nat)
    requires k <= 32 && x < M
    ensures x / Pow2(k) < Pow2(32 - k)
  {
    hide Pow2;
    CutWord(x, k);
    QuotientLess(x, Pow2(k), Pow2(32 - k));
  }

  lemma QuotientLess(x: nat, p: nat, q: nat)
    requires p > 0 && x < p * q
    ensures x / p < q
  {
    if x / p >= q { MulMono(q, x / p, p); }
  }

  /** The part of one half joined to the part of the other. */
  function Join(high: Word, low: Word): Word
  {
    OrrIsWord(high, low);
    Orr(high, low)
  }

  /** _ll_shift_l */
  function ShiftL(x: Dword, sh: int): Dword
  {
    if sh <= 0 then x
    else if sh >= 64 then Dword(0, 0)
    else if sh >= 32 then Dword(Lsl(x.lo, sh - 32), 0)
    else Dword(Join(Lsl(x.hi, sh), Lsr(x.lo, 32 - sh)), Lsl(x.lo, sh))
  }

  /** _ll_ushift_r */
  function UShiftR(x: Dword, sh: int): Dword
  {
    if sh <= 0 then x
    else if sh >= 64 then Dword(0, 0)
    else if sh >= 32 then Dword(0, Lsr(x.hi, sh - 32))
    else Dword(Lsr(x.hi, sh), Join(Lsr(x.lo, sh), Lsl(x.hi, 32 - sh)))
  }

  /** _ll_sshift_r; from 32 places on, the low half is shifted without regard to the sign. */
  function SShiftR(x: Dword, sh: int): Dword
  {
    if sh <= 0 then x
    else if sh >= 64 then if x.hi >= TOP then Dword(M - 1, M - 1) else Dword(0, 0)
    else if sh >= 32 then Dword(if x.hi >= TOP then M - 1 else 0, Lsr(x.hi, sh - 32))
    else Dword(Asr(x.hi, sh), Join(Lsr(x.lo, sh), Lsl(x.hi, 32 - sh)))
  }

  /** The halves of a left shift, joined. */
  lemma JoinedLeft(x: Dword, sh: nat)
    requires 1 <= sh < 32
    ensures Join(Lsl(x.hi, sh), Lsr(x.lo, 32 - sh)) == x.hi % Pow2(32 - sh) * Pow2(sh) + x.lo / Pow2(32 - sh)
  {
    LslKeeps(x.hi, sh);
    LsrIsQuotient(x.lo, 32 - sh);
    QuotientBelow(x.lo, 32 - sh);
    OrrDisjoint(x.hi % Pow2(32 - sh), x.lo / Pow2(32 - sh), sh);
  }

  lemma JoinedRight(x: Dword, sh: nat)
    requires 1 <= sh < 32
    ensures Join(Lsr(x.lo, sh), Lsl(x.hi, 32 - sh)) == x.hi % Pow2(sh) * Pow2(32 - sh) + x.lo / Pow2(sh)
  {
    LslKeeps(x.hi, 32 - sh);
    LsrIsQuotient(x.lo, sh);
    QuotientBelow(x.lo, sh);
    OrrDisjoint(x.hi % Pow2(sh), x.lo / Pow2(sh), 32 - sh);
    OrrSwap(x.lo / Pow2(sh), Lsl(x.hi, 32 - sh));
  }

  lemma Pow2At64()
    ensures Pow2(64) == M2
  {
    Pow2At32();
    Pow2Add(32, 32);
  }

  /** (hi, lo) times p, where p * q is a word: what goes over the top is a multiple of 2^64. */
  lemma LeftShiftArithmetic(hi: nat, lo: nat, p: nat, q: nat)
    requires p > 0 && q > 0 && p * q == M
    ensures (hi * M + lo) * p == hi / q * M2 + (hi % q * p + lo / q) * M + lo % q * p
  {
    var a, b, u, v := hi / q, hi % q, lo / q, lo % q;
    assert hi == a * q + b && lo == u * q + v;
    TimesSum(a, b, p, q);
    TimesSum(u, v, p, q);
    assert (hi * M + lo) * p == hi * p * M + lo * p;
    assert q * p == M;
  }

  lemma RightShiftArithmetic(hi: int, lo: nat, p: nat, q: nat)
    requires p > 0 && q > 0 && p * q == M
    ensures hi * M + lo == p * (hi / p * M + (hi % p * q + lo / p)) + lo % p
  {
    var a, b, u, v := hi / p, hi % p, lo / p, lo % p;
    assert hi == a * p + b && lo == u * p + v;
    assert p * (a * M) == a * p * M;
    assert p * (b * q) == b * M;
  }

  /** _ll_shift_l multiplies by 2^sh modulo 2^64; a negative count is no shift. */
  lemma ShiftLCorrect(x: Dword, sh: int)
    ensures Val(ShiftL(x, sh)) == Val(x) * Pow2(if sh < 0 then 0 else sh) % M2
  {
    hide Lsl, Lsr, Join, Pow2;
    if sh <= 0 {
      Pow2Zero();
    } else if sh < 32 {
      CutWord(x.hi, sh);
      JoinedLeft(x, sh);
      LslKeeps(x.lo, sh);
      LeftShiftArithmetic(x.hi, x.lo, Pow2(sh), Pow2(32 - sh));
      ModuloIs(Val(x) * Pow2(sh), x.hi / Pow2(32 - sh), Val(ShiftL(x, sh)));
    } else if sh < 64 {
      LeftByHalf(x, sh - 32);
    } else {
      Pow2At64();
      Pow2Add(64, sh - 64);
      assert Val(x) * (M2 * Pow2(sh - 64)) == Val(x) * Pow2(sh - 64) * M2;
      ModuloIs(Val(x) * Pow2(sh), Val(x) * Pow2(sh - 64), 0);
    }
  }

  lemma Pow2Zero()
    ensures Pow2(0) == 1
  {
  }

  lemma LeftByHalf(x: Dword, k: nat)
    requires k < 32
    ensures Lsl(x.lo, k) * M == Val(x) * Pow2(k + 32) % M2
  {
    hide Lsl, Pow2;
    LslIsProduct(x.lo, k);
    Pow2Add(k, 32);
    Pow2At32();
    var p := Pow2(k);
    var e := x.lo * p / M;
    assert x.lo * p == e * M + Lsl(x.lo, k);
    assert (x.hi * M + x.lo) * (p * M) == x.hi * p * M2 + x.lo * p * M;
    ModuloIs(Val(x) * Pow2(k + 32), x.hi * p + e, Lsl(x.lo, k) * M);
  }

  lemma QuotientIs(x: int, d: nat, q: int, r: nat)
    requires d > 0 && x == d * q + r && r < d
    ensures x / d == q
  {
    var e, f := x / d, x % d;
    assert x == d * e + f;
    if e < q { MulMono(1, q - e, d); }
    if e > q { MulMono(1, e - q, d); }
  }

  /** _ll_ushift_r divides by 2^sh; a negative count is no shift. */
  lemma UShiftRCorrect(x: Dword, sh: int)
    ensures Val(UShiftR(x, sh)) == Val(x) / Pow2(if sh < 0 then 0 else sh)
  {
    hide Lsl, Lsr, Join, Pow2;
    if sh <= 0 {
      Pow2Zero();
    } else if sh < 32 {
      var p := Pow2(sh);
      CutWord(x.lo, sh);
      JoinedRight(x, sh);
      LsrIsQuotient(x.hi, sh);
      RightShiftArithmetic(x.hi, x.lo, p, Pow2(32 - sh));
      QuotientIs(Val(x), p, Val(UShiftR(x, sh)), x.lo % p);
    } else if sh < 64 {
      LsrIsQuotient(x.hi, sh - 32);
      RightByHalf(x.hi, x.lo, sh - 32);
    } else {
      Pow2At64();
      Pow2Add(64, sh - 64);
      MulMono(1, Pow2(sh - 64), M2);
      QuotientIs(Val(x), Pow2(sh), 0, Val(x));
    }
  }

  lemma RightByHalf(hi: int, lo: Word, k: nat)
    requires k < 32
    ensures (hi * M + lo) / Pow2(k + 32) == hi / Pow2(k)
  {
    hide Pow2;
    Pow2Add(k, 32);
    Pow2At32();
    var p := Pow2(k);
    var a, b := hi / p, hi % p;
    assert hi == a * p + b;
    assert hi * M + lo == p * M * a + (b * M + lo);
    MulMono(b + 1, p, M);
    QuotientIs(hi * M + lo, p * M, a, b * M + lo);
  }

  // ---- arithmetic shift ----

  lemma {:induction false} AsrIsQuotient(x: Word, k: nat)
    ensures Signed(Asr(x, k)) == Signed(x) / Pow2(k)
  {
    if k > 0 {
      AsrIsQuotient(x, k - 1);
      HalfSigned(Asr(x, k - 1));
      FloorTwice(Signed(x), Pow2(k - 1));
    }
  }

  lemma HalfSigned(y: Word)
    ensures Signed(y / 2 + (if y >= TOP then TOP else 0)) == Signed(y) / 2
  {
  }

  lemma FloorTwice(x: int, p: nat)
    requires p > 0
    ensures x / p / 2 == x / (2 * p)
  {
    var q, r := x / p, x % p;
    assert x == p * q + r;
    var s, t := q / 2, q % 2;
    assert p * (2 * s + t) == 2 * p * s + p * t;
    QuotientIs(x, 2 * p, s, p * t + r);
  }

  /** What an arithmetic shift right should give. */
  function Floor(x: int, sh: int): int { if sh <= 0 then x else x / Pow2(sh) }

  /** _ll_sshift_r is an arithmetic shift except for negative values and 32 < sh < 64. */
  lemma SShiftRIff(x: Dword, sh: int)
    ensures SVal(SShiftR(x, sh)) == Floor(SVal(x), sh) <==> !(SVal(x) < 0 && 32 < sh < 64)
  {
    hide Lsl, Lsr, Asr, Join, Pow2;
    if 0 < sh < 32 {
      SmallShift(x, sh);
    } else if sh == 32 {
      Pow2At32();
      Pow2Zero();
      LsrIsQuotient(x.hi, 0);
      QuotientIs(SVal(x), M, Signed(x.hi), x.lo);
    } else if 32 < sh < 64 {
      LargeShift(x, sh - 32);
    } else if sh >= 64 {
      Pow2At64();
      Pow2Add(64, sh - 64);
      MulMono(1, Pow2(sh - 64), M2);
      QuotientIs(SVal(x), Pow2(sh), if x.hi >= TOP then -1 else 0, if x.hi >= TOP then SVal(x) + Pow2(sh) else SVal(x));
    }
  }

  lemma SmallShift(x: Dword, sh: nat)
    requires 0 < sh < 32
    ensures SVal(SShiftR(x, sh)) == SVal(x) / Pow2(sh)
  {
    hide Lsl, Lsr, Asr, Join, Pow2;
    var p, q := Pow2(sh), Pow2(32 - sh);
    CutWord(x.lo, sh);
    JoinedRight(x, sh);
    AsrIsQuotient(x.hi, sh);
    SignedRemainder(x.hi, p, q);
    RightShiftArithmetic(Signed(x.hi), x.lo, p, q);
    QuotientIs(SVal(x), p, Signed(Asr(x.hi, sh)) * M + (x.hi % p * q + x.lo / p), x.lo % p);
  }

  /** A word and its signed value leave the same remainder. */
  lemma SignedRemainder(x: Word, p: nat, q: nat)
    requires p > 0 && p * q == M
    ensures Signed(x) % p == x % p
  {
    if x >= TOP {
      var a, b := x / p, x % p;
      assert x == p * a + b;
      assert x - M == p * (a - q) + b;
      QuotientIs(x - M, p, a - q, b);
    }
  }

  lemma LargeShift(x: Dword, k: nat)
    requires 0 < k < 32
    ensures SVal(SShiftR(x, k + 32)) == SVal(x) / Pow2(k + 32) <==> SVal(x) >= 0
  {
    hide Lsl, Lsr, Asr, Join, Pow2;
    LsrIsQuotient(x.hi, k);
    RightByHalf(Signed(x.hi), x.lo, k);
    var p := Pow2(k);
    CutWord(x.hi, k);
    TwoOrMore(k);
    if x.hi >= TOP { NegativeDiffers(x.hi, p); }
  }

  lemma TwoOrMore(k: nat)
    requires k > 0
    ensures Pow2(k) >= 2
  {
  }

  /** Filling the low half with zeros instead of the sign is never right. */
  lemma NegativeDiffers(hi: Word, p: nat)
    requires hi >= TOP && p >= 2
    ensures hi / p < TOP && hi / p - M < (hi - M) / p
  {
    var a, c := hi / p, (hi - M) / p;
    assert hi == p * a + hi % p;
    MulMono(2, p, a);
    FloorOfNegative(hi - M, p, c);
  }

  lemma FloorOfNegative(x: int, p: nat, c: int)
    requires -TOP <= x < 0 && p >= 2 && c == x / p
    ensures c >= -TOP
  {
    assert x == p * c + x % p;
    var e := -c;
    assert p * e == -(p * c);
    if e >= 1 {
      MulMono(2, p, e - 1);
      assert p * (e - 1) == p * e - p;
    }
  }

  // ---- division ----

  /** One place left, bringing in a bit. */
  function Doubled(x: Dword, bit: Word): Dword
  {
    Dword(Join(Lsl(x.hi, 1), Lsr(x.lo, 31)), Join(Lsl(x.lo, 1), bit))
  }

  lemma DoubleWord(x: Word, bit: nat)
    requires bit <= 1
    ensures Orr(Lsl(x, 1), bit) == Wrap(2 * x) + bit
  {
    hide Orr;
    LslIsProduct(x, 1);
    Pow2Zero();
    assert Pow2(1) == 2;
    OrrDisjoint(Wrap(2 * x) / 2, bit, 1);
  }

  lemma TopBit(x: Word)
    ensures Lsr(x, 31) == if x >= TOP then 1 else 0
  {
    hide Lsr, Pow2;
    LsrIsQuotient(x, 31);
    Pow2At31();
  }

  lemma DoubledVal(x: Dword, bit: nat)
    requires bit <= 1
    ensures Val(Doubled(x, bit)) == 2 * Val(x) + bit - (if x.hi >= TOP then M2 else 0)
  {
    hide Orr, Lsl, Lsr;
    TopBit(x.lo);
    DoubleWord(x.hi, Lsr(x.lo, 31));
    DoubleWord(x.lo, bit);
    DoubleParts(x.hi, x.lo, bit);
    hide Wrap;
  }

  /** What doubling does to the halves, as numbers. */
  lemma DoubleParts(hi: Word, lo: Word, bit: nat)
    requires bit <= 1
    ensures Wrap(2 * lo) + bit == 2 * lo + bit - (if lo >= TOP then M else 0)
    ensures Wrap(2 * hi) == 2 * hi - (if hi >= TOP then M else 0)
  {
  }

  /** Subtraction by halves; a borrow shows as a low half that grew. */
  function Subtract(r: Dword, d: Dword): Dword
  {
    var lo := Wrap(r.lo - d.lo);
    Dword(Wrap(Wrap(r.hi - d.hi) - (if lo > r.lo then 1 else 0)), lo)
  }

  lemma SubtractVal(r: Dword, d: Dword)
    requires Val(r) >= Val(d)
    ensures Val(Subtract(r, d)) == Val(r) - Val(d)
  {
  }

  /**
   The state of the division loop after i places: n is the prefix p already consumed
   followed by the rest t, which now stands at the top of `left`; q and r divide p by d.
   */
  ghost predicate Dividing(n: int, d: int, i: nat, left: int, q: int, r: int, p: nat, t: nat)
    requires i <= 64
  {
    && n == p * Pow2(64 - i) + t && t < Pow2(64 - i)
    && left == t * Pow2(i)
    && p == q * d + r && 0 <= r < d && 0 <= q
    && p < Pow2(i)
  }

  /** Bringing down the next bit of n. */
  lemma NextBitDown(n: int, d: int, i: nat, left: int, q: int, r: int, p: nat, t: nat) returns (bit: nat, t': nat)
    requires i < 64 && Dividing(n, d, i, left, q, r, p, t)
    ensures bit == if left >= M2 / 2 then 1 else 0
    ensures n == (2 * p + bit) * Pow2(63 - i) + t' && t' < Pow2(63 - i)
    ensures 2 * left - bit * M2 == t' * Pow2(i + 1)
    ensures 2 * p + bit < Pow2(i + 1)
  {
    var w, u := Pow2(63 - i), Pow2(i);
    assert Pow2(64 - i) == 2 * w && Pow2(i + 1) == 2 * u;
    Pow2Add(63 - i, i);
    Pow2At63();
    hide Pow2;
    bit := if t >= w then 1 else 0;
    t' := t - bit * w;
    NextBitArithmetic(t, t', bit, w, u);
    NextPrefix(p, bit, w);
  }

  lemma NextPrefix(p: int, bit: int, w: int)
    ensures (2 * p + bit) * w == p * (2 * w) + bit * w
  {
  }

  lemma Pow2At63()
    ensures Pow2(63) == M2 / 2
  {
    Pow2At64();
  }

  lemma NextBitArithmetic(t: nat, t': int, bit: nat, w: nat, u: nat)
    requires w > 0 && u > 0 && w * u == M2 / 2 && t < 2 * w && bit == (if t >= w then 1 else 0) && t' == t - bit * w
    ensures bit == if t * u >= M2 / 2 then 1 else 0
    ensures 2 * (t * u) - bit * M2 == t' * (2 * u)
  {
    if t >= w { MulMono(w, t, u); } else { MulMono(t + 1, w, u); }
    assert t' * (2 * u) == 2 * (t * u) - 2 * bit * (w * u);
  }

  /** The quotient never fills the word before the last place, so no bit is shifted out. */
  lemma QuotientFits(n: int, d: int, i: nat, left: int, q: int, r: int, p: nat, t: nat)
    requires i < 64 && Dividing(n, d, i, left, q, r, p, t)
    ensures 0 <= q <= p && 0 <= r <= p && p < M2 / 2
  {
    Pow2At63();
    if i < 63 { Pow2Less(i, 63); }
    MulMono(1, d, q);
    assert q * d == d * q;
  }

  lemma {:induction false} Pow2Less(j: nat, k: nat)
    requires j < k
    ensures Pow2(j) < Pow2(k)
  {
    if j + 1 < k { Pow2Less(j, k - 1); }
  }

  lemma NextDividing(n: int, d: int, i: nat, q: int, r: int, p: nat, bit: nat, t': nat, left': int)
    requires i < 64 && p == q * d + r && 0 <= r < d && 0 <= q && bit <= 1
    requires n == (2 * p + bit) * Pow2(63 - i) + t' && t' < Pow2(63 - i)
    requires left' == t' * Pow2(i + 1) && 2 * p + bit < Pow2(i + 1)
    ensures var ge := 2 * r + bit >= d;
            Dividing(n, d, i + 1, left', if ge then 2 * q + 1 else 2 * q, if ge then 2 * r + bit - d else 2 * r + bit,
                2 * p + bit, t')
  {
    assert (2 * q) * d == 2 * (q * d);
    assert (2 * q + 1) * d == 2 * (q * d) + d;
  }

  /** One of the 64 places. */
  lemma DivideStep(n: int, d: Dword, i: nat, left: Dword, q: Dword, r: Dword, p: nat, t: nat) returns (p': nat, t': nat)
    requires i < 64 && Dividing(n, Val(d), i, Val(left), Val(q), Val(r), p, t)
    ensures var r1 := Doubled(r, if left.hi >= TOP then 1 else 0);
            var ge := r1.hi > d.hi || (r1.hi == d.hi && r1.lo >= d.lo);
            Dividing(n, Val(d), i + 1, Val(Doubled(left, 0)), Val(Doubled(q, if ge then 1 else 0)),
                     Val(if ge then Subtract(r1, d) else r1), p', t')
  {
    hide Pow2, Doubled, Subtract, Dividing;
    QuotientFits(n, Val(d), i, Val(left), Val(q), Val(r), p, t);
    var bit;
    bit, t' := NextBitDown(n, Val(d), i, Val(left), Val(q), Val(r), p, t);
    p' := 2 * p + bit;
    var r1 := Doubled(r, if left.hi >= TOP then 1 else 0);
    var ge := r1.hi > d.hi || (r1.hi == d.hi && r1.lo >= d.lo);
    DoubledVal(r, bit);
    DoubledVal(left, 0);
    DoubledVal(q, if ge then 1 else 0);
    if ge { SubtractVal(r1, d); }
    DividedParts(n, Val(d), i, Val(left), Val(q), Val(r), p, t);
    NextDividing(n, Val(d), i, Val(q), Val(r), p, bit, t', Val(Doubled(left, 0)));
  }

  /** Restoring division (_ll_udiv): the quotient rounded down, for every nonzero divisor. */
  method UDiv(n: Dword, d: Dword) returns (q: Dword)
    ensures Val(d) > 0 ==> Val(q) == Val(n) / Val(d)
    ensures Val(d) == 0 ==> q == Dword(0, 0xffff_ffff)
  {
    hide Orr, Lsl, Lsr, Pow2, Dividing, Doubled, Subtract;
    var left, r := n, Dword(0, 0);
    q := Dword(0, 0);
    if d.hi == 0 && d.lo == 0 { return Dword(0, 0xffff_ffff); }
    if UCmp(n, d) < 0 {
      QuotientIs(Val(n), Val(d), 0, Val(n));
      return Dword(0, 0);
    }
    if d.hi == 0 && d.lo == 1 { return n; }
    ghost var p: nat, t: nat := 0, Val(n);
    StartDividing(Val(n), Val(d));
    var i := 0;
    while i < 64
      invariant 0 <= i <= 64
      invariant Dividing(Val(n), Val(d), i, Val(left), Val(q), Val(r), p, t)
    {
      p, t := DivideStep(Val(n), d, i, left, q, r, p, t);
      r := Doubled(r, if left.hi >= TOP then 1 else 0);
      left := Doubled(left, 0);
      var ge := r.hi > d.hi || (r.hi == d.hi && r.lo >= d.lo);
      q := Doubled(q, if ge then 1 else 0);
      if ge { r := Subtract(r, d); }
      i := i + 1;
    }
    Divided(Val(n), Val(d), Val(left), Val(q), Val(r), p, t);
  }

  lemma StartDividing(n: nat, d: nat)
    requires n < M2 && d > 0
    ensures Dividing(n, d, 0, n, 0, 0, 0, n)
  {
    Pow2At64();
    Pow2Zero();
  }

  lemma DividedParts(n: int, d: int, i: nat, left: int, q: int, r: int, p: nat, t: nat)
    requires i <= 64 && Dividing(n, d, i, left, q, r, p, t)
    ensures p == q * d + r && 0 <= r < d && 0 <= q
  {
  }

  lemma Divided(n: int, d: int, left: int, q: int, r: int, p: nat, t: nat)
    requires d > 0 && Dividing(n, d, 64, left, q, r, p, t)
    ensures q == n / d
  {
    Pow2Zero();
    assert d * q == q * d;
    QuotientIs(n, d, q, r);
  }

  /** Division that rounds toward zero, as in C. */
  function Truncated(n: int, d: int): int
    requires d != 0
  {
    var a, b := if n < 0 then -n else n, if d < 0 then -d else d;
    if (n < 0) == (d < 0) then a / b else -(a / b)
  }

  /** Signed division (_ll_sdiv): truncating, modulo 2^64; what it gives for d = 0 is stated too. */
  method SDiv(n: Dword, d: Dword) returns (q: Dword)
    ensures SVal(d) != 0 ==> Val(q) == Truncated(SVal(n), SVal(d)) % M2
    ensures SVal(d) == 0 ==> Val(q) == if SVal(n) < 0 then 1 else 0xffff_ffff
  {
    if d.hi == 0 && d.lo == 0 {
      return if n.hi >= TOP then Dword(0, 1) else Dword(0, 0xffff_ffff);
    }
    Magnitude(n);
    Magnitude(d);
    hide NegD, SVal, Val, Truncated;
    var un, ud, neg := n, d, false;
    if n.hi >= TOP {
      un := NegD(n);
      neg := !neg;
    }
    if d.hi >= TOP {
      ud := NegD(d);
      neg := !neg;
    }
    q := UDiv(un, ud);
    ghost var uq := Val(q);
    if neg {
      NegDCorrect(q);
      q := NegD(q);
    }
    SignedResult(SVal(n), SVal(d), Val(un), Val(ud), uq, Val(q));
  }

  lemma Magnitude(x: Dword)
    ensures x.hi >= TOP <==> SVal(x) < 0
    ensures if SVal(x) < 0 then Val(NegD(x)) == -SVal(x) else Val(x) == SVal(x)
    ensures SVal(x) == 0 <==> x.hi == 0 && x.lo == 0
  {
    hide NegD;
    NegDCorrect(x);
  }

  lemma SignedResult(n: int, d: int, a: nat, b: nat, uq: int, q: int)
    requires d != 0 && a == (if n < 0 then -n else n) && b == (if d < 0 then -d else d) && a < M2 && 0 <= uq < M2
    requires uq == a / b && q == if (n < 0) == (d < 0) then uq else (M2 - uq) % M2
    ensures q == Truncated(n, d) % M2
  {
    assert (n < 0) != (d < 0) ==> Truncated(n, d) == -uq;
    NegatedMod(uq);
  }

  lemma NegatedMod(u: int)
    requires 0 <= u < M2
    ensures (M2 - u) % M2 == -u % M2 && u % M2 == u
  {
  }
}
