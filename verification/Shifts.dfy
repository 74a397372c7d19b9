/**
 What shifted operands, immediate fields and logical operations stand for, by arithmetic and by
 bits (sections A5.1 and A4.1 of the ARM Architecture Reference Manual).
 */
module Shifts {
  import opened Words
  import opened Arm
  import opened Int64

  /** The value of a shift or rotation by k places. */
  function ShiftValue(kind: ShiftKind, x: Word, k: nat): int
    requires k <= 32
  {
    match kind
    case LSL => x * Pow2(k) % M
    case LSR => x / Pow2(k)
    case ASR => Wrap(Signed(x) / Pow2(k))
    case ROR => x / Pow2(k) + x % Pow2(k) * Pow2(32 - k)
  }

  /**
   LSL multiplies modulo 2^32, LSR divides, ASR divides the signed value and rounds down, and
   ROR moves the remainder of that division to the top.
   */
  lemma ShiftIs(kind: ShiftKind, x: Word, k: Amount)
    ensures ShiftBy(kind, x, k) == ShiftValue(kind, x, k)
    ensures kind.ASR? ==> Signed(ShiftBy(kind, x, k)) == Signed(x) / Pow2(k)
  {
    hide Pow2, Signed;
    match kind
    case LSL => LslIsProduct(x, k);
    case LSR => LsrIsQuotient(x, k);
    case ASR => AsrIsQuotient(x, k); SignedWrap(Asr(x, k));
    case ROR => RorIsSplit(x, k);
  }

  lemma SignedWrap(x: Word)
    ensures Wrap(Signed(x)) == x
  {
  }

  lemma Doubled(k: nat)
    requires k > 0
    ensures Pow2(k) == 2 * Pow2(k - 1)
  {
  }

  lemma RorStep(x: Word, k: nat)
    requires k > 0
    ensures Ror(x, k) == Ror(x, k - 1) / 2 + Ror(x, k - 1) % 2 * TOP
  {
  }

  /** 2^(k-1) and 2^(32-k). */
  lemma Powers(k: nat)
    requires 0 < k <= 32
    ensures Pow2(k - 1) * Pow2(32 - k) == TOP && Pow2(k) == 2 * Pow2(k - 1) && Pow2(33 - k) == 2 * Pow2(32 - k)
  {
    Pow2Add(k - 1, 32 - k);
    Pow2At31();
  }

  lemma {:induction false} RorIsSplit(x: Word, k: nat)
    requires k <= 32
    ensures Ror(x, k) == x / Pow2(k) + x % Pow2(k) * Pow2(32 - k)
  {
    if k > 0 {
      RorIsSplit(x, k - 1);
      hide Pow2, Ror;
      Powers(k);
      RorStep(x, k);
      RotateOnce(x, Pow2(k - 1), Pow2(32 - k), Ror(x, k - 1));
    }
  }

  /** One more place: the lowest bit of the quotient goes to the top. */
  lemma RotateOnce(x: Word, p: nat, w: nat, y: Word)
    requires p > 0 && w > 0 && p * w == TOP && y == x / p + x % p * (2 * w)
    ensures y / 2 + y % 2 * TOP == x / (2 * p) + x % (2 * p) * w
  {
    var q, r := x / p, x % p;
    EvenAdded(q, r, w);
    var h, b, m := q / 2, q % 2, r * w;
    RotateParts(x, p, w, q, r, h, b);
    assert b * (p * w) == b * TOP;
    Assembled(y, h, b, m, x / (2 * p), x % (2 * p) * w);
  }

  lemma Assembled(y: Word, h: int, b: nat, m: int, q: int, t: int)
    requires y / 2 == h + m && y % 2 == b && q == h && t == b * TOP + m
    ensures y / 2 + y % 2 * TOP == q + t
  {
  }

  lemma EvenAdded(q: int, r: int, w: int)
    ensures (q + r * (2 * w)) / 2 == q / 2 + r * w && (q + r * (2 * w)) % 2 == q % 2
  {
    assert r * (2 * w) == 2 * (r * w);
  }

  lemma RotateParts(x: nat, p: nat, w: nat, q: nat, r: nat, h: nat, b: nat)
    requires p > 0 && q == x / p && r == x % p && q == 2 * h + b && b < 2
    ensures x / (2 * p) == h && x % (2 * p) * w == b * (p * w) + r * w
  {
    assert x == q * p + r;
    Distribute(h, b, p);
    BelowTwice(b, p, r);
    DivUnique(x, 2 * p, h, b * p + r);
    assert x % (2 * p) == b * p + r;
    assert (b * p + r) * w == b * (p * w) + r * w by { TimesSum(b, p, r, w); }
  }

  lemma TimesSum(b: int, p: int, r: int, w: int)
    ensures (b * p + r) * w == b * (p * w) + r * w
  {
    assert (b * p + r) * w == (b * p) * w + r * w;
    assert (b * p) * w == b * (p * w);
  }

  lemma Distribute(h: int, b: int, p: int)
    ensures (2 * h + b) * p == h * (2 * p) + b * p
  {
  }

  lemma BelowTwice(b: nat, p: nat, r: nat)
    requires b < 2 && r < p
    ensures b * p + r < 2 * p
  {
  }

  /** An immediate field is a byte rotated right by twice its rotation. */
  lemma ImmIs(rot: Rotation, byte: Byte)
    ensures ImmValue(rot, byte) == byte / Pow2(2 * rot) + byte % Pow2(2 * rot) * Pow2(32 - 2 * rot)
  {
    hide Pow2;
    RorInPairs(byte, rot);
    RorIsSplit(byte, 2 * rot);
  }

  lemma {:induction false} RorInPairs(x: Word, k: nat)
    ensures RorPairs(x, k) == Ror(x, 2 * k)
  {
    if k > 0 {
      RorInPairs(x, k - 1);
      var y := Ror(x, 2 * k - 2);
      assert Ror(x, 2 * k - 1) == y / 2 + (y % 2) * TOP;
      TwoPlaces(y);
    }
  }

  lemma TwoPlaces(y: Word)
    ensures var z := y / 2 + (y % 2) * TOP; z / 2 + (z % 2) * TOP == Ror2(y)
  {
  }

  // ---- bits ----

  predicate Bit(x: nat, i: nat) { x / Pow2(i) % 2 == 1 }

  lemma BitZero(x: nat)
    ensures Bit(x, 0) <==> x % 2 == 1
  {
  }

  lemma BitUp(x: nat, i: nat)
    ensures Bit(x, i + 1) <==> Bit(x / 2, i)
  {
    DivDiv(x, 2, Pow2(i));
  }

  /** The logical operations work on each bit. */
  lemma {:induction false} BitsOf(x: nat, y: nat, i: nat)
    ensures Bit(And(x, y), i) <==> Bit(x, i) && Bit(y, i)
    ensures Bit(Orr(x, y), i) <==> Bit(x, i) || Bit(y, i)
    ensures Bit(Eor(x, y), i) <==> Bit(x, i) != Bit(y, i)
    ensures Bit(Bic(x, y), i) <==> Bit(x, i) && !Bit(y, i)
    decreases i
  {
    hide Bit;
    Halves(x, y);
    if i == 0 {
      BitZero(x);
      BitZero(y);
      BitZero(And(x, y));
      BitZero(Orr(x, y));
      BitZero(Eor(x, y));
      BitZero(Bic(x, y));
    } else {
      BitsOf(x / 2, y / 2, i - 1);
      BitUp(x, i - 1);
      BitUp(y, i - 1);
      BitUp(And(x, y), i - 1);
      BitUp(Orr(x, y), i - 1);
      BitUp(Eor(x, y), i - 1);
      BitUp(Bic(x, y), i - 1);
    }
  }

  lemma Halves(x: nat, y: nat)
    ensures And(x, y) / 2 == And(x / 2, y / 2) && (And(x, y) % 2 == 1 <==> x % 2 == 1 && y % 2 == 1)
    ensures Orr(x, y) / 2 == Orr(x / 2, y / 2) && (Orr(x, y) % 2 == 1 <==> x % 2 == 1 || y % 2 == 1)
    ensures Eor(x, y) / 2 == Eor(x / 2, y / 2) && (Eor(x, y) % 2 == 1 <==> x % 2 != y % 2)
    ensures Bic(x, y) / 2 == Bic(x / 2, y / 2) && (Bic(x, y) % 2 == 1 <==> x % 2 == 1 && y % 2 == 0)
  {
  }

  /** The carry of the shifter is the last bit shifted out, and of a rotated field its top bit. */
  lemma CarryIs(regs: Regs, o: Operand, c: bool)
    ensures var carry := ShifterCarry(regs, o, c);
            match o
            case Imm(rot, _) => carry <==> if rot == 0 then c else Bit(OperandValue(regs, o), 31)
            case Shifted(rm, kind, k) =>
              carry <==> if k == 0 then c else if kind == LSL then Bit(regs[rm], 32 - k) else Bit(regs[rm], k - 1)
  {
    hide Pow2, Bit, ImmValue, Lsl, Lsr, Asr, Signed;
    match o
    case Imm(rot, byte) =>
      TopBit(OperandValue(regs, o));
    case Shifted(rm, kind, k) =>
      if k > 0 {
        var x := regs[rm];
        match kind
        case LSL => LslOut(x, k);
        case LSR => LsrOut(x, k);
        case ASR => AsrOut(x, k);
        case ROR => RorOut(x, k);
      }
  }

  lemma TopBit(x: Word)
    ensures Bit(x, 31) <==> x >= TOP
  {
    Pow2At31();
  }

  lemma LsrOut(x: Word, k: Amount)
    requires k > 0
    ensures Lsr(x, k - 1) % 2 == 1 <==> Bit(x, k - 1)
  {
    LsrIsQuotient(x, k - 1);
  }

  lemma LslOut(x: Word, k: Amount)
    requires k > 0
    ensures Lsl(x, k - 1) >= TOP <==> Bit(x, 32 - k)
  {
    hide Lsl, Pow2;
    LslIsProduct(x, k - 1);
    Powers(k);
    TopOfProduct(x, Pow2(k - 1), Pow2(32 - k));
  }

  lemma TopOfProduct(x: Word, p: nat, w: nat)
    requires p > 0 && w > 0 && p * w == TOP
    ensures Wrap(x * p) >= TOP <==> x / w % 2 == 1
  {
    var q, r := x / w, x % w;
    var h, b := q / 2, q % 2;
    assert x == q * w + r;
    MulMono(r + 1, w, p);
    ProductParts(x, p, w, h, b, r);
    Remainder(x * p, h, b * TOP + r * p);
  }

  lemma ProductParts(x: int, p: int, w: int, h: int, b: int, r: int)
    requires p * w == TOP && x == (2 * h + b) * w + r
    ensures x * p == h * M + (b * TOP + r * p) && (r + 1) * p == r * p + p
  {
    TimesSum(2 * h + b, w, r, p);
    assert (2 * h + b) * TOP == h * M + b * TOP;
  }

  lemma Remainder(y: int, h: int, r: int)
    requires y == h * M + r && 0 <= r < M
    ensures Wrap(y) == r
  {
  }

  lemma AsrOut(x: Word, k: Amount)
    requires k > 0
    ensures Asr(x, k - 1) % 2 == 1 <==> Bit(x, k - 1)
  {
    hide Asr, Pow2;
    AsrIsQuotient(x, k - 1);
    Powers(k);
    SameParity(x, Pow2(k - 1), Pow2(32 - k));
    assert Signed(Asr(x, k - 1)) % 2 == Asr(x, k - 1) % 2;
  }

  lemma SameParity(x: Word, p: nat, w: nat)
    requires p > 0 && p * w == TOP
    ensures Signed(x) / p % 2 == x / p % 2
  {
    if x >= TOP {
      var q, r := x / p, x % p;
      assert x == p * q + r;
      assert p * (q - 2 * w) == p * q - 2 * (p * w) by { MinusTwice(p, q, w); }
      QuotientIs(x - M, p, q - 2 * w, r);
    }
  }

  lemma MinusTwice(p: int, q: int, w: int)
    ensures p * (q - 2 * w) == p * q - 2 * (p * w)
  {
  }

  lemma RorOut(x: Word, k: Amount)
    requires k > 0
    ensures Ror(x, k) >= TOP <==> Bit(x, k - 1)
  {
    hide Ror, Pow2;
    RorIsSplit(x, k - 1);
    Powers(k);
    RorStep(x, k);
    EvenAdded(x / Pow2(k - 1), x % Pow2(k - 1), Pow2(32 - k));
  }
}
