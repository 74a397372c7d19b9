/**
 Data-processing immediates: an 8-bit value rotated right by an even amount.

 Pairs of bits are numbered from 0 (bits 1:0) to 15 (bits 31:30); a "window" is four
 consecutive pairs, the last three starting positions wrapping round the word.  The
 masks 0x3 << 2i and ROR(0xff, 32 - 2i) of the source are pair i and window i here.
 */
module Immediates {
  import opened Words
  import opened Arm

  /** The search for a rotation that brings n below 256, from a given rotation on. */
  function EightBitsFrom(n: Word, rot: nat): (o: Option<Operand>)
    requires rot <= 16
    ensures o.Some? ==> o.value.Imm? && rot <= o.value.rot && o.value.byte == RolPairs(n, o.value.rot - rot)
    ensures o.None? ==> forall k :: 0 <= k < 16 - rot ==> RolPairs(n, k) >= 256
    ensures o.Some? ==> forall k :: 0 <= k < o.value.rot - rot ==> RolPairs(n, k) >= 256
    decreases 16 - rot
  {
    if rot == 16 then None
    else if n < 256 then Some(Imm(rot, n))
    else
      var o := EightBitsFrom(Rol2(n), rot + 1);
      assert forall k {:trigger RolPairs(n, k)} :: 0 < k ==> RolPairs(n, k) == RolPairs(Rol2(n), k - 1) by {
        forall k | 0 < k ensures RolPairs(n, k) == RolPairs(Rol2(n), k - 1) {
          RolPairsFirst(n, k);
        }
      }
      o
  }

  /** The 12-bit field for n, or None where the source returns -1. */
  function EightBits(n: Word): (o: Option<Operand>)
    ensures o.Some? ==> o.value.Imm?
  {
    EightBitsFrom(n, 0)
  }

  predicate Encodes(o: Operand, n: Word)
  {
    o.Imm? && ImmValue(o.rot, o.byte) == n
  }

  lemma EightBitsSound(n: Word)
    ensures EightBits(n).Some? ==> ImmValue(EightBits(n).value.rot, EightBits(n).value.byte) == n
  {
    if EightBits(n).Some? {
      RolRorPairs(n, EightBits(n).value.rot);
    }
  }

  /** What is found denotes n; nothing is found only when no field denotes n. */
  lemma EightBitsExact(n: Word)
    ensures EightBits(n).Some? ==> Encodes(EightBits(n).value, n)
    ensures forall o :: Encodes(o, n) ==> EightBits(n).Some? && EightBits(n).value.rot <= o.rot
  {
    EightBitsSound(n);
    forall o | Encodes(o, n)
      ensures EightBits(n).Some? && EightBits(n).value.rot <= o.rot
    {
      RolRorPairs(o.byte, o.rot);
      assert RolPairs(n, o.rot) < 256;
    }
  }

  /** The search as the source runs it, rotating n in place. */
  method FindEightBits(n0: Word) returns (packed: Option<Operand>)
    ensures packed == EightBits(n0)
  {
    var n, shift := n0, 0;
    while shift < 16
      invariant shift <= 16
      invariant EightBitsFrom(n, shift) == EightBits(n0)
    {
      if n < 256 {
        return Some(Imm(shift, n));
      }
      n := Rol2(n);
      shift := shift + 1;
    }
    return None;
  }

  /** The lowest pair of n that is not 00. */
  function LowPair(n: Word): (i: nat)
    requires n > 0
    ensures n == Scale(Strip(n), i)
    ensures Strip(n) % 4 != 0
  {
    if n % 4 != 0 then 0 else 1 + LowPair(n / 4)
  }

  /** n with its trailing 00 pairs removed. */
  function Strip(n: Word): (q: Word)
    requires n > 0
  {
    if n % 4 != 0 then n else Strip(n / 4)
  }

  /** How many pairs of n are known to be 00 from the bottom up; 16 for zero. */
  function Zeros(n: Word): nat { if n == 0 then 16 else LowPair(n) }

  lemma {:induction false} LowPairOfMultiple(n: Word, m: int, j: nat)
    requires n > 0 && n == Scale(m, j)
    ensures LowPair(n) >= j
  {
    if j > 0 {
      LowPairOfMultiple(n / 4, m, j - 1);
    }
  }

  lemma LowPairFits(n: Word)
    requires n > 0
    ensures LowPair(n) <= 15
  {
    hide LowPair, Strip;
    if LowPair(n) >= 16 {
      ScaleScale(Strip(n), LowPair(n) - 16, 16);
      ScaleTop(Scale(Strip(n), LowPair(n) - 16));
    }
  }

  // ---- windows ----

  /** n masked to window i. */
  function Window(n: Word, i: nat): Word
    requires i < 16
  {
    RolPairs(RorPairs(n, i) % 256, i)
  }

  /** The pairs of n from p upwards. */
  function Above(n: Word, p: nat): Word { if p == 0 then n else Above(n / 4, p - 1) }

  /** Whatever lies in a window fits an immediate field. */
  lemma WindowEncodable(n: Word, i: nat)
    requires i < 16
    ensures EightBits(Window(n, i)).Some?
  {
    var b: Word := RorPairs(n, i) % 256;
    RolPairsFull(b);
    if i > 0 {
      RolPairsAdd(b, i, 16 - i);
      assert RolPairs(Window(n, i), 16 - i) < 256;
    } else {
      assert RolPairs(Window(n, i), 0) < 256;
    }
  }

  /** The window at the bottom of a multiple of 4^j. */
  lemma ScaledWindow(n: Word, s: Word, j: nat)
    requires n == Scale(s, j) && j <= 15
    ensures Window(n, j) == Scale(s % 256, j)
  {
    hide RorPairs, RolPairs;
    RorPairsDivides(s, j);
    if s % 256 < s { ScaleLess(s % 256, s, j); }
    RorPairsDivides(s % 256, j);
    RolRorPairs(Scale(s % 256, j), j);
  }

  /** A window that starts k pairs below the lowest nonzero pair of n. */
  lemma WindowAt(n: Word, q: Word, i: nat, k: nat)
    requires n == Scale(q, i) && k <= i <= 15
    ensures Window(n, i - k) == Scale(Scale(q, k) % 256, i - k)
  {
    hide Window;
    ScaleScale(q, k, i - k);
    ScaledWindow(n, Scale(q, k), i - k);
  }

  lemma ByteLeft(q: Word, i: nat)
    requires i >= 12 && Scale(q, i) < M
    ensures q < 256
  {
    hide Scale;
    ScaleOfOne();
    ScaleScale(256, 12, i - 12);
    assert Scale(256, i) >= M by { ScaleGrows(M, i - 12); }
    if q > 256 { ScaleLess(256, q, i); }
  }

  lemma ScaleGrows(q: nat, k: nat)
    ensures Scale(q, k) >= q
  {
  }

  /** A constant whose low 24 bits are clear fits an immediate field. */
  lemma HighEncodable(n: Word)
    requires n > 0 && LowPair(n) >= 12
    ensures EightBits(n).Some?
  {
    hide EightBits, Window, LowPair, Strip, Scale;
    LowPairFits(n);
    ByteLeft(Strip(n), LowPair(n));
    ScaledWindow(n, Strip(n), LowPair(n));
    WindowEncodable(n, LowPair(n));
  }

  // ---- windows that wrap round the word ----

  /** The top d pairs of n, and the rest of it. */
  function TopPart(n: Word, d: nat): nat
    requires 1 <= d <= 3
  {
    if d == 1 then n / 0x4000_0000 else if d == 2 then n / 0x1000_0000 else n / 0x400_0000
  }

  function RestPart(n: Word, d: nat): nat
    requires 1 <= d <= 3
  {
    if d == 1 then n % 0x4000_0000 else if d == 2 then n % 0x1000_0000 else n % 0x400_0000
  }

  /** The low 4 - d pairs of n. */
  function LowPart(n: Word, d: nat): nat
    requires 1 <= d <= 3
  {
    if d == 1 then n % 64 else if d == 2 then n % 16 else n % 4
  }

  lemma TopScale(h: nat, d: nat)
    requires 1 <= d <= 3
    ensures Scale(h, 16 - d) == (if d == 1 then 0x4000_0000 else if d == 2 then 0x1000_0000 else 0x400_0000) * h
  {
    ScaleByte(h, 8);
    ScaleByte(h, 4);
    ScaleByte(h, 0);
    ScaleByte(256 * h, 4);
    ScaleByte(256 * h, 0);
    ScaleByte(0x1_0000 * h, 0);
    assert Scale(h, 12) == 0x100_0000 * h;
    assert Scale(h, 13) == 0x400_0000 * h;
    assert Scale(h, 14) == 0x1000_0000 * h;
    assert Scale(h, 15) == 0x4000_0000 * h;
  }

  /** A window that starts d pairs below bit 0 takes d pairs from the top of the word. */
  lemma WindowWrapped(n: Word, d: nat)
    requires 1 <= d <= 3
    ensures Window(n, 16 - d) == LowPart(n, d) + Scale(TopPart(n, d), 16 - d)
  {
    hide RolPairs, RorPairs;
    var h, l := TopPart(n, d), RestPart(n, d);
    WrappedByte(n, d);
    WrapDigits(n, d);
    var b: Word := RorPairs(n, 16 - d) % 256;
    RolPairsForm(b, LowPart(n, d), h, 16 - d);
  }

  lemma WrappedByte(n: Word, d: nat)
    requires 1 <= d <= 3
    ensures RorPairs(n, 16 - d) == Scale(RestPart(n, d), d) + TopPart(n, d)
  {
    hide RolPairs, RorPairs;
    TopScale(1, d);
    TopScale(TopPart(n, d), d);
    RolPairsForm(n, TopPart(n, d), RestPart(n, d), d);
    RolPairsAdd(n, d, 16 - d);
    RolPairsFull(n);
    RolRorPairs(RolPairs(n, d), 16 - d);
  }

  lemma WrapDigits(n: Word, d: nat)
    requires 1 <= d <= 3
    ensures TopPart(n, d) < Scale(1, d)
    ensures (Scale(RestPart(n, d), d) + TopPart(n, d)) % 256 == Scale(LowPart(n, d), d) + TopPart(n, d)
  {
    hide TopPart, RestPart, LowPart, Scale;
    ScaleFew(RestPart(n, d));
    ScaleFew(LowPart(n, d));
    ScaleFew(1);
    if d == 1 { WrapOne(n); } else if d == 2 { WrapTwo(n); } else { WrapThree(n); }
  }

  lemma WrapOne(n: Word)
    ensures TopPart(n, 1) < 4 && (4 * RestPart(n, 1) + TopPart(n, 1)) % 256 == 4 * LowPart(n, 1) + TopPart(n, 1)
  {
    var h, l := n / 0x4000_0000, n % 0x4000_0000;
    DivUnique(n, 64, h * 0x100_0000 + l / 64, l % 64);
    DivUnique(l * 4 + h, 256, l / 64, l % 64 * 4 + h);
  }

  lemma WrapTwo(n: Word)
    ensures TopPart(n, 2) < 16 && (16 * RestPart(n, 2) + TopPart(n, 2)) % 256 == 16 * LowPart(n, 2) + TopPart(n, 2)
  {
    var h, l := n / 0x1000_0000, n % 0x1000_0000;
    DivUnique(n, 16, h * 0x100_0000 + l / 16, l % 16);
    DivUnique(l * 16 + h, 256, l / 16, l % 16 * 16 + h);
  }

  lemma WrapThree(n: Word)
    ensures TopPart(n, 3) < 64 && (64 * RestPart(n, 3) + TopPart(n, 3)) % 256 == 64 * LowPart(n, 3) + TopPart(n, 3)
  {
    var h, l := n / 0x400_0000, n % 0x400_0000;
    DivUnique(n, 4, h * 0x100_0000 + l / 4, l % 4);
    DivUnique(l * 64 + h, 256, l / 4, l % 4 * 64 + h);
  }

  lemma ScaleFew(q: int)
    ensures Scale(q, 1) == 4 * q && Scale(q, 2) == 16 * q && Scale(q, 3) == 64 * q
  {
    ScaleTwo(q);
    ScaleThree(q);
  }

  lemma ScaleTwo(q: int)
    ensures Scale(q, 2) == 16 * q
  {
    assert Scale(q, 1) == 4 * q;
  }

  lemma ScaleThree(q: int)
    ensures Scale(q, 3) == 64 * q
  {
    ScaleTwo(q);
  }
}
