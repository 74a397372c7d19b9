/**
 When one instruction is enough: the code for a constant is no longer than that exactly when an
 immediate field, or a register that is known to hold something suitable, provides the operand.
 */
module Forms {
  import opened Words
  import opened Arm
  import opened Immediates
  import opened KnownValues
  import opened Lookup
  import opened AddConstant
  import LogicConstant
  import LoadConstant
  import CompareConstant

  /** n is a byte rotated right by an even amount. */
  ghost predicate Field(n: Word) { exists rot, byte :: ImmValue(rot, byte) == n }

  lemma FieldIff(n: Word)
    ensures Field(n) <==> EightBits(n).Some?
  {
    hide EightBits, ImmValue;
    EightBitsExact(n);
    if Field(n) {
      var rot, byte :| ImmValue(rot, byte) == n;
      assert Encodes(Imm(rot, byte), n);
    }
  }

  /** Some recorded register, shifted, is n, or where `negated` or `inverted` allow it, -n or its complement. */
  ghost predicate Held(known: Known, n: Word, negated: bool, inverted: bool)
  {
    exists r: Reg, s ::
      known[r].Some? &&
      (|| Makes(s, known[r].value, n)
       || (negated && Makes(s, known[r].value, Neg(n)))
       || (inverted && Makes(s, known[r].value, Not(n))))
  }

  lemma HeldIff(known: Known, n: Word, negated: bool, inverted: bool)
    ensures Held(known, n, negated, inverted)
            <==> !RegisterContainingValue(known, n, Ask(negated, inverted, false, false, false)).NotFound?
  {
    hide Makes, RegisterContainingValue, FirstForm;
    var ask := Ask(negated, inverted, false, false, false);
    NegWraps(n);
    assert Not(n) == M - 1 - n;
    hide Neg, Not;
    LookupFirst(known, n, ask);
    if Held(known, n, negated, inverted) {
      var r: Reg, s :| known[r].Some? &&
          (|| Makes(s, known[r].value, n)
           || (negated && Makes(s, known[r].value, Neg(n)))
           || (inverted && Makes(s, known[r].value, Not(n))));
      assert Offers(known, n, ask, r);
    }
    forall r: Reg | Offers(known, n, ask, r) ensures Held(known, n, negated, inverted) {
      var x := known[r].value;
      if s :| Makes(s, x, n) {
      } else if s :| negated && Makes(s, x, Neg(n)) {
      } else {
        var s :| inverted && Makes(s, x, Not(n));
      }
    }
  }

  /** Adding n. */
  lemma AddInOne(r1: Reg, r2: Reg, n: Word, cond: Cond, s: bool, known: Known)
    ensures |AddCode(r1, r2, n, cond, s, known)| <= 1
            <==> Field(n) || Field(Neg(n)) || Held(known, n, true, false)
    ensures AddCode(r1, r2, n, cond, s, known) == [] <==> n == 0 && cond == AL && !s && r1 == r2
  {
    hide EightBits, RegisterContainingValue, SplitForAdd, Zeros, Remaining, Field, Held;
    FieldIff(n);
    FieldIff(Neg(n));
    HeldIff(known, n, true, false);
    ZeroFits(n);
    AddCodeDirect(r1, r2, n, cond, s, known);
    if AddConstant.Splits(n, known) {
      AddCodeSplits(r1, r2, n, cond, s, known);
      RestRemains(r1, n);
      SomeCode(r1, r1, Remaining(n, SplitForAdd(r1, n)), cond, s, known);
    }
  }

  lemma SomeCode(r1: Reg, r2: Reg, n: Word, cond: Cond, s: bool, known: Known)
    requires n != 0
    ensures |AddCode(r1, r2, n, cond, s, known)| >= 1
  {
    hide EightBits, RegisterContainingValue, SplitForAdd, Zeros, Remaining;
    AddCodeDirect(r1, r2, n, cond, s, known);
    if AddConstant.Splits(n, known) { AddCodeSplits(r1, r2, n, cond, s, known); }
  }

  /** A constant that no field holds is not used up by one chunk. */
  lemma RestRemains(r: Reg, n: Word)
    requires EightBits(n).None? && EightBits(Neg(n)).None?
    ensures n > 0 && LowPair(n) <= 11
    ensures Remaining(n, SplitForAdd(r, n)) != 0
  {
    hide EightBits, SplitForAdd, Zeros, LowPair, Strip, Window;
    NextStep(r, n);
    NotUsedUp(n, SplitForAdd(r, n));
  }

  lemma NotUsedUp(n: Word, split: Split)
    requires EightBits(n).None? && EightBits(Neg(n)).None? && EightBits(split.chunk).Some?
    ensures Remaining(n, split) != 0
  {
    hide EightBits, Neg, Wrap;
    NothingLeft(n, split.chunk);
  }

  lemma NothingLeft(n: Word, c: Word)
    ensures Wrap(n - c) == 0 ==> c == n
    ensures Wrap(n + c) == 0 ==> c == Neg(n)
  {
  }

  /** AND-ing with n. */
  lemma AndInOne(r1: Reg, r2: Reg, n: Word, s: bool, known: Known)
    ensures |LogicConstant.AndCode(r1, r2, n, s, known)| <= 1
            <==> Field(n) || Field(Not(n)) || Held(known, n, false, true)
    ensures LogicConstant.AndCode(r1, r2, n, s, known) == [] <==> n == M - 1 && !s && r1 == r2
  {
    hide EightBits, RegisterContainingValue, LogicConstant.Chunk, Zeros, Field, Held, Denotes,
        LogicConstant.ClearsHiBits, LogicConstant.ClearsLoBits;
    FieldIff(n);
    FieldIff(Not(n));
    HeldIff(known, n, false, true);
    ZeroFits(Not(n));
    if EightBits(Not(n)).None? {
      LogicConstant.ChunkStep(Not(n));
      AndSome(r1, r2, n + LogicConstant.Chunk(Not(n)), known);
    }
  }

  lemma AndSome(r1: Reg, r2: Reg, n: Word, known: Known)
    requires n != M - 1
    ensures |LogicConstant.AndCode(r1, r2, n, false, known)| >= 1
  {
    hide EightBits, RegisterContainingValue, LogicConstant.Chunk, Zeros, Denotes, LogicConstant.ClearsHiBits,
        LogicConstant.ClearsLoBits;
    if EightBits(n).None? && EightBits(Not(n)).None? { LogicConstant.ChunkStep(Not(n)); }
  }

  /** AND-ing with all the bits below some place, or all those from it on, takes at most two instructions. */
  lemma AndInTwo(r1: Reg, r2: Reg, k: Amount, n: Word, s: bool, known: Known)
    requires k > 0 && (n == Pow2(32 - k) - 1 || n == M - Pow2(k))
    ensures |LogicConstant.AndCode(r1, r2, n, s, known)| <= 2
  {
    hide EightBits, RegisterContainingValue, LogicConstant.Chunk, Zeros, Denotes, Pow2;
    if n == Pow2(32 - k) - 1 { HiFound(n, k, 1); } else { LoFound(n, k, 1); }
    hide LogicConstant.ClearsHiBits, LogicConstant.ClearsLoBits;
    if EightBits(Not(n)).None? { LogicConstant.ChunkStep(Not(n)); }
  }

  lemma {:induction false} HiFound(n: Word, k: Amount, from: nat)
    requires 1 <= from <= k && n == Pow2(32 - k) - 1
    ensures LogicConstant.ClearsHiBits(n, from) != 0
    decreases k - from
  {
    if from < k { HiFound(n, k, from + 1); }
  }

  lemma {:induction false} LoFound(n: Word, k: Amount, from: nat)
    requires 1 <= from <= k && n == M - Pow2(k)
    ensures LogicConstant.ClearsLoBits(n, from) != 0
    decreases k - from
  {
    if from < k { LoFound(n, k, from + 1); }
  }

  /** OR-ing or EOR-ing with n. */
  lemma OrInOne(op: Op, r1: Reg, r2: Reg, n: Word, s: bool, known: Known)
    requires op == ORR || op == EOR
    ensures |LogicConstant.OrCode(op, r1, r2, n, s, known)| <= 1 <==> Field(n) || Held(known, n, false, false)
    ensures LogicConstant.OrCode(op, r1, r2, n, s, known) == [] <==> n == 0 && !s && r1 == r2
  {
    hide EightBits, RegisterContainingValue, LogicConstant.Chunk, Zeros, Field, Held;
    FieldIff(n);
    HeldIff(known, n, false, false);
    ZeroFits(n);
    if EightBits(n).None? {
      LogicConstant.ChunkStep(n);
      OrSome(op, r1, r2, n - LogicConstant.Chunk(n), known);
    }
  }

  lemma OrSome(op: Op, r1: Reg, r2: Reg, n: Word, known: Known)
    requires op == ORR || op == EOR
    requires n != 0
    ensures |LogicConstant.OrCode(op, r1, r2, n, false, known)| >= 1
  {
    hide EightBits, RegisterContainingValue, LogicConstant.Chunk, Zeros;
    if EightBits(n).None? { LogicConstant.ChunkStep(n); }
  }

  /** Loading n, also with one of the forms that combine a register with itself, a constant or another register. */
  lemma LoadInOne(r: Reg, n: Word, s: bool, known: Known)
    requires Field(n) || Field(Not(n)) || exists q: Reg :: Offers(known, n, Ask(false, true, true, true, true), q)
    ensures |LoadConstant.LoadCode(r, n, s, known)| <= 1
    ensures LoadConstant.LoadCode(r, n, s, known) == [] ==> known[r] == Some(n)
  {
    hide EightBits, RegisterContainingValue, Field, Offers, Denotes, FirstForm, LoadConstant.ChooseFirst,
        LoadConstant.Symmetric;
    var ask := Ask(false, true, true, true, true);
    FieldIff(n);
    FieldIff(Not(n));
    LookupFirst(known, n, ask);
    LookupSound(known, n, ask);
    SameRegister(known, n, RegisterContainingValue(known, n, ask));
  }

  lemma SameRegister(known: Known, n: Word, f: Found)
    requires Denotes(f, known, n)
    ensures f.Exact? && f.shift.amount == 0 ==> known[f.r] == Some(n)
  {
  }

  /** A part of n cut out by a mask of sixteen bits, or of twice eight, that a rotation of the rest gives again. */
  predicate Repeats(n: Word, wide: bool, c: nat, amount: nat)
  {
    var h := LoadConstant.Half(n, wide, c);
    c < (if wide then 8 else 4) && 1 <= amount < (if wide then 32 else 16) && h <= n && h == Ror(n - h, amount)
  }

  /** The symmetric load is found whenever there is one. */
  lemma SymmetricIff(n: Word)
    ensures LoadConstant.Symmetric(n).Some? <==> exists wide, c, amount :: Repeats(n, wide, c, amount)
  {
    hide LoadConstant.Half, Ror, LoadConstant.FindSymmetry;
    SymmetryFound(n, true, 0);
    SymmetryFound(n, false, 0);
  }

  lemma {:induction false} SymmetryFound(n: Word, wide: bool, c: nat)
    requires c <= if wide then 8 else 4
    ensures LoadConstant.FindSymmetry(n, wide, c).Some? <==> exists d, amount :: c <= d && Repeats(n, wide, d, amount)
    decreases 8 - c
  {
    hide LoadConstant.Half, Ror, LoadConstant.FindRotation;
    if c < (if wide then 8 else 4) {
      LoadConstant.HalfFits(n, wide, c);
      RotationFound(n, wide, c, 1);
      SymmetryFound(n, wide, c + 1);
    }
  }

  lemma {:induction false} RotationFound(n: Word, wide: bool, c: nat, amount: nat)
    requires c < (if wide then 8 else 4) && 1 <= amount <= (if wide then 32 else 16)
    requires LoadConstant.Half(n, wide, c) <= n
    ensures LoadConstant.FindRotation(n, LoadConstant.Half(n, wide, c), amount, if wide then 32 else 16).Some?
            <==> exists k :: amount <= k && Repeats(n, wide, c, k)
    decreases 32 - amount
  {
    hide LoadConstant.Half, Ror;
    LoadConstant.HalfFits(n, wide, c);
    var h := LoadConstant.Half(n, wide, c);
    if amount < (if wide then 32 else 16) {
      RotationFound(n, wide, c, amount + 1);
      assert Repeats(n, wide, c, amount) <==> h == Ror(n - h, amount);
    }
  }

  /** Comparing with n, whatever is to be tested. */
  lemma CompareInOne(r: Reg, n: Word, work: Reg, test: CompareConstant.Test, when: Cond, known: Known)
    ensures |CompareConstant.CompareCode(r, n, work, test, when, known)| == 1
            <==> Field(n) || Field(Neg(n)) || Held(known, n, true, false)
  {
    hide EightBits, RegisterContainingValue, Field, Held, Denotes, CompareConstant.Approach, CompareConstant.Beyond,
        CompareConstant.Levels, CompareConstant.Size, AddCode;
    FieldIff(n);
    FieldIff(Neg(n));
    HeldIff(known, n, true, false);
    if EightBits(n).None? && EightBits(Neg(n)).None? && test != CompareConstant.Unspecified {
      CompareConstant.StepFacts(n);
      var d := CompareConstant.Approach(n);
      SizeOfZero();
      assert d != 0;
      NegOfSome(d);
      SomeCode(work, r, Neg(d), when, test != CompareConstant.Equality, known);
      CompareSome(work, CompareConstant.Beyond(n), work, test, CompareConstant.OpenCond(test, n), known);
    }
  }

  lemma SizeOfZero()
    ensures CompareConstant.Size(0) == 0
  {
  }

  lemma NegOfSome(n: Word)
    ensures n != 0 ==> Neg(n) != 0
  {
  }

  lemma CompareSome(r: Reg, n: Word, work: Reg, test: CompareConstant.Test, when: Cond, known: Known)
    requires test != CompareConstant.Unspecified
    ensures |CompareConstant.CompareCode(r, n, work, test, when, known)| >= 1
    decreases CompareConstant.Levels(CompareConstant.Size(n))
  {
    hide EightBits, RegisterContainingValue, Denotes, CompareConstant.Approach, CompareConstant.Beyond,
        CompareConstant.Levels, CompareConstant.Size, AddCode;
    if EightBits(n).None? && EightBits(Neg(n)).None? {
      CompareConstant.StepFacts(n);
      CompareSome(work, CompareConstant.Beyond(n), work, test, CompareConstant.OpenCond(test, n), known);
    }
  }
}
