/**
 Loading a 32-bit constant (load_integer_i and symmetricload in arm/gen.c).

 The source measures strings of equal pairs of bits in bits; here positions and sizes
 count pairs, so its `size > 8` is `size > 4`.
 */
module LoadConstant {
  import opened Words
  import opened Arm
  import opened Immediates
  import opened KnownValues
  import opened AddConstant
  import opened LogicConstant
  import opened Buffers

  const LOAD_ASK := Ask(false, true, true, true, true)

  // ---- splitting a word at a pair ----

  lemma {:induction false} SplitWord(x: Word, m: nat) returns (h: Word, l: Word)
    ensures x == Scale(h, m) + l && l < Scale(1, m)
    ensures h == Above(x, m)
  {
    if m == 0 {
      h, l := x, 0;
    } else {
      var k;
      h, k := SplitWord(x / 4, m - 1);
      l := 4 * k + x % 4;
    }
  }

  function Pair(n: Word, p: nat): nat { Above(n, p) % 4 }

  lemma SumMod4(a: int, b: int)
    requires a % 4 == 0
    ensures (a + b) % 4 == b % 4
  {
  }

  /** The low pair of a rotated word is the pair rotated there. */
  lemma RotatedPair(n: Word, j: nat)
    requires 1 <= j <= 15
    ensures RorPairs(n, j) % 4 == Pair(n, j)
  {
    hide RolPairs, RorPairs, Scale;
    var h, l := SplitWord(n, j);
    RolPairsForm(n, h, l, 16 - j);
    RolPairsAdd(n, 16 - j, j);
    RolPairsFull(n);
    RolRorPairs(RolPairs(n, 16 - j), j);
    ScaleMod4(l, 16 - j);
    SumMod4(Scale(l, 16 - j), h);
  }

  /** A byte with a free low pair can be raised by one without leaving its window. */
  lemma BumpedByte(b: Word, j: nat)
    requires b < 256 && b % 4 != 3 && 1 <= j <= 15
    ensures RolPairs(b, j) + Scale(1, j) == RolPairs(b + 1, j)
  {
    hide RolPairs;
    var h, l := SplitWord(b, 16 - j);
    ScaleMod4(h, 16 - j);
    ScaleMod4(1, 16 - j);
    RolPairsForm(b, h, l, j);
    RolPairsForm(b + 1, h, l + 1, j);
    ScaleAdd(l, 1, j);
  }

  lemma BumpedEncodable(n: Word, j: nat)
    requires 1 <= j <= 15 && Pair(n, j) != 3
    ensures Window(n, j) + Scale(1, j) < M
    ensures EightBits(Window(n, j) + Scale(1, j)).Some?
  {
    hide EightBits, RorPairs, RolPairs;
    RotatedPair(n, j);
    var b: Word := RorPairs(n, j) % 256;
    assert b % 4 == Pair(n, j) by { DivUnique(RorPairs(n, j), 4, RorPairs(n, j) / 256 * 64 + b / 4, b % 4); }
    BumpedByte(b, j);
    var c := RolPairs(b + 1, j);
    RolRorPairs(b + 1, j);
    assert RorPairs(c, j) % 256 == b + 1;
    WindowEncodable(c, j);
  }

  // ---- the two longest strings of equal pairs ----

  /** What a pair contributes to: a string of 00s, a string of 11s, or none. */
  datatype Kind = Mixed | ZeroPairs | OnePairs

  function KindOf(pair: nat): Kind { if pair == 3 then OnePairs else if pair == 0 then ZeroPairs else Mixed }

  function KindAt(n: Word, p: nat): Kind { if p >= 16 then Mixed else KindOf(Pair(n, p)) }

  datatype Str = Str(pos: nat, size: nat, value: Kind)

  datatype Scan = Scan(long1: Str, long2: Str, startSize: nat, startValue: Kind, value: Kind, start: nat)

  const NO_STRING := Str(0, 0, Mixed)

  const SCAN_START := Scan(NO_STRING, NO_STRING, 0, Mixed, Mixed, 0)

  /** Keep the two longest strings; a later one wins a tie. */
  function Record(s: Scan, pos: nat, size: int, value: Kind): Scan
  {
    if size >= s.long1.size then s.(long1 := Str(pos, size, value), long2 := s.long1)
    else if size >= s.long2.size then s.(long2 := Str(pos, size, value))
    else s
  }

  /** A string ends below pair p: note it if it starts at pair 0, join it to that one if it ends at pair 15. */
  function EndString(n: Word, s: Scan, p: nat): Scan
    requires s.start <= p
  {
    var first := s.start == 0;
    var t := if first then s.(startSize := p, startValue := s.value) else s;
    var size := if first && KindAt(n, 15) == s.value then -1 else p - s.start;
    Record(t, s.start, if p == 16 && s.value == t.startValue then size + t.startSize else size, s.value)
  }

  function ScanStep(n: Word, s: Scan, p: nat): Scan
    requires s.start <= p
  {
    var value := KindAt(n, p);
    if s.value == value then s
    else (if s.value.Mixed? then s else EndString(n, s, p)).(value := value, start := p)
  }

  function ScanTo(n: Word, p: nat): (s: Scan)
    requires p <= 17
    ensures p > 0 ==> s.start < p
    ensures p == 0 ==> s == SCAN_START
  {
    if p == 0 then SCAN_START else ScanStep(n, ScanTo(n, p - 1), p - 1)
  }

  // ---- the chunk to load first ----

  /** The instruction MOV or MVN, its constant, and what remains to be added. */
  datatype First = First(op: Op, k: Word, remainder: Word)

  function EndOf(r: Str): (e: nat)
    ensures e < 16
  {
    (r.pos + r.size) % 16
  }

  function MoveFirst(n: Word, k: Word): First { First(MOV, k, Wrap(n - k)) }

  function ChooseFirst(n: Word): First
  {
    var s := ScanTo(n, 17);
    if s.long1.value.OnePairs? && s.long1.size > 4 && (s.long2.value.OnePairs? || s.long1.pos == 0) then
      var k := Window(Not(n), EndOf(s.long1));
      First(MVN, k, Wrap(n - Not(k)))
    else if (s.long1.value.OnePairs? && s.long1.size > 4) || (s.long2.value.OnePairs? && s.long2.size > 4) then
      var next := EndOf(if s.long2.value.OnePairs? then s.long2 else s.long1);
      if next != 0 then MoveFirst(n, Wrap(Window(n, next) + Scale(1, next)))
      else MoveFirst(n, Window(n, if s.startValue.ZeroPairs? then s.startSize % 16 else 0))
    else MoveFirst(n, Window(n, EndOf(s.long1)))
  }

  /** The kind at a position counted round the word. */
  function KindOn(n: Word, p: nat): Kind { KindAt(n, p % 16) }

  /** `size` pairs of one kind from `pos` on, going round at bit 31. */
  ghost predicate IsRun(n: Word, pos: nat, size: nat, value: Kind)
  {
    pos < 16 && size <= 16 && !value.Mixed? && forall j :: pos <= j < pos + size ==> KindOn(n, j) == value
  }

  /** Nothing, or a run that does not go on. */
  ghost predicate Recorded(n: Word, r: Str)
  {
    r == NO_STRING || (r.size > 0 && IsRun(n, r.pos, r.size, r.value) && KindOn(n, r.pos + r.size) != r.value)
  }

  /** The run from a on lies in the string r, which may go round. */
  predicate Inside(a: nat, size: nat, r: Str)
  {
    (r.pos <= a && a + size <= r.pos + r.size) || a + 16 + size <= r.pos + r.size
  }

  /** No longer than the longest string, and in that one or no longer than the next. */
  predicate Noted(s: Scan, a: nat, size: nat)
  {
    size <= s.long1.size && (size <= s.long2.size || Inside(a, size, s.long1))
  }

  /** The string from pair 0 is held back when bit 31 belongs to the same one. */
  predicate Held(n: Word, s: Scan, a: nat)
  {
    a < s.startSize && s.startValue == KindAt(n, 15)
  }

  ghost predicate StartOk(n: Word, s: Scan)
  {
    && (s.startValue.Mixed? ==> s.startSize == 0)
    && (!s.startValue.Mixed? ==>
          0 < s.startSize <= s.start <= 16
          && IsRun(n, 0, s.startSize, s.startValue) && KindOn(n, s.startSize) != s.startValue)
    && (s.start > 0 && !KindAt(n, 0).Mixed? ==> s.startValue == KindAt(n, 0))
  }

  ghost predicate CurrentOk(n: Word, s: Scan, p: nat)
  {
    && (forall j :: s.start <= j < p && j < 16 ==> KindAt(n, j) == s.value)
    && (s.start > 0 ==> KindAt(n, s.start - 1) != s.value)
  }

  ghost predicate ScanOk(n: Word, s: Scan, p: nat)
  {
    && s.start <= 16
    && Recorded(n, s.long1) && Recorded(n, s.long2) && s.long2.size <= s.long1.size
    && StartOk(n, s) && CurrentOk(n, s, p)
  }

  /** Every run that ended below pair `start` is noted, unless it is held back. */
  ghost predicate AllNoted(n: Word, s: Scan)
  {
    forall a: nat, size: nat, value ::
      IsRun(n, a, size, value) && 0 < size && a + size <= s.start && !Held(n, s, a) ==> Noted(s, a, size)
  }

  lemma {:induction false} AllOnes(n: Word, k: nat)
    requires n < Scale(1, k) && forall j :: 0 <= j < k ==> Pair(n, j) == 3
    ensures n == Scale(1, k) - 1
  {
    if k > 0 {
      assert Pair(n, 0) == 3;
      forall j | 0 <= j < k - 1 ensures Pair(n / 4, j) == 3 { assert Pair(n, j + 1) == 3; }
      AllOnes(n / 4, k - 1);
    }
  }

  lemma {:induction false} AllZeros(n: Word, k: nat)
    requires n < Scale(1, k) && forall j :: 0 <= j < k ==> Pair(n, j) == 0
    ensures n == 0
  {
    if k > 0 {
      assert Pair(n, 0) == 0;
      forall j | 0 <= j < k - 1 ensures Pair(n / 4, j) == 0 { assert Pair(n, j + 1) == 0; }
      AllZeros(n / 4, k - 1);
    }
  }

  /** No string covers the whole word, or the word would be 0 or the complement of 0. */
  lemma NotAllAlike(n: Word, value: Kind)
    requires n != 0 && n != M - 1 && !value.Mixed?
    ensures !forall j :: 0 <= j < 16 ==> KindAt(n, j) == value
  {
    hide Pair;
    if forall j :: 0 <= j < 16 ==> KindAt(n, j) == value {
      var pair := if value.OnePairs? then 3 else 0;
      forall j | 0 <= j < 16 ensures Pair(n, j) == pair { assert KindAt(n, j) == value; }
      ScaleOfOne();
      if value.OnePairs? { AllOnes(n, 16); } else { AllZeros(n, 16); }
    }
  }

  lemma {:induction false} ScanSound(n: Word, p: nat)
    requires p <= 17 && n != 0 && n != M - 1
    ensures ScanOk(n, ScanTo(n, p), p)
    ensures p <= 16 ==> AllNoted(n, ScanTo(n, p))
  {
    hide KindOf, Pair, KindAt, ScanStep, ScanOk, AllNoted;
    if p == 0 {
      StartSound(n);
    } else {
      ScanSound(n, p - 1);
      StepSound(n, ScanTo(n, p - 1), p - 1);
    }
  }

  lemma StartSound(n: Word)
    ensures ScanOk(n, SCAN_START, 0) && AllNoted(n, SCAN_START)
  {
    hide KindAt;
  }

  lemma StepSound(n: Word, s: Scan, p: nat)
    requires p <= 16 && n != 0 && n != M - 1 && ScanOk(n, s, p) && AllNoted(n, s)
    requires s.start <= p && (p > 0 ==> s.start < p) && (p == 0 ==> s == SCAN_START)
    ensures ScanOk(n, ScanStep(n, s, p), p + 1)
    ensures p < 16 ==> AllNoted(n, ScanStep(n, s, p))
  {
    hide KindOf, Pair, EndString, Recorded, IsRun;
    if s.value != KindAt(n, p) && !s.value.Mixed? {
      EndSound(n, s, p);
      if p < 16 { EndNotes(n, s, p); }
    } else {
      MixedNotes(n, s, p);
    }
  }

  /** Between two strings nothing has to be noted. */
  lemma MixedNotes(n: Word, s: Scan, p: nat)
    requires p <= 16 && ScanOk(n, s, p) && AllNoted(n, s) && s.start <= p
    requires s.value == KindAt(n, p) || s.value.Mixed?
    ensures AllNoted(n, ScanStep(n, s, p)) && StartOk(n, ScanStep(n, s, p))
  {
    hide KindAt;
    var t := ScanStep(n, s, p);
    if s.value != KindAt(n, p) {
      forall a: nat, size: nat, value | IsRun(n, a, size, value) && 0 < size && a + size <= p && !Held(n, s, a)
        ensures Noted(s, a, size)
      {
        var last := a + size - 1;
        assert KindOn(n, last) == value;
        assert last < s.start;
      }
    }
  }

  /** The string that ends below pair p, as it is recorded. */
  function Ended(n: Word, s: Scan, p: nat): Str
    requires s.start <= p
  {
    var first := s.start == 0;
    var startSize := if first then p else s.startSize;
    var startValue := if first then s.value else s.startValue;
    Str(s.start, p - s.start + (if p == 16 && s.value == startValue then startSize else 0), s.value)
  }

  /** The string is a run, and EndString records it, or holds it back. */
  lemma EndIsRun(n: Word, s: Scan, p: nat)
    requires 0 < p <= 16 && n != 0 && n != M - 1 && ScanOk(n, s, p) && s.start < p
    requires s.value != KindAt(n, p) && !s.value.Mixed?
    ensures s.start == 0 && KindAt(n, 15) == s.value ==>
            p < 16 && EndString(n, s, p).long1 == s.long1 && EndString(n, s, p).long2 == s.long2
    ensures !(s.start == 0 && KindAt(n, 15) == s.value) ==>
              Recorded(n, Ended(n, s, p))
              && EndString(n, s, p).long1 == Record(s, s.start, Ended(n, s, p).size, s.value).long1
              && EndString(n, s, p).long2 == Record(s, s.start, Ended(n, s, p).size, s.value).long2
  {
    hide KindAt;
    if s.start == 0 && p == 16 {
      NotAllAlike(n, s.value);
      assert false;
    } else if !(s.start == 0 && KindAt(n, 15) == s.value) {
      var r := Ended(n, s, p);
      if p == 16 && s.value == s.startValue {
        forall j | r.pos <= j < r.pos + r.size ensures KindOn(n, j) == s.value {
          if j >= 16 { assert KindOn(n, j - 16) == s.startValue; }
        }
        assert KindOn(n, r.pos + r.size) == KindOn(n, s.startSize);
      } else {
        assert r.size == p - s.start;
        forall j | r.pos <= j < r.pos + r.size ensures KindOn(n, j) == s.value { assert j % 16 == j; }
        if p == 16 { assert KindOn(n, 16) == KindAt(n, 0); }
      }
    }
  }

  lemma EndSound(n: Word, s: Scan, p: nat)
    requires 0 < p <= 16 && n != 0 && n != M - 1 && ScanOk(n, s, p) && s.start < p
    requires s.value != KindAt(n, p) && !s.value.Mixed?
    ensures var t := ScanStep(n, s, p);
            Recorded(n, t.long1) && Recorded(n, t.long2) && t.long2.size <= t.long1.size && StartOk(n, t)
  {
    hide KindAt, Recorded;
    EndIsRun(n, s, p);
    hide Ended;
    if s.start == 0 {
      forall j | 0 <= j < p ensures KindOn(n, j) == s.value { assert j % 16 == j; }
      if p == 16 { NotAllAlike(n, s.value); }
    }
  }

  /** What is noted stays noted when a string is recorded, and so is what lies in that string. */
  lemma RecordNotes(s: Scan, r: Str, a: nat, size: nat)
    requires s.long2.size <= s.long1.size
    requires Noted(s, a, size) || (Inside(a, size, r) && size <= r.size)
    ensures Noted(Record(s, r.pos, r.size, r.value), a, size)
  {
  }

  lemma EndNotes(n: Word, s: Scan, p: nat)
    requires 0 < p < 16 && n != 0 && n != M - 1 && ScanOk(n, s, p) && AllNoted(n, s) && s.start < p
    requires s.value != KindAt(n, p) && !s.value.Mixed?
    ensures AllNoted(n, ScanStep(n, s, p))
  {
    hide KindAt;
    EndIsRun(n, s, p);
    var t, r := ScanStep(n, s, p), Ended(n, s, p);
    hide Recorded, EndString;
    forall a: nat, size: nat, value | IsRun(n, a, size, value) && 0 < size && a + size <= p && !Held(n, t, a)
      ensures Noted(t, a, size)
    {
      if a < s.start { NotAcross(n, s, p, a, size, value); }
      RecordNotes(s, r, a, size);
    }
  }

  /** A run does not cross the place where a string begins. */
  lemma NotAcross(n: Word, s: Scan, p: nat, a: nat, size: nat, value: Kind)
    requires ScanOk(n, s, p) && IsRun(n, a, size, value) && 0 < size && a < s.start < p <= 16
    ensures a + size <= s.start
  {
    hide KindAt;
    assert a + size > s.start ==> KindOn(n, s.start - 1) == value && KindOn(n, s.start) == value;
  }

  /** After the last pair every run, going round or not, is noted. */
  lemma LongestStrings(n: Word)
    requires n != 0 && n != M - 1
    ensures var s := ScanTo(n, 17);
            && Recorded(n, s.long1) && Recorded(n, s.long2)
            && forall a: nat, size: nat, value :: IsRun(n, a, size, value) && 0 < size ==> Noted(s, a, size)
  {
    hide KindAt, ScanStep, IsRun, Recorded, Noted, ScanOk;
    ScanSound(n, 16);
    ScanSound(n, 17);
    assert ScanOk(n, ScanTo(n, 17), 17) ==> Recorded(n, ScanTo(n, 17).long1) && Recorded(n, ScanTo(n, 17).long2) by {
      RecordedIn(n, ScanTo(n, 17), 17);
    }
    forall a: nat, size: nat, value | IsRun(n, a, size, value) && 0 < size ensures Noted(ScanTo(n, 17), a, size) {
      LastNotes(n, ScanTo(n, 16), a, size, value);
    }
  }

  lemma RecordedIn(n: Word, s: Scan, p: nat)
    ensures ScanOk(n, s, p) ==> Recorded(n, s.long1) && Recorded(n, s.long2)
  {
  }

  lemma LastNotes(n: Word, s: Scan, a: nat, size: nat, value: Kind)
    requires n != 0 && n != M - 1 && ScanOk(n, s, 16) && AllNoted(n, s) && s.start < 16
    requires IsRun(n, a, size, value) && 0 < size
    ensures Noted(ScanStep(n, s, 16), a, size)
  {
    hide KindOf, Pair;
    assert KindOn(n, a) == value;
    if s.value.Mixed? {
      LastIsMixed(n, s, a, size, value);
    } else {
      EndIsRun(n, s, 16);
      var r := Ended(n, s, 16);
      hide Recorded, EndString;
      if a + size > 16 || a >= s.start || Held(n, s, a) { LastInside(n, s, a, size, value); }
      else { NotAcross(n, s, 16, a, size, value); }
      RecordNotes(s, r, a, size);
    }
  }

  /** When bit 31 belongs to no string, every run was noted before. */
  lemma LastIsMixed(n: Word, s: Scan, a: nat, size: nat, value: Kind)
    requires ScanOk(n, s, 16) && AllNoted(n, s) && s.start < 16 && s.value.Mixed?
    requires IsRun(n, a, size, value) && 0 < size
    ensures Noted(ScanStep(n, s, 16), a, size)
  {
    hide KindAt;
    assert KindAt(n, 15) == Mixed;
    assert a + size > 15 && a <= 15 ==> KindOn(n, 15) == value;
    assert KindOn(n, a + size - 1) == value;
  }

  /** A run that reaches bit 31, or begins below a string that does, lies in the last string. */
  lemma LastInside(n: Word, s: Scan, a: nat, size: nat, value: Kind)
    requires n != 0 && n != M - 1 && ScanOk(n, s, 16) && s.start < 16 && !s.value.Mixed?
    requires IsRun(n, a, size, value) && 0 < size
    requires a + size > 16 || a >= s.start || Held(n, s, a)
    ensures Inside(a, size, Ended(n, s, 16)) && size <= Ended(n, s, 16).size
  {
    hide KindAt;
    assert KindOn(n, a) == value;
    assert s.start > 0 by {
      if s.start == 0 { NotAllAlike(n, s.value); }
    }
    if a + size > 16 {
      assert KindOn(n, 15) == value && KindOn(n, 16) == value;
      if a < s.start { NotAcross(n, s, 16, a, size, value); }
      assert s.startValue == value;
      assert a + size - 16 > s.startSize ==> KindOn(n, s.startSize + 16) == value;
    } else if a < s.start {
      assert KindOn(n, a) == s.startValue;
      assert a + size > s.startSize ==> KindOn(n, s.startSize) == value;
    }
  }

  /**
   Of two strings of the same length the later one is kept: the one that ends with bit 31 only
   yields to a longer one.
   */
  lemma LaterKept(n: Word, a: nat, size: nat)
    requires n != 0 && n != M - 1 && IsRun(n, a, size, KindAt(n, 15)) && a + size >= 16 && 0 < size
    ensures ScanTo(n, 17).long1.value == KindAt(n, 15) || size < ScanTo(n, 17).long1.size
  {
    hide KindAt, ScanStep, IsRun;
    ScanSound(n, 16);
    LaterKeptAt(n, ScanTo(n, 16), a, size);
  }

  lemma LaterKeptAt(n: Word, s: Scan, a: nat, size: nat)
    requires n != 0 && n != M - 1 && ScanOk(n, s, 16) && s.start < 16
    requires IsRun(n, a, size, KindAt(n, 15)) && a + size >= 16 && 0 < size
    ensures ScanStep(n, s, 16).long1.value == KindAt(n, 15) || size < ScanStep(n, s, 16).long1.size
  {
    hide KindOf, Pair;
    assert s.value == KindAt(n, 15);
    EndIsRun(n, s, 16);
    assert KindOn(n, 15) == s.value;
    if a < s.start && a + size == 16 { NotAcross(n, s, 16, a, size, s.value); }
    LastInside(n, s, a, size, s.value);
  }

  /** What the first instruction leaves in the register. */
  function FirstValue(f: First): Word { if f.op == MVN then Not(f.k) else f.k }

  /** Every chosen chunk fits an immediate field. */
  lemma FirstEncodable(n: Word)
    requires n != M - 1
    ensures EightBits(ChooseFirst(n).k).Some?
  {
    hide EightBits, Window, ScanTo, KindAt, Scale, EndOf, Not, Wrap, Recorded, ScanOk;
    var s := ScanTo(n, 17);
    WindowEncodable(Not(n), EndOf(s.long1));
    WindowEncodable(n, EndOf(s.long1));
    WindowEncodable(n, if s.startValue.ZeroPairs? then s.startSize % 16 else 0);
    var ones := if s.long2.value.OnePairs? then s.long2 else s.long1;
    var next := EndOf(ones);
    if ones.value.OnePairs? && next != 0 {
      AboveOnes(n, ones);
      NotOnes(n, next);
      BumpedEncodable(n, next);
      WrapSmall(Window(n, next) + Scale(1, next));
    }
  }

  /** Above a recorded string of 11s the pair is not 11. */
  lemma AboveOnes(n: Word, r: Str)
    requires n != M - 1 && (r == ScanTo(n, 17).long1 || r == ScanTo(n, 17).long2) && r.value.OnePairs?
    ensures KindAt(n, EndOf(r)) != OnePairs
  {
    hide ScanTo, KindAt, ScanOk;
    if n == 0 {
      NoOnes(EndOf(r));
    } else {
      LongestStrings(n);
    }
  }

  lemma {:induction false} NoOnes(p: nat)
    ensures Above(0, p) == 0 && KindAt(0, p) != OnePairs
  {
    if p > 0 { NoOnes(p - 1); }
  }

  lemma WrapSmall(i: int)
    requires 0 <= i < M
    ensures Wrap(i) == i
  {
  }

  /** What is added after the chunk is what the chunk falls short by. */
  lemma FirstAddsUp(n: Word)
    ensures ChooseFirst(n).op == MOV || ChooseFirst(n).op == MVN
    ensures Wrap(FirstValue(ChooseFirst(n)) + ChooseFirst(n).remainder) == n
  {
    hide Window, ScanTo, KindAt, Scale, EndOf, Wrap;
    var f := ChooseFirst(n);
    Shortfall(FirstValue(f), n);
    assert f.remainder == Wrap(n - FirstValue(f));
  }

  lemma Shortfall(v: Word, n: Word)
    ensures Wrap(v + Wrap(n - v)) == n
  {
  }

  lemma NotOnes(n: Word, p: nat)
    requires p < 16 && KindAt(n, p) != OnePairs
    ensures Pair(n, p) != 3
  {
  }

  // ---- the symmetric form: h + rotated h ----

  /** n & (0xffff << 2c) when `wide`, else n & (0xff00ff << 2c). */
  function Half(n: Word, wide: bool, c: nat): int
  {
    var t := Above(n, c);
    Scale(if wide then t % 0x1_0000 else t % 256 + t / 0x1_0000 % 256 * 0x1_0000, c)
  }

  lemma HalfFits(n: Word, wide: bool, c: nat)
    ensures 0 <= Half(n, wide, c) <= n
  {
    hide Above, Scale;
    var h, l := SplitWord(n, c);
    var part := if wide then h % 0x1_0000 else h % 256 + h / 0x1_0000 % 256 * 0x1_0000;
    assert part <= h;
    ScaleNat(part, c);
    if part < h { ScaleLess(part, h, c); }
  }

  datatype Symmetry = Symmetry(half: Word, amount: nat)

  /** The first rotation amount below `limit` that carries the rest of n onto its half. */
  function FindRotation(n: Word, h: Word, amount: nat, limit: nat): (s: Option<Symmetry>)
    requires h <= n && 1 <= amount <= limit <= 32
    ensures s.Some? ==> s.value.half == h && 1 <= s.value.amount < limit && h == Ror(n - h, s.value.amount)
    decreases limit - amount
  {
    if amount == limit then None
    else if h == Ror(n - h, amount) then Some(Symmetry(h, amount))
    else FindRotation(n, h, amount + 1, limit)
  }

  /** The search of symmetricload, for one of its two masks, from position c on. */
  function FindSymmetry(n: Word, wide: bool, c: nat): (s: Option<Symmetry>)
    requires c <= if wide then 8 else 4
    ensures s.Some? ==> s.value.half <= n && 1 <= s.value.amount < 32
    ensures s.Some? ==> s.value.half == Ror(n - s.value.half, s.value.amount)
    decreases 8 - c
  {
    HalfFits(n, wide, c);
    if c == (if wide then 8 else 4) then None
    else
      var s := FindRotation(n, Half(n, wide, c), 1, if wide then 32 else 16);
      if s.Some? then s else FindSymmetry(n, wide, c + 1)
  }

  function Symmetric(n: Word): (s: Option<Symmetry>)
    ensures s.Some? ==> s.value.half <= n && 1 <= s.value.amount < 32
    ensures s.Some? ==> s.value.half == Ror(n - s.value.half, s.value.amount)
  {
    var wide := FindSymmetry(n, true, 0);
    if wide.Some? then wide else FindSymmetry(n, false, 0)
  }

  lemma {:induction false} RorAdd(x: Word, j: nat, k: nat)
    ensures Ror(x, j + k) == Ror(Ror(x, j), k)
  {
    if k > 0 { RorAdd(x, j, k - 1); }
  }

  lemma {:induction false} RorIsPairs(x: Word, k: nat)
    ensures Ror(x, 2 * k) == RorPairs(x, k)
  {
    if k > 0 {
      RorIsPairs(x, k - 1);
      var y := Ror(x, 2 * (k - 1));
      assert Ror(x, 2 * k - 1) == y / 2 + (y % 2) * TOP;
      TwoRor(y);
    }
  }

  lemma TwoRor(y: Word)
    ensures var z := y / 2 + (y % 2) * TOP; z / 2 + (z % 2) * TOP == Ror2(y)
  {
    var q, d0, d1 := y / 4, y % 2, y / 2 % 2;
    assert y % 4 == 2 * d1 + d0;
    assert y / 2 == 2 * q + d1;
  }

  /** A whole turn by single places. */
  lemma RorFull(x: Word)
    ensures Ror(x, 32) == x
  {
    RorIsPairs(x, 16);
    RolRorPairs(x, 16);
    RolPairsFull(RorPairs(x, 16));
  }

  lemma {:induction false} RorZero(k: nat)
    ensures Ror(0, k) == 0
  {
    if k > 0 { RorZero(k - 1); }
  }

  /** The half and its rotation together are n, and the half is smaller than n. */
  lemma SymmetryAdds(n: Word, s: Symmetry)
    requires n > 0 && s.half <= n && 1 <= s.amount < 32 && s.half == Ror(n - s.half, s.amount)
    ensures s.half + Ror(s.half, 32 - s.amount) == n
    ensures s.half < n
  {
    hide Ror;
    RorAdd(n - s.half, s.amount, 32 - s.amount);
    RorFull(n - s.half);
    RorZero(s.amount);
  }

  // ---- the emitted code ----

  /** The one instruction that builds n from known registers. */
  function FoundCode(r: Reg, f: Found, s: bool): Code
    requires !f.NotFound? && !f.Negated?
  {
    match f
    case Inverted(q, sh) => [Data(AL, MVN, s, r, 0, Shift(q, sh))]
    case Orred(q, sh) => [Data(AL, ORR, s, r, q, Shift(q, sh))]
    case KAdded(q, op, k) => [Data(AL, op, s, r, q, k)]
    case RegPair(q, op, rm, sh) => [Data(AL, op, s, r, q, Shift(rm, sh))]
    case Exact(q, sh) =>
      if q == r && sh.amount == 0 then [] else [Data(AL, MOV, s, r, 0, Shift(q, sh))]
  }

  function LoadCode(r: Reg, n: Word, s: bool, known: Known): Code
    decreases n
  {
    hide EightBits, RegisterContainingValue, ChooseFirst, Symmetric, FoundCode, Denotes;
    var direct, inverse := EightBits(n), EightBits(Not(n));
    if direct.Some? then [Data(AL, MOV, s, r, 0, direct.value)]
    else if inverse.Some? then [Data(AL, MVN, s, r, 0, inverse.value)]
    else
      var f := RegisterContainingValue(known, n, LOAD_ASK);
      LookupSound(known, n, LOAD_ASK);
      if !f.NotFound? then FoundCode(r, f, s)
      else
        var first := ChooseFirst(n);
        LoadCases(n);
        var sym := if EightBits(first.remainder).None? && EightBits(Neg(first.remainder)).None? then Symmetric(n)
            else None;
        if sym.Some? then
          LoadCode(r, sym.value.half, false, known) + [Data(AL, ADD, s, r, r, Shifted(r, ROR, 32 - sym.value.amount))]
        else
          [Data(AL, first.op, false, r, 0, EightBits(first.k).value)]
          + AddCode(r, r, first.remainder, AL, s, known[r := None])
  }

  lemma LoadCases(n: Word)
    requires EightBits(n).None? && EightBits(Not(n)).None?
    ensures n != M - 1 && n > 0
    ensures EightBits(ChooseFirst(n).k).Some?
    ensures Symmetric(n).Some? ==> Symmetric(n).value.half < n
  {
    hide EightBits, ChooseFirst, Symmetric;
    ZeroFits(n);
    ZeroFits(Not(n));
    FirstEncodable(n);
    if Symmetric(n).Some? { SymmetryAdds(n, Symmetric(n).value); }
  }

  // ---- what the code computes ----

  /** Flags set by a result are about that result. */
  lemma FlagsOfResult(op: Op, a: Word, b: Word, carry: bool, f: Flags)
    requires !Compares(op)
    ensures ResultFlags(op, a, b, carry, f).z == (Result(op, a, b) == 0)
    ensures ResultFlags(op, a, b, carry, f).n == (Result(op, a, b) >= TOP)
  {
    hide And, Eor, Orr, Bic, Pow2;
  }

  /** One instruction whose result is n. */
  lemma OneGives(st: State, op: Op, r: Reg, q: Reg, o: Operand, s: bool, n: Word)
    requires !Compares(op) && Result(op, st.regs[q], OperandValue(st.regs, o)) == n
    ensures var end := Run([Data(AL, op, s, r, q, o)], st);
            Loads(st, end, r, n, s)
  {
    hide Result, OperandValue, ResultFlags, ShifterCarry, ExecTransfer, ExecBlock;
    RunOne(Data(AL, op, s, r, q, o), st);
    FlagsOfResult(op, st.regs[q], OperandValue(st.regs, o), ShifterCarry(st.regs, o, st.flags.c), st.flags);
  }

  /** r receives n; with s the flags tell its sign and whether it is 0, otherwise nothing else changes. */
  ghost predicate Loads(st: State, end: State, r: Reg, n: Word, s: bool)
  {
    && end.regs == st.regs[r := n]
    && end.mem == st.mem
    && (if s then end.flags.z == (n == 0) && end.flags.n == (n >= TOP) else end.flags == st.flags)
  }

  lemma ResultMvn(x: Word, y: Word)
    ensures Result(MVN, x, y) == Not(y) && Result(ADD, x, y) == Wrap(x + y)
  {
  }

  lemma FoundLoads(st: State, r: Reg, f: Found, s: bool, n: Word, known: Known)
    requires !f.NotFound? && !f.Negated? && Agrees(known, st.regs) && Denotes(f, known, n)
    ensures Loads(st, Run(FoundCode(r, f, s), st), r, n, s && FoundCode(r, f, s) != [])
  {
    hide Run, Result, ShiftBy, Agrees, Denotes, ImmValue;
    MeaningOfDenotes(f, known, n, st.regs);
    match f
    case Inverted(q, sh) =>
      ResultMvn(st.regs[0], Apply(sh, st.regs[q]));
      OneGives(st, MVN, r, 0, Shift(q, sh), s, n);
    case Orred(q, sh) =>
      OneGives(st, ORR, r, q, Shift(q, sh), s, n);
    case KAdded(q, op, k) =>
      DenotesAdded(f, known, n);
      OneGives(st, op, r, q, k, s, n);
    case RegPair(q, op, rm, sh) =>
      DenotesPair(f, known, n);
      OneGives(st, op, r, q, Shift(rm, sh), s, n);
    case Exact(q, sh) =>
      if q == r && sh.amount == 0 {
        NoShift(sh.kind, st.regs[q]);
        RunNone(st);
        assert st.regs[r := n] == st.regs;
      } else {
        ResultIs(st.regs[0], Apply(sh, st.regs[q]));
        OneGives(st, MOV, r, 0, Shift(q, sh), s, n);
      }
  }

  lemma NothingToDo(r: Reg, f: Found, s: bool, known: Known, n: Word)
    requires !f.NotFound? && !f.Negated? && Denotes(f, known, n) && FoundCode(r, f, s) == []
    ensures known[r] == Some(n)
  {
    hide ShiftBy, Result, ImmValue;
    NoShift(f.shift.kind, known[f.r].value);
  }

  lemma NoShift(kind: ShiftKind, x: Word)
    ensures ShiftBy(kind, x, 0) == x
  {
  }

  lemma DenotesAdded(f: Found, known: Known, n: Word)
    requires f.KAdded? && Denotes(f, known, n)
    ensures f.op == ADD || f.op == SUB
  {
  }

  /** A comparison never answers a request for a register pair. */
  lemma DenotesPair(f: Found, known: Known, n: Word)
    requires f.RegPair? && Denotes(f, known, n)
    ensures !Compares(f.op)
  {
    hide Result;
  }

  lemma LoadsThenAdds(st: State, mid: State, end: State, r: Reg, v: Word, d: Word, s: bool)
    requires Loads(st, mid, r, v, false) && Adds(mid, end, r, r, d, s)
    ensures Loads(st, end, r, Wrap(v + d), s)
  {
  }

  lemma AgreesAfter(known: Known, regs: Regs, r: Reg, v: Word)
    requires Agrees(known, regs)
    ensures Agrees(known[r := None], regs[r := v])
  {
  }

  /** The first instruction leaves its value in r. */
  lemma ChunkStep(st: State, r: Reg, n: Word)
    requires EightBits(ChooseFirst(n).k).Some?
    ensures var f := ChooseFirst(n);
            Loads(st, Run([Data(AL, f.op, false, r, 0, EightBits(f.k).value)], st), r, FirstValue(f), false)
  {
    hide Run, Result, EightBits, ChooseFirst, OperandValue, ImmValue, Loads, Not;
    FirstAddsUp(n);
    var f := ChooseFirst(n);
    EightBitsSound(f.k);
    ImmOperand(st.regs, EightBits(f.k).value);
    ResultMvn(st.regs[0], f.k);
    ResultIs(st.regs[0], f.k);
    OneGives(st, f.op, r, 0, EightBits(f.k).value, false, FirstValue(f));
  }

  /** The chunk and then the rest. */
  lemma ChunkLoads(st: State, r: Reg, n: Word, s: bool, known: Known)
    requires n != M - 1 && Agrees(known, st.regs)
    ensures EightBits(ChooseFirst(n).k).Some?
    ensures var f := ChooseFirst(n);
            Loads(st, Run([Data(AL, f.op, false, r, 0, EightBits(f.k).value)]
                          + AddCode(r, r, f.remainder, AL, s, known[r := None]), st), r, n, s)
  {
    hide Run, EightBits, ChooseFirst, Adds, AddCode, Agrees, ReadsBack, FirstValue, Wrap;
    FirstEncodable(n);
    FirstAddsUp(n);
    ChunkStep(st, r, n);
    var f := ChooseFirst(n);
    var i := Data(AL, f.op, false, r, 0, EightBits(f.k).value);
    var mid := Run([i], st);
    assert mid.regs == st.regs[r := FirstValue(f)];
    hide Loads;
    AgreesAfter(known, st.regs, r, FirstValue(f));
    UnknownNotReadBack(r, f.remainder, known[r := None]);
    AddCorrect(r, r, f.remainder, s, known[r := None], mid);
    var rest := AddCode(r, r, f.remainder, AL, s, known[r := None]);
    RunAppend([i], rest, st);
    LoadsThenAdds(st, mid, Run(rest, mid), r, FirstValue(f), f.remainder, s);
  }

  /**
   Executing the sequence leaves n in r, for every constant and through every branch.  The
   flags asked for are set unless r is known to hold n already: then there is no code.
   */
  lemma {:induction false} LoadCorrect(r: Reg, n: Word, s: bool, known: Known, st: State)
    requires Agrees(known, st.regs)
    ensures Loads(st, Run(LoadCode(r, n, s, known), st), r, n, s && LoadCode(r, n, s, known) != [])
    ensures LoadCode(r, n, s, known) == [] ==> known[r] == Some(n)
    decreases n
  {
    hide Run, Result, EightBits, ChooseFirst, Symmetric, AddCode, Agrees, OperandValue, RegisterContainingValue,
        FoundCode, Denotes;
    var f := RegisterContainingValue(known, n, LOAD_ASK);
    LookupSound(known, n, LOAD_ASK);
    if EightBits(n).Some? {
      EightBitsSound(n);
      ImmOperand(st.regs, EightBits(n).value);
      ResultIs(st.regs[0], n);
      OneGives(st, MOV, r, 0, EightBits(n).value, s, n);
    } else if EightBits(Not(n)).Some? {
      EightBitsSound(Not(n));
      ImmOperand(st.regs, EightBits(Not(n)).value);
      ResultMvn(st.regs[0], Not(n));
      NegNot(n);
      OneGives(st, MVN, r, 0, EightBits(Not(n)).value, s, n);
    } else if !f.NotFound? {
      FoundLoads(st, r, f, s, n, known);
      if FoundCode(r, f, s) == [] { NothingToDo(r, f, s, known, n); }
    } else {
      LoadCases(n);
      var first := ChooseFirst(n);
      if EightBits(first.remainder).None? && EightBits(Neg(first.remainder)).None? && Symmetric(n).Some? {
        var y := Symmetric(n).value;
        LoadCorrect(r, y.half, false, known, st);
        SymmetryLoads(st, LoadCode(r, y.half, false, known), r, n, s, y);
      } else {
        ChunkLoads(st, r, n, s, known);
      }
    }
  }

  lemma SymmetryLoads(st: State, c: Code, r: Reg, n: Word, s: bool, y: Symmetry)
    requires n > 0 && y.half <= n && 1 <= y.amount < 32 && y.half == Ror(n - y.half, y.amount)
    requires Loads(st, Run(c, st), r, y.half, false)
    ensures Loads(st, Run(c + [Data(AL, ADD, s, r, r, Shifted(r, ROR, 32 - y.amount))], st), r, n, s)
  {
    hide Run, Result, Ror;
    SymmetryAdds(n, y);
    var mid := Run(c, st);
    var i := Data(AL, ADD, s, r, r, Shifted(r, ROR, 32 - y.amount));
    RunAppend(c, [i], st);
    ResultMvn(y.half, Ror(y.half, 32 - y.amount));
    OneGives(mid, ADD, r, r, Shifted(r, ROR, 32 - y.amount), s, n);
  }

  /** Recording the loaded value keeps the cache in step with the registers. */
  lemma LoadKeepsCache(r: Reg, n: Word, s: bool, known: Known, st: State)
    requires Agrees(known, st.regs)
    ensures Agrees(known[r := Some(n)], Run(LoadCode(r, n, s, known), st).regs)
  {
    hide Run, LoadCode;
    LoadCorrect(r, n, s, known, st);
  }

  /** Loading a constant is data processing only, so it can be encoded. */
  lemma {:induction false} LoadEncodable(r: Reg, n: Word, s: bool, known: Known)
    ensures AllEncodable(LoadCode(r, n, s, known))
    decreases n
  {
    hide EightBits, RegisterContainingValue, ChooseFirst, Symmetric, AddCode, Denotes, Encodable;
    var f := RegisterContainingValue(known, n, LOAD_ASK);
    LookupSound(known, n, LOAD_ASK);
    forall i: Instr | i.Data? ensures Encodable(i) { DataEncodable(i); }
    if EightBits(n).None? && EightBits(Not(n)).None? && f.NotFound? {
      LoadCases(n);
      var first := ChooseFirst(n);
      var sym := if EightBits(first.remainder).None? && EightBits(Neg(first.remainder)).None? then Symmetric(n)
          else None;
      if sym.Some? {
        LoadEncodable(r, sym.value.half, false, known);
      } else {
        AddCodeData(r, r, first.remainder, AL, s, known[r := None]);
      }
    }
  }

  lemma DataEncodable(i: Instr)
    ensures i.Data? ==> Encodable(i)
  {
  }

  // ---- as the source writes it ----

  /** The scan over the pairs of n, updating the two longest strings in place. */
  method ScanPairs(n: Word) returns (s: Scan)
    ensures s == ScanTo(n, 17)
  {
    var long1, long2 := NO_STRING, NO_STRING;
    var startSize, startValue, value, start := 0, Mixed, Mixed, 0;
    var p := 0;
    while p <= 16
      invariant p <= 17 && start <= p
      invariant ScanTo(n, p) == Scan(long1, long2, startSize, startValue, value, start)
      decreases 17 - p
    {
      var newValue := KindAt(n, p);
      if value != newValue {
        if !value.Mixed? {
          var size: int := p - start;
          if start == 0 {
            startSize, startValue := p - start, value;
            if KindAt(n, 15) == value { size := -1; }
          }
          if p == 16 && value == startValue { size := size + startSize; }
          if size >= long1.size {
            long1, long2 := Str(start, size, value), long1;
          } else if size >= long2.size {
            long2 := Str(start, size, value);
          }
        }
        value, start := newValue, p;
      }
      p := p + 1;
    }
    s := Scan(long1, long2, startSize, startValue, value, start);
  }

  /** Choose the chunk to load from the result of the scan. */
  method PickFirst(n: Word) returns (first: First)
    ensures first == ChooseFirst(n)
  {
    hide Window, ScanTo, Scale;
    var s := ScanPairs(n);
    var next := (s.long1.pos + s.long1.size) % 16;
    if s.long1.value.OnePairs? && s.long1.size > 4 && (s.long2.value.OnePairs? || s.long1.pos == 0) {
      var k := Window(Not(n), next);
      return First(MVN, k, Wrap(n - Not(k)));
    }
    if (s.long1.value.OnePairs? && s.long1.size > 4) || (s.long2.value.OnePairs? && s.long2.size > 4) {
      if s.long2.value.OnePairs? { next := (s.long2.pos + s.long2.size) % 16; }
      var k: Word;
      if next != 0 {
        k := Wrap(Window(n, next) + Scale(1, next));
      } else {
        if s.startValue.ZeroPairs? { next := next + s.startSize; }
        k := Window(n, next % 16);
      }
      return First(MOV, k, Wrap(n - k));
    }
    var k := Window(n, next);
    return First(MOV, k, Wrap(n - k));
  }

  method LoadIntegerI(r: Reg, n: Word, s: bool, table: RegisterValues, out: InstrBuffer)
    requires out.Valid() && out.len + |LoadCode(r, n, s, table.known)| <= out.slots.Length
    modifies out`len, out.slots, table
    ensures out.Valid() && out.Contents() == old(out.Contents()) + LoadCode(r, n, s, old(table.known))
    ensures table.known == old(table.known) || table.known == old(table.known)[r := None]
    decreases n
  {
    hide AddCode, EightBits, RegisterContainingValue, Symmetric, Denotes, ChooseFirst, Not, Neg, Ror, Agrees;
    var known := table.known;
    var packed := FindEightBits(n);
    if packed.Some? {
      out.Emit(Data(AL, MOV, s, r, 0, packed.value));
      return;
    }
    packed := FindEightBits(Not(n));
    if packed.Some? {
      out.Emit(Data(AL, MVN, s, r, 0, packed.value));
      return;
    }
    var f := RegisterContainingValue(known, n, LOAD_ASK);
    LookupSound(known, n, LOAD_ASK);
    if !f.NotFound? {
      if !(f.Exact? && f.r == r && f.shift.amount == 0) { out.Emit(FoundCode(r, f, s)[0]); }
      return;
    }
    LoadCases(n);
    var first := PickFirst(n);
    var short := FindEightBits(first.remainder);
    var minus := FindEightBits(Neg(first.remainder));
    if short.None? && minus.None? && Symmetric(n).Some? {
      var y := Symmetric(n).value;
      LoadIntegerI(r, y.half, false, table, out);
      out.Emit(Data(AL, ADD, s, r, r, Shifted(r, ROR, 32 - y.amount)));
    } else {
      packed := FindEightBits(first.k);
      out.Emit(Data(AL, first.op, false, r, 0, packed.value));
      table.Kill(r);
      ArmAddInteger(r, r, first.remainder, AL, s, table.known, out);
    }
  }
}
