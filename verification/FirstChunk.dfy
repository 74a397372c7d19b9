/**
 What the first instruction of a split load takes away, pair by pair (load_integer_i in
 arm/gen.c): the strings that it uses are then clear, and so is the byte above the longest.
 */
module FirstChunk {
  import opened Words
  import opened Arm
  import opened Immediates
  import opened LoadConstant

  // ---- the pairs of a rotated word ----

  /** The low pairs of a sum are those of its low part. */
  lemma {:induction false} PairLow(h: nat, l: nat, k: nat, p: nat)
    requires p < k && Scale(h, k) + l < M
    ensures Pair(Scale(h, k) + l, p) == Pair(l, p)
    decreases k
  {
    var x, y := Scale(h, k) + l, Scale(h, k - 1);
    assert x == 4 * y + l && x / 4 == y + l / 4 && x % 4 == l % 4;
    if p > 0 { PairLow(h, l / 4, k - 1, p - 1); }
  }

  lemma PairBelow(x: Word, p: nat)
    requires p < 15
    ensures Pair(x % 0x4000_0000, p) == Pair(x, p)
  {
    hide Pair, Scale;
    TopScale(x / 0x4000_0000, 1);
    PairLow(x / 0x4000_0000, x % 0x4000_0000, 15, p);
  }

  lemma PairUp(x: Word, p: nat)
    requires p > 0
    ensures Pair(x, p) == Pair(x / 4, p - 1)
  {
  }

  lemma TopPair(x: Word)
    ensures Pair(x, 15) == x / 0x4000_0000
  {
    hide Scale, Above;
    var h, l := SplitWord(x, 15);
    TopScale(h, 1);
    TopScale(1, 1);
    DivUnique(x, 0x4000_0000, h, l);
  }

  /** Turning by one pair moves each pair up, and the top one to the bottom. */
  lemma PairTurned(x: Word, p: nat)
    requires p < 16
    ensures Pair(Rol2(x), p) == Pair(x, if p == 0 then 15 else p - 1)
  {
    hide Pair;
    var h, l := x / 0x4000_0000, x % 0x4000_0000;
    TurnedParts(x, h, l);
    TopPair(x);
    if p > 0 {
      PairUp(Rol2(x), p);
      PairBelow(x, p - 1);
    } else {
      LowestPair(Rol2(x));
    }
  }

  lemma LowestPair(x: Word)
    ensures Pair(x, 0) == x % 4
  {
  }

  lemma TurnedParts(x: Word, h: nat, l: nat)
    requires h == x / 0x4000_0000 && l == x % 0x4000_0000
    ensures Rol2(x) == 4 * l + h && Rol2(x) / 4 == l && Rol2(x) % 4 == h && h < 4
  {
  }

  lemma {:induction false} PairRolled(x: Word, e: nat, p: nat)
    requires e <= 16 && p < 16
    ensures Pair(RolPairs(x, e), p) == Pair(x, (p + 16 - e) % 16)
  {
    hide Pair, Rol2;
    if e > 0 {
      PairTurned(RolPairs(x, e - 1), p);
      PairRolled(x, e - 1, if p == 0 then 15 else p - 1);
    }
  }

  /** Place p in the window from pair e on. */
  predicate Covers(e: nat, p: nat) { (p + 16 - e) % 16 < 4 }

  lemma {:induction false} PairOfByte(y: Word, j: nat)
    ensures Pair(y % 256, j) == if j < 4 then Pair(y, j) else 0
  {
    if j < 4 {
      ScaleByte(y / 256, 0);
      PairLow(y / 256, y % 256, 4, j);
    } else {
      NothingUp(y % 256, 4, j);
    }
  }

  lemma {:induction false} NothingUp(b: nat, k: nat, j: nat)
    requires b < Scale(1, k) && b < M && k <= j
    ensures Pair(b, j) == 0
  {
    if j > 0 { NothingUp(b / 4, if k > 0 then k - 1 else 0, j - 1); }
  }

  /** A window holds the pairs it covers and nothing else. */
  lemma PairOfWindow(n: Word, e: nat, p: nat)
    requires e < 16 && p < 16
    ensures Pair(Window(n, e), p) == if Covers(e, p) then Pair(n, p) else 0
  {
    hide Pair, RolPairs, RorPairs;
    var y := RorPairs(n, e);
    RolRorPairs(n, e);
    PairRolled(y % 256, e, p);
    PairRolled(y, e, p);
    PairOfByte(y, (p + 16 - e) % 16);
  }

  /** Taking pairs out of a word leaves the others. */
  lemma {:induction false} PairsTaken(n: Word, w: Word, k: nat)
    requires n < Scale(1, k) && w < Scale(1, k)
    requires forall p :: 0 <= p < k ==> Pair(w, p) == 0 || Pair(w, p) == Pair(n, p)
    ensures w <= n && forall p :: 0 <= p < k ==> Pair(n - w, p) == Pair(n, p) - Pair(w, p)
    decreases k
  {
    if k > 0 {
      LowestPair(n);
      LowestPair(w);
      forall p | 0 <= p < k - 1 ensures Pair(w / 4, p) == 0 || Pair(w / 4, p) == Pair(n / 4, p) {
        PairUp(w, p + 1);
        PairUp(n, p + 1);
      }
      PairsTaken(n / 4, w / 4, k - 1);
      assert Pair(w, 0) == 0 || Pair(w, 0) == Pair(n, 0);
      Quarters(n, w);
      LowestPair(n - w);
      forall p | 0 < p < k ensures Pair(n - w, p) == Pair(n, p) - Pair(w, p) {
        PairUp(w, p);
        PairUp(n, p);
        PairUp(n - w, p);
      }
    }
  }

  lemma Quarters(n: Word, w: Word)
    requires w / 4 <= n / 4 && (w % 4 == 0 || w % 4 == n % 4)
    ensures w <= n && (n - w) / 4 == n / 4 - w / 4 && (n - w) % 4 == n % 4 - w % 4
  {
  }

  /** y is x with the window from pair e on cleared. */
  predicate Cleared(x: Word, e: nat, y: int)
  {
    0 <= y < M && forall p :: 0 <= p < 16 ==> Pair(y, p) == if Covers(e, p) then 0 else Pair(x, p)
  }

  lemma WindowTaken(n: Word, e: nat)
    requires e < 16
    ensures Window(n, e) <= n && Cleared(n, e, n - Window(n, e))
  {
    hide Pair, Window, Scale, Covers;
    ScaleOfOne();
    forall p | 0 <= p < 16 ensures Pair(Window(n, e), p) == if Covers(e, p) then Pair(n, p) else 0 {
      PairOfWindow(n, e, p);
    }
    PairsTaken(n, Window(n, e), 16);
  }

  // ---- the choice ----

  /** A string of more than eight 1 bits. */
  predicate LongOnes(r: Str) { r.value.OnePairs? && r.size >= 5 }

  /**
   What the first instruction loads, for the two longest strings a and b of n.  If both are 1s, or
   a is and starts at bit 0, MVN leaves to be subtracted the complement of n without the byte above
   a.  If one is 1s, MOV of the byte above it and one more leaves, but for that one, n without the
   byte; at bit 0 the byte above the string of 0s that starts there is taken.  Otherwise n without
   the byte above a is left.
   */
  lemma FirstChoice(n: Word)
    ensures var s, f := ScanTo(n, 17), ChooseFirst(n);
            var a, b := s.long1, s.long2;
            if LongOnes(a) && (b.value.OnePairs? || a.pos == 0) then
              f.op == MVN && Cleared(Not(n), (a.pos + a.size) % 16, Neg(f.remainder))
            else if LongOnes(a) || LongOnes(b) then
              var e := if b.value.OnePairs? then (b.pos + b.size) % 16 else (a.pos + a.size) % 16;
              f.op == MOV &&
              if e != 0 then Cleared(n, e, Wrap(f.remainder + Scale(1, e)))
              else Cleared(n, if s.startValue.ZeroPairs? then s.startSize % 16 else 0, f.remainder)
            else f.op == MOV && Cleared(n, (a.pos + a.size) % 16, f.remainder)
  {
    hide Window, Cleared, Scale, ScanTo, Neg, Not, Wrap;
    var s := ScanTo(n, 17);
    var a, b := s.long1, s.long2;
    if LongOnes(a) && (b.value.OnePairs? || a.pos == 0) {
      WindowTaken(Not(n), EndOf(a));
      ComplementRest(n, Window(Not(n), EndOf(a)));
    } else if LongOnes(a) || LongOnes(b) {
      var e := EndOf(if b.value.OnePairs? then b else a);
      var start := if s.startValue.ZeroPairs? then s.startSize % 16 else 0;
      WindowTaken(n, e);
      WindowTaken(n, start);
      BumpedRest(n, Window(n, e), Scale(1, e));
      PlainRest(n, Window(n, start));
    } else {
      WindowTaken(n, EndOf(a));
      PlainRest(n, Window(n, EndOf(a)));
    }
  }

  lemma ComplementRest(n: Word, k: Word)
    requires k <= Not(n)
    ensures Neg(Wrap(n - Not(k))) == Not(n) - k
  {
  }

  lemma BumpedRest(n: Word, w: Word, u: int)
    requires w <= n
    ensures Wrap(Wrap(n - Wrap(w + u)) + u) == n - w
  {
  }

  lemma PlainRest(n: Word, w: Word)
    requires w <= n
    ensures Wrap(n - w) == n - w
  {
  }
}
