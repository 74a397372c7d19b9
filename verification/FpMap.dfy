/**
 The map from code addresses to frame-pointer offsets (obj_notefpdesc in armthumb/asd.c).

 A procedure's changes of offset become fragments.  A fragment holds a start address, an
 initial offset and a string of items, each a distance and a change: two bytes when both are
 small, and an escape of two zero bytes before four more when they are not.  An item that
 fits neither form starts a new fragment.
 */
module FpMap {

  type Byte = b: int | 0 <= b < 256

  /** One change of offset (FPList). */
  datatype Entry = Entry(addr: int, change: int)

  datatype Desc = Desc(startAddr: int, saveAddr: int, endAddr: int, initOffset: int, entries: seq<Entry>)

  /** `bytes` counts the item bytes in `data`, which is padded to a word multiple. */
  datatype Fragment = Fragment(codeStart: int, codeSize: int, saveAddr: int, initOffset: int, bytes: nat,
      data: seq<Byte>)

  datatype Item = Item(diff: int, change: int)

  const NO_SAVE: int := -1

  const HEADER: int := 24

  predicate Short(diff: int, change: int) { diff < 0x100 && -0x80 < change < 0x80 }

  predicate Long(diff: int, change: int) { diff < 0x1_0000 && -0x8000 < change < 0x8000 }

  /** How far an item gets on from `bytes` bytes; None starts a new fragment. */
  function Size(diff: int, change: int, bytes: nat): (n: nat)
  {
    if Short(diff, change) then if bytes + 4 >= 0x1_0000 - HEADER then 0 else 2
    else if Long(diff, change) then if bytes + 8 >= 0x1_0000 - HEADER then 0 else 6
    else 0
  }

  /** How many entries go into the fragment that starts at addr. */
  function Scan(es: seq<Entry>, addr: int, bytes: nat): (k: nat)
    ensures k <= |es|
    decreases |es|
  {
    if |es| == 0 then 0
    else
      var n := Size(es[0].addr - addr, es[0].change, bytes);
      if n == 0 then 0 else 1 + Scan(es[1..], es[0].addr, bytes + n)
  }

  function Low8(i: int): Byte { i % 256 }

  function High8(i: int): Byte { i / 256 % 256 }

  function Pair(i: int, little: bool): seq<Byte> { if little then [Low8(i), High8(i)] else [High8(i), Low8(i)] }

  function ItemBytes(diff: int, change: int, little: bool): (b: seq<Byte>)
    ensures |b| == if Short(diff, change) then 2 else 6
  {
    if Short(diff, change) then [Low8(diff), Low8(change)]
    else [0, 0] + Pair(diff, little) + Pair(change, little)
  }

  function Encoded(es: seq<Entry>, addr: int, little: bool): seq<Byte>
    decreases |es|
  {
    if |es| == 0 then []
    else ItemBytes(es[0].addr - addr, es[0].change, little) + Encoded(es[1..], es[0].addr, little)
  }

  function Total(es: seq<Entry>): int
    decreases |es|
  {
    if |es| == 0 then 0 else es[0].change + Total(es[1..])
  }

  function Padding(n: nat): seq<Byte> { seq((4 - n % 4) % 4, _ => 0) }

  function FragmentOf(es: seq<Entry>, addr: int, size: int, saveAddr: int, offset: int, little: bool): Fragment
  {
    var b := Encoded(es, addr, little);
    Fragment(addr, size, saveAddr, offset, |b|, b + Padding(|b|))
  }

  /** obj_notefpdesc; the entry that breaks a fragment is absorbed into the start of the next. */
  function Fragments(es: seq<Entry>, addr: int, saveAddr: int, offset: int, end: int, little: bool): seq<Fragment>
    decreases |es|
  {
    if |es| == 0 then []
    else
      var k := Scan(es, addr, 0);
      if k == |es| then [FragmentOf(es, addr, end - addr, saveAddr, offset, little)]
      else
        [FragmentOf(es[..k], addr, es[k].addr - addr, saveAddr, offset, little)]
        + Fragments(es[k + 1..], es[k].addr, NO_SAVE, offset + Total(es[..k]) + es[k].change, end, little)
  }

  function FragmentsOf(d: Desc, little: bool): seq<Fragment>
  {
    Fragments(d.entries, d.startAddr, d.saveAddr, d.initOffset, d.endAddr, little)
  }

  // ---- what the map means ----

  /** The offset in force at address a. */
  function OffsetAt(es: seq<Entry>, offset: int, a: int): int
    decreases |es|
  {
    if |es| == 0 then offset
    else OffsetAt(es[1..], offset + (if es[0].addr <= a then es[0].change else 0), a)
  }

  function SignedByte(b: Byte): int { if b >= 0x80 then b - 0x100 else b }

  function Unpair(b: seq<Byte>, little: bool): (i: int)
    requires |b| == 2
    ensures 0 <= i < 0x1_0000
  {
    var first: int, second: int := b[0], b[1];
    if little then first + 256 * second else second + 256 * first
  }

  function SignedPair(i: int): int { if i >= 0x8000 then i - 0x1_0000 else i }

  /** The reader of the table: items until the bytes run out. */
  function Decode(b: seq<Byte>, little: bool): seq<Item>
    decreases |b|
  {
    if |b| < 2 then []
    else if b[0] == 0 && b[1] == 0 then
      if |b| < 6 then []
      else [Item(Unpair(b[2..4], little), SignedPair(Unpair(b[4..6], little)))] + Decode(b[6..], little)
    else [Item(b[0], SignedByte(b[1]))] + Decode(b[2..], little)
  }

  function ItemOffset(items: seq<Item>, addr: int, offset: int, a: int): int
    decreases |items|
  {
    if |items| == 0 then offset
    else
      var at := addr + items[0].diff;
      ItemOffset(items[1..], at, offset + (if at <= a then items[0].change else 0), a)
  }

  /** The offset a reader computes at a from one fragment. */
  function ReadOffset(f: Fragment, a: int, little: bool): int
    requires f.bytes <= |f.data|
  {
    ItemOffset(Decode(f.data[..f.bytes], little), f.codeStart, f.initOffset, a)
  }

  function ItemsOf(es: seq<Entry>, addr: int): seq<Item>
    decreases |es|
  {
    if |es| == 0 then [] else [Item(es[0].addr - addr, es[0].change)] + ItemsOf(es[1..], es[0].addr)
  }

  /** Addresses do not decrease, from addr on. */
  predicate Ascending(es: seq<Entry>, addr: int)
    decreases |es|
  {
    |es| > 0 ==> addr <= es[0].addr && Ascending(es[1..], es[0].addr)
  }

  /** No change is nothing at no distance, which would read as an escape. */
  predicate Telling(es: seq<Entry>, addr: int)
    decreases |es|
  {
    |es| > 0 ==> !(es[0].addr == addr && es[0].change == 0) && Telling(es[1..], es[0].addr)
  }

  /** Every entry fits one of the two item forms. */
  predicate Fitting(es: seq<Entry>, addr: int)
    decreases |es|
  {
    |es| > 0 ==> Long(es[0].addr - addr, es[0].change) && Fitting(es[1..], es[0].addr)
  }

  // ---- one item ----

  lemma ShortBytes(diff: int, change: int)
    requires 0 <= diff && Short(diff, change)
    ensures Low8(diff) == diff && SignedByte(Low8(change)) == change
    ensures Low8(diff) == 0 && Low8(change) == 0 <==> diff == 0 && change == 0
  {
  }

  lemma PairBytes(i: int, little: bool)
    requires -0x8000 <= i < 0x1_0000
    ensures Unpair(Pair(i, little), little) == i % 0x1_0000
  {
  }

  /** Reading an item back. */
  lemma ItemReads(diff: int, change: int, little: bool, rest: seq<Byte>)
    requires 0 <= diff && Long(diff, change) && !(diff == 0 && change == 0)
    ensures Decode(ItemBytes(diff, change, little) + rest, little) == [Item(diff, change)] + Decode(rest, little)
  {
    hide Low8, High8, SignedByte, Unpair;
    var b := ItemBytes(diff, change, little) + rest;
    if Short(diff, change) {
      ShortBytes(diff, change);
      assert b[2..] == rest;
    } else {
      PairBytes(diff, little);
      PairBytes(change, little);
      assert b[2..4] == Pair(diff, little);
      assert b[4..6] == Pair(change, little);
      assert b[6..] == rest;
    }
  }

  /** Decoding what was encoded, in either byte order. */
  lemma {:induction false} ItemsRoundTrip(es: seq<Entry>, addr: int, little: bool)
    requires Ascending(es, addr) && Telling(es, addr) && Fitting(es, addr)
    ensures Decode(Encoded(es, addr, little), little) == ItemsOf(es, addr)
    decreases |es|
  {
    hide Decode, ItemBytes;
    if |es| == 0 {
      DecodeNothing(little);
    } else {
      ItemReads(es[0].addr - addr, es[0].change, little, Encoded(es[1..], es[0].addr, little));
      ItemsRoundTrip(es[1..], es[0].addr, little);
    }
  }

  lemma DecodeNothing(little: bool)
    ensures Decode([], little) == []
  {
  }

  /** A decoded item that changes nothing at no distance has been read from six zero bytes. */
  lemma {:induction false} ZeroItems(b: seq<Byte>, n: nat, little: bool)
    requires n <= |Decode(b, little)| && forall i :: 0 <= i < n ==> Decode(b, little)[i] == Item(0, 0)
    ensures 6 * n <= |b| && forall i :: 0 <= i < 6 * n ==> b[i] == 0
    decreases n
  {
    if n > 0 {
      ZeroItem(b, little);
      var rest := Decode(b[6..], little);
      assert Decode(b, little) == [Item(0, 0)] + rest;
      forall i | 0 <= i < n - 1 ensures rest[i] == Item(0, 0) { assert rest[i] == Decode(b, little)[i + 1]; }
      ZeroItems(b[6..], n - 1, little);
      forall i | 6 <= i < 6 * n ensures b[i] == 0 { assert b[i] == b[6..][i - 6]; }
    }
  }

  lemma ZeroItem(b: seq<Byte>, little: bool)
    requires |Decode(b, little)| > 0 && Decode(b, little)[0] == Item(0, 0)
    ensures 6 <= |b| && forall i :: 0 <= i < 6 ==> b[i] == 0
    ensures Decode(b, little) == [Item(0, 0)] + Decode(b[6..], little)
  {
  }

  /** How many entries at the start change nothing at no distance. */
  function Idle(es: seq<Entry>, addr: int): (n: nat)
    ensures n <= |es|
    decreases |es|
  {
    if |es| > 0 && es[0] == Entry(addr, 0) then 1 + Idle(es[1..], addr) else 0
  }

  lemma {:induction false} IdleBytes(es: seq<Entry>, addr: int, little: bool)
    ensures var n := Idle(es, addr);
            |Encoded(es, addr, little)| >= 2 * n && Encoded(es, addr, little)[2 * n..] == Encoded(es[n..], addr, little)
    decreases |es|
  {
    hide Encoded;
    var n := Idle(es, addr);
    if n > 0 {
      IdleBytes(es[1..], addr, little);
      assert es[1..][n - 1..] == es[n..];
      var b := Encoded(es[1..], addr, little);
      IdleFirst(es, addr, little);
      assert ([0, 0] + b)[2 * n..] == b[2 * (n - 1)..];
    }
  }

  lemma IdleFirst(es: seq<Entry>, addr: int, little: bool)
    requires |es| > 0 && es[0] == Entry(addr, 0)
    ensures Encoded(es, addr, little) == [0, 0] + Encoded(es[1..], addr, little)
    ensures ItemsOf(es, addr) == [Item(0, 0)] + ItemsOf(es[1..], addr)
  {
  }

  lemma {:induction false} IdleItems(es: seq<Entry>, addr: int)
    ensures var n := Idle(es, addr);
            && (n < |es| ==> es[n] != Entry(addr, 0))
            && |ItemsOf(es, addr)| >= n
            && (forall i :: 0 <= i < n ==> ItemsOf(es, addr)[i] == Item(0, 0))
            && ItemsOf(es, addr)[n..] == ItemsOf(es[n..], addr)
    decreases |es|
  {
    hide ItemsOf;
    var n := Idle(es, addr);
    if n > 0 {
      IdleItems(es[1..], addr);
      assert es[1..][n - 1..] == es[n..];
      IdleFirst(es, addr, true);
      assert ([Item(0, 0)] + ItemsOf(es[1..], addr))[n..] == ItemsOf(es[1..], addr)[n - 1..];
    }
  }

  lemma {:induction false} SuffixFits(es: seq<Entry>, addr: int)
    requires Ascending(es, addr) && Fitting(es, addr)
    ensures Ascending(es[Idle(es, addr)..], addr) && Fitting(es[Idle(es, addr)..], addr)
    decreases |es|
  {
    var n := Idle(es, addr);
    if n > 0 {
      SuffixFits(es[1..], addr);
      assert es[1..][n - 1..] == es[n..];
    }
  }

  /** An item with two zero bytes at its start is the long form; with six it is no item at all. */
  lemma LeadingZeros(diff: int, change: int, little: bool, rest: seq<Byte>)
    requires 0 <= diff && Long(diff, change) && !(diff == 0 && change == 0)
    ensures var b := ItemBytes(diff, change, little) + rest;
            && (b[0] == 0 && b[1] == 0 ==> |b| >= 6 && b[2..4] == Pair(diff, little) && b[4..6] == Pair(change, little))
            && (b[0] == 0 && b[1] == 0 && b[2] == 0 && b[3] == 0 ==>
                  diff == 0 && !(-0x80 < change < 0x80) && b[4..6] != [0, 0])
  {
    hide Low8, High8, Unpair;
    if Short(diff, change) { ShortBytes(diff, change); }
    PairBytes(diff, little);
    PairBytes(change, little);
    NothingPair(little);
    var b := ItemBytes(diff, change, little) + rest;
    if !Short(diff, change) {
      assert b[2..4] == Pair(diff, little);
      assert b[4..6] == Pair(change, little);
      if b[2] == 0 && b[3] == 0 { assert b[2..4] == [0, 0]; }
    }
  }

  lemma NothingPair(little: bool)
    ensures Unpair([0, 0], little) == 0
  {
  }

  /** A change of 0x80 or more either way cannot be read back from its two bytes alone. */
  lemma WideChange(change: int, little: bool, rest: seq<Byte>)
    requires -0x8000 < change < 0x8000 && !(-0x80 < change < 0x80)
    ensures var items := Decode(Pair(change, little) + rest, little);
            |items| > 0 && items[0] == Item(0, change) ==> Pair(change, little) == [0, 0]
  {
    hide Unpair, SignedPair;
    var b := Pair(change, little) + rest;
    assert b[0] == Pair(change, little)[0] && b[1] == Pair(change, little)[1];
  }

  /** A list that starts with an escape in disguise is not read back. */
  lemma UntoldMisread(es: seq<Entry>, addr: int, little: bool)
    requires Ascending(es, addr) && Fitting(es, addr) && |es| > 0 && es[0] == Entry(addr, 0)
    ensures Decode(Encoded(es, addr, little), little) != ItemsOf(es, addr)
  {
    hide Decode, Encoded, ItemBytes, Pair;
    var n, b := Idle(es, addr), Encoded(es, addr, little);
    assert n >= 1;
    IdleBytes(es, addr, little);
    IdleItems(es, addr);
    SuffixFits(es, addr);
    if Decode(b, little) == ItemsOf(es, addr) {
      ZeroItems(b, n, little);
      var tail, c := es[n..], b[2 * n..];
      if n == |es| {
        EncodedNone(addr, little);
        assert false;
      }
      EncodedFirst(tail, addr, little);
      var diff, change, rest := tail[0].addr - addr, tail[0].change, Encoded(tail[1..], tail[0].addr, little);
      forall i | 0 <= i < 4 * n ensures c[i] == 0 { assert c[i] == b[2 * n + i]; }
      if n == 1 {
        assert ItemsOf(es, addr)[1] == ItemsOf(tail, addr)[0] == Item(diff, change);
        LeadingZeros(diff, change, little, rest);
        AfterOne(b, c, diff, change, little, rest);
      } else {
        assert c[4..6] == [0, 0];
        LeadingZeros(diff, change, little, rest);
      }
    }
  }

  lemma EncodedNone(addr: int, little: bool)
    ensures Encoded([], addr, little) == []
  {
  }

  lemma EncodedFirst(es: seq<Entry>, addr: int, little: bool)
    requires |es| > 0
    ensures Encoded(es, addr, little)
            == ItemBytes(es[0].addr - addr, es[0].change, little) + Encoded(es[1..], es[0].addr, little)
  {
  }

  /** After one idle entry and a long item at no distance the reader stands at the change of that item. */
  lemma AfterOne(b: seq<Byte>, c: seq<Byte>, diff: int, change: int, little: bool, rest: seq<Byte>)
    requires |b| >= 8 && c == b[2..] == ItemBytes(diff, change, little) + rest
    requires forall i :: 0 <= i < 6 ==> b[i] == 0
    requires c[4..6] == Pair(change, little) && c[4..6] != [0, 0] && diff == 0
    requires -0x8000 < change < 0x8000 && !(-0x80 < change < 0x80)
    ensures |Decode(b, little)| >= 2 ==> Decode(b, little)[1] != Item(diff, change)
  {
    hide ItemBytes, Pair;
    assert b[6..] == Pair(change, little) + b[8..];
    WideChange(change, little, b[8..]);
    EscapeFirst(b, little);
  }

  lemma EscapeFirst(b: seq<Byte>, little: bool)
    requires |b| >= 6 && forall i :: 0 <= i < 6 ==> b[i] == 0
    ensures Decode(b, little) == [Item(0, 0)] + Decode(b[6..], little)
  {
  }

  /** Decoding gives back what was encoded exactly when no entry changes nothing at no distance. */
  lemma {:induction false} ItemsIff(es: seq<Entry>, addr: int, little: bool)
    requires Ascending(es, addr) && Fitting(es, addr)
    ensures Decode(Encoded(es, addr, little), little) == ItemsOf(es, addr) <==> Telling(es, addr)
    decreases |es|
  {
    hide Decode, ItemBytes;
    if |es| == 0 {
      DecodeNothing(little);
    } else if es[0] == Entry(addr, 0) {
      UntoldMisread(es, addr, little);
    } else {
      var rest := Encoded(es[1..], es[0].addr, little);
      ItemReads(es[0].addr - addr, es[0].change, little, rest);
      ItemsIff(es[1..], es[0].addr, little);
      SameTail(Item(es[0].addr - addr, es[0].change), Decode(rest, little), ItemsOf(es[1..], es[0].addr));
    }
  }

  lemma SameTail(x: Item, a: seq<Item>, b: seq<Item>)
    ensures [x] + a == [x] + b <==> a == b
  {
    assert ([x] + a)[1..] == a && ([x] + b)[1..] == b;
  }

  // ---- sizes ----

  /** The scan stops before a fragment outgrows its 16-bit length. */
  lemma {:induction false} ScanFits(es: seq<Entry>, addr: int, bytes: nat, little: bool)
    requires Ascending(es, addr) && bytes % 2 == 0 && bytes <= 0xffe4
    ensures var k := Scan(es, addr, bytes);
            && Fitting(es[..k], addr) && Ascending(es[..k], addr)
            && bytes + |Encoded(es[..k], addr, little)| <= 0xffe4 && |Encoded(es[..k], addr, little)| % 2 == 0
    decreases |es|
  {
    hide ItemBytes;
    var k := Scan(es, addr, bytes);
    if k > 0 {
      var n := Size(es[0].addr - addr, es[0].change, bytes);
      ScanFits(es[1..], es[0].addr, bytes + n, little);
      assert es[..k][1..] == es[1..][..k - 1];
    }
  }

  /** The two forms, in bytes. */
  lemma ItemLength(diff: int, change: int, little: bool)
    ensures |ItemBytes(diff, change, little)| == if diff < 0x100 && -0x80 < change < 0x80 then 2 else 6
  {
  }

  function InOrder(x: int, y: int, little: bool): int { if little then x + 0x100 * y else 0x100 * x + y }

  /** Byte for byte: distance and change, or two zeros, the distance and then the change, each in the target's order. */
  lemma ItemLayout(diff: int, change: int, little: bool)
    requires 0 <= diff < 0x1_0000 && -0x8000 < change < 0x8000
    ensures var b := ItemBytes(diff, change, little);
            if diff < 0x100 && -0x80 < change < 0x80 then b[0] == diff && (b[1] - change) % 0x100 == 0
            else
              && b[0] == 0 && b[1] == 0
              && diff == InOrder(b[2], b[3], little)
              && (InOrder(b[4], b[5], little) - change) % 0x1_0000 == 0
  {
  }

  /** The address from which the distance of entry k is counted. */
  function Before(es: seq<Entry>, addr: int, k: nat): int
    requires k <= |es|
  {
    if k == 0 then addr else es[k - 1].addr
  }

  /** Has an item of this distance and change no room in the bytes left of a fragment, or no form at all? */
  predicate NoRoom(diff: int, change: int, bytes: nat)
  {
    if diff < 0x100 && -0x80 < change < 0x80 then bytes + 4 >= 0xffe8
    else !(diff < 0x1_0000 && -0x8000 < change < 0x8000) || bytes + 8 >= 0xffe8
  }

  /** Is there no room for entry i after the items before it? */
  predicate Full(es: seq<Entry>, addr: int, bytes: nat, little: bool, i: nat)
    requires i < |es|
  {
    NoRoom(es[i].addr - Before(es, addr, i), es[i].change, bytes + |Encoded(es[..i], addr, little)|)
  }

  lemma FullLater(es: seq<Entry>, addr: int, bytes: nat, little: bool, i: nat)
    requires 0 < i < |es|
    ensures var n := |ItemBytes(es[0].addr - addr, es[0].change, little)|;
            Full(es, addr, bytes, little, i) <==> Full(es[1..], es[0].addr, bytes + n, little, i - 1)
  {
    hide NoRoom, ItemBytes;
    assert es[..i][1..] == es[1..][..i - 1];
  }

  lemma FullFirst(es: seq<Entry>, addr: int, bytes: nat, little: bool)
    requires |es| > 0
    ensures Full(es, addr, bytes, little, 0) <==> NoRoom(es[0].addr - addr, es[0].change, bytes)
  {
    hide NoRoom;
  }

  /** Why a scan stops: the next entry has no form, or the bytes so far leave no room for it; and no earlier one did. */
  lemma {:induction false} ScanStops(es: seq<Entry>, addr: int, bytes: nat, little: bool)
    ensures var k := Scan(es, addr, bytes);
            && (forall i :: 0 <= i < k ==> !Full(es, addr, bytes, little, i))
            && (k < |es| ==> Full(es, addr, bytes, little, k))
    decreases |es|
  {
    hide ItemBytes, NoRoom, Full, Size;
    var k := Scan(es, addr, bytes);
    if |es| > 0 {
      var n := Size(es[0].addr - addr, es[0].change, bytes);
      FullFirst(es, addr, bytes, little);
      SizeIs(es[0].addr - addr, es[0].change, bytes, little);
      if k > 0 {
        ScanStops(es[1..], es[0].addr, bytes + n, little);
        forall i | 0 < i < |es|
          ensures Full(es, addr, bytes, little, i) <==> Full(es[1..], es[0].addr, bytes + n, little, i - 1)
        {
          FullLater(es, addr, bytes, little, i);
        }
      }
    }
  }

  lemma SizeIs(diff: int, change: int, bytes: nat, little: bool)
    ensures Size(diff, change, bytes) == 0 <==> NoRoom(diff, change, bytes)
    ensures Size(diff, change, bytes) != 0 ==> Size(diff, change, bytes) == |ItemBytes(diff, change, little)|
  {
  }

  /** A prefix takes no more bytes than the whole; one more item, so many more. */
  lemma {:induction false} PrefixLength(es: seq<Entry>, addr: int, k: nat, little: bool)
    requires k < |es|
    ensures |Encoded(es[..k], addr, little)|
            + |ItemBytes(es[k].addr - Before(es, addr, k), es[k].change, little)| <= |Encoded(es, addr, little)|
    decreases |es|
  {
    hide ItemBytes;
    if k == 0 {
      assert es[..0] == [];
    } else {
      assert es[..k][1..] == es[1..][..k - 1];
      assert Before(es[1..], es[0].addr, k - 1) == Before(es, addr, k);
      PrefixLength(es[1..], es[0].addr, k - 1, little);
    }
  }

  lemma {:induction false} EachFits(es: seq<Entry>, addr: int, k: nat)
    requires Fitting(es, addr) && k < |es|
    ensures es[k].addr - Before(es, addr, k) < 0x1_0000 && -0x8000 < es[k].change < 0x8000
    decreases |es|
  {
    if k > 0 {
      assert Before(es[1..], es[0].addr, k - 1) == Before(es, addr, k);
      EachFits(es[1..], es[0].addr, k - 1);
    }
  }

  /** A list whose entries have a form and whose items take less than 0xffe0 bytes makes one fragment, of all of it. */
  lemma OneFragment(d: Desc, little: bool)
    requires d.entries != [] && Fitting(d.entries, d.startAddr)
    requires |Encoded(d.entries, d.startAddr, little)| < 0xffe0
    ensures FragmentsOf(d, little)
            == [FragmentOf(d.entries, d.startAddr, d.endAddr - d.startAddr, d.saveAddr, d.initOffset, little)]
    ensures !LastBreaks(d.entries, d.startAddr)
  {
    hide Encoded, FragmentOf, Scan, Fitting;
    StopLength(d.entries, d.startAddr, little);
  }

  /** A scan of entries that have a form stops only near the end of what a fragment can hold. */
  lemma StopLength(es: seq<Entry>, addr: int, little: bool)
    requires Fitting(es, addr)
    ensures var k := Scan(es, addr, 0); k < |es| ==> |Encoded(es, addr, little)| >= 0xffe0
  {
    hide Encoded, Scan, Fitting, ItemBytes;
    var k := Scan(es, addr, 0);
    ScanStops(es, addr, 0, little);
    if k < |es| {
      PrefixLength(es, addr, k, little);
      EachFits(es, addr, k);
      ItemLength(es[k].addr - Before(es, addr, k), es[k].change, little);
    }
  }

  lemma PaddedLength(n: nat)
    ensures (n + |Padding(n)|) % 4 == 0 && |Padding(n)| < 4
  {
  }

  lemma {:induction false} TellingPrefix(es: seq<Entry>, addr: int, k: nat)
    requires k <= |es| && Telling(es, addr)
    ensures Telling(es[..k], addr)
    decreases |es|
  {
    if k > 0 {
      assert es[..k][1..] == es[1..][..k - 1];
      TellingPrefix(es[1..], es[0].addr, k - 1);
    }
  }

  lemma {:induction false} AscendingPrefix(es: seq<Entry>, addr: int, k: nat)
    requires k <= |es| && Ascending(es, addr)
    ensures Ascending(es[..k], addr)
    ensures forall i :: 0 <= i < k ==> addr <= es[i].addr && (k < |es| ==> es[i].addr <= es[k].addr)
    ensures k < |es| ==> addr <= es[k].addr
    decreases |es|
  {
    if |es| > 0 {
      if k > 0 {
        assert es[..k][1..] == es[1..][..k - 1];
        AscendingPrefix(es[1..], es[0].addr, k - 1);
        forall i | 0 <= i < k ensures addr <= es[i].addr && (k < |es| ==> es[i].addr <= es[k].addr) {
          if i > 0 { assert es[i] == es[1..][i - 1]; }
        }
      }
    }
  }

  /** What is left of the list after entry k starts again from that entry. */
  lemma {:induction false} SuffixFrom(es: seq<Entry>, addr: int, k: nat)
    requires k < |es|
    ensures Ascending(es, addr) ==> Ascending(es[k + 1..], es[k].addr)
    ensures Telling(es, addr) ==> Telling(es[k + 1..], es[k].addr)
    decreases |es|
  {
    if k > 0 {
      assert es[k + 1..] == es[1..][k..];
      SuffixFrom(es[1..], es[0].addr, k - 1);
    }
  }

  // ---- reading one fragment ----

  lemma {:induction false} ItemsMean(es: seq<Entry>, addr: int, offset: int, a: int)
    ensures ItemOffset(ItemsOf(es, addr), addr, offset, a) == OffsetAt(es, offset, a)
    decreases |es|
  {
    if |es| > 0 {
      var items := ItemsOf(es, addr);
      assert items[1..] == ItemsOf(es[1..], es[0].addr);
      ItemsMean(es[1..], es[0].addr, offset + (if es[0].addr <= a then es[0].change else 0), a);
    }
  }

  lemma FragmentReads(es: seq<Entry>, addr: int, size: int, saveAddr: int, offset: int, little: bool, a: int)
    requires Ascending(es, addr) && Telling(es, addr) && Fitting(es, addr)
    ensures ReadOffset(FragmentOf(es, addr, size, saveAddr, offset, little), a, little) == OffsetAt(es, offset, a)
  {
    hide Decode, Encoded, Ascending, Telling, Fitting, OffsetAt, ItemOffset;
    var f := FragmentOf(es, addr, size, saveAddr, offset, little);
    assert f.data[..f.bytes] == Encoded(es, addr, little);
    ItemsRoundTrip(es, addr, little);
    ItemsMean(es, addr, offset, a);
  }

  /** Where the last entry stands. */
  function EndOf(es: seq<Entry>, addr: int): int { if |es| == 0 then addr else es[|es| - 1].addr }

  /** One more entry that changes nothing at no distance adds two zero bytes. */
  lemma {:induction false} IdleEnd(es: seq<Entry>, addr: int, little: bool)
    ensures var more := es + [Entry(EndOf(es, addr), 0)];
            && Encoded(more, addr, little) == Encoded(es, addr, little) + [0, 0]
            && !Telling(more, addr)
            && forall offset, a :: OffsetAt(more, offset, a) == OffsetAt(es, offset, a)
    decreases |es|
  {
    hide ItemBytes;
    var idle := Entry(EndOf(es, addr), 0);
    var more := es + [idle];
    if |es| == 0 {
      assert more == [idle] && more[1..] == [];
      IdleFirst(more, addr, little);
      forall offset, a ensures OffsetAt(more, offset, a) == OffsetAt(es, offset, a) {
        assert OffsetAt([], offset, a) == offset;
      }
    } else {
      assert more[1..] == es[1..] + [idle];
      assert EndOf(es[1..], es[0].addr) == EndOf(es, addr);
      IdleEnd(es[1..], es[0].addr, little);
    }
  }

  /** Bytes after what was encoded are read after it. */
  lemma {:induction false} ReadsOn(es: seq<Entry>, addr: int, little: bool, tail: seq<Byte>)
    requires Ascending(es, addr) && Telling(es, addr) && Fitting(es, addr)
    ensures Decode(Encoded(es, addr, little) + tail, little) == ItemsOf(es, addr) + Decode(tail, little)
    decreases |es|
  {
    hide Decode, ItemBytes;
    if |es| == 0 {
      assert [] + tail == tail;
    } else {
      var first, rest := ItemBytes(es[0].addr - addr, es[0].change, little), Encoded(es[1..], es[0].addr, little);
      assert first + rest + tail == first + (rest + tail);
      ItemReads(es[0].addr - addr, es[0].change, little, rest + tail);
      ReadsOn(es[1..], es[0].addr, little, tail);
    }
  }

  lemma TwoZeros(little: bool)
    ensures Decode([0, 0], little) == []
  {
  }

  /** An idle last entry does no harm to a reader of offsets, whatever goes before it. */
  lemma TrailingIdleHarmless(es: seq<Entry>, addr: int, size: int, saveAddr: int, offset: int, little: bool, a: int)
    requires Ascending(es, addr) && Telling(es, addr) && Fitting(es, addr)
    ensures var more := es + [Entry(EndOf(es, addr), 0)];
            !Telling(more, addr)
                && ReadOffset(FragmentOf(more, addr, size, saveAddr, offset, little), a, little)
                   == OffsetAt(more, offset, a)
  {
    hide Decode, Encoded, Ascending, Telling, Fitting, OffsetAt, ItemOffset;
    var more := es + [Entry(EndOf(es, addr), 0)];
    var f := FragmentOf(more, addr, size, saveAddr, offset, little);
    assert f.data[..f.bytes] == Encoded(more, addr, little);
    IdleEnd(es, addr, little);
    ReadsOn(es, addr, little, [0, 0]);
    TwoZeros(little);
    assert ItemsOf(es, addr) + [] == ItemsOf(es, addr);
    ItemsMean(es, addr, offset, a);
  }

  lemma {:induction false} OffsetBefore(es: seq<Entry>, k: nat, offset: int, a: int)
    requires k <= |es| && forall i :: k <= i < |es| ==> es[i].addr > a
    ensures OffsetAt(es, offset, a) == OffsetAt(es[..k], offset, a)
    decreases |es|
  {
    if |es| > 0 {
      var next := offset + (if es[0].addr <= a then es[0].change else 0);
      if k > 0 {
        assert es[..k][1..] == es[1..][..k - 1];
        OffsetBefore(es[1..], k - 1, next, a);
      } else {
        OffsetBefore(es[1..], 0, offset, a);
        assert es[..0] == [] && es[1..][..0] == [];
      }
    }
  }

  lemma {:induction false} OffsetAfter(es: seq<Entry>, k: nat, offset: int, a: int)
    requires k < |es| && forall i :: 0 <= i <= k ==> es[i].addr <= a
    ensures OffsetAt(es, offset, a) == OffsetAt(es[k + 1..], offset + Total(es[..k]) + es[k].change, a)
    decreases |es|
  {
    if k == 0 {
      assert es[..0] == [];
    } else {
      assert es[..k][1..] == es[1..][..k - 1];
      assert es[1..][k..] == es[k + 1..];
      OffsetAfter(es[1..], k - 1, offset + es[0].change, a);
    }
  }

  // ---- reading the whole map ----

  /** The fragments after the first, and where they begin. */
  function RestOf(es: seq<Entry>, addr: int, offset: int, end: int, little: bool): seq<Fragment>
  {
    var k := Scan(es, addr, 0);
    if k == |es| then []
        else Fragments(es[k + 1..], es[k].addr, NO_SAVE, offset + Total(es[..k]) + es[k].change, end, little)
  }

  function FirstOf(es: seq<Entry>, addr: int, saveAddr: int, offset: int, end: int, little: bool): Fragment
  {
    var k := Scan(es, addr, 0);
    FragmentOf(es[..k], addr, (if k == |es| then end else es[k].addr) - addr, saveAddr, offset, little)
  }

  lemma FirstAndRest(es: seq<Entry>, addr: int, saveAddr: int, offset: int, end: int, little: bool)
    requires |es| > 0
    ensures Fragments(es, addr, saveAddr, offset, end, little)
            == [FirstOf(es, addr, saveAddr, offset, end, little)] + RestOf(es, addr, offset, end, little)
  {
    hide FragmentOf, Scan, Total;
    var k := Scan(es, addr, 0);
    assert es[..|es|] == es;
  }

  lemma {:induction false} StartsFrom(es: seq<Entry>, addr: int, saveAddr: int, offset: int, end: int, little: bool,
          i: nat)
    requires Ascending(es, addr) && i < |Fragments(es, addr, saveAddr, offset, end, little)|
    ensures Fragments(es, addr, saveAddr, offset, end, little)[i].codeStart >= addr
    decreases |es|
  {
    hide Encoded, Ascending, Padding, Fragments, Scan, Total;
    if |es| > 0 {
      var k := Scan(es, addr, 0);
      FirstAndRest(es, addr, saveAddr, offset, end, little);
      if i > 0 {
        SuffixFrom(es, addr, k);
        AscendingPrefix(es, addr, k);
        StartsFrom(es[k + 1..], es[k].addr, NO_SAVE, offset + Total(es[..k]) + es[k].change, end, little, i - 1);
      }
    } else {
      NoFragments(addr, saveAddr, offset, end, little);
    }
  }

  lemma NoFragments(addr: int, saveAddr: int, offset: int, end: int, little: bool)
    ensures Fragments([], addr, saveAddr, offset, end, little) == []
  {
  }

  /** At every address a fragment covers, reading it gives the original offset. */
  lemma {:induction false} MapReads(es: seq<Entry>, addr: int, saveAddr: int, offset: int, end: int, little: bool,
          i: nat, a: int)
    requires Ascending(es, addr) && Telling(es, addr) && i < |Fragments(es, addr, saveAddr, offset, end, little)|
    requires var f := Fragments(es, addr, saveAddr, offset, end, little)[i]; f.codeStart <= a < f.codeStart + f.codeSize
    ensures var f := Fragments(es, addr, saveAddr, offset, end, little)[i];
            f.bytes <= |f.data| && ReadOffset(f, a, little) == OffsetAt(es, offset, a)
    decreases |es|
  {
    hide Encoded, Ascending, Telling, Padding, Fragments, Scan, Total, ReadOffset, OffsetAt;
    if |es| > 0 {
      var k := Scan(es, addr, 0);
      FirstAndRest(es, addr, saveAddr, offset, end, little);
      if i == 0 {
        FirstReads(es, addr, saveAddr, offset, end, little, a);
      } else {
        SuffixFrom(es, addr, k);
        var offset' := offset + Total(es[..k]) + es[k].change;
        StartsFrom(es[k + 1..], es[k].addr, NO_SAVE, offset', end, little, i - 1);
        MapReads(es[k + 1..], es[k].addr, NO_SAVE, offset', end, little, i - 1, a);
        AscendingPrefix(es, addr, k);
        OffsetAfter(es, k, offset, a);
      }
    } else {
      NoFragments(addr, saveAddr, offset, end, little);
    }
  }

  lemma FirstReads(es: seq<Entry>, addr: int, saveAddr: int, offset: int, end: int, little: bool, a: int)
    requires |es| > 0 && Ascending(es, addr) && Telling(es, addr)
    requires var f := FirstOf(es, addr, saveAddr, offset, end, little); f.codeStart <= a < f.codeStart + f.codeSize
    ensures var f := FirstOf(es, addr, saveAddr, offset, end, little);
            f.bytes <= |f.data| && ReadOffset(f, a, little) == OffsetAt(es, offset, a)
  {
    hide Encoded, Ascending, Telling, Fitting, OffsetAt, ReadOffset, Padding, Scan;
    var k := Scan(es, addr, 0);
    ScanFits(es, addr, 0, little);
    TellingPrefix(es, addr, k);
    FragmentReads(es[..k], addr, (if k == |es| then end else es[k].addr) - addr, saveAddr, offset, little, a);
    LaterAbove(es, addr, k, a);
    OffsetBefore(es, k, offset, a);
  }

  lemma LaterAbove(es: seq<Entry>, addr: int, k: nat, a: int)
    requires Ascending(es, addr) && k <= |es| && (k < |es| ==> a < es[k].addr)
    ensures forall i :: k <= i < |es| ==> es[i].addr > a
  {
    hide Ascending;
    forall i | k <= i < |es| ensures es[i].addr > a {
      AscendingPrefix(es, addr, i);
    }
  }

  // ---- the fragments tile the procedure ----

  /** Does the last entry start a fragment of its own, for which there is then no list left? */
  predicate LastBreaks(es: seq<Entry>, addr: int)
    decreases |es|
  {
    |es| > 0 &&
    var k := Scan(es, addr, 0);
    k < |es| && (k + 1 == |es| || LastBreaks(es[k + 1..], es[k].addr))
  }

  lemma BreaksLater(es: seq<Entry>, addr: int)
    requires |es| > 0
    ensures var k := Scan(es, addr, 0);
            LastBreaks(es, addr) <==> k < |es| && (k + 1 == |es| || LastBreaks(es[k + 1..], es[k].addr))
  {
    hide Scan;
  }

  /** Fragments follow one another without gap or overlap, up to the end or to the last entry. */
  lemma {:induction false} Tiling(es: seq<Entry>, addr: int, saveAddr: int, offset: int, end: int, little: bool)
    requires |es| > 0 && Ascending(es, addr)
    ensures var fs := Fragments(es, addr, saveAddr, offset, end, little);
            && |fs| > 0 && fs[0].codeStart == addr && fs[0].saveAddr == saveAddr
            && (forall i :: 0 <= i < |fs| - 1 ==> fs[i].codeStart + fs[i].codeSize == fs[i + 1].codeStart)
            && (forall i :: 1 <= i < |fs| ==> fs[i].saveAddr == NO_SAVE)
            && fs[|fs| - 1].codeStart + fs[|fs| - 1].codeSize
               == (if LastBreaks(es, addr) then es[|es| - 1].addr else end)
            && (forall i :: 0 <= i < |fs| ==> |fs[i].data| + HEADER < 0x1_0000 && |fs[i].data| % 4 == 0)
    decreases |es|
  {
    hide Encoded, Ascending, Padding, Fragments, Scan, Total, LastBreaks, RestOf, FirstOf;
    var k := Scan(es, addr, 0);
    FirstAndRest(es, addr, saveAddr, offset, end, little);
    FirstShape(es, addr, saveAddr, offset, end, little);
    BreaksLater(es, addr);
    var first, rest := FirstOf(es, addr, saveAddr, offset, end, little), RestOf(es, addr, offset, end, little);
    RestIs(es, addr, offset, end, little);
    if k + 1 < |es| {
      SuffixFrom(es, addr, k);
      Tiling(es[k + 1..], es[k].addr, NO_SAVE, offset + Total(es[..k]) + es[k].change, end, little);
      ChainCons(first, rest);
    }
  }

  lemma FirstShape(es: seq<Entry>, addr: int, saveAddr: int, offset: int, end: int, little: bool)
    requires |es| > 0 && Ascending(es, addr)
    ensures var f, k := FirstOf(es, addr, saveAddr, offset, end, little), Scan(es, addr, 0);
            && f.codeStart == addr
            && f.codeStart + f.codeSize == (if k == |es| then end else es[k].addr) && f.saveAddr == saveAddr
            && |f.data| + HEADER < 0x1_0000 && |f.data| % 4 == 0
  {
    hide Encoded, Ascending, Padding, Scan;
    ScanFits(es, addr, 0, little);
    PaddedLength(|Encoded(es[..Scan(es, addr, 0)], addr, little)|);
  }

  lemma RestIs(es: seq<Entry>, addr: int, offset: int, end: int, little: bool)
    ensures var k := Scan(es, addr, 0);
            RestOf(es, addr, offset, end, little)
            == if k + 1 >= |es| then []
               else Fragments(es[k + 1..], es[k].addr, NO_SAVE, offset + Total(es[..k]) + es[k].change, end, little)
  {
    hide Scan, Total, Fragments;
    var k := Scan(es, addr, 0);
    if k + 1 == |es| {
      assert es[k + 1..] == [];
      NoFragments(es[k].addr, NO_SAVE, offset + Total(es[..k]) + es[k].change, end, little);
    }
  }

  lemma ChainCons(first: Fragment, rest: seq<Fragment>)
    requires |rest| > 0 && first.codeStart + first.codeSize == rest[0].codeStart
    requires forall i :: 0 <= i < |rest| - 1 ==> rest[i].codeStart + rest[i].codeSize == rest[i + 1].codeStart
    ensures var fs := [first] + rest;
            forall i :: 0 <= i < |fs| - 1 ==> fs[i].codeStart + fs[i].codeSize == fs[i + 1].codeStart
  {
  }

  ghost predicate Covers(fs: seq<Fragment>, a: int)
  {
    exists i :: 0 <= i < |fs| && fs[i].codeStart <= a < fs[i].codeStart + fs[i].codeSize
  }

  /** Consecutive fragments cover everything between the first start and the last end. */
  lemma {:induction false} ChainCovers(fs: seq<Fragment>, a: int)
    requires |fs| > 0
    requires forall i :: 0 <= i < |fs| - 1 ==> fs[i].codeStart + fs[i].codeSize == fs[i + 1].codeStart
    requires fs[0].codeStart <= a < fs[|fs| - 1].codeStart + fs[|fs| - 1].codeSize
    ensures Covers(fs, a)
    decreases |fs|
  {
    if a < fs[0].codeStart + fs[0].codeSize {
      assert Covers(fs, a);
    } else {
      ChainCovers(fs[1..], a);
      var i :| 0 <= i < |fs[1..]| && fs[1..][i].codeStart <= a < fs[1..][i].codeStart + fs[1..][i].codeSize;
      assert fs[i + 1] == fs[1..][i];
    }
  }

  /** Every address of the procedure is covered exactly when the last entry breaks no fragment, or stands at the end. */
  lemma CoverageIff(d: Desc, little: bool)
    requires |d.entries| > 0 && Ascending(d.entries, d.startAddr) && d.entries[|d.entries| - 1].addr <= d.endAddr
    ensures (forall a :: d.startAddr <= a < d.endAddr ==> Covers(FragmentsOf(d, little), a))
            <==> !LastBreaks(d.entries, d.startAddr) || d.entries[|d.entries| - 1].addr == d.endAddr
  {
    hide Fragments, LastBreaks, Ascending, Covers;
    var es, fs := d.entries, FragmentsOf(d, little);
    var last := es[|es| - 1].addr;
    Tiling(es, d.startAddr, d.saveAddr, d.initOffset, d.endAddr, little);
    if !LastBreaks(es, d.startAddr) || last == d.endAddr {
      forall a | d.startAddr <= a < d.endAddr ensures Covers(fs, a) { ChainCovers(fs, a); }
    } else {
      AscendingPrefix(es, d.startAddr, |es| - 1);
      NothingBeyond(es, d, little, last);
    }
  }

  /** No fragment reaches beyond the last entry when that entry breaks. */
  lemma NothingBeyond(es: seq<Entry>, d: Desc, little: bool, a: int)
    requires es == d.entries && |es| > 0 && Ascending(es, d.startAddr) && LastBreaks(es, d.startAddr)
             && a == es[|es| - 1].addr
    ensures !Covers(FragmentsOf(d, little), a)
  {
    hide Fragments, LastBreaks, Ascending;
    var fs := FragmentsOf(d, little);
    Tiling(es, d.startAddr, d.saveAddr, d.initOffset, d.endAddr, little);
    forall i | 0 <= i < |fs| ensures fs[i].codeStart + fs[i].codeSize <= a {
      EndsBy(es, d.startAddr, d.saveAddr, d.initOffset, d.endAddr, little, i);
    }
  }

  lemma {:induction false} EndsBy(es: seq<Entry>, addr: int, saveAddr: int, offset: int, end: int, little: bool, i: nat)
    requires |es| > 0 && Ascending(es, addr) && LastBreaks(es, addr)
             && i < |Fragments(es, addr, saveAddr, offset, end, little)|
    ensures var f := Fragments(es, addr, saveAddr, offset, end, little)[i];
            f.codeStart + f.codeSize <= es[|es| - 1].addr
    decreases |es|
  {
    hide Encoded, Ascending, Padding, Fragments, Scan, Total, LastBreaks, RestOf, FirstOf;
    var k := Scan(es, addr, 0);
    FirstAndRest(es, addr, saveAddr, offset, end, little);
    FirstShape(es, addr, saveAddr, offset, end, little);
    RestIs(es, addr, offset, end, little);
    BreaksLater(es, addr);
    var last: nat := |es| - 1;
    AscendingPrefix(es, addr, last);
    if i > 0 {
      SuffixFrom(es, addr, k);
      EndsBy(es[k + 1..], es[k].addr, NO_SAVE, offset + Total(es[..k]) + es[k].change, end, little, i - 1);
    }
  }

  /**
   For every procedure whose changes can be told from the escape and whose last entry does
   not break a fragment, a reader of the table finds the offset in force at every address.
   */
  lemma MapRoundTrip(d: Desc, little: bool, a: int)
    requires |d.entries| > 0 && Ascending(d.entries, d.startAddr) && Telling(d.entries, d.startAddr)
    requires d.entries[|d.entries| - 1].addr <= d.endAddr && !LastBreaks(d.entries, d.startAddr)
    requires d.startAddr <= a < d.endAddr
    ensures Covers(FragmentsOf(d, little), a)
    ensures forall f :: f in FragmentsOf(d, little) && f.codeStart <= a < f.codeStart + f.codeSize
              ==> f.bytes <= |f.data| && ReadOffset(f, a, little) == OffsetAt(d.entries, d.initOffset, a)
  {
    hide Fragments, LastBreaks, Ascending, Telling, ReadOffset, OffsetAt;
    CoverageIff(d, little);
    var fs := FragmentsOf(d, little);
    forall f | f in fs && f.codeStart <= a < f.codeStart + f.codeSize
      ensures f.bytes <= |f.data| && ReadOffset(f, a, little) == OffsetAt(d.entries, d.initOffset, a)
    {
      var i :| 0 <= i < |fs| && fs[i] == f;
      MapReads(d.entries, d.startAddr, d.saveAddr, d.initOffset, d.endAddr, little, i, a);
    }
  }

  // ---- as the source writes it ----

  function Length(fs: seq<Fragment>): int
    decreases |fs|
  {
    if |fs| == 0 then 0 else |fs[0].data| + HEADER + Length(fs[1..])
  }

  lemma {:induction false} LengthAppend(a: seq<Fragment>, b: seq<Fragment>)
    ensures Length(a + b) == Length(a) + Length(b)
    decreases |a|
  {
    if |a| == 0 { assert a + b == b; } else { assert (a + b)[1..] == a[1..] + b; LengthAppend(a[1..], b); }
  }

  class FpTable {
    const little: bool
    var size: int
    var frags: seq<Fragment>

    constructor (little: bool)
      ensures this.little == little && frags == [] && size == 36
    {
      this.little := little;
      frags := [];
      size := 36;
    }

    /** The first pass: how many entries fit, and their bytes. */
    method Measure(es: seq<Entry>, start: int) returns (k: nat, bytes: nat)
      requires Ascending(es, start)
      ensures k == Scan(es, start, 0) && bytes == |Encoded(es[..k], start, little)|
    {
      hide ItemBytes;
      k, bytes := 0, 0;
      var addr := start;
      while k < |es|
        invariant k <= |es| && Scan(es, start, 0) == k + Scan(es[k..], addr, bytes)
        invariant |Encoded(es[..k], start, little)| == bytes && addr == if k == 0 then start else es[k - 1].addr
      {
        var diff := es[k].addr - addr;
        var n := 0;
        if Short(diff, es[k].change) {
          if bytes + 4 < 0x1_0000 - HEADER { n := 2; }
        } else if Long(diff, es[k].change) {
          if bytes + 8 < 0x1_0000 - HEADER { n := 6; }
        }
        if n == 0 { return; }
        EncodedSnoc(es[..k], start, es[k], little);
        assert es[..k] + [es[k]] == es[..k + 1];
        assert es[k..][1..] == es[k + 1..];
        addr := es[k].addr;
        bytes := bytes + n;
        k := k + 1;
      }
    }

    /** The second pass: the items, then zeros up to a word. */
    method Fill(es: seq<Entry>, start: int, bytes: nat) returns (b: array<Byte>)
      requires bytes == |Encoded(es, start, little)|
      ensures fresh(b) && b[..] == Encoded(es, start, little) + Padding(bytes)
    {
      hide ItemBytes, Encoded;
      var n := bytes + (4 - bytes % 4) % 4;
      b := new Byte[n](_ => 0);
      var i, addr, fp := 0, start, 0;
      EncodedNothing(start, little);
      while i < |es|
        invariant i <= |es| && addr == if i == 0 then start else es[i - 1].addr
        invariant 0 <= fp <= bytes <= n == b.Length && fresh(b)
        invariant b[..fp] == Encoded(es[..i], start, little)
        invariant forall j :: fp <= j < n ==> b[j] == 0
      {
        var item := ItemBytes(es[i].addr - addr, es[i].change, little);
        EncodedSnoc(es[..i], start, es[i], little);
        assert es[..i] + [es[i]] == es[..i + 1];
        EncodedLength(es, start, i + 1, little);
        ghost var done := b[..fp];
        forall j | 0 <= j < |item| { b[fp + j] := item[j]; }
        assert b[..fp + |item|] == done + item;
        fp := fp + |item|;
        addr := es[i].addr;
        i := i + 1;
      }
      assert es[..|es|] == es;
      assert b[..] == b[..fp] + Padding(bytes);
    }

    /** obj_notefpdesc */
    method NoteFpDesc(d: Desc)
      requires Ascending(d.entries, d.startAddr)
      modifies this`size, this`frags
      ensures frags == old(frags) + FragmentsOf(d, little)
      ensures size == old(size) + Length(FragmentsOf(d, little))
    {
      hide Encoded, Ascending, Scan, Fragments, Length;
      var es, addr, saveAddr, offset := d.entries, d.startAddr, d.saveAddr, d.initOffset;
      ghost var all := FragmentsOf(d, little);
      while |es| > 0
        invariant Ascending(es, addr)
        invariant frags + Fragments(es, addr, saveAddr, offset, d.endAddr, little) == old(frags) + all
        invariant size + Length(Fragments(es, addr, saveAddr, offset, d.endAddr, little)) == old(size) + Length(all)
        decreases |es|
      {
        ghost var before := frags;
        var k, bytes := Measure(es, addr);
        var data := Fill(es[..k], addr, bytes);
        var f := Fragment(addr, (if k == |es| then d.endAddr else es[k].addr) - addr, saveAddr, offset, bytes,
            data[..]);
        ghost var rest := RestOf(es, addr, offset, d.endAddr, little);
        FirstAndRest(es, addr, saveAddr, offset, d.endAddr, little);
        LengthAppend([f], rest);
        LengthOne(f);
        frags := frags + [f];
        size := size + data.Length + HEADER;
        assert frags + rest == before + ([f] + rest);
        if k == |es| {
          NoFragments(addr, saveAddr, offset, d.endAddr, little);
          LengthNothing();
          es := [];
          AscendingNothing(addr);
          break;
        }
        var sum := Sum(es[..k]);
        SuffixFrom(es, addr, k);
        saveAddr := NO_SAVE;
        addr := es[k].addr;
        offset := offset + sum + es[k].change;
        es := es[k + 1..];
      }
      NoFragments(addr, saveAddr, offset, d.endAddr, little);
      LengthNothing();
    }

    method Sum(es: seq<Entry>) returns (t: int)
      ensures t == Total(es)
    {
      t := 0;
      var i := 0;
      while i < |es|
        invariant i <= |es| && t + Total(es[i..]) == Total(es)
      {
        assert es[i..][1..] == es[i + 1..];
        t := t + es[i].change;
        i := i + 1;
      }
    }
  }

  lemma LengthOne(f: Fragment)
    ensures Length([f]) == |f.data| + HEADER
  {
    assert [f][1..] == [];
  }

  lemma LengthNothing()
    ensures Length([]) == 0
  {
  }

  lemma AscendingNothing(addr: int)
    ensures Ascending([], addr)
  {
  }

  lemma EncodedNothing(addr: int, little: bool)
    ensures Encoded([], addr, little) == []
  {
  }

  /** Encoding one entry more. */
  lemma {:induction false} EncodedSnoc(es: seq<Entry>, addr: int, e: Entry, little: bool)
    ensures var at := if |es| == 0 then addr else es[|es| - 1].addr;
            Encoded(es + [e], addr, little) == Encoded(es, addr, little) + ItemBytes(e.addr - at, e.change, little)
    decreases |es|
  {
    hide ItemBytes;
    if |es| == 0 {
      assert (es + [e])[1..] == [];
      assert Encoded([], e.addr, little) == [];
    } else {
      assert (es + [e])[1..] == es[1..] + [e];
      EncodedSnoc(es[1..], es[0].addr, e, little);
    }
  }

  lemma {:induction false} EncodedLength(es: seq<Entry>, addr: int, k: nat, little: bool)
    requires k <= |es|
    ensures |Encoded(es[..k], addr, little)| <= |Encoded(es, addr, little)|
    decreases |es|
  {
    hide ItemBytes;
    if k > 0 {
      assert es[..k][1..] == es[1..][..k - 1];
      EncodedLength(es[1..], es[0].addr, k - 1, little);
    }
  }
}
