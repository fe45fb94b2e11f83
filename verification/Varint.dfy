/** Base 128 varints as Go's `encoding/binary` writes and reads them: seven bits a byte, least
    significant group first, the high bit set on every byte but the last; 64-bit values. */
module Varint {
  import opened Basics

  function PutUvarint(x: nat): (s: seq<byte>)
    ensures |s| > 0
  {
    if x < 128 then [x] else [x % 128 + 128] + PutUvarint(x / 128)
  }

  /** Values below this fit in the bytes from the i-th on. */
  function Room(i: nat): (r: nat)
    requires i < 10
    ensures r >= 2 && (i < 9 ==> r >= 128)
    decreases 10 - i
  {
    if i == 9 then 2 else 128 * Room(i + 1)
  }

  datatype Scanned = Scanned(x: nat, n: nat)

  /** Reading on from the i-th byte of a varint; None when it is cut short or overflows. */
  function ScanFrom(buf: seq<byte>, i: nat): (r: Option<Scanned>)
    ensures r.Some? ==> i < 10 && r.value.x < Room(i) && 0 < r.value.n <= |buf|
    decreases |buf|
  {
    if buf == [] || i >= 10 then None
    else if buf[0] < 128 then
      if i == 9 && buf[0] > 1 then None else Some(Scanned(buf[0], 1))
    else match ScanFrom(buf[1..], i + 1)
      case None => None
      case Some(s) => Some(Scanned(buf[0] - 128 + 128 * s.x, s.n + 1))
  }

  function Uvarint(buf: seq<byte>): (r: Option<Scanned>) { ScanFrom(buf, 0) }

  lemma RoomIs64Bits()
    ensures Room(0) == TWO_64
  {
    assert Room(6) == 128 * 128 * 128 * 2 by { assert Room(8) == 256; }
    assert Room(3) == 128 * 128 * 128 * Room(6) by { assert Room(4) == 128 * 128 * Room(6); }
    assert Room(0) == 128 * 128 * 128 * Room(3) by { assert Room(1) == 128 * 128 * Room(3); }
  }

  lemma {:induction false} ScanPut(x: nat, rest: seq<byte>, i: nat)
    requires i < 10 && x < Room(i)
    ensures ScanFrom(PutUvarint(x) + rest, i) == Some(Scanned(x, |PutUvarint(x)|))
    decreases x
  {
    var s := PutUvarint(x) + rest;
    if x >= 128 {
      assert i < 9;
      assert s[1..] == PutUvarint(x / 128) + rest;
      ScanPut(x / 128, rest, i + 1);
    }
  }

  /** Reading gives back what was written, whatever follows. */
  lemma UvarintPut(x: nat, rest: seq<byte>)
    requires x < TWO_64
    ensures Uvarint(PutUvarint(x) + rest) == Some(Scanned(x, |PutUvarint(x)|))
  {
    RoomIs64Bits();
    ScanPut(x, rest, 0);
  }

  lemma {:induction false} ScanExtend(buf: seq<byte>, rest: seq<byte>, i: nat)
    requires ScanFrom(buf, i).Some?
    ensures ScanFrom(buf + rest, i) == ScanFrom(buf, i)
    decreases |buf|
  {
    assert (buf + rest)[1..] == buf[1..] + rest;
    if buf[0] >= 128 {
      ScanExtend(buf[1..], rest, i + 1);
    }
  }

  /** What was read took at least as many bytes as writing the value takes. */
  lemma {:induction false} PutIsShortest(buf: seq<byte>, i: nat)
    requires ScanFrom(buf, i).Some?
    ensures |PutUvarint(ScanFrom(buf, i).value.x)| <= ScanFrom(buf, i).value.n
    decreases |buf|
  {
    if buf[0] >= 128 {
      PutIsShortest(buf[1..], i + 1);
      var s := ScanFrom(buf[1..], i + 1).value;
      assert (buf[0] - 128 + 128 * s.x) / 128 == s.x;
    }
  }

  function Pow128(k: nat): (r: nat)
    ensures r > 0
  { if k == 0 then 1 else 128 * Pow128(k - 1) }

  /** k bytes hold exactly the values below 128^k. */
  lemma {:induction false} PutLength(x: nat, k: nat)
    requires k > 0
    ensures |PutUvarint(x)| <= k <==> x < Pow128(k)
    decreases k
  {
    assert Pow128(k) == 128 * Pow128(k - 1);
    assert x >= 128 ==> |PutUvarint(x / 128)| > 0;
    if x >= 128 && k > 1 { PutLength(x / 128, k - 1); }
  }

  /** `binary.MaxVarintLen32` bytes hold exactly the lengths below 2^35; nine hold every int. */
  lemma ShortLengths(x: nat)
    ensures |PutUvarint(x)| <= 5 <==> x < 0x8_0000_0000
    ensures |PutUvarint(x)| <= 9 <==> x < TWO_63
  {
    assert Pow128(5) == 0x8_0000_0000 by { assert Pow128(2) == 128 * 128 && Pow128(3) == 128 * 128 * 128; }
    assert Pow128(9) == TWO_63 by { assert Pow128(7) == 128 * 128 * Pow128(5); }
    PutLength(x, 5);
    PutLength(x, 9);
  }

  lemma {:induction false} PutNotLong(x: nat)
    ensures |PutUvarint(x)| <= x + 1
  {
    if x >= 128 { PutNotLong(x / 128); }
  }

  /** Two numbers in full: seven bits a byte, the lowest first, the top bit set on all but the last. */
  lemma PutInFull()
    ensures PutUvarint(5) == [5] && PutUvarint(300) == [0xac, 2]
  {
    assert PutUvarint(2) == [2];
  }
}
