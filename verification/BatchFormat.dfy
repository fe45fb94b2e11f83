/** The byte format of a write batch: records, their encoding, and what it means for an index to
    describe the records in some data. */
module BatchFormat {
  import opened Basics
  import opened Varint

  type KeyType = k: byte | k <= 1

  const DEL: KeyType := 0
  const VAL: KeyType := 1

  datatype Rec = Put(key: seq<byte>, value: seq<byte>) | Delete(key: seq<byte>)

  /** `batchIndex`: where a record's key and value lie in the data. */
  datatype Index = Index(kt: KeyType, keyPos: int, keyLen: int, valuePos: int, valueLen: int)

  // ---------------------------------------------------------------- encoding

  function EncodeRec(r: Rec): (res: seq<byte>) {
    match r
    case Put(key, value) => [VAL] + PutUvarint(|key|) + key + PutUvarint(|value|) + value
    case Delete(key) => [DEL] + PutUvarint(|key|) + key
  }

  function EncodeAll(rs: seq<Rec>): (r: seq<byte>) {
    if rs == [] then [] else EncodeAll(rs[..|rs| - 1]) + EncodeRec(rs[|rs| - 1])
  }

  /** Every range of the index lies in data. */
  predicate InBounds(ix: Index, data: seq<byte>) {
    && 0 <= ix.keyPos && 0 <= ix.keyLen && ix.keyPos + ix.keyLen <= |data|
    && 0 <= ix.valueLen && (ix.valueLen != 0 ==> 0 <= ix.valuePos && ix.valuePos + ix.valueLen <= |data|)
  }

  // ---------------------------------------------------------------- tiling

  /** The record that ix describes occupies data[o..e]. */
  predicate RecordAt(data: seq<byte>, o: nat, ix: Index, e: nat) {
    && o < ix.keyPos <= ix.keyPos + ix.keyLen <= e <= |data| && 0 <= ix.keyLen
    && data[o] == ix.kt
    && Uvarint(data[o + 1..]) == Some(Scanned(ix.keyLen, ix.keyPos - o - 1))
    && if ix.kt == DEL then e == ix.keyPos + ix.keyLen && ix.valuePos == 0 && ix.valueLen == 0
       else ix.kt == VAL && 0 <= ix.valueLen && ix.keyPos + ix.keyLen < ix.valuePos && e == ix.valuePos + ix.valueLen
            && Uvarint(data[ix.keyPos + ix.keyLen..]) == Some(Scanned(ix.valueLen, ix.valuePos - ix.keyPos - ix.keyLen))
  }

  function RecordEnd(ix: Index): (r: int) { if ix.kt == DEL then ix.keyPos + ix.keyLen else ix.valuePos + ix.valueLen }

  /** The records of idx cover data[o..e] one after the other, without gap or overlap. */
  predicate Tiles(data: seq<byte>, o: nat, idx: seq<Index>, e: nat)
    decreases |idx|
  {
    if idx == [] then o == e <= |data|
    else
      var m := RecordEnd(idx[0]);
      o <= m && RecordAt(data, o, idx[0], m) && Tiles(data, m, idx[1..], e)
  }

  lemma RecordShape(data: seq<byte>, o: nat, ix: Index)
    ensures forall e: nat :: RecordAt(data, o, ix, e) ==> e == RecordEnd(ix) && o < e <= |data| && InBounds(ix, data)
  {
  }

  // ---------------------------------------------------------------- records behind an index

  /** `batchIndex.k` and `batchIndex.v` */
  function RecOf(ix: Index, data: seq<byte>): (r: Rec)
    requires InBounds(ix, data)
  {
    var key := data[ix.keyPos..ix.keyPos + ix.keyLen];
    if ix.kt == DEL then Delete(key)
    else Put(key, if ix.valueLen != 0 then data[ix.valuePos..ix.valuePos + ix.valueLen] else [])
  }

  predicate AllInBounds(idx: seq<Index>, data: seq<byte>) { forall i :: 0 <= i < |idx| ==> InBounds(idx[i], data) }

  function RecsOf(idx: seq<Index>, data: seq<byte>): (rs: seq<Rec>)
    requires AllInBounds(idx, data)
  {
    seq(|idx|, i requires 0 <= i < |idx| => RecOf(idx[i], data))
  }

  /** Indexes that differ at most in where an empty value is said to lie. */
  predicate SameIndex(a: Index, b: Index) {
    && a.kt == b.kt && a.keyPos == b.keyPos && a.keyLen == b.keyLen && a.valueLen == b.valueLen
    && (a.valueLen != 0 ==> a.valuePos == b.valuePos)
  }

  predicate SameIndexes(a: seq<Index>, b: seq<Index>) {
    |a| == |b| && forall i :: 0 <= i < |a| ==> SameIndex(a[i], b[i])
  }

  /** `internalLen`: every record counts its key, its value and eight bytes. */
  function InternalLen(idx: seq<Index>): (r: int) {
    if idx == [] then 0
    else InternalLen(idx[..|idx| - 1]) + idx[|idx| - 1].keyLen + idx[|idx| - 1].valueLen + 8
  }

  function RecordsLen(rs: seq<Rec>): (r: nat) {
    if rs == [] then 0
    else
      var r := rs[|rs| - 1];
      RecordsLen(rs[..|rs| - 1]) + |r.key| + (if r.Put? then |r.value| else 0) + 8
  }

  lemma {:induction false} InternalLenConcat(a: seq<Index>, b: seq<Index>)
    ensures InternalLen(a + b) == InternalLen(a) + InternalLen(b)
    decreases |b|
  {
    if b == [] {
      assert a + b == a;
    } else {
      assert (a + b)[..|a + b| - 1] == a + b[..|b| - 1];
      InternalLenConcat(a, b[..|b| - 1]);
    }
  }

  /** internalLen is the sum over the records of key length, value length and eight. */
  lemma {:induction false} InternalLenOfRecords(idx: seq<Index>, data: seq<byte>)
    requires AllInBounds(idx, data) && forall i :: 0 <= i < |idx| ==> (idx[i].kt == DEL ==> idx[i].valueLen == 0)
    ensures InternalLen(idx) == RecordsLen(RecsOf(idx, data))
  {
    if idx != [] {
      var front := idx[..|idx| - 1];
      InternalLenOfRecords(front, data);
      assert RecsOf(front, data) == RecsOf(idx, data)[..|idx| - 1];
    }
  }

  // ---------------------------------------------------------------- putting batches together

  function Shift(ix: Index, k: int): (r: Index) {
    ix.(keyPos := ix.keyPos + k, valuePos := if ix.kt == DEL then ix.valuePos else ix.valuePos + k)
  }

  function ShiftAll(idx: seq<Index>, k: int): (r: seq<Index>) { seq(|idx|, i requires 0 <= i < |idx| => Shift(idx[i], k)) }

  lemma RecordExtend(a: seq<byte>, b: seq<byte>, o: nat, ix: Index, e: nat)
    requires RecordAt(a, o, ix, e)
    ensures RecordAt(a + b, o, ix, e)
  {
    hide ScanFrom;
    assert (a + b)[o + 1..] == a[o + 1..] + b;
    ScanExtend(a[o + 1..], b, 0);
    if ix.kt == VAL {
      var at := ix.keyPos + ix.keyLen;
      assert (a + b)[at..] == a[at..] + b;
      ScanExtend(a[at..], b, 0);
    }
  }

  lemma {:induction false} TilesExtend(a: seq<byte>, b: seq<byte>, o: nat, idx: seq<Index>, e: nat)
    requires Tiles(a, o, idx, e)
    ensures Tiles(a + b, o, idx, e)
    decreases |idx|
  {
    hide RecordAt;
    if idx != [] {
      RecordExtend(a, b, o, idx[0], RecordEnd(idx[0]));
      TilesExtend(a, b, RecordEnd(idx[0]), idx[1..], e);
    }
  }

  lemma RecordShift(a: seq<byte>, b: seq<byte>, o: nat, ix: Index, e: nat)
    requires RecordAt(b, o, ix, e)
    ensures RecordAt(a + b, |a| + o, Shift(ix, |a|), |a| + e)
  {
    hide ScanFrom;
    assert (a + b)[|a| + o + 1..] == b[o + 1..];
    if ix.kt == VAL {
      var at := ix.keyPos + ix.keyLen;
      assert (a + b)[|a| + at..] == b[at..];
    }
  }

  lemma {:induction false} TilesShift(a: seq<byte>, b: seq<byte>, o: nat, idx: seq<Index>, e: nat)
    requires Tiles(b, o, idx, e)
    ensures Tiles(a + b, |a| + o, ShiftAll(idx, |a|), |a| + e)
    decreases |idx|
  {
    hide RecordAt;
    if idx != [] {
      RecordShape(b, o, idx[0]);
      RecordShift(a, b, o, idx[0], RecordEnd(idx[0]));
      TilesShift(a, b, RecordEnd(idx[0]), idx[1..], e);
      assert ShiftAll(idx, |a|)[1..] == ShiftAll(idx[1..], |a|);
      assert RecordEnd(Shift(idx[0], |a|)) == |a| + RecordEnd(idx[0]);
    }
  }

  lemma {:induction false} TilesJoin(data: seq<byte>, o: nat, i1: seq<Index>, m: nat, i2: seq<Index>, e: nat)
    requires Tiles(data, o, i1, m) && Tiles(data, m, i2, e)
    ensures Tiles(data, o, i1 + i2, e)
    decreases |i1|
  {
    hide RecordAt;
    if i1 == [] {
      assert i1 + i2 == i2;
    } else {
      assert (i1 + i2)[1..] == i1[1..] + i2;
      TilesJoin(data, RecordEnd(i1[0]), i1[1..], m, i2, e);
    }
  }

  lemma {:induction false} TilesInBounds(data: seq<byte>, o: nat, idx: seq<Index>, e: nat)
    requires Tiles(data, o, idx, e)
    ensures AllInBounds(idx, data) && forall i :: 0 <= i < |idx| ==> (idx[i].kt == DEL ==> idx[i].valueLen == 0)
    decreases |idx|
  {
    if idx != [] {
      RecordShape(data, o, idx[0]);
      TilesInBounds(data, RecordEnd(idx[0]), idx[1..], e);
      assert forall i :: 0 < i < |idx| ==> idx[i] == idx[1..][i - 1];
    }
  }

  /** The index of the data of two batches put together. */
  lemma ConcatTiles(a: seq<byte>, ia: seq<Index>, b: seq<byte>, ib: seq<Index>)
    requires Tiles(a, 0, ia, |a|) && Tiles(b, 0, ib, |b|)
    ensures Tiles(a + b, 0, ia + ShiftAll(ib, |a|), |a + b|)
  {
    hide Tiles;
    TilesExtend(a, b, 0, ia, |a|);
    TilesShift(a, b, 0, ib, |b|);
    TilesJoin(a + b, 0, ia, |a|, ShiftAll(ib, |a|), |a| + |b|);
  }

  lemma ConcatRecs(a: seq<byte>, ia: seq<Index>, b: seq<byte>, ib: seq<Index>)
    requires AllInBounds(ia, a) && AllInBounds(ib, b)
    ensures AllInBounds(ia + ShiftAll(ib, |a|), a + b)
    ensures RecsOf(ia + ShiftAll(ib, |a|), a + b) == RecsOf(ia, a) + RecsOf(ib, b)
  {
    var i, d := ia + ShiftAll(ib, |a|), a + b;
    forall j | 0 <= j < |i| ensures InBounds(i[j], d) && RecOf(i[j], d) == (RecsOf(ia, a) + RecsOf(ib, b))[j] {
      if j < |ia| {
        InFront(a, b, ia[j].keyPos, ia[j].keyLen);
        if ia[j].valueLen != 0 { InFront(a, b, ia[j].valuePos, ia[j].valueLen); }
        SameRec(ia[j], a, i[j], d);
      } else {
        var x := ib[j - |ia|];
        InBack(a, b, x.keyPos, x.keyLen);
        if x.valueLen != 0 { InBack(a, b, x.valuePos, x.valueLen); }
        SameRec(x, b, i[j], d);
      }
    }
  }

  lemma InFront(a: seq<byte>, b: seq<byte>, p: int, n: int)
    requires 0 <= p && 0 <= n && p + n <= |a|
    ensures (a + b)[p..p + n] == a[p..p + n]
  {
  }

  lemma InBack(a: seq<byte>, b: seq<byte>, p: int, n: int)
    requires 0 <= p && 0 <= n && p + n <= |b|
    ensures (a + b)[|a| + p..|a| + p + n] == b[p..p + n]
  {
  }

  lemma SameRec(x: Index, a: seq<byte>, y: Index, d: seq<byte>)
    requires InBounds(x, a)
    requires x.kt == y.kt && x.keyLen == y.keyLen && x.valueLen == y.valueLen
    requires 0 <= y.keyPos && y.keyPos + y.keyLen <= |d| && a[x.keyPos..x.keyPos + x.keyLen] == d[y.keyPos..y.keyPos + y.keyLen]
    requires x.valueLen != 0 ==> 0 <= y.valuePos && y.valuePos + y.valueLen <= |d|
    requires x.valueLen != 0 && x.kt != DEL ==> a[x.valuePos..x.valuePos + x.valueLen] == d[y.valuePos..y.valuePos + y.valueLen]
    ensures InBounds(y, d) && RecOf(x, a) == RecOf(y, d)
  {
  }

  lemma SameIndexesRecs(a: seq<Index>, b: seq<Index>, data: seq<byte>)
    requires SameIndexes(a, b) && AllInBounds(b, data)
    ensures AllInBounds(a, data) && RecsOf(a, data) == RecsOf(b, data)
  {
    forall i | 0 <= i < |a| ensures InBounds(a[i], data) && RecOf(a[i], data) == RecOf(b[i], data) {
      assert SameIndex(a[i], b[i]);
    }
  }

  // ---------------------------------------------------------------- encoding and decoding

  /** Where the parts of an encoded record lie. */
  function IndexOf(r: Rec): (res: Index) {
    var keyPos := 1 + |PutUvarint(|r.key|)|;
    if r.Delete? then Index(DEL, keyPos, |r.key|, 0, 0)
    else Index(VAL, keyPos, |r.key|, keyPos + |r.key| + |PutUvarint(|r.value|)|, |r.value|)
  }

  lemma EncodedDelete(key: seq<byte>)
    requires |EncodeRec(Delete(key))| < TWO_63
    ensures var r, e := Delete(key), EncodeRec(Delete(key));
      RecordAt(e, 0, IndexOf(r), |e|) && InBounds(IndexOf(r), e) && RecOf(IndexOf(r), e) == r
  {
    hide PutUvarint, Uvarint;
    var e, ix := EncodeRec(Delete(key)), IndexOf(Delete(key));
    assert e[1..] == PutUvarint(|key|) + key;
    UvarintPut(|key|, key);
    assert e[ix.keyPos..ix.keyPos + ix.keyLen] == key;
  }

  lemma EncodedPut(key: seq<byte>, value: seq<byte>)
    requires |EncodeRec(Put(key, value))| < TWO_63
    ensures var r, e := Put(key, value), EncodeRec(Put(key, value));
      RecordAt(e, 0, IndexOf(r), |e|) && InBounds(IndexOf(r), e) && RecOf(IndexOf(r), e) == r
  {
    hide PutUvarint, Uvarint;
    var e, ix := EncodeRec(Put(key, value)), IndexOf(Put(key, value));
    var tail := PutUvarint(|value|) + value;
    assert e == [VAL] + PutUvarint(|key|) + key + tail;
    assert e[1..] == PutUvarint(|key|) + (key + tail);
    UvarintPut(|key|, key + tail);
    assert e[ix.keyPos..ix.keyPos + ix.keyLen] == key;
    assert e[ix.keyPos + ix.keyLen..] == tail;
    UvarintPut(|value|, value);
    assert e[ix.valuePos..ix.valuePos + ix.valueLen] == value;
  }

  lemma EncodedRecord(r: Rec)
    requires |EncodeRec(r)| < TWO_63
    ensures var e := EncodeRec(r);
      Tiles(e, 0, [IndexOf(r)], |e|) && AllInBounds([IndexOf(r)], e) && RecsOf([IndexOf(r)], e) == [r]
  {
    hide EncodeRec, RecordAt, PutUvarint;
    match r {
      case Put(key, value) => EncodedPut(key, value);
      case Delete(key) => EncodedDelete(key);
    }
    RecordShape(EncodeRec(r), 0, IndexOf(r));
    assert [IndexOf(r)][1..] == [];
  }

  /** Two records in full. */
  lemma EncodeInFull()
    ensures EncodeRec(Put([7], [8, 9])) == [1, 1, 7, 2, 8, 9]
    ensures EncodeRec(Delete([7])) == [0, 1, 7]
  {
    assert PutUvarint(1) == [1] && PutUvarint(2) == [2];
  }

  /** The index of a list of records encoded one after the other. */
  function IndexAll(rs: seq<Rec>): (r: seq<Index>) {
    if rs == [] then []
    else
      var front := rs[..|rs| - 1];
      IndexAll(front) + ShiftAll([IndexOf(rs[|rs| - 1])], |EncodeAll(front)|)
  }

  /** Encoded records tile their bytes. */
  lemma {:induction false} EncodedTiles(rs: seq<Rec>)
    requires |EncodeAll(rs)| < TWO_63
    ensures var d, idx := EncodeAll(rs), IndexAll(rs);
      Tiles(d, 0, idx, |d|) && AllInBounds(idx, d) && RecsOf(idx, d) == rs
  {
    hide Tiles, EncodeRec, IndexOf, RecOf;
    if rs == [] {
      NothingTiles();
    } else {
      var front, r := rs[..|rs| - 1], rs[|rs| - 1];
      EncodedTiles(front);
      EncodedRecord(r);
      ConcatTiles(EncodeAll(front), IndexAll(front), EncodeRec(r), [IndexOf(r)]);
      ConcatRecs(EncodeAll(front), IndexAll(front), EncodeRec(r), [IndexOf(r)]);
      assert rs == front + [r];
    }
  }

  lemma NothingTiles()
    ensures Tiles([], 0, [], 0)
  {
  }

  /** Writing a decoded record again never takes more bytes than it took in the input. */
  lemma RecordNotLonger(data: seq<byte>, o: nat, ix: Index, e: nat)
    requires RecordAt(data, o, ix, e)
    ensures InBounds(ix, data) && |EncodeRec(RecOf(ix, data))| <= e - o
  {
    hide PutUvarint, ScanFrom;
    RecordShape(data, o, ix);
    PutIsShortest(data[o + 1..], 0);
    if ix.kt == VAL {
      PutIsShortest(data[ix.keyPos + ix.keyLen..], 0);
    }
  }

  lemma {:induction false} NotLonger(data: seq<byte>, o: nat, idx: seq<Index>, e: nat)
    requires Tiles(data, o, idx, e)
    ensures AllInBounds(idx, data) && o <= e && |EncodeAll(RecsOf(idx, data))| <= e - o
    decreases |idx|
  {
    hide RecordAt, EncodeRec, RecOf;
    TilesInBounds(data, o, idx, e);
    if idx != [] {
      var m := RecordEnd(idx[0]);
      RecordNotLonger(data, o, idx[0], m);
      NotLonger(data, m, idx[1..], e);
      var rs := RecsOf(idx, data);
      assert rs == [RecOf(idx[0], data)] + RecsOf(idx[1..], data);
      EncodeFront(RecOf(idx[0], data), RecsOf(idx[1..], data));
    }
  }

  lemma {:induction false} EncodeFront(r: Rec, rs: seq<Rec>)
    ensures EncodeAll([r] + rs) == EncodeRec(r) + EncodeAll(rs)
    decreases |rs|
  {
    hide EncodeRec;
    var all := [r] + rs;
    if rs == [] {
      assert all[..|all| - 1] == [];
    } else {
      assert all[..|all| - 1] == [r] + rs[..|rs| - 1];
      EncodeFront(r, rs[..|rs| - 1]);
    }
  }
}
