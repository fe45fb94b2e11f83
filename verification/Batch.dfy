/** The write batch: encoded records with a side index that says where each of them lies. */
module Batch {
  import opened Basics
  import opened Varint
  import opened BatchFormat
  import opened BatchDecoder

  const MAX_VARINT_LEN_32: nat := 5
  const GROW_REC: nat := 3000

  /** Panics and Endless: the source panics while decoding, or never returns. */
  datatype LoadResult = Loaded | Corrupted | LengthMismatch | Panics | Endless

  /** Go's int. */
  function ToInt64(x: int): (r: int)
    ensures -TWO_63 <= x < TWO_63 ==> r == x
  {
    (x + TWO_63) % TWO_64 - TWO_63
  }

  lemma ToInt64Sum(x: int, y: int)
    ensures ToInt64(ToInt64(x) + y) == ToInt64(x + y)
  {
    var m := (x + TWO_63) / TWO_64;
    assert x + y + TWO_63 == (ToInt64(x) + y + TWO_63) + TWO_64 * m;
  }

  lemma ToInt64Sums(x: int, y: int)
    ensures ToInt64(ToInt64(x) + ToInt64(y)) == ToInt64(x + y)
  {
    ToInt64Sum(x, ToInt64(y));
    ToInt64Sum(y, x);
  }

  /** idx cuts the data into records, and index says the same except about where empty values lie. */
  ghost predicate Describes(data: seq<byte>, idx: seq<Index>, index: seq<Index>) {
    Tiles(data, 0, idx, |data|) && SameIndexes(index, idx)
  }

  /** The index describes the data record by record. */
  ghost predicate Agrees(data: seq<byte>, index: seq<Index>) {
    |data| < TWO_63 && AllInBounds(index, data) && exists idx: seq<Index> :: Describes(data, idx, index)
  }

  /** Decoding a dumped batch succeeds and gives the records its own index describes; the two
      indexes differ at most in where an empty value is said to lie. */
  lemma DumpDecodes(data: seq<byte>, index: seq<Index>)
    requires Agrees(data, index)
    ensures var r := Fate(data);
      && r.Accepted? && SameIndexes(index, r.idx) && AllInBounds(r.idx, data)
      && RecsOf(r.idx, data) == RecsOf(index, data)
    ensures InternalLen(index) == RecordsLen(RecsOf(index, data))
  {
    hide Tiles, InBounds, RecOf, Fate, InternalLen;
    var idx: seq<Index> :| Describes(data, idx, index);
    TiledAccepted(data, idx);
    TilesInBounds(data, 0, idx, |data|);
    SameIndexesRecs(index, idx, data);
    forall i | 0 <= i < |index| && index[i].kt == DEL ensures index[i].valueLen == 0 {
      assert SameIndex(index[i], idx[i]);
    }
    InternalLenOfRecords(index, data);
  }

  /** Shifting only the values that are not empty keeps the agreement. */
  function ShiftStored(ix: Index, k: int): (r: Index) {
    ix.(keyPos := ix.keyPos + k, valuePos := if ix.valueLen != 0 then ix.valuePos + k else ix.valuePos)
  }

  function ShiftStoredAll(idx: seq<Index>, k: int): (r: seq<Index>) {
    seq(|idx|, i requires 0 <= i < |idx| => ShiftStored(idx[i], k))
  }

  /** Keys move by k and so do values, but an empty value stays where it was said to lie. */
  lemma ShiftExact(idx: seq<Index>, k: int, i: nat)
    requires i < |idx|
    ensures |ShiftStoredAll(idx, k)| == |idx|
    ensures var ix := ShiftStoredAll(idx, k)[i];
      && ix.kt == idx[i].kt && ix.keyPos == idx[i].keyPos + k && ix.keyLen == idx[i].keyLen
      && ix.valuePos == idx[i].valuePos + (if ix.valueLen == 0 then 0 else k) && ix.valueLen == idx[i].valueLen
  {
  }

  lemma AppendAgrees(a: seq<byte>, ia: seq<Index>, b: seq<byte>, ib: seq<Index>, stored: seq<Index>)
    requires Agrees(a, ia) && Agrees(b, ib) && |a + b| < TWO_63
    requires SameIndexes(stored, ShiftStoredAll(ib, |a|))
    ensures Agrees(a + b, ia + stored)
    ensures RecsOf(ia + stored, a + b) == RecsOf(ia, a) + RecsOf(ib, b)
  {
    hide Tiles, InBounds, RecOf;
    var ja: seq<Index> :| Describes(a, ja, ia);
    var jb: seq<Index> :| Describes(b, jb, ib);
    TilesInBounds(a, 0, ja, |a|);
    TilesInBounds(b, 0, jb, |b|);
    SameIndexesRecs(ia, ja, a);
    SameIndexesRecs(ib, jb, b);
    ConcatTiles(a, ja, b, jb);
    ConcatRecs(a, ja, b, jb);
    var j := ja + ShiftAll(jb, |a|);
    forall i | 0 <= i < |j| ensures SameIndex((ia + stored)[i], j[i]) {
      if i < |ia| {
        assert SameIndex(ia[i], ja[i]);
      } else {
        assert SameIndex(ib[i - |ia|], jb[i - |ia|]);
        assert SameIndex(stored[i - |ia|], ShiftStoredAll(ib, |a|)[i - |ia|]);
      }
    }
    SameIndexesRecs(ia + stored, j, a + b);
    assert Describes(a + b, j, ia + stored);
  }

  lemma RecordAgrees(r: Rec)
    requires |EncodeRec(r)| < TWO_63
    ensures Agrees(EncodeRec(r), [IndexOf(r)]) && RecsOf([IndexOf(r)], EncodeRec(r)) == [r]
  {
    hide Tiles, InBounds, RecOf, EncodeRec, IndexOf;
    EncodedRecord(r);
    SameAsItself([IndexOf(r)]);
    assert Describes(EncodeRec(r), [IndexOf(r)], [IndexOf(r)]);
  }

  /** `decodeBatch`, handing over the indexes it emits.  The loop of the source is cut after
      |data| + 1 turns, when it is known never to end. */
  method DecodeBatch(data: seq<byte>) returns (r: Loop)
    requires |data| < TWO_63
    ensures r == Fate(data)
    ensures r.At? <==> forall n :: LoopAfter(data, n).At?
  {
    hide DecodeRecord, LoopAfter;
    var idx: seq<Index> := [];
    var o: int := 0;
    LoopStart(data);
    forall n: nat ensures Fate(data).At? ==> LoopAfter(data, n).At? { FateDecides(data, n); }
    for turns := 0 to |data| + 1
      invariant LoopAfter(data, turns) == At(o, idx)
    {
      OneMore(data, turns);
      if !LoopAfter(data, turns + 1).At? { Ended(data, turns + 1, |data| + 1); }
      if o >= |data| {
        return Accepted(idx);
      }
      if o < 0 {
        return Panicked(idx);  // data[o]
      }
      match DecodeRecord(data, o) {
        case Emit(ix, next) => o, idx := next, idx + [ix];
        case Bad => return Rejected(idx);
        case Panic => return Panicked(idx);
      }
    }
    r := At(o, idx);
  }

  /** The room appendRec reserves for a record: five bytes for each length. */
  function Reserved(r: Rec): (n: nat) {
    1 + MAX_VARINT_LEN_32 + |r.key| + if r.Put? then MAX_VARINT_LEN_32 + |r.value| else 0
  }

  /** The lengths fit the bytes reserved for them together. */
  predicate Fits(r: Rec) {
    match r
    case Delete(key) => |PutUvarint(|key|)| <= MAX_VARINT_LEN_32
    case Put(key, value) => |PutUvarint(|key|)| + |PutUvarint(|value|)| <= 2 * MAX_VARINT_LEN_32
  }

  /** What appendRec writes: the encoded record, cut at the end of the reserved room. */
  function Written(r: Rec): (w: seq<byte>) {
    var e := EncodeRec(r); if |e| <= Reserved(r) then e else e[..Reserved(r)]
  }

  lemma FitsExact(r: Rec)
    ensures Fits(r) <==> Written(r) == EncodeRec(r)
    ensures Fits(r) <== |r.key| < 0x8_0000_0000 && (r.Put? ==> |r.value| < 0x8_0000_0000)
    ensures r.Delete? ==> (Fits(r) <==> |r.key| < 0x8_0000_0000)
  {
    hide PutUvarint;
    ShortLengths(|r.key|);
    if r.Put? { ShortLengths(|r.value|); }
  }

  /** A record that is cut lies partly outside the data. */
  lemma CutOutside(data: seq<byte>, r: Rec, ix: Index)
    requires !Fits(r) && |EncodeRec(r)| < TWO_63 && SameIndex(ix, ShiftStored(IndexOf(r), |data|))
    ensures !InBounds(ix, data + Written(r))
  {
    ShortLengths(|r.key|);
    if r.Put? { assert PutUvarint(0) == [0]; }
    hide PutUvarint;
  }

  lemma AddRecord(data: seq<byte>, index: seq<Index>, r: Rec, ix: Index)
    requires Agrees(data, index) && |data| + |EncodeRec(r)| < TWO_63
    requires SameIndex(ix, ShiftStored(IndexOf(r), |data|))
    ensures Agrees(data + EncodeRec(r), index + [ix])
    ensures RecsOf(index + [ix], data + EncodeRec(r)) == RecsOf(index, data) + [r]
  {
    hide Agrees, InBounds, RecOf, EncodeRec, IndexOf;
    RecordAgrees(r);
    AppendAgrees(data, index, EncodeRec(r), [IndexOf(r)], [ix]);
  }

  /** So a batch stays in agreement exactly when the record fits. */
  lemma AddWritten(data: seq<byte>, index: seq<Index>, r: Rec, ix: Index)
    requires Agrees(data, index) && |data| + |EncodeRec(r)| < TWO_63
    requires SameIndex(ix, ShiftStored(IndexOf(r), |data|))
    ensures Agrees(data + Written(r), index + [ix]) <==> Fits(r)
    ensures Fits(r) ==> RecsOf(index + [ix], data + Written(r)) == RecsOf(index, data) + [r]
  {
    hide InBounds, RecOf, EncodeRec, IndexOf, Written, Fits, ShiftStored, Describes;
    FitsExact(r);
    if Fits(r) {
      AddRecord(data, index, r, ix);
    } else {
      CutOutside(data, r, ix);
      assert (index + [ix])[|index|] == ix;
    }
  }

  lemma InternalLenSnoc(index: seq<Index>, ix: Index)
    ensures InternalLen(index + [ix]) == InternalLen(index) + ix.keyLen + ix.valueLen + 8
  {
    assert (index + [ix])[..|index|] == index;
  }

  /** `copy` into what is left of the reserved room. */
  function Copied(p: seq<byte>, left: nat): (r: seq<byte>) { if |p| <= left then p else p[..left] }

  /** The bytes appendRec writes at offset o into the room it reserved, and the index entry it builds on
      the way.  The lengths never run out of room, only the last copy may. */
  method Assemble(r: Rec, o: nat) returns (rec: seq<byte>, ix: Index)
    requires |EncodeRec(r)| < TWO_63
    ensures rec == Written(r) && |rec| <= Reserved(r) && SameIndex(ix, ShiftStored(IndexOf(r), o))
    ensures ix.keyLen == |r.key| && ix.valueLen == (if r.Put? then |r.value| else 0)
  {
    hide PutUvarint;
    ShortLengths(|r.key|);
    ix := Index(if r.Put? then VAL else DEL, 0, 0, 0, 0);
    rec := [ix.kt];
    assert |rec| + |PutUvarint(|r.key|)| <= Reserved(r);
    rec := rec + PutUvarint(|r.key|);
    ix := ix.(keyPos := o + |rec|, keyLen := |r.key|);
    rec := rec + Copied(r.key, Reserved(r) - |rec|);
    if r.Put? {
      PutNotLong(|r.value|);
      assert |rec| + |PutUvarint(|r.value|)| <= Reserved(r);
      rec := rec + PutUvarint(|r.value|);
      ix := ix.(valuePos := o + |rec|, valueLen := |r.value|);
      rec := rec + Copied(r.value, Reserved(r) - |rec|);
    }
  }

  class Batch {
    var data: seq<byte>
    var capacity: nat
    var index: seq<Index>
    var internalLen: int

    /** The index agrees with the data.  Every operation keeps this, except loading data that does not
        decode properly and appending a record that does not fit. */
    ghost predicate Coherent()
      reads this
    {
      Agrees(data, index) && |data| <= capacity && internalLen == ToInt64(InternalLen(index))
    }

    ghost function Records(): (r: seq<Rec>)
      reads this
      requires Coherent()
    {
      RecsOf(index, data)
    }

    /** `MakeBatch` */
    constructor (n: nat)
      ensures Coherent() && Records() == [] && data == []
    {
      data, capacity, index, internalLen := [], n, [], 0;
      new;
      EmptyAgrees();
    }

    /** `Dump`: the encoded records, ready to be loaded again. */
    method Dump() returns (d: seq<byte>)
      ensures d == data
      ensures Coherent() ==> Fate(d).Accepted? && AllInBounds(Fate(d).idx, d) && RecsOf(Fate(d).idx, d) == Records()
    {
      hide Agrees, Fate, RecOf, InBounds;
      d := data;
      if Coherent() { DumpDecodes(data, index); }
    }

    /** `grow`: room for n more bytes. */
    method Grow(n: nat)
      modifies `capacity
      requires |data| <= capacity
      ensures capacity - |data| >= n
      ensures capacity == if old(capacity) - |data| >= n then old(capacity)
                          else |data| + n + |data| / (if |index| > 3000 then |index| / 3000 else 1)
    {
      var o := |data|;
      if capacity - o < n {
        var div := 1;
        if |index| > GROW_REC {
          div := |index| / GROW_REC;
        }
        capacity := o + n + o / div;
      }
    }

    /** r has been appended at the end of the old data, and nothing else has changed. */
    twostate predicate Appended(r: Rec)
      reads this
    {
      && data == old(data) + Written(r)
      && |index| == |old(index)| + 1 && index[..|old(index)|] == old(index)
      && SameIndex(index[|old(index)|], ShiftStored(IndexOf(r), |old(data)|))
      && internalLen == ToInt64(old(internalLen) + |r.key| + (if r.Put? then |r.value| else 0) + 8)
    }

    /** `appendRec`, on any batch. */
    method AppendRec(r: Rec)
      requires |data| <= capacity && |data| + |EncodeRec(r)| < TWO_63
      modifies this
      ensures |data| <= capacity && Appended(r)
      ensures old(Coherent()) ==> (Coherent() <==> Fits(r))
      ensures old(Coherent()) && Fits(r) ==> Records() == old(Records()) + [r]
    {
      hide Agrees, EncodeRec, IndexOf, InternalLen, InBounds, RecOf, Fits, Written, ToInt64;
      Grow(Reserved(r));
      var rec, ix := Assemble(r, |data|);
      if Agrees(data, index) { AddWritten(data, index, r, ix); }
      InternalLenSnoc(index, ix);
      ToInt64Sum(InternalLen(index), ix.keyLen + ix.valueLen + 8);
      data := data + rec;
      index := index + [ix];
      internalLen := ToInt64(internalLen + ix.keyLen + ix.valueLen + 8);
    }

    method Put(key: seq<byte>, value: seq<byte>)
      requires |data| <= capacity && |data| + |EncodeRec(BatchFormat.Put(key, value))| < TWO_63
      modifies this
      ensures |data| <= capacity && Appended(BatchFormat.Put(key, value))
      ensures old(Coherent()) ==> (Coherent() <==> Fits(BatchFormat.Put(key, value)))
      ensures old(Coherent()) && Fits(BatchFormat.Put(key, value)) ==> Records() == old(Records()) + [BatchFormat.Put(key, value)]
    {
      hide Coherent, Records, EncodeRec, Fits, Written;
      AppendRec(BatchFormat.Put(key, value));
    }

    method Delete(key: seq<byte>)
      requires |data| <= capacity && |data| + |EncodeRec(BatchFormat.Delete(key))| < TWO_63
      modifies this
      ensures |data| <= capacity && Appended(BatchFormat.Delete(key))
      ensures old(Coherent()) ==> (Coherent() <==> Fits(BatchFormat.Delete(key)))
      ensures old(Coherent()) && Fits(BatchFormat.Delete(key)) ==> Records() == old(Records()) + [BatchFormat.Delete(key)]
    {
      hide Coherent, Records, EncodeRec, Fits, Written;
      AppendRec(BatchFormat.Delete(key));
    }

    /** `append`, on any batches; p may be this very batch. */
    method Append(p: Batch)
      requires |data| + |p.data| < TWO_63
      modifies this
      ensures data == old(data) + old(p.data) && |data| <= capacity
      ensures index == old(index) + ShiftStoredAll(old(p.index), |old(data)|)
      ensures internalLen == ToInt64(old(internalLen) + old(p.internalLen))
      ensures old(Coherent()) && old(p.Coherent()) ==> Coherent() && Records() == old(Records()) + old(p.Records())
    {
      hide Agrees, InternalLen, InBounds, RecOf, ToInt64;
      var ob, oi := |data|, |index|;
      ghost var a, ia, b, ib := data, index, p.data, p.index;
      data := data + p.data;
      index := index + p.index;
      internalLen := ToInt64(internalLen + p.internalLen);
      capacity := if |data| <= capacity then capacity else |data|;
      if ob != 0 {
        ShiftFrom(oi, ob);
      }
      ghost var stored := ShiftStoredAll(ib, |a|);
      assert index == ia + stored;
      if Agrees(a, ia) && Agrees(b, ib) {
        SameAsItself(stored);
        AppendAgrees(a, ia, b, ib, stored);
      }
      InternalLenConcat(ia, stored);
      SameLengths(stored, ib);
      ToInt64Sums(InternalLen(ia), InternalLen(ib));
    }

    /** Moves the index entries from oi on by ob bytes, except where an empty value is said to lie. */
    method ShiftFrom(start: nat, ob: nat)
      requires start <= |index|
      modifies `index
      ensures index == old(index[..start]) + ShiftStoredAll(old(index[start..]), ob)
    {
      var oi := start;
      while oi < |index|
        invariant start <= oi <= |index| == |old(index)|
        invariant index[..start] == old(index[..start])
        invariant forall i :: start <= i < oi ==> index[i] == ShiftStored(old(index)[i], ob)
        invariant forall i :: oi <= i < |index| ==> index[i] == old(index)[i]
      {
        var ix := index[oi];
        ix := ix.(keyPos := ix.keyPos + ob);
        if ix.valueLen != 0 {
          ix := ix.(valuePos := ix.valuePos + ob);
        }
        index := index[oi := ix];
        oi := oi + 1;
      }
    }

    /** `Load`, or decode with an expected record count; negative accepts any.  spare is how far the
        capacity of the given slice exceeds its length.  The batch is
        coherent exactly when decoding accepted the data and handed over no record outside it. */
    method Load(data: seq<byte>, spare: nat, expectedLen: int) returns (r: LoadResult)
      requires |data| < TWO_63
      modifies this
      ensures this.data == data && index == Fate(data).idx && internalLen == ToInt64(InternalLen(index))
      ensures r == match Fate(data)
                   case Accepted(idx) => if expectedLen >= 0 && |idx| != expectedLen then LengthMismatch else Loaded
                   case Rejected(_) => Corrupted
                   case Panicked(_) => Panics
                   case At(_, _) => Endless
      ensures Stored()
      ensures Coherent() <==> Fate(data).Accepted? && AllInBounds(index, data)
      ensures (Fate(data).Accepted? || Fate(data).Rejected?) && AllInBounds(index, data) <==> AllSafe(data)
    {
      hide LoopAfter, InBounds, InternalLen, AllSafe, Checked, Agrees, ToInt64;
      this.data, capacity, index, internalLen := data, |data| + spare, [], 0;
      var out := DecodeBatch(data);
      index := out.idx;
      internalLen := SumLengths(index);
      DecodeExact(data);
      EmittedChecked(data, |data| + 1);
      LoadedAgrees(data, index);
      match out {
        case Accepted(idx) => return if expectedLen >= 0 && |idx| != expectedLen then LengthMismatch else Loaded;
        case Rejected(_) => return Corrupted;
        case Panicked(_) => return Panics;
        case At(_, _) => return Endless;
      }
    }

    /** What holds after every Load, and of every coherent batch: the decoder's own checks were made. */
    ghost predicate Stored()
      reads this
    {
      |data| < TWO_63 && |data| <= capacity && Checked(index, data)
    }

    /** `Replay`: the calls made on the receiver, in order, up to a slice expression that panics. */
    method Replay() returns (panicked: bool, calls: seq<Rec>)
      requires Stored()
      ensures panicked <==> !AllInBounds(index, data)
      ensures |calls| <= |index| && AllInBounds(index[..|calls|], data) && calls == RecsOf(index[..|calls|], data)
      ensures if panicked then |calls| < |index| && !InBounds(index[|calls|], data) else |calls| == |index|
    {
      calls := [];
      for i := 0 to |index|
        invariant |calls| == i && AllInBounds(index[..i], data) && calls == RecsOf(index[..i], data)
      {
        var ix := index[i];
        var keyEnd, valueEnd := Wrap(ix.keyPos + ix.keyLen), Wrap(ix.valuePos + ix.valueLen);
        SliceExact(ix, data, capacity);
        if !(ix.keyPos <= keyEnd <= capacity) || (ix.valueLen != 0 && !(ix.valuePos <= valueEnd <= capacity)) {
          return true, calls;
        }
        var key := data[ix.keyPos..keyEnd];
        ghost var before := calls;
        if ix.kt == VAL {
          calls := calls + [BatchFormat.Put(key, if ix.valueLen != 0 then data[ix.valuePos..valueEnd] else [])];
        } else {
          calls := calls + [BatchFormat.Delete(key)];
        }
        assert index[..i + 1] == index[..i] + [ix];
        assert calls == before + [RecOf(ix, data)];
      }
      assert index[..|index|] == index;
      panicked := false;
    }

    /** A coherent batch replays its records. */
    lemma CoherentIsStored()
      requires Coherent()
      ensures Stored() && AllInBounds(index, data) && RecsOf(index[..|index|], data) == Records()
    {
      hide Fate;
      assert index[..|index|] == index;
      forall i | 0 <= i < |index| ensures IndexChecked(index[i], data) { assert InBounds(index[i], data); }
    }

    method Reset()
      modifies this
      ensures Coherent() && Records() == [] && data == [] && internalLen == 0
    {
      data, index, internalLen := [], [], 0;
      EmptyAgrees();
    }

    /** Below 2^61 bytes internalLen does not wrap: it is the sum over the records of key length, value
        length and 8. */
    lemma InternalLenExact()
      requires Coherent() && |data| < 0x2000_0000_0000_0000
      ensures internalLen == RecordsLen(Records())
    {
      hide Tiles, InBounds, RecOf, Fate;
      DumpDecodes(data, index);
      AcceptedExact(data);
      TilesLength(data, 0, Fate(data).idx, |data|);
      SameLengths(index, Fate(data).idx);
    }
  }

  lemma EmptyAgrees()
    ensures Agrees([], [])
  {
    NothingTiles();
    assert Describes([], [], []);
  }

  /** What was decoded describes the data exactly if decoding accepted the data and every record lies in it. */
  lemma LoadedAgrees(data: seq<byte>, index: seq<Index>)
    requires |data| < TWO_63 && index == Fate(data).idx
    ensures Agrees(data, index) <==> Fate(data).Accepted? && AllInBounds(index, data)
  {
    hide Fate, InBounds, Tiles;
    if Agrees(data, index) { DumpDecodes(data, index); }
    if Fate(data).Accepted? && AllInBounds(index, data) {
      AcceptedExact(data);
      SameAsItself(index);
      assert Describes(data, index, index);
    }
  }

  /** A record takes at least two bytes, so it counts at most four times its bytes. */
  lemma {:induction false} TilesLength(data: seq<byte>, o: nat, idx: seq<Index>, e: nat)
    requires Tiles(data, o, idx, e)
    ensures o <= e && 0 <= InternalLen(idx) <= 4 * (e - o)
    decreases |idx|
  {
    if idx != [] {
      var ix := idx[0];
      TilesLength(data, RecordEnd(ix), idx[1..], e);
      assert idx == [ix] + idx[1..];
      InternalLenConcat([ix], idx[1..]);
      assert [ix][..0] == [];
    }
  }

  /** The running sum kept while decoding. */
  method SumLengths(idx: seq<Index>) returns (n: int)
    ensures n == ToInt64(InternalLen(idx))
  {
    hide ToInt64;
    n := 0;
    assert ToInt64(0) == 0;
    for i := 0 to |idx|
      invariant n == ToInt64(InternalLen(idx[..i]))
    {
      assert idx[..i + 1][..i] == idx[..i];
      ToInt64Sum(InternalLen(idx[..i]), idx[i].keyLen + idx[i].valueLen + 8);
      n := ToInt64(n + idx[i].keyLen + idx[i].valueLen + 8);
    }
    assert idx[..|idx|] == idx;
  }

  lemma {:induction false} SameLengths(a: seq<Index>, b: seq<Index>)
    requires |a| == |b| && forall i :: 0 <= i < |a| ==> a[i].keyLen == b[i].keyLen && a[i].valueLen == b[i].valueLen
    ensures InternalLen(a) == InternalLen(b)
  {
    if a != [] {
      SameLengths(a[..|a| - 1], b[..|b| - 1]);
    }
  }

  /** Positions the decoder has checked: a range ends, in 64 bits, within the data. */
  predicate RangeChecked(pos: int, n: int, data: seq<byte>) {
    0 <= pos <= |data| && -TWO_63 <= n < TWO_63 && Wrap(pos + n) <= |data|
  }

  predicate IndexChecked(ix: Index, data: seq<byte>) {
    RangeChecked(ix.keyPos, ix.keyLen, data) && (ix.valueLen != 0 ==> RangeChecked(ix.valuePos, ix.valueLen, data))
  }

  predicate Checked(index: seq<Index>, data: seq<byte>) { forall i :: 0 <= i < |index| ==> IndexChecked(index[i], data) }

  /** Slicing a checked range works exactly when the range lies in the data. */
  lemma SliceExact(ix: Index, data: seq<byte>, capacity: nat)
    requires IndexChecked(ix, data) && |data| < TWO_63 && |data| <= capacity
    ensures InBounds(ix, data) <==>
      ix.keyPos <= Wrap(ix.keyPos + ix.keyLen) <= capacity &&
      (ix.valueLen != 0 ==> ix.valuePos <= Wrap(ix.valuePos + ix.valueLen) <= capacity)
    ensures InBounds(ix, data) ==> Wrap(ix.keyPos + ix.keyLen) == ix.keyPos + ix.keyLen
    ensures InBounds(ix, data) && ix.valueLen != 0 ==> Wrap(ix.valuePos + ix.valueLen) == ix.valuePos + ix.valueLen
  {
  }

  lemma EmitChecked(data: seq<byte>, o: nat)
    requires o < |data| && DecodeRecord(data, o).Emit?
    ensures IndexChecked(DecodeRecord(data, o).index, data)
  {
    hide ScanFrom;
    RoomIs64Bits();
  }

  /** Whatever becomes of the loop, every record handed over passed the decoder's checks. */
  lemma {:induction false} EmittedChecked(data: seq<byte>, n: nat)
    ensures Checked(LoopAfter(data, n).idx, data)
  {
    hide DecodeRecord, IndexChecked;
    if n > 0 {
      EmittedChecked(data, n - 1);
      var s := LoopAfter(data, n - 1);
      if s.At? && 0 <= s.o < |data| && DecodeRecord(data, s.o).Emit? { EmitChecked(data, s.o); }
    }
  }

  lemma SameAsItself(index: seq<Index>)
    ensures SameIndexes(index, index)
  {
  }
}
