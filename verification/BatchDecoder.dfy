/** The batch decoder: its loop as written, with 64-bit arithmetic, on any input. */
module BatchDecoder {
  import opened Basics
  import opened Varint
  import opened BatchFormat

  // ---------------------------------------------------------------- one turn

  /** Go's `int(x)` for a uint64. */
  function ToInt(x: nat): (r: int) { if x < TWO_63 then x else x - TWO_64 }

  /** A sum of two ints brought back into 64 bits. */
  function Wrap(s: int): (r: int) { if s >= TWO_63 then s - TWO_64 else if s < -TWO_63 then s + TWO_64 else s }

  datatype StepResult = Emit(index: Index, next: int) | Bad | Panic

  /** One turn of the decodeBatch loop at offset o.  The bounds check adds in 64 bits, so a huge
      length passes it; slicing at an offset outside the data then panics. */
  function DecodeRecord(data: seq<byte>, o: nat): (r: StepResult)
    requires o < |data|
  {
    var kt := data[o];
    if kt > VAL then Bad
    else match Uvarint(data[o + 1..])
      case None => Bad
      case Some(k) =>
        var keyPos, keyLen := o + 1 + k.n, ToInt(k.x);
        var keyEnd := Wrap(keyPos + keyLen);
        if keyEnd > |data| then Bad
        else if kt == DEL then Emit(Index(kt, keyPos, keyLen, 0, 0), keyEnd)
        else if keyEnd < 0 then Panic
        else match Uvarint(data[keyEnd..])
          case None => Bad
          case Some(v) =>
            var valuePos, valueLen := keyEnd + v.n, ToInt(v.x);
            var valueEnd := Wrap(valuePos + valueLen);
            if valueEnd > |data| then Bad
            else Emit(Index(kt, keyPos, keyLen, valuePos, valueLen), valueEnd)
  }

  /** No length the turn reads wraps the 64-bit bounds check: a condition on the input alone. */
  predicate NoWrap(data: seq<byte>, o: nat)
    requires o < |data|
  {
    data[o] <= VAL && Uvarint(data[o + 1..]).Some? ==>
      var k := Uvarint(data[o + 1..]).value;
      var keyEnd := o + 1 + k.n + k.x;
      && keyEnd < TWO_63
      && (data[o] == VAL && keyEnd <= |data| ==> ValueNoWrap(data, keyEnd))
  }

  predicate ValueNoWrap(data: seq<byte>, at: nat)
    requires at <= |data|
  {
    Uvarint(data[at..]).Some? ==> at + Uvarint(data[at..]).value.n + Uvarint(data[at..]).value.x < TWO_63
  }

  /** A key length so large that it points backwards, to a place inside the data that does not
      hold an acceptable value length: the mistake is reported as corruption after all. */
  predicate BackwardRejected(data: seq<byte>, o: nat)
    requires o < |data|
  {
    && data[o] == VAL && Uvarint(data[o + 1..]).Some?
    && var k := Uvarint(data[o + 1..]).value;
       var back := o + 1 + k.n + k.x - TWO_64;
       && k.x >= TWO_63 && 0 <= back <= |data|
       && (Uvarint(data[back..]).None? ||
           var v := Uvarint(data[back..]).value; |data| < back + v.n + v.x < TWO_63)
  }

  /** A turn of the loop stays inside the data and moves on, or reports corruption, if and only if
      no length it reads wraps, or the wrap happens to be rejected. */
  lemma TurnExact(data: seq<byte>, o: nat)
    requires o < |data| < TWO_63
    ensures NoWrap(data, o) || BackwardRejected(data, o) <==>
      match DecodeRecord(data, o)
      case Emit(ix, next) => InBounds(ix, data) && o < next <= |data|
      case Bad => true
      case Panic => false
  {
    hide ScanFrom;
    RoomIs64Bits();
  }

  /** A record handed over lies in the data if and only if no length wrapped; then the loop moves on. */
  lemma EmitExact(data: seq<byte>, o: nat)
    requires o < |data| < TWO_63 && DecodeRecord(data, o).Emit?
    ensures var s := DecodeRecord(data, o);
      && (InBounds(s.index, data) <==> NoWrap(data, o))
      && (InBounds(s.index, data) ==> o < s.next <= |data|)
  {
    hide ScanFrom;
    RoomIs64Bits();
  }

  lemma TurnIsRecord(data: seq<byte>, o: nat, ix: Index, e: nat)
    requires o < |data| < TWO_63
    ensures RecordAt(data, o, ix, e) <==>
      DecodeRecord(data, o) == Emit(ix, e) && InBounds(ix, data) && o < e <= |data|
  {
    hide ScanFrom, NoWrap, BackwardRejected;
    RoomIs64Bits();
    TurnExact(data, o);
  }

  // ---------------------------------------------------------------- the loop

  /** Before a turn at offset o, with the records handed over so far; or how the loop ended. */
  datatype Loop =
    | At(o: int, idx: seq<Index>)
    | Accepted(idx: seq<Index>)
    | Rejected(idx: seq<Index>)
    | Panicked(idx: seq<Index>)

  /** One turn of `for o < len(data)`.  Nothing but the source's own checks is made on o. */
  function Turn(data: seq<byte>, s: Loop): (r: Loop) {
    match s
    case At(o, idx) =>
      if o >= |data| then Accepted(idx)
      else if o < 0 then Panicked(idx)
      else (match DecodeRecord(data, o)
        case Emit(ix, next) => At(next, idx + [ix])
        case Bad => Rejected(idx)
        case Panic => Panicked(idx))
    case _ => s
  }

  function LoopAfter(data: seq<byte>, turns: nat): (r: Loop) {
    if turns == 0 then At(0, []) else Turn(data, LoopAfter(data, turns - 1))
  }

  /** How decodeBatch ends; At when it does not. */
  function Fate(data: seq<byte>): (r: Loop) { LoopAfter(data, |data| + 1) }

  /** The loop body runs at the offset of the given turn. */
  predicate Visits(data: seq<byte>, turn: nat) {
    var s := LoopAfter(data, turn); s.At? && 0 <= s.o < |data|
  }

  lemma {:induction false} Ended(data: seq<byte>, i: nat, j: nat)
    requires i <= j && !LoopAfter(data, i).At?
    ensures LoopAfter(data, j) == LoopAfter(data, i)
    decreases j
  {
    hide DecodeRecord;
    if i < j { Ended(data, i, j - 1); }
  }

  /** Records handed over stay handed over. */
  lemma {:induction false} IndexGrows(data: seq<byte>, i: nat, j: nat)
    requires i <= j
    ensures LoopAfter(data, i).idx <= LoopAfter(data, j).idx
    decreases j
  {
    hide DecodeRecord;
    if i < j { IndexGrows(data, i, j - 1); }
  }

  // ---------------------------------------------------------------- endless runs

  lemma {:induction false} DistinctBound(s: seq<int>, n: nat)
    requires forall i :: 0 <= i < |s| ==> 0 <= s[i] < n
    requires forall i, j :: 0 <= i < j < |s| ==> s[i] != s[j]
    ensures |s| <= n
  {
    var used := set i | 0 <= i < |s| :: s[i];
    SeqSetCount(s);
    SubsetCount(used, Below(n));
  }

  /** The numbers below n. */
  ghost function Below(n: nat): (r: set<int>)
    ensures |r| == n && forall i: int :: i in r <==> 0 <= i < n
  {
    if n == 0 then {} else Below(n - 1) + {n - 1}
  }

  lemma {:induction false} SeqSetCount(s: seq<int>)
    requires forall i, j :: 0 <= i < j < |s| ==> s[i] != s[j]
    ensures |set i | 0 <= i < |s| :: s[i]| == |s|
  {
    if s != [] {
      var front := s[..|s| - 1];
      SeqSetCount(front);
      assert forall i :: 0 <= i < |front| ==> front[i] == s[i];
      assert (set i | 0 <= i < |s| :: s[i]) == (set i | 0 <= i < |front| :: front[i]) + {s[|s| - 1]};
    }
  }

  lemma {:induction false} SubsetCount(a: set<int>, b: set<int>)
    requires a <= b
    ensures |a| <= |b|
  {
    assert |b - a| == |b| - |a|;
  }

  /** Two turns at the same offset: the loop repeats from then on. */
  lemma {:induction false} Repeats(data: seq<byte>, i: nat, j: nat, n: nat)
    requires i < j <= n && LoopAfter(data, i).At? && LoopAfter(data, j).At?
    requires LoopAfter(data, i).o == LoopAfter(data, j).o
    ensures LoopAfter(data, n).At? && LoopAfter(data, n - (j - i)).At?
    ensures LoopAfter(data, n).o == LoopAfter(data, n - (j - i)).o
    decreases n
  {
    hide DecodeRecord;
    if n > j {
      Repeats(data, i, j, n - 1);
      var m := n - (j - i);
      assert m <= n - 1;
      if !LoopAfter(data, m).At? { Ended(data, m, n - 1); }
    }
  }

  /** |data| + 1 turns decide: a loop that has not ended by then never ends. */
  lemma FateDecides(data: seq<byte>, n: nat)
    ensures Fate(data).At? ==> LoopAfter(data, n).At?
    ensures !Fate(data).At? && n > |data| ==> LoopAfter(data, n) == Fate(data)
  {
    hide DecodeRecord;
    var last := |data| + 1;
    if !Fate(data).At? {
      if n > |data| { Ended(data, last, n); }
    } else {
      forall k | 0 <= k <= last ensures LoopAfter(data, k).At? {
        if !LoopAfter(data, k).At? { Ended(data, k, last); }
      }
      forall k | 0 <= k < last ensures 0 <= LoopAfter(data, k).o < |data| {
        assert LoopAfter(data, k + 1) == Turn(data, LoopAfter(data, k));
      }
      var offs := seq(last, k requires 0 <= k < last => LoopAfter(data, k).o);
      if forall i, j :: 0 <= i < j < |offs| ==> offs[i] != offs[j] {
        DistinctBound(offs, |data|);
        assert false;
      }
      var i, j :| 0 <= i < j < |offs| && offs[i] == offs[j];
      if n < j {
      } else {
        Repeats(data, i, j, n);
      }
    }
  }

  // ---------------------------------------------------------------- when decoding is right

  /** While no length wraps unnoticed, the records handed over tile the data read so far. */
  lemma {:induction false} SafeProgress(data: seq<byte>, n: nat)
    requires |data| < TWO_63
    requires forall i :: 0 <= i < n && Visits(data, i) ==>
      NoWrap(data, LoopAfter(data, i).o) || BackwardRejected(data, LoopAfter(data, i).o)
    ensures var s := LoopAfter(data, n); !s.Panicked? && AllInBounds(s.idx, data)
    ensures var s := LoopAfter(data, n); s.At? ==> n <= s.o <= |data| && Tiles(data, 0, s.idx, s.o)
    ensures var s := LoopAfter(data, n); s.Accepted? ==> Tiles(data, 0, s.idx, |data|)
  {
    hide DecodeRecord, NoWrap, BackwardRejected, InBounds, Tiles, RecordAt;
    if n == 0 {
      TilesNothing(data);
    } else {
      SafeProgress(data, n - 1);
      var s := LoopAfter(data, n - 1);
      if s.At? && s.o < |data| {
        assert Visits(data, n - 1);
        TurnExact(data, s.o);
        var t := DecodeRecord(data, s.o);
        if t.Emit? {
          TurnIsRecord(data, s.o, t.index, t.next);
          TilesOne(data, s.o, t.index, t.next);
          TilesJoin(data, 0, s.idx, s.o, [t.index], t.next);
        }
      }
    }
  }

  lemma TilesNothing(data: seq<byte>)
    ensures Tiles(data, 0, [], 0)
  {
  }

  lemma TilesOne(data: seq<byte>, o: nat, ix: Index, e: nat)
    requires RecordAt(data, o, ix, e)
    ensures Tiles(data, o, [ix], e)
  {
    hide RecordAt;
    RecordShape(data, o, ix);
    assert [ix][1..] == [];
  }

  /** Every turn the loop makes is free of unnoticed wrapping. */
  ghost predicate AllSafe(data: seq<byte>) {
    forall i: nat :: Visits(data, i) ==> NoWrap(data, LoopAfter(data, i).o) || BackwardRejected(data, LoopAfter(data, i).o)
  }

  /** On any input: the loop ends without a panic and with every record in the data if and only if
      no turn it makes wraps a length unnoticed. */
  lemma DecodeExact(data: seq<byte>)
    requires |data| < TWO_63
    ensures AllSafe(data) <==>
      (Fate(data).Accepted? || Fate(data).Rejected?) && AllInBounds(Fate(data).idx, data)
    ensures AllSafe(data) <==> ScanSafe(data, 0)
  {
    hide NoWrap, BackwardRejected, InBounds, DecodeRecord, LoopAfter, ScanSafe;
    SafeExact(data);
    if AllSafe(data) {
      SafeProgress(data, |data| + 1);
    } else {
      var i: nat :| Visits(data, i) && !NoWrap(data, LoopAfter(data, i).o) && !BackwardRejected(data, LoopAfter(data, i).o);
      UnsafeTurn(data, i);
    }
  }

  /** Where the record at o ends, read in unbounded arithmetic; None if there is no record in the data. */
  function RecordEndAt(data: seq<byte>, o: nat): (e: Option<nat>)
    requires o < |data|
    ensures e.Some? ==> o < e.value <= |data|
  {
    if data[o] > VAL then None
    else match Uvarint(data[o + 1..])
      case None => None
      case Some(k) =>
        var keyEnd := o + 1 + k.n + k.x;
        if keyEnd > |data| then None
        else if data[o] == DEL then Some(keyEnd)
        else match Uvarint(data[keyEnd..])
          case None => None
          case Some(v) => if keyEnd + v.n + v.x <= |data| then Some(keyEnd + v.n + v.x) else None
  }

  /** The same condition, found by one scan of the input that never leaves it: from o on, record after
      record, no length wraps the 64-bit check unnoticed. */
  predicate ScanSafe(data: seq<byte>, o: nat)
    decreases |data| - o
  {
    o < |data| ==>
      && (NoWrap(data, o) || BackwardRejected(data, o))
      && (RecordEndAt(data, o).Some? ==> ScanSafe(data, RecordEndAt(data, o).value))
  }

  lemma SafeTurnEnd(data: seq<byte>, o: nat)
    requires o < |data| < TWO_63 && (NoWrap(data, o) || BackwardRejected(data, o))
    ensures var s := DecodeRecord(data, o);
      !s.Panic? && RecordEndAt(data, o) == if s.Emit? then Some(s.next) else None
  {
    hide ScanFrom;
    RoomIs64Bits();
  }

  /** A safe scan stays with the loop. */
  lemma {:induction false} ScanFollows(data: seq<byte>, n: nat)
    requires |data| < TWO_63 && ScanSafe(data, 0)
    ensures var s := LoopAfter(data, n); s.At? ==> s.o >= 0 && ScanSafe(data, s.o)
  {
    hide DecodeRecord, NoWrap, BackwardRejected, RecordEndAt;
    if n > 0 {
      ScanFollows(data, n - 1);
      var s := LoopAfter(data, n - 1);
      if s.At? && s.o < |data| { SafeTurnEnd(data, s.o); }
    }
  }

  lemma {:induction false} LoopFollows(data: seq<byte>, n: nat)
    requires |data| < TWO_63 && AllSafe(data) && LoopAfter(data, n).At? && LoopAfter(data, n).o >= 0
    ensures ScanSafe(data, LoopAfter(data, n).o)
    decreases |data| - LoopAfter(data, n).o
  {
    hide DecodeRecord, NoWrap, BackwardRejected, RecordEndAt;
    var o := LoopAfter(data, n).o;
    if o < |data| {
      assert Visits(data, n);
      SafeTurnEnd(data, o);
      if RecordEndAt(data, o).Some? {
        OneMore(data, n);
        LoopFollows(data, n + 1);
      }
    }
  }

  /** So whether the loop is safe can be read off the input without running it. */
  lemma SafeExact(data: seq<byte>)
    requires |data| < TWO_63
    ensures AllSafe(data) <==> ScanSafe(data, 0)
  {
    hide DecodeRecord, NoWrap, BackwardRejected, RecordEndAt;
    LoopStart(data);
    if AllSafe(data) { LoopFollows(data, 0); }
    if ScanSafe(data, 0) {
      forall i: nat | Visits(data, i)
        ensures NoWrap(data, LoopAfter(data, i).o) || BackwardRejected(data, LoopAfter(data, i).o)
      {
        ScanFollows(data, i);
      }
    }
  }

  lemma UnsafeTurn(data: seq<byte>, i: nat)
    requires |data| < TWO_63 && Visits(data, i)
    requires !NoWrap(data, LoopAfter(data, i).o) && !BackwardRejected(data, LoopAfter(data, i).o)
    ensures (Fate(data).Accepted? || Fate(data).Rejected?) ==> !AllInBounds(Fate(data).idx, data)
  {
    hide NoWrap, BackwardRejected, InBounds, DecodeRecord;
    var s := LoopAfter(data, i);
    var t := DecodeRecord(data, s.o);
    TurnExact(data, s.o);
    if !Fate(data).At? {
      if i > |data| { Ended(data, |data| + 1, i); }
      assert i + 1 <= |data| + 1;
      IndexGrows(data, i + 1, |data| + 1);
      assert LoopAfter(data, i + 1) == Turn(data, s);
      if t.Emit? {
        EmitExact(data, s.o);
        assert LoopAfter(data, i + 1).idx[|s.idx|] == t.index;
        assert Fate(data).idx[|s.idx|] == t.index;
      } else {
        Ended(data, i + 1, |data| + 1);
      }
    }
  }

  /** An accepted input is tiled by the records handed over if and only if they all lie in it, which
      is to say if and only if no turn wrapped a length. */
  lemma AcceptedExact(data: seq<byte>)
    requires |data| < TWO_63 && Fate(data).Accepted?
    ensures Tiles(data, 0, Fate(data).idx, |data|) <==> AllInBounds(Fate(data).idx, data)
    ensures Tiles(data, 0, Fate(data).idx, |data|) <==>
      forall i: nat :: Visits(data, i) ==> NoWrap(data, LoopAfter(data, i).o)
  {
    hide NoWrap, BackwardRejected, InBounds, DecodeRecord, LoopAfter, Tiles;
    DecodeExact(data);
    if AllSafe(data) { SafeProgress(data, |data| + 1); }
    if Tiles(data, 0, Fate(data).idx, |data|) { TilesInBounds(data, 0, Fate(data).idx, |data|); }
    forall i: nat | Visits(data, i) && AllSafe(data) ensures NoWrap(data, LoopAfter(data, i).o) {
      AcceptedTurn(data, i);
    }
  }

  /** On the way to acceptance no turn is rejected. */
  lemma AcceptedTurn(data: seq<byte>, i: nat)
    requires |data| < TWO_63 && Fate(data).Accepted? && Visits(data, i)
    requires NoWrap(data, LoopAfter(data, i).o) || BackwardRejected(data, LoopAfter(data, i).o)
    ensures NoWrap(data, LoopAfter(data, i).o)
  {
    hide NoWrap, BackwardRejected, InBounds, DecodeRecord;
    var s := LoopAfter(data, i);
    if i > |data| { Ended(data, |data| + 1, i); }
    TurnExact(data, s.o);
    assert LoopAfter(data, i + 1) == Turn(data, s);
    if !DecodeRecord(data, s.o).Emit? {
      Ended(data, i + 1, |data| + 1);
    } else {
      EmitExact(data, s.o);
    }
  }

  /** Data tiled by some records is accepted, with exactly those records. */
  lemma TiledAccepted(data: seq<byte>, idx: seq<Index>)
    requires |data| < TWO_63 && Tiles(data, 0, idx, |data|)
    ensures Fate(data) == Accepted(idx)
  {
    hide DecodeRecord, LoopAfter, Tiles;
    assert idx[0..] == idx;
    var n := |idx|;
    TiledTurns(data, idx, n);
    assert idx[..n] == idx && idx[n..] == [];
    TilesEnd(data, LoopAfter(data, n).o, |data|);
    OneMore(data, n);
    Ended(data, n + 1, |data| + 1);
  }

  lemma TilesEnd(data: seq<byte>, o: nat, e: nat)
    requires Tiles(data, o, [], e)
    ensures o == e
  {
  }

  lemma OneMore(data: seq<byte>, n: nat)
    ensures LoopAfter(data, n + 1) == Turn(data, LoopAfter(data, n))
  {
    hide DecodeRecord;
  }

  lemma {:induction false} TiledTurns(data: seq<byte>, idx: seq<Index>, i: nat)
    requires |data| < TWO_63 && Tiles(data, 0, idx, |data|) && i <= |idx|
    ensures var s := LoopAfter(data, i);
      s.At? && s.idx == idx[..i] && i <= s.o <= |data| && Tiles(data, s.o, idx[i..], |data|)
  {
    hide DecodeRecord, RecordAt;
    if i == 0 {
      assert idx[0..] == idx;
    } else {
      TiledTurns(data, idx, i - 1);
      var o := LoopAfter(data, i - 1).o;
      var rest := idx[i - 1..];
      assert rest[0] == idx[i - 1] && rest[1..] == idx[i..];
      var e := RecordEnd(rest[0]);
      RecordShape(data, o, rest[0]);
      TurnIsRecord(data, o, rest[0], e);
      assert idx[..i - 1] + [idx[i - 1]] == idx[..i];
    }
  }

  // ---------------------------------------------------------------- what can go wrong

  /** 0xff in all but the first and the last byte of a ten-byte varint: 2^64 - 128 + first - 0x80. */
  lemma ScanHuge(v: seq<byte>)
    requires |v| == 10 && v[0] >= 128 && v[9] == 1 && forall i :: 0 < i < 9 ==> v[i] == 0xff
    ensures Uvarint(v) == Some(Scanned(TWO_64 - 256 + v[0], 10))
  {
    hide ScanFrom;
    assert v[9..] == [1];
    ScanLast(9);
    ScanStep(v, 8, Scanned(1, 1));
    ScanStep(v, 7, Scanned(255, 2));
    ScanStep(v, 6, Scanned(0x7fff, 3));
    ScanStep(v, 5, Scanned(0x3f_ffff, 4));
    ScanStep(v, 4, Scanned(0x1fff_ffff, 5));
    ScanStep(v, 3, Scanned(0xf_ffff_ffff, 6));
    ScanStep(v, 2, Scanned(0x7ff_ffff_ffff, 7));
    ScanStep(v, 1, Scanned(0x3_ffff_ffff_ffff, 8));
    ScanStep(v, 0, Scanned(0x1ff_ffff_ffff_ffff, 9));
    assert v[0..] == v;
  }

  lemma ScanLast(i: nat)
    requires i < 10
    ensures ScanFrom([1], i) == Some(Scanned(1, 1))
  {
  }

  lemma ScanStep(v: seq<byte>, i: nat, s: Scanned)
    requires i < 9 && i + 1 < |v| && v[i] >= 128
    requires ScanFrom(v[i + 1..], i + 1) == Some(s)
    ensures ScanFrom(v[i..], i) == Some(Scanned(v[i] - 128 + 128 * s.x, s.n + 1))
  {
    assert v[i..][1..] == v[i + 1..];
  }

  /** On these eleven bytes the loop hands over an out-of-bounds record, returns to offset 0, and
      so never ends. */
  lemma {:induction false} DecoderCanLoop(n: nat)
    ensures var data: seq<byte> := [0, 0xf5, 0xff, 0xff, 0xff, 0xff, 0xff, 0xff, 0xff, 0xff, 1];
      LoopAfter(data, n).At? && LoopAfter(data, n).o == 0 && |LoopAfter(data, n).idx| == n
  {
    hide Uvarint, DecodeRecord;
    var data: seq<byte> := [0, 0xf5, 0xff, 0xff, 0xff, 0xff, 0xff, 0xff, 0xff, 0xff, 1];
    ScanHuge(data[1..]);
    DeleteTurn(data, 0, TWO_64 - 11, 10);
    if n > 0 {
      DecoderCanLoop(n - 1);
      OneMore(data, n - 1);
    }
  }

  /** On these fifteen bytes the loop reports success with three records, one of them outside the
      data and two of them overlapping. */
  lemma DecoderCanAcceptWrongly()
    ensures var data: seq<byte> := [0, 2, 0, 11, 0, 0xf3, 0xff, 0xff, 0xff, 0xff, 0xff, 0xff, 0xff, 0xff, 1];
      Fate(data) == Accepted([Index(DEL, 2, 2, 0, 0), Index(DEL, 15, -13, 0, 0), Index(DEL, 4, 11, 0, 0)])
  {
    hide Uvarint, LoopAfter, DecodeRecord;
    var data: seq<byte> := [0, 2, 0, 11, 0, 0xf3, 0xff, 0xff, 0xff, 0xff, 0xff, 0xff, 0xff, 0xff, 1];
    ScanHuge(data[5..]);
    ScanSmall(data[1..]);
    ScanSmall(data[3..]);
    DeleteTurn(data, 0, 2, 1);
    DeleteTurn(data, 4, TWO_64 - 13, 10);
    DeleteTurn(data, 2, 11, 1);
    LoopStart(data);
    OneMore(data, 0);
    OneMore(data, 1);
    OneMore(data, 2);
    OneMore(data, 3);
    Ended(data, 4, |data| + 1);
  }

  /** A turn at a delete record whose length reads as x. */
  lemma DeleteTurn(data: seq<byte>, o: nat, x: nat, n: nat)
    requires o < |data| && data[o] == DEL && Uvarint(data[o + 1..]) == Some(Scanned(x, n))
    ensures var keyEnd := Wrap(o + 1 + n + ToInt(x));
      keyEnd <= |data| ==> DecodeRecord(data, o) == Emit(Index(DEL, o + 1 + n, ToInt(x), 0, 0), keyEnd)
  {
    hide Uvarint;
  }

  lemma LoopStart(data: seq<byte>)
    ensures LoopAfter(data, 0) == At(0, [])
  {
  }

  lemma ScanSmall(v: seq<byte>)
    requires v != [] && v[0] < 128
    ensures Uvarint(v) == Some(Scanned(v[0], 1))
  {
  }

  /** On these eleven bytes the loop leaves the data at the front, and the next turn panics. */
  lemma DecoderCanPanic()
    ensures var data: seq<byte> := [0, 0xf4, 0xff, 0xff, 0xff, 0xff, 0xff, 0xff, 0xff, 0xff, 1];
      Fate(data) == Panicked([Index(DEL, 11, -12, 0, 0)])
  {
    hide Uvarint, LoopAfter, DecodeRecord;
    var data: seq<byte> := [0, 0xf4, 0xff, 0xff, 0xff, 0xff, 0xff, 0xff, 0xff, 0xff, 1];
    ScanHuge(data[1..]);
    DeleteTurn(data, 0, TWO_64 - 12, 10);
    LoopStart(data);
    OneMore(data, 0);
    OneMore(data, 1);
    Ended(data, 2, |data| + 1);
  }

  // ---------------------------------------------------------------- round trips

  /** Decoding what was encoded gives the records back. */
  lemma DecodeEncode(rs: seq<Rec>)
    requires |EncodeAll(rs)| < TWO_63
    ensures var d, idx := EncodeAll(rs), IndexAll(rs);
      Fate(d) == Accepted(idx) && AllInBounds(idx, d) && RecsOf(idx, d) == rs
  {
    hide Fate, Tiles, EncodeAll, IndexAll, RecOf, InBounds;
    EncodedTiles(rs);
    TiledAccepted(EncodeAll(rs), IndexAll(rs));
  }

  /** Any input accepted with its records inside it, minimal varints or not, can be encoded again
      from those records, and decoding that gives the same records. */
  lemma ReencodeDecodes(data: seq<byte>, idx: seq<Index>)
    requires |data| < TWO_63 && Fate(data) == Accepted(idx) && AllInBounds(idx, data)
    ensures |EncodeAll(RecsOf(idx, data))| <= |data|
    ensures var d := EncodeAll(RecsOf(idx, data)); var r := Fate(d);
      r.Accepted? && AllInBounds(r.idx, d) && RecsOf(r.idx, d) == RecsOf(idx, data)
  {
    hide Fate, Tiles, EncodeAll, IndexAll, RecOf, InBounds;
    AcceptedExact(data);
    NotLonger(data, 0, idx, |data|);
    DecodeEncode(RecsOf(idx, data));
  }
}
