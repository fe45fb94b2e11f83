/** The byte buffer: a window off..len of a backing array, behaving as a queue of bytes. */
module ByteBuffer {
  import opened Basics
  import opened BufferShape

  const MIN_READ := 512

  /** What a reader delivers, and what it reports with the last byte of it. */
  datatype ReadEnd = More | Eof | Failed

  datatype Chunk = Chunk(data: seq<byte>, end: ReadEnd)

  /** The bytes a reader delivers up to its first end of file or error. */
  function Delivered(script: seq<Chunk>): (r: seq<byte>) {
    if script == [] then []
    else if script[0].end.More? then script[0].data + Delivered(script[1..])
    else script[0].data
  }

  /** A reader with nothing left to say reports the end of file. */
  predicate Fails(script: seq<Chunk>) {
    script != [] && (script[0].end.Failed? || (script[0].end.More? && Fails(script[1..])))
  }

  lemma ScriptCases(script: seq<Chunk>)
    ensures script == [] ==> Delivered(script) == [] && !Fails(script)
    ensures script != [] && script[0].end.More? ==>
      Delivered(script) == script[0].data + Delivered(script[1..]) && Fails(script) == Fails(script[1..])
    ensures script != [] && !script[0].end.More? ==>
      Delivered(script) == script[0].data && Fails(script) == script[0].end.Failed?
  {
  }

  /** A reader may hand over a chunk in two parts. */
  lemma SplitHead(script: seq<Chunk>, m: nat)
    requires script != [] && m <= |script[0].data|
    ensures var c := script[0]; var rest := [Chunk(c.data[m..], c.end)] + script[1..];
      Delivered(script) == c.data[..m] + Delivered(rest) && Fails(rest) == Fails(script)
  {
    var c := script[0];
    var rest := [Chunk(c.data[m..], c.end)] + script[1..];
    hide Delivered, Fails;
    ScriptCases(script);
    ScriptCases(rest);
    assert rest[1..] == script[1..];
    assert c.data == c.data[..m] + c.data[m..];
    if c.end.More? {
      assert c.data[..m] + (c.data[m..] + Delivered(script[1..])) == c.data + Delivered(script[1..]);
    }
  }

  /** got is what has come of reader when script is left. */
  predicate Came(got: seq<byte>, script: seq<Chunk>, reader: seq<Chunk>) {
    got + Delivered(script) == Delivered(reader) && Fails(script) == Fails(reader)
  }

  lemma NothingCame(reader: seq<Chunk>)
    ensures Came([], reader, reader) && Offered([])
  {
  }

  lemma MoreCame(got: seq<byte>, script: seq<Chunk>, reader: seq<Chunk>, data: seq<byte>, rest: seq<Chunk>)
    requires Came(got, script, reader) && Delivered(script) == data + Delivered(rest) && Fails(script) == Fails(rest)
    ensures Came(got + data, rest, reader)
  {
    hide Delivered, Fails;
    Regroup(got, data, Delivered(rest));
  }

  lemma LastCame(got: seq<byte>, script: seq<Chunk>, reader: seq<Chunk>, data: seq<byte>, failed: bool)
    requires Came(got, script, reader) && Delivered(script) == data && Fails(script) == failed
    ensures Delivered(reader) == got + data && Fails(reader) == failed
  {
  }

  /** Every call of a reader is offered at least MinRead bytes. */
  predicate Offered(offers: seq<nat>) { forall i :: 0 <= i < |offers| ==> offers[i] >= 512 }

  lemma OfferedSnoc(offers: seq<nat>, offered: nat)
    requires Offered(offers) && offered >= 512
    ensures Offered(offers + [offered])
  {
  }

  lemma Regroup(a: seq<byte>, b: seq<byte>, c: seq<byte>)
    ensures (a + b) + c == a + (b + c)
  {
  }

  /** `bytes.IndexByte`, with |s| for "absent". */
  function IndexByte(s: seq<byte>, c: byte): (i: nat)
    ensures i <= |s| && c !in s[..i]
    ensures i < |s| ==> s[i] == c
  {
    if s == [] || s[0] == c then 0
    else
      var i := 1 + IndexByte(s[1..], c);
      assert s[..i] == [s[0]] + s[1..][..i - 1];
      i
  }

  /** The length of what ReadBytes takes off the front of s. */
  function LineLength(s: seq<byte>, delim: byte): (k: nat)
    ensures k <= |s|
  {
    var i := IndexByte(s, delim);
    if i < |s| then i + 1 else |s|
  }

  predicate EndsIn(line: seq<byte>, delim: byte) { line != [] && line[|line| - 1] == delim }

  datatype WriteResult = Written | WriterError | ShortWrite | InvalidCount

  /** A new array is made when less than MIN_READ bytes of the old one are not taken by unread bytes. */
  predicate Doubled(capacity: nat, unread: nat, capacity': nat) {
    capacity' == 2 * capacity + 512 && capacity - unread < 512
  }

  /** Since copied was before, nothing was moved, or all that was moved fits in the array. */
  predicate MovesPaid(before: nat, copied: nat, off: nat, capacity: nat) {
    before <= copied && (if off > 0 then copied == before else copied - before <= capacity)
  }

  lemma MovesCounted(before: nat, copied: nat, off: nat, capacity: nat)
    ensures MovesPaid(before, before, off, capacity)
    ensures MovesPaid(before, copied, off, capacity) ==> copied - before <= capacity
  {
  }

  /** So the capacity stays linear in the bytes to be held. */
  function Bound(capacity: nat, bytes: nat): (r: nat) {
    var grown := 2 * bytes + 3 * 512; if capacity > grown then capacity else grown
  }

  lemma BoundGrows(first: nat, capacity: nat, unread: nat, came: nat, same: bool, capacity': nat)
    requires capacity <= Bound(first, unread)
    requires (same && capacity' == capacity) || Doubled(capacity, unread, capacity')
    ensures same || capacity - unread < MIN_READ
    ensures capacity <= capacity' <= Bound(first, unread + came)
  {
  }

  lemma BoundStarts(first: nat, unread: nat)
    ensures first <= Bound(first, unread)
  {
  }

  class Buffer {
    var store: array<byte>
    var isNil: bool
    var len: nat
    var off: nat
    ghost var copied: nat
    ghost var consumed: nat

    ghost predicate Valid()
      reads this
    {
      off <= len <= store.Length && (isNil ==> store.Length == 0)
    }

    ghost function Shape(): (r: State)
      reads this
      requires Valid()
    {
      BufferShape.Shape(isNil, len, off, store.Length, copied, consumed)
    }

    ghost function Contents(): (r: seq<byte>)
      reads this, store
      requires Valid()
    {
      store[off..len]
    }

    /** The zero value. */
    constructor ()
      ensures Valid() && fresh(store) && Contents() == [] && Shape() == BufferShape.Shape(true, 0, 0, 0, 0, 0)
    {
      store := new byte[0];
      isNil, len, off, copied, consumed := true, 0, 0, 0, 0;
    }

    /** `NewBuffer`: takes over the first n bytes of buf and its spare capacity. */
    constructor Of(buf: array<byte>, n: nat)
      requires n <= buf.Length
      ensures Valid() && store == buf && Contents() == buf[..n]
      ensures Shape() == BufferShape.Shape(false, n, 0, buf.Length, 0, 0)
    {
      store := buf;
      isNil, len, off, copied, consumed := false, n, 0, 0, 0;
    }

    /** `copy(store[at:], p)` */
    method CopyIn(at: nat, p: seq<byte>)
      requires Valid() && off <= at && at + |p| <= store.Length
      modifies store
      ensures store[off..at + |p|] == old(store[off..at]) + p
    {
      forall i | 0 <= i < |p| { store[at + i] := p[i]; }
      ghost var after, kept := store[off..at + |p|], old(store[off..at]);
      forall i | 0 <= i < |after| ensures after[i] == (kept + p)[i] {
        if i >= |kept| { assert after[i] == store[at + (i - |kept|)]; }
      }
    }

    /** `copy(store, store[off:len])` within one array. */
    method SlideDown()
      requires Valid()
      modifies store
      ensures store[..len - off] == old(Contents())
    {
      forall i | 0 <= i < len - off { store[i] := store[off + i]; }
    }

    /** A larger array holding the unread bytes at its front. */
    method Reallocate(size: nat) returns (buf: array<byte>)
      requires Valid() && size >= len - off
      ensures fresh(buf) && buf.Length == size && buf[..len - off] == Contents()
    {
      buf := new byte[size](_ => 0);
      forall i | 0 <= i < len - off { buf[i] := store[off + i]; }
    }

    /** The out-of-space branch of grow: afterwards the unread bytes start the array. */
    method Relocate(n: nat)
      requires Valid() && len + n > store.Length && (len == off ==> off == 0)
      modifies this, store
      ensures store == old(store) || fresh(store)
      ensures off == 0 && !isNil && len == old(len) && consumed == old(consumed)
      ensures var s, g := old(Shape()), GrowShape(old(Shape()), n);
        store.Length == g.cap && copied == g.copied && len - s.off + n == g.len <= g.cap
      ensures store[..len - old(off)] == old(Contents())
    {
      var unread := len - off;
      if isNil && n <= BOOTSTRAP {
        // The array embedded in the object; used at most once, since store is never nil again.
        store := Reallocate(BOOTSTRAP);
      } else if unread + n <= store.Length / 2 {
        SlideDown();
        copied := copied + unread;
      } else {
        store := Reallocate(2 * store.Length + n);
        copied := copied + unread;
      }
      isNil, off := false, 0;
    }

    /** `grow`: the unread bytes stay the same and n bytes follow them, starting at index m. */
    method GrowBy(n: nat) returns (m: nat)
      requires Valid()
      modifies this, store
      ensures Valid() && (store == old(store) || fresh(store))
      ensures Shape() == GrowShape(old(Shape()), n)
      ensures m + n == len && off <= m && store[off..m] == old(Contents())
    {
      var unread := len - off;
      if unread == 0 && off != 0 {
        off, len := 0, 0;
      }
      if len + n > store.Length {
        Relocate(n);
      }
      len := off + unread + n;
      m := off + unread;
    }

    /** The new bytes are whatever the array held; the caller owns store[m..len]. */
    method Alloc(n: int) returns (panicked: bool, m: nat)
      requires Valid()
      modifies this, store
      ensures Valid() && (store == old(store) || fresh(store))
      ensures panicked <==> n < 0
      ensures panicked ==> Shape() == old(Shape()) && Contents() == old(Contents())
      ensures !panicked ==> m + n == len && off <= m && store[off..m] == old(Contents())
      ensures !panicked ==> Shape() == Step(old(Shape()), BufferShape.Alloc(n))
    {
      if n < 0 { return true, 0; }
      panicked := false;
      m := GrowBy(n);
    }

    method Grow(n: int) returns (panicked: bool)
      requires Valid()
      modifies this, store
      ensures Valid() && (store == old(store) || fresh(store)) && Contents() == old(Contents())
      ensures panicked <==> n < 0
      ensures Shape() == if n < 0 then old(Shape()) else Step(old(Shape()), BufferShape.Grow(n))
      ensures !panicked ==> len + n <= store.Length
    {
      if n < 0 { return true; }
      panicked := false;
      var m := GrowBy(n);
      len := m;
    }

    method Write(p: seq<byte>) returns (n: nat)
      requires Valid()
      modifies this, store
      ensures Valid() && (store == old(store) || fresh(store))
      ensures n == |p| && Contents() == old(Contents()) + p
      ensures Shape() == Step(old(Shape()), BufferShape.Write(|p|))
    {
      hide GrowShape;
      var m := GrowBy(|p|);
      CopyIn(m, p);
      n := |p|;
    }

    method WriteByte(c: byte)
      requires Valid()
      modifies this, store
      ensures Valid() && (store == old(store) || fresh(store))
      ensures Contents() == old(Contents()) + [c]
      ensures Shape() == Step(old(Shape()), BufferShape.WriteByte)
    {
      var m := GrowBy(1);
      store[m] := c;
      assert store[off..m] == old(Contents());
    }

    method Truncate(n: int) returns (panicked: bool)
      requires Valid()
      modifies this
      ensures Valid() && store == old(store)
      ensures panicked <==> n < 0 || n > |old(Contents())|
      ensures Contents() == if panicked then old(Contents()) else old(Contents())[..n]
      ensures Shape() == if n < 0 then old(Shape()) else Step(old(Shape()), BufferShape.Truncate(n))
    {
      if n < 0 || n > len - off { return true; }
      panicked := false;
      if n == 0 { off := 0; }
      len := off + n;
    }

    /** `Read` into a slice of k bytes; eof is only reported when bytes were asked for. */
    method Read(k: nat) returns (p: seq<byte>, eof: bool)
      requires Valid()
      modifies this
      ensures Valid() && store == old(store)
      ensures |p| == (if k <= |old(Contents())| then k else |old(Contents())|) && old(Contents()) == p + Contents()
      ensures eof <==> old(Contents()) == [] && k > 0
      ensures Shape() == Step(old(Shape()), BufferShape.Read(k))
    {
      if off >= len {
        off, len := 0, 0;
        return [], k != 0;
      }
      var n := if k <= len - off then k else len - off;
      p, eof := store[off..off + n], false;
      off, consumed := off + n, consumed + n;
    }

    method ReadByte() returns (c: byte, eof: bool)
      requires Valid()
      modifies this
      ensures Valid() && store == old(store)
      ensures eof <==> old(Contents()) == []
      ensures old(Contents()) == (if eof then [] else [c]) + Contents()
      ensures Shape() == Step(old(Shape()), BufferShape.ReadByte)
    {
      if off >= len {
        off, len := 0, 0;
        return 0, true;
      }
      c, eof := store[off], false;
      off, consumed := off + 1, consumed + 1;
    }

    /** `Next`; a negative count makes the slice expression panic. */
    method Next(n: int) returns (panicked: bool, data: seq<byte>)
      requires Valid()
      modifies this
      ensures Valid() && store == old(store)
      ensures panicked <==> n < 0
      ensures panicked ==> Shape() == old(Shape()) && Contents() == old(Contents())
      ensures !panicked ==>
        |data| == (if n <= |old(Contents())| then n else |old(Contents())|) && old(Contents()) == data + Contents()
      ensures !panicked ==> Shape() == Step(old(Shape()), BufferShape.Next(n))
    {
      if n < 0 { return true, []; }
      panicked := false;
      var m := if n <= len - off then n else len - off;
      data := store[off..off + m];
      off, consumed := off + m, consumed + m;
    }

    /** `ReadBytes`: up to and including the first delim, or everything with eof. */
    method ReadBytes(delim: byte) returns (line: seq<byte>, eof: bool)
      requires Valid()
      modifies this
      ensures Valid() && store == old(store)
      ensures old(Contents()) == line + Contents() && |line| == LineLength(old(Contents()), delim)
      ensures eof <==> !EndsIn(line, delim)
      ensures delim !in (if eof then line else line[..|line| - 1])
      ensures eof ==> Contents() == []
      ensures Shape() == Step(old(Shape()), ReadSlice(|line|))
    {
      ghost var unread := store[off..len];
      var i := IndexByte(store[off..len], delim);
      eof := i == len - off;
      var end := if eof then len else off + i + 1;
      line := store[off..end];
      assert line == unread[..end - off] && store[end..len] == unread[end - off..];
      assert unread == unread[..end - off] + unread[end - off..];
      assert (if eof then line else line[..|line| - 1]) == unread[..i];
      consumed := consumed + (end - off);
      off := end;
    }

    /** `ReadFrom`: appends exactly what the reader delivers.  offers records how many free bytes
        each call of the reader was given.  The array is replaced only when less than MIN_READ
        bytes of it would be left over, and all the bytes moved on the way fit in it at the end. */
    method ReadFrom(reader: seq<Chunk>) returns (n: nat, failed: bool, offers: seq<nat>)
      requires Valid()
      modifies this, store
      ensures Valid() && (store == old(store) || fresh(store))
      ensures consumed == old(consumed) && copied - old(copied) <= store.Length
      ensures old(store.Length) <= store.Length <= Bound(old(store.Length), |old(Contents())| + |Delivered(reader)|)
      ensures old(store.Length) - |old(Contents())| - |Delivered(reader)| >= 512 ==> store == old(store)
      ensures Contents() == old(Contents()) + Delivered(reader)
      ensures n == |Delivered(reader)| && failed == Fails(reader)
      ensures Offered(offers)
    {
      hide Delivered, Fails, Bound, Doubled, Offered, Came, MovesPaid;
      NothingCame(reader);
      ghost var q, room, before := Contents(), store.Length, copied;
      BoundStarts(room, |q|);
      if off >= len {
        off, len := 0, 0;
      }
      n, offers, failed := 0, [], false;
      MovesCounted(before, copied, off, store.Length);
      var script := reader;
      ghost var got: seq<byte> := [];
      while true
        invariant Valid() && (store == old(store) || fresh(store))
        invariant Contents() == q + got && n == |got|
        invariant consumed == old(consumed) && MovesPaid(before, copied, off, store.Length)
        invariant room <= store.Length <= Bound(room, |q| + |got|)
        invariant store == old(store) || room - |q| - |got| < MIN_READ
        invariant Came(got, script, reader) && Offered(offers)
        decreases |script|, if script == [] then 0 else |script[0].data|
      {
        ghost var had, was := got, store;
        var offered, data, end, rest := Pull(script, before);
        OfferedSnoc(offers, offered);
        offers, n := offers + [offered], n + |data|;
        got := had + data;
        BoundGrows(room, was.Length, |q| + |had|, |data|, store == was, store.Length);
        Regroup(q, had, data);
        if end != More {
          MovesCounted(before, copied, off, store.Length);
          LastCame(had, script, reader, data, end == Failed);
          return n, end.Failed?, offers;
        }
        MoreCame(had, script, reader, data, rest);
        script := rest;
      }
    }

    /** One turn of the ReadFrom loop: what was offered, what came, and what the reader has left. */
    method Pull(script: seq<Chunk>, ghost before: nat)
      returns (offered: nat, data: seq<byte>, end: ReadEnd, rest: seq<Chunk>)
      requires Valid() && MovesPaid(before, copied, off, store.Length)
      modifies this, store
      ensures Valid() && (store == old(store) || fresh(store))
      ensures consumed == old(consumed) && MovesPaid(before, copied, off, store.Length)
      ensures store == old(store) || Doubled(old(store.Length), |old(Contents())|, store.Length)
      ensures offered >= MIN_READ && Contents() == old(Contents()) + data
      ensures end.More? ==> Delivered(script) == data + Delivered(rest) && Fails(script) == Fails(rest)
      ensures end.More? ==> |rest| < |script| || (|rest| == |script| > 0 && |rest[0].data| < |script[0].data|)
      ensures !end.More? ==> Delivered(script) == data && Fails(script) == end.Failed?
    {
      hide Delivered, Fails;
      ScriptCases(script);
      MakeFree(before);
      offered := store.Length - len;
      if script == [] {
        return offered, [], Eof, [];
      }
      var chunk := script[0];
      var m := Receive(chunk.data);
      data := chunk.data[..m];
      if m < |chunk.data| {
        SplitHead(script, m);
        end, rest := More, [Chunk(chunk.data[m..], chunk.end)] + script[1..];
      } else {
        end, rest := chunk.end, script[1..];
      }
    }

    /** One call of the reader: it fills free space with the front of data. */
    method Receive(data: seq<byte>) returns (m: nat)
      requires Valid()
      modifies this, store
      ensures Valid() && store == old(store) && consumed == old(consumed) && copied == old(copied) && off == old(off)
      ensures m == if |data| <= store.Length - old(len) then |data| else store.Length - old(len)
      ensures Contents() == old(Contents()) + data[..m]
    {
      m := if |data| <= store.Length - len then |data| else store.Length - len;
      CopyIn(len, data[..m]);
      len := len + m;
    }

    /** The top of the ReadFrom loop: at least MIN_READ free bytes at the end. */
    method MakeFree(ghost before: nat)
      requires Valid() && MovesPaid(before, copied, off, store.Length)
      modifies this, store
      ensures Valid() && (store == old(store) || fresh(store))
      ensures consumed == old(consumed) && MovesPaid(before, copied, off, store.Length)
      ensures store == old(store) || Doubled(old(store.Length), |old(Contents())|, store.Length)
      ensures Contents() == old(Contents()) && store.Length - len >= MIN_READ
    {
      var free := store.Length - len;
      if free < MIN_READ {
        var unread := len - off;
        if off + free < MIN_READ {
          store := Reallocate(2 * store.Length + MIN_READ);
          isNil := false;
        } else {
          SlideDown();
        }
        copied := copied + unread;
        len, off := unread, 0;
      }
    }

    /** `WriteTo` a writer that, if called, reports m bytes written and werr. */
    method WriteTo(m: nat, werr: bool) returns (n: nat, r: WriteResult)
      requires Valid()
      modifies this
      ensures Valid() && store == old(store) && Shape() == Step(old(Shape()), BufferShape.WriteTo(m, werr))
      ensures var q := old(Contents());
        if q == [] then n == 0 && r == Written && Contents() == []
        else if m > |q| then r == InvalidCount && Contents() == q
        else n == m && Contents() == q[m..] && r == (if werr then WriterError else if m < |q| then ShortWrite else Written)
    {
      n := 0;
      if off < len {
        var nBytes := len - off;
        if m > nBytes { return 0, InvalidCount; }
        off, consumed, n := off + m, consumed + m, m;
        if werr { return n, WriterError; }
        if m != nBytes { return n, ShortWrite; }
      }
      off, len := 0, 0;
      r := Written;
    }
  }

  // ---------------------------------------------------------------- repeated ReadBytes

  /** The pieces that ReadBytes returns when it is called until it reports the end. */
  function Pieces(s: seq<byte>, delim: byte): (r: seq<seq<byte>>)
    decreases |s|
  {
    var k := LineLength(s, delim);
    if !EndsIn(s[..k], delim) then [s[..k]]
    else [s[..k]] + Pieces(s[k..], delim)
  }

  function Concat(ss: seq<seq<byte>>): (r: seq<byte>) {
    if ss == [] then [] else ss[0] + Concat(ss[1..])
  }

  predicate IsLine(p: seq<byte>, delim: byte) { EndsIn(p, delim) && delim !in p[..|p| - 1] }

  /** Every piece is a line, except the last, which holds no delimiter. */
  predicate LinesThenRest(ps: seq<seq<byte>>, delim: byte) {
    ps != [] && if |ps| == 1 then delim !in ps[0] else IsLine(ps[0], delim) && LinesThenRest(ps[1..], delim)
  }

  lemma FirstLine(s: seq<byte>, delim: byte)
    ensures var k := LineLength(s, delim);
      if EndsIn(s[..k], delim) then IsLine(s[..k], delim) else k == |s| && delim !in s
  {
    var k, i := LineLength(s, delim), IndexByte(s, delim);
    if i < |s| {
      assert s[..k][..k - 1] == s[..i];
    } else {
      assert s[..i] == s;
    }
  }

  /** The pieces are the content cut after every delimiter, and nowhere else. */
  lemma {:induction false} PiecesExact(s: seq<byte>, delim: byte)
    ensures Concat(Pieces(s, delim)) == s && LinesThenRest(Pieces(s, delim), delim)
    decreases |s|
  {
    hide LineLength, EndsIn, IsLine;
    FirstLine(s, delim);
    var k := LineLength(s, delim);
    var ps := Pieces(s, delim);
    if EndsIn(s[..k], delim) {
      PiecesShrink(s, delim);
      PiecesExact(s[k..], delim);
      assert s == s[..k] + s[k..];
      assert ps[1..] == Pieces(s[k..], delim);
    } else {
      assert s[..k] == s && ps[1..] == [];
    }
  }

  lemma PiecesShrink(s: seq<byte>, delim: byte)
    requires EndsIn(s[..LineLength(s, delim)], delim)
    ensures LineLength(s, delim) > 0
  {
  }
}
