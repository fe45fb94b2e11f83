/** Prefix ranges under the byte-wise lexicographic order. */
module KeyRange {
  import opened Basics

  predicate Less(a: seq<byte>, b: seq<byte>) {
    b != [] && (a == [] || a[0] < b[0] || (a[0] == b[0] && Less(a[1..], b[1..])))
  }

  predicate InRange(key: seq<byte>, start: seq<byte>, limit: Option<seq<byte>>) {
    !Less(key, start) && (limit.Some? ==> Less(key, limit.value))
  }

  /** The prefix up to its last byte below 0xff, with that byte incremented; None if there is none. */
  function Limit(prefix: seq<byte>): (r: Option<seq<byte>>) {
    if prefix == [] then None
    else
      var i := |prefix| - 1;
      if prefix[i] < 0xff then Some(prefix[..i] + [prefix[i] + 1]) else Limit(prefix[..i])
  }

  /** `BytesPrefix` */
  method BytesPrefix(prefix: seq<byte>) returns (start: seq<byte>, limit: Option<seq<byte>>)
    ensures start == prefix && limit == Limit(prefix)
    ensures forall key :: prefix <= key <==> InRange(key, start, limit)
  {
    start, limit := prefix, None;
    assert prefix[..|prefix|] == prefix;
    var i := |prefix| - 1;
    while i >= 0
      invariant -1 <= i < |prefix| && limit.None?
      invariant Limit(prefix) == Limit(prefix[..i + 1])
    {
      var c := prefix[i];
      assert prefix[..i + 1][..i] == prefix[..i];
      if c < 0xff {
        limit := Some(prefix[..i + 1][i := c + 1]);
        assert limit.value == prefix[..i] + [c + 1];
        break;
      }
      i := i - 1;
    }
    forall key ensures prefix <= key <==> InRange(key, prefix, limit) {
      PrefixRangeExact(prefix, key);
    }
  }

  lemma {:induction false} LimitFromFront(c: byte, p: seq<byte>)
    ensures Limit([c] + p) ==
      (if Limit(p).Some? then Some([c] + Limit(p).value) else if c < 0xff then Some([c + 1]) else None)
  {
    var cp := [c] + p;
    var i := |cp| - 1;
    if p != [] {
      assert cp[..i] == [c] + p[..|p| - 1];
      LimitFromFront(c, p[..|p| - 1]);
      assert [c] + (p[..|p| - 1] + [p[|p| - 1]]) == cp;
      assert cp[i] == p[|p| - 1];
      if cp[i] < 0xff {
        assert cp[..i] + [cp[i] + 1] == [c] + (p[..|p| - 1] + [p[|p| - 1] + 1]);
      }
    } else {
      assert cp == [c] && cp[..i] == [];
      if c < 0xff { assert [] + [c + 1] == [c + 1]; }
    }
  }

  /** A key starts with the prefix if and only if it lies in the range. */
  lemma {:induction false} PrefixRangeExact(prefix: seq<byte>, key: seq<byte>)
    ensures prefix <= key <==> InRange(key, prefix, Limit(prefix))
  {
    if prefix != [] {
      LimitFromFront(prefix[0], prefix[1..]);
      assert [prefix[0]] + prefix[1..] == prefix;
      if key != [] {
        PrefixRangeExact(prefix[1..], key[1..]);
        assert prefix <= key <==> prefix[0] == key[0] && prefix[1..] <= key[1..] by {
          assert key == [key[0]] + key[1..];
        }
        var l := Limit(prefix[1..]);
        if l.Some? {
          assert ([prefix[0]] + l.value)[1..] == l.value;
        } else if prefix[0] < 0xff {
          assert [prefix[0] + 1][1..] == [];
          assert Less(key, [prefix[0] + 1]) <==> key[0] < prefix[0] + 1;
        }
        assert !Less(key, prefix) <==> !(key[0] < prefix[0] || (key[0] == prefix[0] && Less(key[1..], prefix[1..])));
        assert InRange(key[1..], prefix[1..], l) <==> prefix[1..] <= key[1..];
      }
    }
  }
}
