/** Internal keys: a user key followed by eight little-endian bytes packing a 56-bit sequence
    number and an 8-bit type. */
module InternalKey {
  import opened Basics

  const KEY_MAX_SEQ: nat := 0x100_0000_0000_0000 - 1
  const KEY_TYPE_VAL: nat := 1
  const KEY_MAX_NUM: nat := KEY_MAX_SEQ * 256 + KEY_TYPE_VAL

  /** The k low bytes of n, least significant first. */
  function LittleEndian(n: nat, k: nat): (s: seq<byte>)
    ensures |s| == k
  {
    if k == 0 then [] else [n % 256] + LittleEndian(n / 256, k - 1)
  }

  function FromLittleEndian(s: seq<byte>): (r: nat) {
    if s == [] then 0 else s[0] + 256 * FromLittleEndian(s[1..])
  }

  function Pow256(k: nat): (r: nat) { if k == 0 then 1 else 256 * Pow256(k - 1) }

  lemma {:induction false} ReadBack(n: nat, k: nat)
    requires n < Pow256(k)
    ensures FromLittleEndian(LittleEndian(n, k)) == n
  {
    if k > 0 {
      ReadBack(n / 256, k - 1);
      assert LittleEndian(n, k)[1..] == LittleEndian(n / 256, k - 1);
    }
  }

  lemma {:induction false} WriteBack(s: seq<byte>)
    ensures FromLittleEndian(s) < Pow256(|s|) && LittleEndian(FromLittleEndian(s), |s|) == s
  {
    if s != [] {
      WriteBack(s[1..]);
      var n := FromLittleEndian(s);
      assert n / 256 == FromLittleEndian(s[1..]) && n % 256 == s[0];
    }
  }

  lemma EightBytes()
    ensures Pow256(8) == TWO_64
  {
    assert Pow256(4) == 256 * 256 * 256 * 256;
  }

  /** `(seq<<8)|kt` for a type below 256. */
  function Pack(sn: nat, kt: nat): (r: nat) { sn * 256 + kt }

  /** The bytes of an internal key. */
  function Encode(ukey: seq<byte>, sn: nat, kt: nat): (r: seq<byte>) { ukey + LittleEndian(Pack(sn, kt), 8) }

  datatype Parsed = Corrupted | Key(ukey: seq<byte>, sn: nat, kt: nat)

  /** `num` */
  function Num(ik: seq<byte>): (r: nat)
    requires |ik| >= 8
  {
    FromLittleEndian(ik[|ik| - 8..])
  }

  /** `parseInternalKey` */
  function Parse(ik: seq<byte>): (r: Parsed) {
    if |ik| < 8 || Num(ik) % 256 > KEY_TYPE_VAL then Corrupted
    else Key(ik[..|ik| - 8], Num(ik) / 256, Num(ik) % 256)
  }

  /** `makeInternalKey` into a reused buffer with capacity dst.Length; the result is the first n
      bytes of ik. */
  method MakeInternalKey(dst: array<byte>, ukey: array<byte>, sn: nat, kt: nat)
    returns (panicked: bool, ik: array<byte>, n: nat)
    requires dst != ukey
    modifies dst
    ensures panicked <==> sn >= 0x100_0000_0000_0000 || kt > 1
    ensures panicked ==> dst[..] == old(dst[..])
    ensures !panicked ==> n == ukey.Length + 8 <= ik.Length && ik[..n] == Encode(ukey[..], sn, kt)
    ensures !panicked ==> Parse(ik[..n]) == Key(ukey[..], sn, kt)
    ensures !panicked ==> if dst.Length < n then fresh(ik) && dst[..] == old(dst[..])
                          else ik == dst && dst[n..] == old(dst[n..])
    ensures ukey[..] == old(ukey[..])
  {
    ik, n := dst, 0;
    if sn > KEY_MAX_SEQ { return true, ik, n; }
    if kt > KEY_TYPE_VAL { return true, ik, n; }
    panicked := false;
    n := ukey.Length + 8;
    if dst.Length < n {
      ik := new byte[n](_ => 0);
    }
    forall i | 0 <= i < ukey.Length { ik[i] := ukey[i]; }
    var num := LittleEndian(Pack(sn, kt), 8);
    forall i | 0 <= i < 8 { ik[ukey.Length + i] := num[i]; }
    assert ik[..n] == ukey[..] + num;
    ParseMake(ukey[..], sn, kt);
  }

  /** Parsing gives back what was made. */
  lemma ParseMake(ukey: seq<byte>, sn: nat, kt: nat)
    requires sn < 0x100_0000_0000_0000 && kt <= 1
    ensures Parse(Encode(ukey, sn, kt)) == Key(ukey, sn, kt)
    ensures Num(Encode(ukey, sn, kt)) == Pack(sn, kt)
  {
    var ik := Encode(ukey, sn, kt);
    assert ik[..|ik| - 8] == ukey && ik[|ik| - 8..] == LittleEndian(Pack(sn, kt), 8);
    EightBytes();
    ReadBack(Pack(sn, kt), 8);
  }

  /** Which keys are corrupted: those without eight bytes behind the user key, and those whose type, the
      first of the eight, is above 1. */
  lemma CorruptedExact(ik: seq<byte>)
    ensures Parse(ik) == Corrupted <==> |ik| < 8 || ik[|ik| - 8] > 1
    ensures |ik| >= 8 ==> Num(ik) == ik[|ik| - 8] + 256 * FromLittleEndian(ik[|ik| - 7..])
  {
    if |ik| >= 8 {
      assert ik[|ik| - 8..][1..] == ik[|ik| - 7..];
    }
  }

  /** One key in full. */
  lemma EncodeInFull()
    ensures Encode([7, 9], 0x0203, 1) == [7, 9, 1, 3, 2, 0, 0, 0, 0, 0]
  {
    var n := Pack(0x0203, 1);
    assert n == 0x020301;
    assert LittleEndian(0, 1) == [0] && LittleEndian(0, 2) == [0, 0];
    assert LittleEndian(0, 3) == [0, 0, 0] && LittleEndian(0, 4) == [0, 0, 0, 0] && LittleEndian(0, 5) == [0, 0, 0, 0, 0];
    assert LittleEndian(2, 6) == [2, 0, 0, 0, 0, 0] && LittleEndian(0x0203, 7) == [3, 2, 0, 0, 0, 0, 0];
    assert LittleEndian(n, 8) == [1, 3, 2, 0, 0, 0, 0, 0];
  }

  /** Making gives back what was parsed, and a parsed sequence number always fits. */
  lemma MakeParse(ik: seq<byte>)
    requires Parse(ik).Key?
    ensures var k := Parse(ik); Encode(k.ukey, k.sn, k.kt) == ik && k.sn < 0x100_0000_0000_0000 && k.kt <= 1
  {
    var tail := ik[|ik| - 8..];
    WriteBack(tail);
    EightBytes();
    assert ik == ik[..|ik| - 8] + tail;
  }

  /** The packed numbers order as the pairs (sequence number, type) do. */
  lemma PackOrder(s1: nat, k1: nat, s2: nat, k2: nat)
    requires k1 <= 1 && k2 <= 1
    ensures Pack(s1, k1) < Pack(s2, k2) <==> s1 < s2 || (s1 == s2 && k1 < k2)
    ensures s1 < 0x100_0000_0000_0000 ==> Pack(s1, k1) <= KEY_MAX_NUM == 0xffff_ffff_ffff_ff01
  {
  }
}
