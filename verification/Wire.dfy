/** Big-endian integers on the wire (utils/wire.c). */
module Wire {
  const TWO_32 := 0x1_0000_0000
  const TWO_64 := 0x1_0000_0000_0000_0000

  type byte = b: int | 0 <= b < 0x100
  type uint16 = n: int | 0 <= n < 0x1_0000
  type uint32 = n: int | 0 <= n < 0x1_0000_0000
  type uint64 = n: int | 0 <= n < 0x1_0000_0000_0000_0000

  /** nn_gets, nn_getl, nn_getll: the bytes shifted into place and joined. */
  function GetS(b: seq<byte>): uint16
    requires |b| == 2
  {
    var b0: int, b1: int := b[0], b[1];
    b0 * 0x100 + b1
  }

  function GetL(b: seq<byte>): uint32
    requires |b| == 4
  {
    var b0: int, b1: int, b2: int, b3: int := b[0], b[1], b[2], b[3];
    b0 * 0x100_0000 + b1 * 0x1_0000 + b2 * 0x100 + b3
  }

  function GetLL(b: seq<byte>): uint64
    requires |b| == 8
  {
    var b0: int, b1: int, b2: int, b3: int := b[0], b[1], b[2], b[3];
    var b4: int, b5: int, b6: int, b7: int := b[4], b[5], b[6], b[7];
    b0 * 0x100_0000_0000_0000 + b1 * 0x1_0000_0000_0000 + b2 * 0x100_0000_0000 + b3 * 0x1_0000_0000
    + b4 * 0x100_0000 + b5 * 0x1_0000 + b6 * 0x100 + b7
  }

  /** The bytes nn_puts, nn_putl and nn_putll write. */
  function PutS(v: uint16): seq<byte> { [v / 0x100, v % 0x100] }

  function PutL(v: uint32): seq<byte> { PutS(v / 0x1_0000) + PutS(v % 0x1_0000) }

  function PutLL(v: uint64): seq<byte> { PutL(v / 0x1_0000_0000) + PutL(v % 0x1_0000_0000) }

  lemma GetLHalves(b: seq<byte>)
    requires |b| == 4
    ensures GetL(b) == (GetS(b[..2]) as int) * 0x1_0000 + GetS(b[2..])
  {
  }

  lemma GetLLHalves(b: seq<byte>)
    requires |b| == 8
    ensures GetLL(b) == (GetL(b[..4]) as int) * 0x1_0000_0000 + GetL(b[4..])
  {
  }

  /** Reading what was written, at every width. */
  lemma GetPut(s: uint16, l: uint32, ll: uint64)
    ensures GetS(PutS(s)) == s && GetL(PutL(l)) == l && GetLL(PutLL(ll)) == ll
  {
    GetPutL(l);
    GetPutL(ll / 0x1_0000_0000);
    GetPutL(ll % 0x1_0000_0000);
    GetLLHalves(PutLL(ll));
    assert PutLL(ll)[..4] == PutL(ll / 0x1_0000_0000) && PutLL(ll)[4..] == PutL(ll % 0x1_0000_0000);
  }

  lemma GetPutL(l: uint32)
    ensures GetL(PutL(l)) == l
  {
    GetLHalves(PutL(l));
    assert PutL(l)[..2] == PutS(l / 0x1_0000) && PutL(l)[2..] == PutS(l % 0x1_0000);
  }

  /** Writing back what was read. */
  lemma PutGet(s: seq<byte>, l: seq<byte>, ll: seq<byte>)
    requires |s| == 2 && |l| == 4 && |ll| == 8
    ensures PutS(GetS(s)) == s && PutL(GetL(l)) == l && PutLL(GetLL(ll)) == ll
  {
    PutGetL(l);
    PutGetL(ll[..4]);
    PutGetL(ll[4..]);
    GetLLHalves(ll);
    assert ll == ll[..4] + ll[4..];
  }

  lemma PutGetL(l: seq<byte>)
    requires |l| == 4
    ensures PutL(GetL(l)) == l
  {
    GetLHalves(l);
    var hi: int, lo: int := GetS(l[..2]), GetS(l[2..]);
    assert GetL(l) as int == hi * 0x1_0000 + lo;
    Split(hi, lo);
    PutGetS(l[..2]);
    PutGetS(l[2..]);
    assert l == l[..2] + l[2..];
  }

  lemma PutGetS(s: seq<byte>)
    requires |s| == 2
    ensures PutS(GetS(s)) == s
  {
  }

  lemma Split(hi: int, lo: int)
    requires 0 <= lo < 0x1_0000
    ensures (hi * 0x1_0000 + lo) / 0x1_0000 == hi && (hi * 0x1_0000 + lo) % 0x1_0000 == lo
  {
  }

  /** The shifts and masks of nn_putl, byte by byte. */
  lemma PutLBytes(v: uint32)
    ensures PutL(v) == [v / 0x100_0000, (v / 0x1_0000) % 0x100, (v / 0x100) % 0x100, v % 0x100]
  {
    var hi: int, lo: int := v / 0x1_0000, v % 0x1_0000;
    assert v as int == hi * 0x1_0000 + lo;
    HalfBytes(hi, lo);
  }

  lemma HalfBytes(hi: int, lo: int)
    requires 0 <= hi && 0 <= lo < 0x1_0000
    ensures var v := hi * 0x1_0000 + lo;
            && v / 0x100_0000 == hi / 0x100 && (v / 0x1_0000) % 0x100 == hi % 0x100
            && (v / 0x100) % 0x100 == lo / 0x100 && v % 0x100 == lo % 0x100
  {
    var v := hi * 0x1_0000 + lo;
    assert v / 0x1_0000 == hi;
    assert v / 0x100 == hi * 0x100 + lo / 0x100;
    AddBytes(hi, lo / 0x100);
  }

  lemma PutLLBytes(v: uint64)
    ensures PutLL(v) == [v / 0x100_0000_0000_0000, (v / 0x1_0000_0000_0000) % 0x100,
                         (v / 0x100_0000_0000) % 0x100, (v / 0x1_0000_0000) % 0x100,
                         (v / 0x100_0000) % 0x100, (v / 0x1_0000) % 0x100, (v / 0x100) % 0x100, v % 0x100]
  {
    var hi, lo := v / 0x1_0000_0000, v % 0x1_0000_0000;
    PutLBytes(hi);
    PutLBytes(lo);
    HighShifts(v);
    LowShifts(hi, lo);
  }

  lemma HighShifts(v: int)
    requires 0 <= v
    ensures v / 0x1_0000_0000 / 0x100 == v / 0x100_0000_0000
    ensures v / 0x1_0000_0000 / 0x1_0000 == v / 0x1_0000_0000_0000
    ensures v / 0x1_0000_0000 / 0x100_0000 == v / 0x100_0000_0000_0000
  {
  }

  lemma LowShifts(hi: int, lo: int)
    requires 0 <= hi && 0 <= lo < 0x1_0000_0000
    ensures var v := hi * 0x1_0000_0000 + lo;
            lo / 0x100_0000 == (v / 0x100_0000) % 0x100
            && (lo / 0x1_0000) % 0x100 == (v / 0x1_0000) % 0x100
            && (lo / 0x100) % 0x100 == (v / 0x100) % 0x100 && lo % 0x100 == v % 0x100
  {
    LowByte(hi, lo, 0x100_0000, 0x1);
    LowByte(hi, lo, 0x1_0000, 0x100);
    LowByte(hi, lo, 0x100, 0x1_0000);
    LowByte(hi, lo, 1, 0x100_0000);
  }

  /** The byte at weight w < 2^32 does not depend on the high half. */
  lemma LowByte(hi: int, lo: int, w: int, k: int)
    requires 0 <= hi && 0 <= lo < 0x1_0000_0000
    requires (w, k) in {(0x100_0000, 0x1), (0x1_0000, 0x100), (0x100, 0x1_0000), (1, 0x100_0000)}
    ensures ((hi * 0x1_0000_0000 + lo) / w) % 0x100 == (lo / w) % 0x100
  {
    assert (hi * 0x1_0000_0000 + lo) / w == (hi * k) * 0x100 + lo / w;
    AddBytes(hi * k, lo / w);
  }

  lemma AddBytes(a: int, b: int)
    ensures (a * 0x100 + b) % 0x100 == b % 0x100
  {
  }

  /** nn_puts into a buffer at an offset. */
  method WriteS(buf: array<byte>, at: nat, v: uint16)
    requires at + 2 <= buf.Length
    modifies buf
    ensures buf[..] == old(buf[..at]) + PutS(v) + old(buf[at + 2..])
  {
    buf[at] := v / 0x100;
    buf[at + 1] := v % 0x100;
  }

  /** nn_putl into a buffer at an offset. */
  method WriteL(buf: array<byte>, at: nat, v: uint32)
    requires at + 4 <= buf.Length
    modifies buf
    ensures buf[..] == old(buf[..at]) + PutL(v) + old(buf[at + 4..])
  {
    PutLBytes(v);
    buf[at] := v / 0x100_0000;
    buf[at + 1] := (v / 0x1_0000) % 0x100;
    buf[at + 2] := (v / 0x100) % 0x100;
    buf[at + 3] := v % 0x100;
  }

  /** nn_putll into a buffer at an offset. */
  method WriteLL(buf: array<byte>, at: nat, v: uint64)
    requires at + 8 <= buf.Length
    modifies buf
    ensures buf[..] == old(buf[..at]) + PutLL(v) + old(buf[at + 8..])
  {
    PutLLBytes(v);
    buf[at] := v / 0x100_0000_0000_0000;
    buf[at + 1] := (v / 0x1_0000_0000_0000) % 0x100;
    buf[at + 2] := (v / 0x100_0000_0000) % 0x100;
    buf[at + 3] := (v / 0x1_0000_0000) % 0x100;
    buf[at + 4] := (v / 0x100_0000) % 0x100;
    buf[at + 5] := (v / 0x1_0000) % 0x100;
    buf[at + 6] := (v / 0x100) % 0x100;
    buf[at + 7] := v % 0x100;
  }
}
