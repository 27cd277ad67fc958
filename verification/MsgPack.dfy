/**
 * The block message: a three-entry record {0: devno, 1: offset, 2: data} in the MessagePack
 * subset that client and receiver share: encoder and decoder.
 */
module MsgPack {
  import opened Bytes
  import opened Wrappers

  type int32 = x: int | -0x8000_0000 <= x < 0x8000_0000
  type int64 = x: int | -0x8000_0000_0000_0000 <= x < 0x8000_0000_0000_0000

  datatype Block = Block(devno: int32, offset: int64, data: seq<byte>)

  // ---------- two's complement ----------

  /** The low k octets of v in two's complement. */
  function Raw(v: int, k: nat): nat { v % Radix(k) }

  /** The k-octet two's complement number whose bits are n. */
  function Signed(n: nat, k: nat): int {
    if 2 * n >= Radix(k) then n - Radix(k) else n
  }

  lemma SignedRaw(v: int, k: nat)
    requires 0 <= 2 * v + Radix(k) < 2 * Radix(k)
    ensures Signed(Raw(v, k), k) == v
    ensures Raw(v, k) < Radix(k)
  {
    var m := Radix(k);
    if v < 0 { ModUnique(v, m, -1, v + m); } else { ModUnique(v, m, 0, v); }
  }

  // ---------- encoder ----------

  const FIXMAP_3: byte := 0x93
  const BIN8: byte := 0xc4
  const BIN16: byte := 0xc5
  const BIN32: byte := 0xc6
  const INT8: byte := 0xd0
  const INT16: byte := 0xd1
  const INT32: byte := 0xd2
  const INT64: byte := 0xd3

  function EncodeInt32(v: int32): seq<byte> {
    if 0 <= v <= 127 then [v]
    else if -32 <= v < 0 then [v % 256]
    else if -128 <= v <= 127 then [INT8, v % 256]
    else if -32768 <= v <= 32767 then [INT16] + ToBE(Raw(v, 2), 2)
    else [INT32] + ToBE(Raw(v, 4), 4)
  }

  function EncodeInt64(v: int64): seq<byte> { [INT64] + ToBE(Raw(v, 8), 8) }

  function BinHeader(len: nat): seq<byte>
    requires len < 0x1_0000_0000
  {
    if len < 256 then [BIN8] + ToBE(len, 1)
    else if len < 65536 then [BIN16] + ToBE(len, 2)
    else [BIN32] + ToBE(len, 4)
  }

  function Encode(b: Block): (s: seq<byte>)
    requires |b.data| < 0x1_0000_0000
    ensures |b.data| + 15 <= |s| <= |b.data| + 23
  {
    [FIXMAP_3, 0] + EncodeInt32(b.devno) + [1] + EncodeInt64(b.offset) + [2]
    + BinHeader(|b.data|) + b.data
  }

  // ---------- decoder ----------

  /** An integer and the number of octets it took. */
  function ReadInt(buf: seq<byte>): Option<(int, nat)> {
    if |buf| < 1 then None
    else if buf[0] <= 0x7f then Some((buf[0], 1))
    else if buf[0] >= 0xe0 then Some((Signed(buf[0], 1), 1))
    else if buf[0] == INT8 && |buf| >= 2 then Some((Signed(FromBE(buf[1..2]), 1), 2))
    else if buf[0] == INT16 && |buf| >= 3 then Some((Signed(FromBE(buf[1..3]), 2), 3))
    else if buf[0] == INT32 && |buf| >= 5 then Some((Signed(FromBE(buf[1..5]), 4), 5))
    else if buf[0] == INT64 && |buf| >= 9 then Some((Signed(FromBE(buf[1..9]), 8), 9))
    else None
  }

  lemma ReadIntBounds(buf: seq<byte>)
    requires ReadInt(buf).Some?
    ensures 1 <= ReadInt(buf).value.1 <= |buf|
    ensures -0x8000_0000_0000_0000 <= ReadInt(buf).value.0 < 0x8000_0000_0000_0000
  {
    Radices();
    if |buf| >= 2 { FromBEBound(buf[1..2]); }
    if |buf| >= 3 { FromBEBound(buf[1..3]); }
    if |buf| >= 5 { FromBEBound(buf[1..5]); }
    if |buf| >= 9 { FromBEBound(buf[1..9]); }
  }

  /** The payload of a bin value: its length field and how many octets tag and length took. */
  function ReadBinHeader(buf: seq<byte>): Option<(nat, nat)> {
    if |buf| < 1 then None
    else if buf[0] == BIN8 && |buf| >= 2 then Some((FromBE(buf[1..2]), 2))
    else if buf[0] == BIN16 && |buf| >= 3 then Some((FromBE(buf[1..3]), 3))
    else if buf[0] == BIN32 && |buf| >= 5 then Some((FromBE(buf[1..5]), 5))
    else None
  }

  /** Drops the one-octet key that must come next. */
  function ExpectKey(buf: seq<byte>, key: byte): Option<seq<byte>> {
    if |buf| >= 1 && buf[0] == key then Some(buf[1..]) else None
  }

  /** The data entry; octets after the data are ignored. */
  function DecodeData(devno: int32, offset: int64, buf: seq<byte>): Option<Block> {
    var s :- ExpectKey(buf, 2);
    var bin :- ReadBinHeader(s);
    if bin.0 + bin.1 > |s| then None
    else Some(Block(devno, offset, s[bin.1..bin.1 + bin.0]))
  }

  function DecodeOffset(devno: int32, buf: seq<byte>): Option<Block> {
    var s :- ExpectKey(buf, 1);
    var offset :- ReadInt(s);
    ReadIntBounds(s);
    DecodeData(devno, offset.0, s[offset.1..])
  }

  /** devno is cut down to 32 bits. */
  function Decode(buf: seq<byte>): Option<Block> {
    var s0 :- ExpectKey(buf, FIXMAP_3);
    var s :- ExpectKey(s0, 0);
    var devno :- ReadInt(s);
    ReadIntBounds(s);
    Radices();
    DecodeOffset(Signed(Raw(devno.0, 4), 4), s[devno.1..])
  }

  // ---------- round trip ----------

  lemma ReadsBack(n: nat, k: nat, tag: byte, rest: seq<byte>)
    requires n < Radix(k)
    ensures var s := [tag] + ToBE(n, k) + rest;
            |s| >= k + 1 && s[0] == tag && FromBE(s[1..k + 1]) == n && s[k + 1..] == rest
  {
    var s := [tag] + ToBE(n, k) + rest;
    FromToBE(n, k);
    assert s[1..k + 1] == ToBE(n, k);
  }

  lemma IntRoundTrip(v: int32, rest: seq<byte>)
    ensures ReadInt(EncodeInt32(v) + rest) == Some((v, |EncodeInt32(v)|))
  {
    Radices();
    var s := EncodeInt32(v) + rest;
    if -32 <= v <= 127 {
      assert s[0] == v % 256;
    } else if -128 <= v <= 127 {
      SignedRaw(v, 1);
      FromToBE(v % 256, 1);
      assert s[1..2] == [v % 256] == ToBE(v % 256, 1);
    } else if -32768 <= v <= 32767 {
      SignedRaw(v, 2); ReadsBack(Raw(v, 2), 2, INT16, rest);
    } else {
      SignedRaw(v, 4); ReadsBack(Raw(v, 4), 4, INT32, rest);
    }
  }

  lemma OffsetRoundTrip(v: int64, rest: seq<byte>)
    ensures ReadInt(EncodeInt64(v) + rest) == Some((v, 9))
  {
    Radices();
    SignedRaw(v, 8);
    ReadsBack(Raw(v, 8), 8, INT64, rest);
  }

  lemma BinRoundTrip(len: nat, rest: seq<byte>)
    requires len < 0x1_0000_0000
    ensures ReadBinHeader(BinHeader(len) + rest) == Some((len, |BinHeader(len)|))
  {
    Radices();
    if len < 256 { ReadsBack(len, 1, BIN8, rest); }
    else if len < 65536 { ReadsBack(len, 2, BIN16, rest); }
    else { ReadsBack(len, 4, BIN32, rest); }
  }

  lemma DataRoundTrip(b: Block, tail: seq<byte>)
    requires |b.data| < 0x1_0000_0000
    ensures DecodeData(b.devno, b.offset, [2] + BinHeader(|b.data|) + b.data + tail) == Some(b)
  {
    hide ReadBinHeader, BinHeader;
    var h := BinHeader(|b.data|);
    var s := h + (b.data + tail);
    BinRoundTrip(|b.data|, b.data + tail);
    assert ([2] + h + b.data + tail)[1..] == s;
    assert s[|h|..|h| + |b.data|] == b.data;
  }

  lemma OffsetDecodes(devno: int32, offset: int64, rest: seq<byte>)
    ensures DecodeOffset(devno, [1] + EncodeInt64(offset) + rest) == DecodeData(devno, offset, rest)
  {
    var e := EncodeInt64(offset);
    assert |e| == 9;
    hide ReadInt, EncodeInt64, DecodeData;
    OffsetRoundTrip(offset, rest);
    assert ([1] + e + rest)[1..] == e + rest;
    assert (e + rest)[9..] == rest;
  }

  lemma DevnoDecodes(devno: int32, rest: seq<byte>)
    ensures Decode([FIXMAP_3, 0] + EncodeInt32(devno) + rest) == DecodeOffset(devno, rest)
  {
    hide ReadInt, EncodeInt32, DecodeOffset;
    var e := EncodeInt32(devno);
    IntRoundTrip(devno, rest);
    assert ([FIXMAP_3, 0] + e + rest)[1..][1..] == e + rest;
    assert (e + rest)[|e|..] == rest;
    Radices();
    SignedRaw(devno, 4);
  }

  /** Every block decodes to itself, whatever octets follow it in the buffer. */
  lemma RoundTrip(b: Block, tail: seq<byte>)
    requires |b.data| < 0x1_0000_0000
    ensures Decode(Encode(b) + tail) == Some(b)
  {
    hide Decode, DecodeOffset, DecodeData, EncodeInt32, EncodeInt64, BinHeader;
    var s3 := [2] + BinHeader(|b.data|) + b.data + tail;
    var s2 := [1] + EncodeInt64(b.offset) + s3;
    assert Encode(b) + tail == [FIXMAP_3, 0] + EncodeInt32(b.devno) + s2;
    DevnoDecodes(b.devno, s2);
    OffsetDecodes(b.devno, b.offset, s3);
    DataRoundTrip(b, tail);
  }
}
