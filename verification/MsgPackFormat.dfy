/** The message format stated on its own, without encoder or decoder, and both compared with it. */
module MsgPackFormat {
  import opened Bytes
  import opened Wrappers
  import opened MsgPack

  /** s is a spelling of the integer v; an integer may have several. */
  predicate IntForm(s: seq<byte>, v: int) {
    || (|s| == 1 && s[0] <= 127 && v == s[0])
    || (|s| == 1 && s[0] >= 224 && v == s[0] as int - 256)
    || (|s| == 2 && s[0] == 0xd0 && v == Signed(FromBE(s[1..]), 1))
    || (|s| == 3 && s[0] == 0xd1 && v == Signed(FromBE(s[1..]), 2))
    || (|s| == 5 && s[0] == 0xd2 && v == Signed(FromBE(s[1..]), 4))
    || (|s| == 9 && s[0] == 0xd3 && v == Signed(FromBE(s[1..]), 8))
  }

  /** h announces len octets of data. */
  predicate BinForm(h: seq<byte>, len: nat) {
    || (|h| == 2 && h[0] == 0xc4 && len == FromBE(h[1..]))
    || (|h| == 3 && h[0] == 0xc5 && len == FromBE(h[1..]))
    || (|h| == 5 && h[0] == 0xc6 && len == FromBE(h[1..]))
  }

  /** 0x02, a data header, the data, then anything. */
  ghost predicate IsData(buf: seq<byte>, data: seq<byte>) {
    exists h: seq<byte>, tail: seq<byte> :: BinForm(h, |data|) && buf == [2] + (h + (data + tail))
  }

  /** 0x01, the offset, then the data entry. */
  ghost predicate IsOffset(buf: seq<byte>, offset: int, data: seq<byte>) {
    exists o: seq<byte>, rest: seq<byte> :: IntForm(o, offset) && buf == [1] + (o + rest) && IsData(rest, data)
  }

  /** 0x93, 0x00, an integer whose low 32 bits are devno, then the offset entry. */
  ghost predicate IsMessage(buf: seq<byte>, b: Block) {
    exists i: seq<byte>, v: int, rest: seq<byte> ::
      IntForm(i, v) && Signed(Raw(v, 4), 4) == b.devno && buf == [0x93, 0] + (i + rest)
      && IsOffset(rest, b.offset, b.data)
  }

  // ---------- the two field readers ----------

  lemma ReadIntFinds(buf: seq<byte>)
    requires ReadInt(buf).Some?
    ensures ReadInt(buf).value.1 <= |buf| && IntForm(buf[..ReadInt(buf).value.1], ReadInt(buf).value.0)
  {
    ReadIntBounds(buf);
    var n := ReadInt(buf).value.1;
    Radices();
    assert buf[..n][1..] == buf[1..n];
  }

  lemma ReadIntAccepts(i: seq<byte>, v: int, rest: seq<byte>)
    requires IntForm(i, v)
    ensures ReadInt(i + rest) == Some((v, |i|))
  {
    Radices();
    assert (i + rest)[1..|i|] == i[1..];
  }

  lemma ReadBinFinds(buf: seq<byte>)
    requires ReadBinHeader(buf).Some?
    ensures ReadBinHeader(buf).value.1 <= |buf| && BinForm(buf[..ReadBinHeader(buf).value.1], ReadBinHeader(buf).value.0)
  {
    var n := ReadBinHeader(buf).value.1;
    assert buf[..n][1..] == buf[1..n];
  }

  lemma ReadBinAccepts(h: seq<byte>, len: nat, rest: seq<byte>)
    requires BinForm(h, len)
    ensures ReadBinHeader(h + rest) == Some((len, |h|))
  {
    assert (h + rest)[1..|h|] == h[1..];
  }

  // ---------- the whole message ----------

  /** The key is dropped and what follows it is left. */
  lemma KeyThen(key: byte, rest: seq<byte>)
    ensures ExpectKey([key] + rest, key) == Some(rest)
  {
    assert ([key] + rest)[1..] == rest;
  }

  lemma KeyFound(buf: seq<byte>, key: byte)
    requires ExpectKey(buf, key).Some?
    ensures buf == [key] + ExpectKey(buf, key).value
  {}

  lemma Split3(s: seq<byte>, w: nat, n: nat)
    requires w + n <= |s|
    ensures s == s[..w] + (s[w..w + n] + s[w + n..]) && |s[w..w + n]| == n
  {}

  lemma Joined3(h: seq<byte>, data: seq<byte>, tail: seq<byte>)
    ensures (h + (data + tail))[|h|..|h| + |data|] == data && |h + (data + tail)| == |h| + |data| + |tail|
  {}

  lemma DataSpelled(devno: int32, offset: int64, buf: seq<byte>)
    requires DecodeData(devno, offset, buf).Some?
    ensures IsData(buf, DecodeData(devno, offset, buf).value.data)
  {
    hide ReadBinHeader, BinForm, ExpectKey;
    KeyFound(buf, 2);
    var s := ExpectKey(buf, 2).value;
    ReadBinFinds(s);
    var n, w := ReadBinHeader(s).value.0, ReadBinHeader(s).value.1;
    Split3(s, w, n);
    var h, data, tail := s[..w], s[w..w + n], s[w + n..];
    assert data == DecodeData(devno, offset, buf).value.data;
    assert BinForm(h, |data|) && buf == [2] + (h + (data + tail));
  }

  lemma DataRead(devno: int32, offset: int64, buf: seq<byte>, data: seq<byte>)
    requires IsData(buf, data)
    ensures DecodeData(devno, offset, buf) == Some(Block(devno, offset, data))
  {
    hide ReadBinHeader, BinForm, ExpectKey;
    var h: seq<byte>, tail: seq<byte> :| BinForm(h, |data|) && buf == [2] + (h + (data + tail));
    KeyThen(2, h + (data + tail));
    ReadBinAccepts(h, |data|, data + tail);
    Joined3(h, data, tail);
  }

  lemma DataIff(devno: int32, offset: int64, buf: seq<byte>, data: seq<byte>)
    ensures DecodeData(devno, offset, buf) == Some(Block(devno, offset, data)) <==> IsData(buf, data)
  {
    hide DecodeData, IsData;
    if DecodeData(devno, offset, buf) == Some(Block(devno, offset, data)) { DataSpelled(devno, offset, buf); }
    if IsData(buf, data) { DataRead(devno, offset, buf, data); }
  }

  lemma OffsetIff(devno: int32, buf: seq<byte>, offset: int64, data: seq<byte>)
    ensures DecodeOffset(devno, buf) == Some(Block(devno, offset, data)) <==> IsOffset(buf, offset, data)
  {
    hide ReadInt, IntForm, ExpectKey, DecodeData, IsData;
    if DecodeOffset(devno, buf) == Some(Block(devno, offset, data)) {
      KeyFound(buf, 1);
      var s := ExpectKey(buf, 1).value;
      ReadIntBounds(s); ReadIntFinds(s);
      var v, n := ReadInt(s).value.0, ReadInt(s).value.1;
      DataKeeps(devno, v, s[n..]);
      DataIff(devno, v, s[n..], data);
      var o, rest := s[..n], s[n..];
      assert s == o + rest;
      assert IntForm(o, offset) && buf == [1] + (o + rest) && IsData(rest, data);
    }
    if IsOffset(buf, offset, data) {
      var o: seq<byte>, rest: seq<byte> :| IntForm(o, offset) && buf == [1] + (o + rest) && IsData(rest, data);
      KeyThen(1, o + rest);
      ReadIntAccepts(o, offset, rest);
      assert (o + rest)[|o|..] == rest;
      DataIff(devno, offset, rest, data);
    }
  }

  lemma DataKeeps(devno: int32, offset: int64, buf: seq<byte>)
    requires DecodeData(devno, offset, buf).Some?
    ensures var b := DecodeData(devno, offset, buf).value; b.devno == devno && b.offset == offset
  {}

  lemma OffsetKeeps(devno: int32, buf: seq<byte>)
    requires DecodeOffset(devno, buf).Some?
    ensures DecodeOffset(devno, buf).value.devno == devno
  {}

  lemma Cut32(v: int)
    ensures -0x8000_0000 <= Signed(Raw(v, 4), 4) < 0x8000_0000
  {
    Radices();
  }

  /** The decoder accepts exactly the messages of the format, and reads each as the block it spells. */
  lemma DecodeIff(buf: seq<byte>, b: Block)
    ensures Decode(buf) == Some(b) <==> IsMessage(buf, b)
  {
    hide ReadInt, IntForm, ExpectKey, DecodeOffset, IsOffset, Signed, Raw;
    if Decode(buf) == Some(b) {
      KeyFound(buf, FIXMAP_3);
      var s0 := ExpectKey(buf, FIXMAP_3).value;
      KeyFound(s0, 0);
      var s := ExpectKey(s0, 0).value;
      ReadIntBounds(s); ReadIntFinds(s);
      var v, n := ReadInt(s).value.0, ReadInt(s).value.1;
      Cut32(v);
      OffsetKeeps(Signed(Raw(v, 4), 4), s[n..]);
      OffsetIff(b.devno, s[n..], b.offset, b.data);
      var i, rest := s[..n], s[n..];
      assert IntForm(i, v) && buf == [0x93, 0] + (i + rest) && IsOffset(rest, b.offset, b.data);
    }
    if IsMessage(buf, b) {
      var i: seq<byte>, v: int, rest: seq<byte> :|
        IntForm(i, v) && Signed(Raw(v, 4), 4) == b.devno && buf == [0x93, 0] + (i + rest)
        && IsOffset(rest, b.offset, b.data);
      assert buf == [FIXMAP_3] + ([0] + (i + rest));
      KeyThen(FIXMAP_3, [0] + (i + rest));
      KeyThen(0, i + rest);
      ReadIntAccepts(i, v, rest);
      assert (i + rest)[|i|..] == rest;
      OffsetIff(b.devno, rest, b.offset, b.data);
    }
  }

  // ---------- the encoder is thrifty ----------

  /** devno takes the shortest spelling there is. */
  lemma ShortestInt(v: int32, s: seq<byte>)
    requires IntForm(s, v)
    ensures IntForm(EncodeInt32(v), v) && |EncodeInt32(v)| <= |s|
  {
    var e := EncodeInt32(v);
    IntRoundTrip(v, []);
    assert e + [] == e;
    ReadIntFinds(e);
    assert e[..|e|] == e;
    Radices();
    FromBEBound(s[1..]);
  }

  /** So does the header of the data. */
  lemma ShortestBin(len: nat, h: seq<byte>)
    requires len < 0x1_0000_0000 && BinForm(h, len)
    ensures BinForm(BinHeader(len), len) && |BinHeader(len)| <= |h|
  {
    var e := BinHeader(len);
    BinRoundTrip(len, []);
    assert e + [] == e;
    ReadBinFinds(e);
    assert e[..|e|] == e;
    Radices();
    FromBEBound(h[1..]);
  }
}
