/** Target disks as byte images, and block writes on them. */
module Disk {
  import opened Bytes

  /** (devno, position) to octet; a position never written reads as zero. */
  type Image = map<(int, int), byte>

  datatype Write = Write(devno: int, offset: int, data: seq<byte>) {
    predicate Covers(devno: int, pos: int) {
      this.devno == devno && offset <= pos < offset + |data|
    }

    function At(pos: int): byte
      requires Covers(devno, pos)
    {
      data[pos - offset]
    }
  }

  function Apply(img: Image, w: Write): Image {
    img + map i | 0 <= i < |w.data| :: (w.devno, w.offset + i) := w.data[i]
  }

  function ApplyAll(img: Image, ws: seq<Write>): Image {
    if ws == [] then img else Apply(ApplyAll(img, ws[..|ws| - 1]), ws[|ws| - 1])
  }

  function ReadByte(img: Image, devno: int, pos: int): byte {
    if (devno, pos) in img then img[(devno, pos)] else 0
  }

  function ReadBlock(img: Image, devno: int, offset: int, len: nat): (s: seq<byte>)
    ensures |s| == len
  {
    seq<byte>(len, i requires 0 <= i < len => ReadByte(img, devno, offset + i))
  }

  /** Where both write, both write the same octet. */
  ghost predicate Agree(a: Write, b: Write) {
    forall p :: a.Covers(a.devno, p) && b.Covers(a.devno, p) ==> a.At(p) == b.At(p)
  }

  ghost predicate AllAgree(ws: seq<Write>) {
    forall a, b :: a in ws && b in ws ==> Agree(a, b)
  }

  lemma AppliedAt(img: Image, w: Write, d: int, p: int)
    ensures (d, p) in Apply(img, w) <==> (d, p) in img || w.Covers(d, p)
    ensures w.Covers(d, p) ==> Apply(img, w)[(d, p)] == w.At(p)
    ensures !w.Covers(d, p) && (d, p) in img ==> Apply(img, w)[(d, p)] == img[(d, p)]
    ensures ReadByte(Apply(img, w), d, p) == if w.Covers(d, p) then w.At(p) else ReadByte(img, d, p)
  {
    var m := map i | 0 <= i < |w.data| :: (w.devno, w.offset + i) := w.data[i];
    if w.Covers(d, p) {
      var i := p - w.offset;
      assert (w.devno, w.offset + i) in m;
    } else {
      assert (d, p) !in m;
    }
  }

  /** After any sequence of agreeing writes each octet is that of any write covering it. */
  lemma {:induction false} ByteAfter(img: Image, ws: seq<Write>, d: int, p: int)
    requires AllAgree(ws)
    ensures forall w :: w in ws && w.Covers(d, p) ==>
              (d, p) in ApplyAll(img, ws) && ApplyAll(img, ws)[(d, p)] == w.At(p)
    ensures (forall w :: w in ws ==> !w.Covers(d, p)) ==>
              ((d, p) in ApplyAll(img, ws) <==> (d, p) in img) &&
              ((d, p) in img ==> ApplyAll(img, ws)[(d, p)] == img[(d, p)])
  {
    if ws != [] {
      var init, last := ws[..|ws| - 1], ws[|ws| - 1];
      ByteAfter(img, init, d, p);
      AppliedAt(ApplyAll(img, init), last, d, p);
      assert last in ws;
      forall w | w in ws && w.Covers(d, p)
        ensures (d, p) in ApplyAll(img, ws) && ApplyAll(img, ws)[(d, p)] == w.At(p)
      {
        if last.Covers(d, p) {
          assert Agree(w, last) && w.Covers(w.devno, p) && last.Covers(w.devno, p);
        } else {
          assert w in init;
        }
      }
    }
  }

  /** The final image depends only on which writes happened, not on their order or repetition. */
  lemma Confluent(img: Image, ws: seq<Write>, vs: seq<Write>)
    requires AllAgree(ws) && forall w :: w in ws <==> w in vs
    ensures ApplyAll(img, ws) == ApplyAll(img, vs)
  {
    var a, b := ApplyAll(img, ws), ApplyAll(img, vs);
    forall k: (int, int)
      ensures k in a <==> k in b
      ensures k in a ==> a[k] == b[k]
    {
      ByteAfter(img, ws, k.0, k.1);
      ByteAfter(img, vs, k.0, k.1);
      if w :| w in ws && w.Covers(k.0, k.1) {
        assert w in vs;
      }
    }
    assert a.Keys == b.Keys;
  }

  // ---------- deliveries over several FIFO connections ----------

  /** order is an interleaving of the connections, each delivered in its own order. */
  ghost predicate Delivery(order: seq<Write>, conns: seq<seq<Write>>) {
    if order == [] then forall i :: 0 <= i < |conns| ==> conns[i] == []
    else exists i :: 0 <= i < |conns| && conns[i] != [] && conns[i][0] == order[0]
                     && Delivery(order[1..], conns[i := conns[i][1..]])
  }

  predicate OnSome(w: Write, conns: seq<seq<Write>>) {
    exists i :: 0 <= i < |conns| && w in conns[i]
  }

  lemma {:induction false} DeliversExactly(order: seq<Write>, conns: seq<seq<Write>>, w: Write)
    requires Delivery(order, conns)
    ensures w in order <==> OnSome(w, conns)
  {
    if order != [] {
      var i :| 0 <= i < |conns| && conns[i] != [] && conns[i][0] == order[0]
               && Delivery(order[1..], conns[i := conns[i][1..]]);
      var rest := conns[i := conns[i][1..]];
      DeliversExactly(order[1..], rest, w);
      assert conns[i] == [conns[i][0]] + rest[i];
      assert order == [order[0]] + order[1..];
      if j :| 0 <= j < |conns| && w in conns[j] {
        if j != i { assert w in rest[j]; }
      }
      if j :| 0 <= j < |conns| && w in rest[j] {
        assert w in conns[j];
      }
    }
  }

  /**
   * Whatever order the receiver serves the connections in, the disks end up the same, duplicate
   * frames included.
   */
  lemma DeliveryConfluent(img: Image, conns: seq<seq<Write>>, order: seq<Write>, order': seq<Write>)
    requires Delivery(order, conns) && Delivery(order', conns)
    requires forall a, b :: OnSome(a, conns) && OnSome(b, conns) ==> Agree(a, b)
    ensures ApplyAll(img, order) == ApplyAll(img, order')
  {
    forall w: Write
      ensures w in order <==> OnSome(w, conns)
      ensures w in order' <==> OnSome(w, conns)
    {
      DeliversExactly(order, conns, w);
      DeliversExactly(order', conns, w);
    }
    Confluent(img, order, order');
  }

  // ---------- reading back ----------

  /** A block just written reads back. */
  lemma ReadBack(img: Image, w: Write)
    ensures ReadBlock(Apply(img, w), w.devno, w.offset, |w.data|) == w.data
  {
    forall i | 0 <= i < |w.data|
      ensures ReadByte(Apply(img, w), w.devno, w.offset + i) == w.data[i]
    {
      AppliedAt(img, w, w.devno, w.offset + i);
    }
  }

  /** A write that agrees with a block's present contents does not change the block. */
  lemma ReadStable(img: Image, w: Write, block: Write)
    requires ReadBlock(img, block.devno, block.offset, |block.data|) == block.data
    requires Agree(w, block)
    ensures ReadBlock(Apply(img, w), block.devno, block.offset, |block.data|) == block.data
  {
    var after := ReadBlock(Apply(img, w), block.devno, block.offset, |block.data|);
    forall i | 0 <= i < |block.data|
      ensures after[i] == block.data[i]
    {
      var p := block.offset + i;
      AppliedAt(img, w, block.devno, p);
      assert ReadBlock(img, block.devno, block.offset, |block.data|)[i] == block.data[i];
      if w.Covers(block.devno, p) {
        assert block.Covers(w.devno, p) && block.At(p) == block.data[i];
      }
    }
  }

  lemma ByteReadAfter(img: Image, ws: seq<Write>, w: Write, k: nat)
    requires AllAgree(ws) && w in ws && k < |w.data|
    ensures ReadByte(ApplyAll(img, ws), w.devno, w.offset + k) == w.data[k]
  {
    ByteAfter(img, ws, w.devno, w.offset + k);
    hide ApplyAll, AllAgree;
    assert w.Covers(w.devno, w.offset + k) && w.At(w.offset + k) == w.data[k];
  }

  /** Every block among agreeing writes reads back whatever the order. */
  lemma ReadAfter(img: Image, ws: seq<Write>, w: Write)
    requires AllAgree(ws) && w in ws
    ensures ReadBlock(ApplyAll(img, ws), w.devno, w.offset, |w.data|) == w.data
  {
    hide ApplyAll, AllAgree, ReadByte;
    var read := ReadBlock(ApplyAll(img, ws), w.devno, w.offset, |w.data|);
    forall k | 0 <= k < |w.data|
      ensures read[k] == w.data[k]
    {
      ByteReadAfter(img, ws, w, k);
    }
  }

  predicate Apart(w: Write, devno: int, offset: int, len: nat) {
    w.devno != devno || w.offset + |w.data| <= offset || offset + len <= w.offset
  }

  lemma ReadApart(img: Image, w: Write, devno: int, offset: int, len: nat)
    requires Apart(w, devno, offset, len)
    ensures ReadBlock(Apply(img, w), devno, offset, len) == ReadBlock(img, devno, offset, len)
  {
    var after, before := ReadBlock(Apply(img, w), devno, offset, len), ReadBlock(img, devno, offset, len);
    forall i | 0 <= i < len
      ensures after[i] == before[i]
    {
      AppliedAt(img, w, devno, offset + i);
    }
  }
}
