/**
 * The sync machine's queue and deliveries are the real ones: queue entries hold encoded messages,
 * an acknowledgement may free the payload of an entry that still waits, and a delivery does to
 * the target what the receiver does with the message.
 */
module Refinement {
  import opened Bytes
  import opened MsgPack
  import opened Protocol
  import opened Wrappers
  import Sync = IncSync
  import Q = QueueLog
  import D = Disk
  import R = Receiver
  import W = Wire

  /** The block an entry carries. */
  function Contents(e: Q.Entry): seq<byte> {
    match Decode(e.data)
    case Some(b) => b.data
    case None => []
  }

  function ItemOf(l: Q.Log, n: nat): Sync.Item
    requires n < |l.pushes|
  {
    var e := l.pushes[n];
    Sync.Item(Sync.Key(e.devno, e.offset), if n in l.cleared then None else Some(Contents(e)))
  }

  /** The entries waiting to be popped, oldest first. */
  function Waiting(l: Q.Log): (items: seq<Sync.Item>)
    requires Q.WellFormed(l)
    ensures |items| == |l.pushes| - l.pops
    ensures forall i :: 0 <= i < |items| ==> items[i] == ItemOf(l, l.pops + i)
  {
    seq(|l.pushes| - l.pops, i requires 0 <= i < |l.pushes| - l.pops => ItemOf(l, l.pops + i))
  }

  /** What the client pushes for a block. */
  function EntryFor(k: Sync.Key, data: seq<byte>, hash: int): Q.Entry
    requires -0x8000_0000 <= k.devno < 0x8000_0000 && |data| <= BLOCK_SIZE
    requires -0x8000_0000_0000_0000 <= k.offset < 0x8000_0000_0000_0000
  {
    Q.Entry(k.devno, k.offset, hash, Encode(Block(k.devno, k.offset, data)))
  }

  /** Queueing an encoded block is the machine's Push: same result code, same queue. */
  lemma PushRefines(p: Sync.Pass, s: Sync.State, l: Q.Log, k: Sync.Key, hash: int)
    requires Q.WellFormed(l) && Waiting(l) == s.queue && s.phase == Sync.Pushing(k) && k in p.source
    requires -0x8000_0000 <= k.devno < 0x8000_0000 && |p.source[k]| <= BLOCK_SIZE
    requires -0x8000_0000_0000_0000 <= k.offset < 0x8000_0000_0000_0000
    requires |l.pushes| - l.pops < QUEUE_CAPACITY
    ensures var e := EntryFor(k, p.source[k], hash);
            var rc := if |l.pushes| - l.pops + 1 >= BACKPRESSURE_QUEUE_DEPTH then 2 else 0;
            && |e.data| <= QUEUE_ENTRY_MAX_PAYLOAD
            && Q.Enabled(l, Q.Push(e)) && Q.WellFormed(Q.Apply(l, Q.Push(e)))
            && Sync.Enabled(p, s, Sync.Push(rc))
            && Waiting(Q.Apply(l, Q.Push(e))) == Sync.Next(p, s, Sync.Push(rc)).queue
  {
    hide Decode, Encode, Contents, EntryFor;
    EntryCarries(k, p.source[k], hash);
    WaitingPush(l, EntryFor(k, p.source[k], hash));
  }

  lemma EntryCarries(k: Sync.Key, data: seq<byte>, hash: int)
    requires -0x8000_0000 <= k.devno < 0x8000_0000 && |data| <= BLOCK_SIZE
    requires -0x8000_0000_0000_0000 <= k.offset < 0x8000_0000_0000_0000
    ensures var e := EntryFor(k, data, hash);
            Contents(e) == data && |e.data| <= QUEUE_ENTRY_MAX_PAYLOAD && e.devno == k.devno && e.offset == k.offset
  {
    hide Decode, EncodeInt32, EncodeInt64, BinHeader;
    var e := EntryFor(k, data, hash);
    RoundTrip(Block(k.devno, k.offset, data), []);
    assert e.data + [] == e.data;
  }

  lemma WaitingPush(l: Q.Log, e: Q.Entry)
    requires Q.WellFormed(l) && Q.Enabled(l, Q.Push(e))
    ensures var l' := Q.Apply(l, Q.Push(e));
            && Q.WellFormed(l')
            && Waiting(l') == Waiting(l) + [Sync.Item(Sync.Key(e.devno, e.offset), Some(Contents(e)))]
  {
    hide Contents;
    var l' := Q.Apply(l, Q.Push(e));
    forall i | 0 <= i < |Waiting(l)|
      ensures Waiting(l')[i] == Waiting(l)[i]
    {
      assert l'.pushes[l.pops + i] == l.pushes[l.pops + i];
    }
  }

  /** Popping takes the machine's first item. */
  lemma PopRefines(l: Q.Log)
    requires Q.WellFormed(l) && Q.Enabled(l, Q.Pop)
    ensures Q.WellFormed(Q.Apply(l, Q.Pop)) && Waiting(Q.Apply(l, Q.Pop)) == Waiting(l)[1..]
    ensures Waiting(l)[0].payload.Some? <==> Q.Pending(l, l.pops)
  {
    hide Contents;
    assert Waiting(l)[0] == ItemOf(l, l.pops);
    var l' := Q.Apply(l, Q.Pop);
    forall i | 0 <= i < |Waiting(l')|
      ensures Waiting(l')[i] == Waiting(l)[1..][i]
    {
      assert Waiting(l)[i + 1] == ItemOf(l, l.pops + (i + 1));
    }
  }

  /**
   * Acknowledging is the machine's TakeAck: it frees the payload of a waiting entry exactly if the
   * scan hits one, and leaves the queue alone otherwise.
   */
  lemma AckRefines(p: Sync.Pass, s: Sync.State, l: Q.Log, c: nat, hit: Option<nat>)
    requires Q.WellFormed(l) && Waiting(l) == s.queue && c < |s.conns| && s.conns[c].acks != []
    requires var k := s.conns[c].acks[0]; Q.Enabled(l, Q.Ack(k.devno, k.offset, hit))
    ensures var k := s.conns[c].acks[0];
            var freed := if hit.Some? && hit.value >= l.pops then Some(hit.value - l.pops) else None;
            var l' := Q.Apply(l, Q.Ack(k.devno, k.offset, hit));
            && Q.WellFormed(l') && Sync.Enabled(p, s, Sync.TakeAck(c, freed))
            && Waiting(l') == Sync.Next(p, s, Sync.TakeAck(c, freed)).queue
  {
    hide Contents, ItemOf;
    var k := s.conns[c].acks[0];
    WaitingAck(l, k.devno, k.offset, hit);
  }

  lemma WaitingAck(l: Q.Log, devno: int, offset: int, hit: Option<nat>)
    requires Q.WellFormed(l) && Q.Enabled(l, Q.Ack(devno, offset, hit))
    ensures var l' := Q.Apply(l, Q.Ack(devno, offset, hit));
            && Q.WellFormed(l')
            && (hit.Some? && hit.value >= l.pops ==>
                  var j := hit.value - l.pops;
                  && j < |Waiting(l)| && Waiting(l)[j].key == Sync.Key(devno, offset)
                  && Waiting(l') == Waiting(l)[j := Waiting(l)[j].(payload := None)])
            && (hit.None? || hit.value < l.pops ==> Waiting(l') == Waiting(l))
  {
    hide Contents;
    var l' := Q.Apply(l, Q.Ack(devno, offset, hit));
    var was, now := Waiting(l), Waiting(l');
    forall i: nat | i < |was|
      ensures now[i] == if hit == Some(l.pops + i) then was[i].(payload := None) else was[i]
    {
      assert was[i] == ItemOf(l, l.pops + i) && now[i] == ItemOf(l', l.pops + i);
    }
    if hit.Some? && hit.value >= l.pops {
      assert was[hit.value - l.pops] == ItemOf(l, hit.value);
    }
  }

  // ---------- deliveries ----------

  /** How many octets of a frame the receiver writes: none if it refuses the block. */
  function Written(st: R.State, b: Block, io: R.Io): (n: nat)
    ensures n <= |b.data|
  {
    if R.Accepts(st.usable, b) then R.Reached(io.writes, |b.data|, 0) else 0
  }

  lemma EmptyWrite(img: D.Image, w: D.Write)
    requires w.data == []
    ensures D.Apply(img, w) == img
  {}

  /** Handling a data message changes the disks by exactly one write of that many octets. */
  lemma HandleData(st: R.State, b: Block, io: R.Io, sid: int)
    ensures var st' := R.Handle(st, R.Input(sid, W.Data(b), io));
            R.Volatile(st.base, st'.history) ==
            D.Apply(R.Volatile(st.base, st.history), R.WriteOf(b, Written(st, b, io)))
  {
    var i := R.Input(sid, W.Data(b), io);
    var st' := R.Handle(st, i);
    R.HandleWrites(st, i);
    R.VolatileIsReplay(st.base, st.history);
    R.VolatileIsReplay(st.base, st'.history);
    hide R.Volatile, R.Writes, R.Handle, R.Reached, R.Accepts, D.Apply;
    var ws, w := R.Writes(st.history), R.WriteOf(b, Written(st, b, io));
    if R.Accepts(st.usable, b) {
      assert (ws + [w])[..|ws|] == ws;
    } else {
      assert ws + [] == ws;
      EmptyWrite(D.ApplyAll(st.base, ws), w);
    }
  }

  /**
   * The machine's Deliver is the receiver handling the frame's message: same disks afterwards, and
   * an acknowledgement in the one exactly if there is one in the other.
   */
  lemma DeliverRefines(p: Sync.Pass, s: Sync.State, c: nat, st: R.State, io: R.Io, sid: int, b: Block)
    requires c < |s.conns| && s.conns[c].frames != []
    requires s.conns[c].frames[0] == Sync.Frame(Sync.Key(b.devno, b.offset), b.data) && b.data != []
    requires R.Volatile(st.base, st.history) == s.target
    ensures var n := Written(st, b, io);
            var i := R.Input(sid, W.Data(b), io);
            && Sync.Enabled(p, s, Sync.Deliver(c, n))
            && R.Volatile(st.base, R.Handle(st, i).history) == Sync.Next(p, s, Sync.Deliver(c, n)).target
            && (R.Responses(R.Handle(st, i), sid) == R.Responses(st, sid) + [R.Ack(b.devno, |b.data|, b.offset)]
                <==> Sync.Next(p, s, Sync.Deliver(c, n)).conns[c].acks == s.conns[c].acks + [Sync.Key(b.devno, b.offset)])
  {
    HandleData(st, b, io, sid);
    Answered(st, b, io, sid);
    hide R.Volatile, R.Handle, R.Responses, R.Accepts, R.Reached, Written, D.Apply;
    var n := Written(st, b, io);
    var acks := s.conns[c].acks;
    assert |acks + [Sync.Key(b.devno, b.offset)]| == |acks| + 1;
  }

  lemma Answered(st: R.State, b: Block, io: R.Io, sid: int)
    requires b.data != []
    ensures var st' := R.Handle(st, R.Input(sid, W.Data(b), io));
            R.Responses(st', sid) == R.Responses(st, sid) + [R.Ack(b.devno, |b.data|, b.offset)]
            <==> Written(st, b, io) == |b.data|
  {
    hide R.Reached;
    var rs := R.Responses(st, sid);
    assert |rs + [R.Ack(b.devno, |b.data|, b.offset)]| == |rs| + 1;
  }
}
