/**
 * One incremental sync pass as a step machine: the client's scan, its send queue, several FIFO
 * connections with frames one way and acknowledgements the other, and the target disks.  Steps
 * interleave freely.  Frames and acknowledgements may be lost, connections reset, writes torn.
 */
module IncSync {
  import opened Bytes
  import opened Disk
  import opened Protocol
  import opened Wrappers

  datatype Key = Key(devno: int, offset: int)

  /** A row of T_BLOCK. */
  datatype Row = Row(size: nat, hash: int, ack: bool, lastSent: int, version: nat)

  datatype Frame = Frame(key: Key, data: seq<byte>)
  /** A queued entry; its payload is gone once an acknowledgement for its key freed it. */
  datatype Item = Item(key: Key, payload: Option<seq<byte>>)
  datatype Conn = Conn(frames: seq<Frame>, acks: seq<Key>)

  /** Between blocks, retrying queue_push for a block, or about to record it. */
  datatype Phase = Idle | Pushing(key: Key) | Pushed(key: Key)

  /**
   * What a pass is run with: how much room each block has, the hash, and source, the contents of
   * every block that could be read and encoded.
   */
  datatype Pass = Pass(extent: map<Key, nat>, hash: (Key, seq<byte>) -> int,
                       source: map<Key, seq<byte>>, version: nat, now: int)

  /**
   * visited, changed, delivered and torn record what happened in this pass; torn holds, for each
   * block some of whose copies were cut short, how many octets the longest of them wrote.
   */
  datatype State = State(table: map<Key, Row>, queue: seq<Item>, conns: seq<Conn>, target: Image,
                         phase: Phase, visited: set<Key>, changed: set<Key>,
                         delivered: set<Key>, torn: map<Key, nat>)

  datatype Step =
    | Skip(key: Key)                          // unreadable, empty or not encodable
    | Verify(key: Key)                        // stored hash equals the block's hash
    | Begin(key: Key)                         // changed or new block: start queueing it
    | Push(rc: int)                           // one call of queue_push
    | Upsert                                  // record the block: new hash, ack = 0
    | Flush(conn: nat)                        // pop an entry and send it
    | Drop                                    // pop an entry and lose it
    | Deliver(conn: nat, n: nat)              // the receiver writes n octets of the next frame
    | TakeAck(conn: nat, freed: Option<nat>)  // the client reads an acknowledgement
    | LoseAck(conn: nat)
    | Reset(conn: nat)                        // everything in flight on a connection is lost

  function Current(s: State): set<Key> {
    if s.phase.Idle? then {} else {s.phase.key}
  }

  predicate Unchanged(p: Pass, s: State, k: Key) {
    k in p.source && k in s.table && s.table[k].hash == p.hash(k, p.source[k])
  }

  predicate Enabled(p: Pass, s: State, step: Step) {
    match step
    case Skip(k) => s.phase.Idle? && k !in s.visited && k !in p.source
    case Verify(k) => s.phase.Idle? && k !in s.visited && Unchanged(p, s, k)
    case Begin(k) => s.phase.Idle? && k !in s.visited && k in p.source && !Unchanged(p, s, k)
    case Push(rc) =>
      && s.phase.Pushing? && s.phase.key in p.source
      && (rc == -1 // full, or out of memory
          || (|s.queue| < QUEUE_CAPACITY
              && rc == if |s.queue| + 1 >= BACKPRESSURE_QUEUE_DEPTH then 2 else 0))
    case Upsert => s.phase.Pushed? && s.phase.key in p.source
    case Flush(c) => c < |s.conns| && s.queue != [] && s.queue[0].payload.Some?
    case Drop => s.queue != []
    case Deliver(c, n) => c < |s.conns| && s.conns[c].frames != [] && n <= |s.conns[c].frames[0].data|
    case TakeAck(c, freed) =>
      && c < |s.conns| && s.conns[c].acks != []
      && (freed.Some? ==> freed.value < |s.queue| && s.queue[freed.value].key == s.conns[c].acks[0])
    case LoseAck(c) => c < |s.conns| && s.conns[c].acks != []
    case Reset(c) => c < |s.conns|
  }

  function MarkAcked(t: map<Key, Row>, k: Key): map<Key, Row> {
    if k in t then t[k := t[k].(ack := true)] else t
  }

  function TornTo(s: State, k: Key): nat { if k in s.torn then s.torn[k] else 0 }

  function Max(a: nat, b: nat): nat { if a < b then b else a }

  function FrameWrite(f: Frame, n: nat): Write
    requires n <= |f.data|
  {
    Write(f.key.devno, f.key.offset, f.data[..n])
  }

  function Next(p: Pass, s: State, step: Step): State
    requires Enabled(p, s, step)
  {
    match step
    case Skip(k) => s.(visited := s.visited + {k})
    case Verify(k) =>
      s.(visited := s.visited + {k},
         table := s.table[k := s.table[k].(ack := true, version := p.version, lastSent := p.now)])
    case Begin(k) => s.(phase := Pushing(k), changed := s.changed + {k})
    case Push(rc) =>
      if rc == -1 then s
      else
        s.(queue := s.queue + [Item(s.phase.key, Some(p.source[s.phase.key]))],
           phase := if rc == 0 then Pushed(s.phase.key) else s.phase)
    case Upsert =>
      var data := p.source[s.phase.key];
      s.(table := s.table[s.phase.key := Row(|data|, p.hash(s.phase.key, data), false, 0, p.version)],
         visited := s.visited + {s.phase.key}, phase := Idle)
    case Flush(c) =>
      var f := Frame(s.queue[0].key, s.queue[0].payload.value);
      s.(queue := s.queue[1..], conns := s.conns[c := s.conns[c].(frames := s.conns[c].frames + [f])])
    case Drop => s.(queue := s.queue[1..])
    case Deliver(c, n) =>
      var f := s.conns[c].frames[0];
      var full := n == |f.data|;
      s.(target := Apply(s.target, FrameWrite(f, n)),
         conns := s.conns[c := Conn(s.conns[c].frames[1..],
                                    if full then s.conns[c].acks + [f.key] else s.conns[c].acks)],
         delivered := if full then s.delivered + {f.key} else s.delivered,
         torn := if full then s.torn else s.torn[f.key := Max(TornTo(s, f.key), n)])
    case TakeAck(c, freed) =>
      s.(table := MarkAcked(s.table, s.conns[c].acks[0]),
         queue := if freed.None? then s.queue
                  else s.queue[freed.value := s.queue[freed.value].(payload := None)],
         conns := s.conns[c := s.conns[c].(acks := s.conns[c].acks[1..])])
    case LoseAck(c) => s.(conns := s.conns[c := s.conns[c].(acks := s.conns[c].acks[1..])])
    case Reset(c) => s.(conns := s.conns[c := Conn([], [])])
  }

  // ---------- runs ----------

  ghost predicate Trace(p: Pass, states: seq<State>, steps: seq<Step>) {
    && |states| == |steps| + 1
    && forall i :: 0 <= i < |steps| ==>
         Enabled(p, states[i], steps[i]) && states[i + 1] == Next(p, states[i], steps[i])
  }

  /** Every block has its own room on the target, and fits in it. */
  ghost predicate Layout(p: Pass) {
    && (forall a, b :: a in p.extent && b in p.extent && a != b ==>
          a.devno != b.devno || a.offset + p.extent[a] <= b.offset || b.offset + p.extent[b] <= a.offset)
    && (forall k :: k in p.source ==> k in p.extent && |p.source[k]| <= p.extent[k])
  }

  function TargetBlock(img: Image, k: Key, len: nat): (b: seq<byte>)
    ensures |b| == len
  {
    ReadBlock(img, k.devno, k.offset, len)
  }

  /** The row describes what the target holds. */
  predicate RowMatches(p: Pass, s: State, k: Key)
    requires k in s.table
  {
    s.table[k].hash == p.hash(k, TargetBlock(s.target, k, s.table[k].size))
  }

  ghost predicate RowsFit(p: Pass, s: State) {
    forall k :: k in s.table ==> k in p.extent && s.table[k].size <= p.extent[k]
  }

  ghost predicate AllRowsMatch(p: Pass, s: State) {
    forall k :: k in s.table ==> RowMatches(p, s, k)
  }

  predicate Quiet(s: State) {
    s.phase.Idle? && s.queue == [] && forall c :: 0 <= c < |s.conns| ==> s.conns[c] == Conn([], [])
  }

  predicate NewPass(s: State) {
    Quiet(s) && s.visited == s.changed == s.delivered == {} && s.torn == map[]
  }

  /** Where a pass begins, whatever earlier passes did to the rows. */
  ghost predicate Fresh(p: Pass, s: State) { Layout(p) && RowsFit(p, s) && NewPass(s) }

  ghost predicate Start(p: Pass, s: State) { Fresh(p, s) && AllRowsMatch(p, s) }

  // ---------- the invariant ----------

  /** The target holds the pass's contents of block k. */
  predicate Holds(p: Pass, img: Image, k: Key) {
    k in p.source && TargetBlock(img, k, |p.source[k]|) == p.source[k]
  }

  predicate FrameOk(p: Pass, s: State, f: Frame) {
    f.key in s.changed && f.key in p.source && f.data == p.source[f.key]
  }

  predicate ItemOk(p: Pass, s: State, i: Item) {
    i.key in s.changed && i.key in p.source && (i.payload.Some? ==> i.payload.value == p.source[i.key])
  }

  predicate AckOk(p: Pass, s: State, k: Key) {
    k in s.changed && Holds(p, s.target, k)
  }

  ghost predicate ConnOk(p: Pass, s: State, c: Conn) {
    (forall f :: f in c.frames ==> FrameOk(p, s, f)) && (forall k :: k in c.acks ==> AckOk(p, s, k))
  }

  predicate RowOk(p: Pass, s: State, k: Key)
    requires k in s.table
  {
    k in s.changed && k !in Current(s) ==>
      && k in p.source && s.table[k].hash == p.hash(k, p.source[k]) && s.table[k].size == |p.source[k]|
      && (s.table[k].ack ==> Holds(p, s.target, k))
  }

  ghost predicate Inv(p: Pass, s: State) {
    && Layout(p) && RowsFit(p, s)
    && (forall k :: k in s.table ==> RowOk(p, s, k))
    && (forall i :: i in s.queue ==> ItemOk(p, s, i))
    && (forall c :: c in s.conns ==> ConnOk(p, s, c))
    && (forall k :: k in Current(s) ==> k in s.changed && k in p.source && k !in s.visited)
    && (forall k :: k in s.changed ==> k in Current(s) || (k in s.table && k in s.visited))
    && (forall k :: k in s.visited && k in p.source && k !in s.changed ==> Unchanged(p, s, k))
    && (forall k :: k in s.delivered ==> Holds(p, s.target, k))
  }

  // ---------- one delivery ----------

  /** A frame's octets stay inside its block's room, so other blocks do not notice. */
  lemma OtherBlocksKept(p: Pass, img: Image, f: Frame, n: nat, k: Key, len: nat)
    requires Layout(p) && f.key in p.source && f.data == p.source[f.key] && n <= |f.data|
    requires k in p.extent && len <= p.extent[k] && k != f.key
    ensures TargetBlock(Apply(img, FrameWrite(f, n)), k, len) == TargetBlock(img, k, len)
  {
    ReadApart(img, FrameWrite(f, n), k.devno, k.offset, len);
  }

  lemma PrefixAgrees(f: Frame, n: nat)
    requires n <= |f.data|
    ensures Agree(FrameWrite(f, n), FrameWrite(f, |f.data|))
  {}

  /** No delivery of this pass, whole or torn, spoils a block that already holds its contents. */
  lemma HoldsKept(p: Pass, img: Image, f: Frame, n: nat, k: Key)
    requires Layout(p) && f.key in p.source && f.data == p.source[f.key] && n <= |f.data|
    requires Holds(p, img, k)
    ensures Holds(p, Apply(img, FrameWrite(f, n)), k)
  {
    hide Apply, ReadBlock;
    if k == f.key {
      PrefixAgrees(f, n);
      assert f.data[..|f.data|] == f.data;
      ReadStable(img, FrameWrite(f, n), FrameWrite(f, |f.data|));
    } else {
      OtherBlocksKept(p, img, f, n, k, |p.source[k]|);
    }
  }

  lemma DeliveredHolds(p: Pass, img: Image, f: Frame)
    requires f.key in p.source && f.data == p.source[f.key]
    ensures Holds(p, Apply(img, FrameWrite(f, |f.data|)), f.key)
  {
    hide Apply, ReadBlock;
    assert f.data[..|f.data|] == f.data;
    ReadBack(img, FrameWrite(f, |f.data|));
  }

  lemma DeliverKeepsInv(p: Pass, s: State, c: nat, n: nat)
    requires Inv(p, s) && Enabled(p, s, Deliver(c, n))
    ensures Inv(p, Next(p, s, Deliver(c, n)))
  {
    hide Apply, ReadBlock, Holds, TargetBlock, FrameWrite, Layout;
    var s' := Next(p, s, Deliver(c, n));
    var f := s.conns[c].frames[0];
    assert s.conns[c] in s.conns && f in s.conns[c].frames;
    assert FrameOk(p, s, f);
    if n == |f.data| { DeliveredHolds(p, s.target, f); }
    forall k | Holds(p, s.target, k)
      ensures Holds(p, s'.target, k)
    {
      HoldsKept(p, s.target, f, n, k);
    }
    forall k | k in s'.table
      ensures RowOk(p, s', k)
    {
      assert RowOk(p, s, k);
    }
    forall d | d in s'.conns
      ensures ConnOk(p, s', d)
    {
      var was := if d in s.conns then d else s.conns[c];
      assert ConnOk(p, s, was);
      forall g | g in d.frames ensures FrameOk(p, s', g) { assert g in was.frames; }
      forall k | k in d.acks ensures AckOk(p, s', k) {
        if k in was.acks { assert AckOk(p, s, k); } else { assert k == f.key && n == |f.data|; }
      }
    }
  }

  // ---------- the other steps ----------

  lemma ScanKeepsInv(p: Pass, s: State, step: Step)
    requires Inv(p, s) && Enabled(p, s, step)
    requires step.Skip? || step.Verify? || step.Begin?
    ensures Inv(p, Next(p, s, step))
  {
    hide Holds, Layout, TargetBlock;
    var s' := Next(p, s, step);
    forall k | k in s'.table
      ensures RowOk(p, s', k)
      ensures k in p.extent && s'.table[k].size <= p.extent[k]
    {
      assert RowOk(p, s, k);
    }
    forall d | d in s'.conns
      ensures ConnOk(p, s', d)
    {
      assert ConnOk(p, s, d);
      forall g | g in d.frames ensures FrameOk(p, s', g) { assert FrameOk(p, s, g); }
      forall k | k in d.acks ensures AckOk(p, s', k) { assert AckOk(p, s, k); }
    }
    forall i | i in s'.queue ensures ItemOk(p, s', i) { assert ItemOk(p, s, i); }
  }

  lemma PushKeepsInv(p: Pass, s: State, rc: int)
    requires Inv(p, s) && Enabled(p, s, Push(rc))
    ensures Inv(p, Next(p, s, Push(rc)))
  {
    hide Holds, Layout, TargetBlock, ConnOk;
    var s' := Next(p, s, Push(rc));
    forall k | k in s'.table ensures RowOk(p, s', k) { assert RowOk(p, s, k); }
    SameFlight(p, s, s');
    forall i | i in s'.queue
      ensures ItemOk(p, s', i)
    {
      if i in s.queue { assert ItemOk(p, s, i); }
    }
  }

  lemma UpsertKeepsInv(p: Pass, s: State)
    requires Inv(p, s) && Enabled(p, s, Upsert)
    ensures Inv(p, Next(p, s, Upsert))
  {
    hide Holds, Layout, TargetBlock, ConnOk;
    var s' := Next(p, s, Upsert);
    SourceFits(p, s.phase.key);
    forall k | k in s'.table
      ensures RowOk(p, s', k)
      ensures k in p.extent && s'.table[k].size <= p.extent[k]
    {
      if k in s.table { assert RowOk(p, s, k); }
    }
    SameFlight(p, s, s');
    forall i | i in s'.queue ensures ItemOk(p, s', i) { assert ItemOk(p, s, i); }
  }

  /** What is in flight stays correct while target and the changed set stay as they are. */
  lemma SameFlight(p: Pass, s: State, s': State)
    requires forall c :: c in s.conns ==> ConnOk(p, s, c)
    requires s'.conns == s.conns && s'.target == s.target && s'.changed == s.changed
    ensures forall c :: c in s'.conns ==> ConnOk(p, s', c)
  {
    hide Holds;
    forall d | d in s'.conns
      ensures ConnOk(p, s', d)
    {
      assert ConnOk(p, s, d);
      forall g | g in d.frames ensures FrameOk(p, s', g) { assert FrameOk(p, s, g); }
      forall k | k in d.acks ensures AckOk(p, s', k) { assert AckOk(p, s, k); }
    }
  }

  lemma SourceFits(p: Pass, k: Key)
    requires Layout(p) && k in p.source
    ensures k in p.extent && |p.source[k]| <= p.extent[k]
  {}

  /** A connection with fewer frames and acknowledgements, or one more good frame, is still good. */
  lemma ConnsKept(p: Pass, s: State, s': State, c: nat, to: Conn, extra: seq<Frame>)
    requires forall d :: d in s.conns ==> ConnOk(p, s, d)
    requires c < |s.conns| && s'.target == s.target && s'.changed == s.changed
    requires s'.conns == s.conns[c := to]
    requires forall g :: g in to.frames ==> g in s.conns[c].frames || g in extra
    requires forall k :: k in to.acks ==> k in s.conns[c].acks
    requires forall g :: g in extra ==> FrameOk(p, s, g)
    ensures forall d :: d in s'.conns ==> ConnOk(p, s', d)
  {
    hide Holds;
    assert s.conns[c] in s.conns;
    forall d | d in s'.conns
      ensures ConnOk(p, s', d)
    {
      var was := if d in s.conns then d else s.conns[c];
      assert ConnOk(p, s, was);
      forall g | g in d.frames ensures FrameOk(p, s', g) { assert FrameOk(p, s, g); }
      forall k | k in d.acks ensures AckOk(p, s', k) { assert AckOk(p, s, k); }
    }
  }

  lemma FlushKeepsInv(p: Pass, s: State, c: nat)
    requires Inv(p, s) && Enabled(p, s, Flush(c))
    ensures Inv(p, Next(p, s, Flush(c)))
  {
    hide Holds, Layout, TargetBlock, ConnOk;
    var s' := Next(p, s, Flush(c));
    assert s.queue[0] in s.queue && ItemOk(p, s, s.queue[0]);
    var f := Frame(s.queue[0].key, s.queue[0].payload.value);
    ConnsKept(p, s, s', c, Conn(s.conns[c].frames + [f], s.conns[c].acks), [f]);
    forall k | k in s'.table
      ensures RowOk(p, s', k)
      ensures k in p.extent && s'.table[k].size <= p.extent[k]
    {
      assert RowOk(p, s, k);
    }
    forall i | i in s'.queue ensures ItemOk(p, s', i) { assert ItemOk(p, s, i); }
  }

  lemma TakeAckKeepsInv(p: Pass, s: State, c: nat, freed: Option<nat>)
    requires Inv(p, s) && Enabled(p, s, TakeAck(c, freed))
    ensures Inv(p, Next(p, s, TakeAck(c, freed)))
  {
    hide Holds, Layout, TargetBlock;
    var s' := Next(p, s, TakeAck(c, freed));
    var k0 := s.conns[c].acks[0];
    assert s.conns[c] in s.conns && k0 in s.conns[c].acks && AckOk(p, s, k0);
    ConnsKept(p, s, s', c, Conn(s.conns[c].frames, s.conns[c].acks[1..]), []);
    forall k | k in s'.table
      ensures RowOk(p, s', k)
      ensures k in p.extent && s'.table[k].size <= p.extent[k]
    {
      assert RowOk(p, s, k);
    }
    forall i | i in s'.queue
      ensures ItemOk(p, s', i)
    {
      if i in s.queue { assert ItemOk(p, s, i); } else { assert ItemOk(p, s, s.queue[freed.value]); }
    }
  }

  lemma LossKeepsInv(p: Pass, s: State, step: Step)
    requires Inv(p, s) && Enabled(p, s, step) && (step.Drop? || step.LoseAck? || step.Reset?)
    ensures Inv(p, Next(p, s, step))
  {
    hide Holds, Layout, TargetBlock, ConnOk;
    var s' := Next(p, s, step);
    if step.Drop? {
      SameFlight(p, s, s');
    } else {
      var c := step.conn;
      ConnsKept(p, s, s', c, s'.conns[c], []);
    }
    forall k | k in s'.table
      ensures RowOk(p, s', k)
      ensures k in p.extent && s'.table[k].size <= p.extent[k]
    {
      assert RowOk(p, s, k);
    }
    forall i | i in s'.queue ensures ItemOk(p, s', i) { assert ItemOk(p, s, i); }
  }

  lemma StepKeepsInv(p: Pass, s: State, step: Step)
    requires Inv(p, s) && Enabled(p, s, step)
    ensures Inv(p, Next(p, s, step))
  {
    hide *;
    if step.Deliver? {
      DeliverKeepsInv(p, s, step.conn, step.n);
    } else if step.Skip? || step.Verify? || step.Begin? {
      ScanKeepsInv(p, s, step);
    } else if step.Push? {
      PushKeepsInv(p, s, step.rc);
    } else if step.Upsert? {
      UpsertKeepsInv(p, s);
    } else if step.Flush? {
      FlushKeepsInv(p, s, step.conn);
    } else if step.TakeAck? {
      TakeAckKeepsInv(p, s, step.conn, step.freed);
    } else {
      LossKeepsInv(p, s, step);
    }
  }

  lemma FreshInv(p: Pass, s: State)
    requires Fresh(p, s)
    ensures Inv(p, s)
  {}

  lemma {:induction false} TraceInv(p: Pass, states: seq<State>, steps: seq<Step>, i: nat)
    requires Trace(p, states, steps) && Fresh(p, states[0]) && i <= |steps|
    ensures Inv(p, states[i])
  {
    hide Inv, Fresh, Next, Enabled;
    if i == 0 {
      FreshInv(p, states[0]);
    } else {
      TraceInv(p, states, steps, i - 1);
      StepKeepsInv(p, states[i - 1], steps[i - 1]);
    }
  }

  // ---------- blocks that did not change ----------

  /** A block not queued in this pass has the row and the octets on the target that it had. */
  ghost predicate Kept(s0: State, s: State, k: Key) {
    k !in s.changed ==>
      && (k in s.table <==> k in s0.table)
      && (k in s0.table ==>
            && s.table[k].hash == s0.table[k].hash && s.table[k].size == s0.table[k].size
            && TargetBlock(s.target, k, s0.table[k].size) == TargetBlock(s0.target, k, s0.table[k].size))
  }

  lemma StepKeeps(p: Pass, s0: State, s: State, step: Step, k: Key)
    requires Inv(p, s) && RowsFit(p, s0) && Enabled(p, s, step) && Kept(s0, s, k)
    ensures Kept(s0, Next(p, s, step), k)
  {
    hide TargetBlock, Holds, Layout;
    if step.Deliver? {
      var f := s.conns[step.conn].frames[0];
      assert s.conns[step.conn] in s.conns && f in s.conns[step.conn].frames && FrameOk(p, s, f);
      if k in s0.table && k != f.key { OtherBlocksKept(p, s.target, f, step.n, k, s0.table[k].size); }
    }
  }

  lemma {:induction false} TraceKeeps(p: Pass, states: seq<State>, steps: seq<Step>, i: nat, k: Key)
    requires Trace(p, states, steps) && Fresh(p, states[0]) && i <= |steps|
    ensures Kept(states[0], states[i], k)
  {
    if i > 0 {
      hide Kept, Next, Enabled, Inv;
      TraceKeeps(p, states, steps, i - 1, k);
      TraceInv(p, states, steps, i - 1);
      StepKeeps(p, states[0], states[i - 1], steps[i - 1], k);
    }
  }

  lemma UnchangedRowMatches(p: Pass, states: seq<State>, steps: seq<Step>, i: nat, k: Key)
    requires Trace(p, states, steps) && Start(p, states[0]) && i <= |steps|
    requires k in states[i].table && k !in states[i].changed
    ensures RowMatches(p, states[i], k)
  {
    TraceKeeps(p, states, steps, i, k);
    assert RowMatches(p, states[0], k);
  }

  // ---------- safety: an acknowledged row never lies ----------

  /**
   * At every moment of every pass, however steps interleave and whatever is lost, each row with
   * ack = 1 describes what the target holds - except the one block being queued just then.
   */
  lemma AckedRowsMatch(p: Pass, states: seq<State>, steps: seq<Step>, i: nat, k: Key)
    requires Trace(p, states, steps) && Start(p, states[0]) && i <= |steps|
    requires k in states[i].table && states[i].table[k].ack && k !in Current(states[i])
    ensures RowMatches(p, states[i], k)
  {
    if k in states[i].changed {
      TraceInv(p, states, steps, i);
      assert RowOk(p, states[i], k);
    } else {
      UnchangedRowMatches(p, states, steps, i, k);
    }
  }
}
