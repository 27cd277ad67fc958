/**
 * From every start the system can complete a pass without loss, so that what is said about
 * completed passes is said about something: block by block, over the first link.
 */
module Completion {
  import opened MsgPack
  import opened Wrappers
  import opened SyncSystem
  import opened Simulation
  import Sync = IncSync
  import Q = QueueLog
  import R = Receiver
  import S = Streaming
  import W = Wire

  /** Every block lies on an open disk, at an offset the receiver accepts. */
  ghost predicate Writable(p: Sync.Pass, usable: set<int>) {
    forall k :: k in p.source ==> 0 <= k.devno < 16 && k.devno in usable && k.offset >= 0
  }

  // ---------- runs without loss ----------

  ghost predicate Goes(c: W.Codec, p: Sync.Pass, y: World, ys: seq<World>, acts: seq<Act>, y': World)
    requires Encodable(p)
  {
    && Trace(c, p, ys, acts) && ys[0] == y && ys[|acts|] == y'
    && forall i :: 0 <= i < |acts| ==> Lossless(c, ys[i], acts[i])
  }

  lemma Stays(c: W.Codec, p: Sync.Pass, y: World) returns (ys: seq<World>, acts: seq<Act>)
    requires Encodable(p)
    ensures Goes(c, p, y, ys, acts, y)
  {
    ys, acts := [y], [];
  }

  lemma Acts(c: W.Codec, p: Sync.Pass, y: World, a: Act) returns (ys: seq<World>, acts: seq<Act>)
    requires Encodable(p) && Enabled(c, p, y, a) && Lossless(c, y, a)
    ensures Goes(c, p, y, ys, acts, Next(c, p, y, a))
  {
    hide Enabled, Next, Lossless;
    ys, acts := [y, Next(c, p, y, a)], [a];
  }

  lemma Then(c: W.Codec, p: Sync.Pass, y0: World, ys: seq<World>, acts: seq<Act>, y1: World,
             zs: seq<World>, bs: seq<Act>, y2: World)
    returns (rs: seq<World>, cs: seq<Act>)
    requires Encodable(p) && Goes(c, p, y0, ys, acts, y1) && Goes(c, p, y1, zs, bs, y2)
    ensures Goes(c, p, y0, rs, cs, y2)
  {
    hide Enabled, Next, Lossless, Encodable;
    rs, cs := ys + zs[1..], acts + bs;
    forall i | 0 <= i < |cs|
      ensures Enabled(c, p, rs[i], cs[i]) && rs[i + 1] == Next(c, p, rs[i], cs[i]) && Lossless(c, rs[i], cs[i])
    {
      if i < |acts| {
        assert rs[i] == ys[i] && rs[i + 1] == ys[i + 1];
      } else {
        var j := i - |acts|;
        assert rs[i] == zs[j] && rs[i + 1] == zs[j + 1] && cs[i] == bs[j];
      }
    }
  }

  // ---------- one block ----------

  /** Nothing waits and nothing queued still holds a payload. */
  ghost predicate AllCleared(l: Q.Log) {
    && l.pops == |l.pushes| && (forall n :: n in l.cleared ==> n < |l.pushes|)
    && (forall n :: 0 <= n < |l.pushes| ==> n in l.cleared)
  }

  /** Between two blocks: at rest, every visited block acknowledged. */
  ghost predicate AtRest(p: Sync.Pass, y: World) {
    && Idle(y) && |y.links| >= 1 && AllCleared(y.log)
    && (forall k :: k in y.visited && k in p.source ==> k in y.table && y.table[k].ack)
  }

  function NewRow(p: Sync.Pass, k: Sync.Key): Sync.Row
    requires k in p.source
  {
    Sync.Row(|p.source[k]|, p.hash(k, p.source[k]), false, 0, p.version)
  }

  /** Begin, push, record. */
  function Queued(p: Sync.Pass, y: World, k: Sync.Key): World
    requires Encodable(p) && k in p.source
  {
    y.(table := y.table[k := NewRow(p, k)], visited := y.visited + {k},
       log := y.log.(pushes := y.log.pushes + [Entry(p, k)]))
  }

  lemma BeginsBlock(c: W.Codec, p: Sync.Pass, y: World, k: Sync.Key)
    requires Encodable(p) && y.phase.Idle? && k in p.source && k !in y.visited && !Sync.Unchanged(p, Client(y), k)
    ensures var a := Scan(Sync.Begin(k));
            Enabled(c, p, y, a) && Lossless(c, y, a) && Next(c, p, y, a) == y.(phase := Sync.Pushing(k))
  {
    hide Encodable;
  }

  lemma PushesBlock(c: W.Codec, p: Sync.Pass, y: World, k: Sync.Key)
    requires Encodable(p) && y.phase == Sync.Pushing(k) && k in p.source && y.log.pops == |y.log.pushes|
    ensures Enabled(c, p, y, Push(true)) && Lossless(c, y, Push(true))
    ensures Next(c, p, y, Push(true)) ==
            y.(log := y.log.(pushes := y.log.pushes + [Entry(p, k)]), phase := Sync.Pushed(k))
  {
    EntryIsOk(p, k);
    hide Encodable, Entry;
  }

  lemma RecordsBlock(c: W.Codec, p: Sync.Pass, y: World, k: Sync.Key)
    requires Encodable(p) && y.phase == Sync.Pushed(k) && k in p.source
    ensures var a := Scan(Sync.Upsert);
            && Enabled(c, p, y, a) && Lossless(c, y, a)
            && Next(c, p, y, a) ==
               y.(table := y.table[k := NewRow(p, k)], visited := y.visited + {k}, phase := Sync.Idle)
  {
    hide Encodable;
  }

  lemma Queues(c: W.Codec, p: Sync.Pass, y: World, k: Sync.Key) returns (ys: seq<World>, acts: seq<Act>)
    requires Encodable(p) && AtRest(p, y) && k in p.source && k !in y.visited && !Sync.Unchanged(p, Client(y), k)
    ensures Goes(c, p, y, ys, acts, Queued(p, y, k))
  {
    hide Encodable, Entry, Goes, Enabled, Next, Lossless, Sync.Unchanged, NewRow;
    var y1 := y.(phase := Sync.Pushing(k));
    var y2 := y1.(log := y.log.(pushes := y.log.pushes + [Entry(p, k)]), phase := Sync.Pushed(k));
    BeginsBlock(c, p, y, k);
    PushesBlock(c, p, y1, k);
    RecordsBlock(c, p, y2, k);
    var ys1, as1 := Acts(c, p, y, Scan(Sync.Begin(k)));
    var ys2, as2 := Acts(c, p, y1, Push(true));
    var ys3, as3 := Acts(c, p, y2, Scan(Sync.Upsert));
    var ys12, as12 := Then(c, p, y, ys1, as1, y1, ys2, as2, y2);
    ys, acts := Then(c, p, y, ys12, as12, y2, ys3, as3, Queued(p, y, k));
  }

  function Message(p: Sync.Pass, k: Sync.Key): W.Msg
    requires Encodable(p) && k in p.source
  {
    W.Data(Block(k.devno, k.offset, p.source[k]))
  }

  lemma MessageSent(p: Sync.Pass, k: Sync.Key)
    requires Encodable(p) && k in p.source
    ensures Sent(Message(p, k)) && Entry(p, k).data == Encode(Message(p, k).block)
  {
    hide Encode;
  }

  /** Pop the entry and put its frame on the empty wire. */
  lemma Sends(c: W.Codec, p: Sync.Pass, y: World, k: Sync.Key) returns (ys: seq<World>, acts: seq<Act>, y': World)
    requires W.Faithful(c) && Encodable(p) && k in p.source && |y.links| >= 1
    requires y.log.pops < |y.log.pushes| && y.log.pops !in y.log.cleared && y.log.pushes[y.log.pops] == Entry(p, k)
    ensures W.Transmit(c, Message(p, k)).Some?
    ensures y' == y.(log := y.log.(pops := y.log.pops + 1),
                     links := y.links[0 := y.links[0].(wire := y.links[0].wire + W.Transmit(c, Message(p, k)).value)])
    ensures Goes(c, p, y, ys, acts, y')
  {
    hide W.Faithful, Encodable, Goes, Entry, Encode;
    MessageSent(p, k);
    W.TransmitParses(c, Message(p, k), []);
    ys, acts := Acts(c, p, y, Send(0));
    y' := Next(c, p, y, Send(0));
  }

  /** The write call takes the whole block. */
  function WholeWrite(m: W.Msg): R.Io
    requires m.Data?
  {
    R.Io([R.Wrote(|m.block.data|)], {})
  }

  function Handled(y: World, m: W.Msg): World
    requires m.Data? && |y.links| >= 1
  {
    y.(server := R.Handle(y.server, R.Input(0, m, WholeWrite(m))),
       links := y.links[0 := Link([], [], y.links[0].taken)])
  }

  lemma SingleFrame(c: W.Codec, m: W.Msg)
    requires W.Faithful(c) && Sent(m)
    ensures W.Transmit(c, m).Some? && AllSent([m]) && W.TransmitAll(c, [m]) == W.Transmit(c, m).value
    ensures AllSent([]) && W.TransmitAll(c, []) == [] && W.DecodeOne(c, W.Transmit(c, m).value) != W.NeedMore
  {
    hide W.Transmit, W.Faithful, W.DecodeOne;
    W.TransmitParses(c, m, []);
    var f := W.Transmit(c, m).value;
    assert f + [] == f && [m][1..] == [];
    assert W.TransmitAll(c, [m]) == f + W.TransmitAll(c, [m][1..]);
  }

  /** A chunk that does not finish the frame only moves octets from the wire into the buffer. */
  lemma Buffers(c: W.Codec, p: Sync.Pass, y: World, m: W.Msg, n: nat) returns (y': World)
    requires W.Faithful(c) && Encodable(p) && Sent(m) && m.Data? && |y.links| >= 1
    requires W.Transmit(c, m).Some? && W.DecodeOne(c, y.links[0].buf) == W.NeedMore
    requires y.links[0].buf + y.links[0].wire == W.Transmit(c, m).value
    requires 1 <= n < |y.links[0].wire| && n <= S.CHUNK_MAX
    ensures Enabled(c, p, y, Receive(0, n, [])) && Lossless(c, y, Receive(0, n, []))
    ensures y' == Next(c, p, y, Receive(0, n, [])) && y' == y.(links := y'.links) && |y'.links| == |y.links|
    ensures y'.links == y.links[0 := y'.links[0]] && y'.links[0].taken == y.links[0].taken
    ensures y'.links[0].wire == y.links[0].wire[n..] && W.DecodeOne(c, y'.links[0].buf) == W.NeedMore
    ensures y'.links[0].buf + y'.links[0].wire == W.Transmit(c, m).value
  {
    hide W.Faithful, Encodable, W.Transmit, W.TransmitAll, W.DecodeOne, Arrival, AllSent, Sent;
    SingleFrame(c, m);
    var link := y.links[0];
    var k, rest := Decodes(c, link, [m], n);
    assert [m][1..] == [] && [m][0..] == [m] && [m][..0] == [];
    assert |rest + link.wire[n..]| > 0;
    assert k == 0;
    assert Inputs(0, [], []) == [];
    y' := Next(c, p, y, Receive(0, n, []));
  }

  /** The chunk that finishes the frame has the message handled. */
  lemma Finishes(c: W.Codec, p: Sync.Pass, y: World, m: W.Msg)
    requires W.Faithful(c) && Encodable(p) && Sent(m) && m.Data? && |y.links| >= 1
    requires W.Transmit(c, m).Some? && W.DecodeOne(c, y.links[0].buf) == W.NeedMore
    requires y.links[0].buf + y.links[0].wire == W.Transmit(c, m).value
    requires 1 <= |y.links[0].wire| <= S.CHUNK_MAX
    requires R.Succeeds(y.server.usable, R.Input(0, m, WholeWrite(m)))
    ensures var a := Receive(0, |y.links[0].wire|, [WholeWrite(m)]);
            Enabled(c, p, y, a) && Lossless(c, y, a) && Next(c, p, y, a) == Handled(y, m)
  {
    hide W.Faithful, Encodable, W.Transmit, W.TransmitAll, W.DecodeOne, Arrival, AllSent, Sent, R.Handle, R.Succeeds;
    SingleFrame(c, m);
    var link, n := y.links[0], |y.links[0].wire|;
    var k, rest := Decodes(c, link, [m], n);
    assert link.wire[n..] == [] && rest + [] == rest;
    assert [m][0..] == [m] && [m][1..] == [] && [m][..1] == [m];
    assert k == 1 && rest == [];
    var i := R.Input(0, m, WholeWrite(m));
    assert Inputs(0, [m], [WholeWrite(m)]) == [i];
    RunOne(y.server, i);
  }

  lemma RunOne(st: R.State, i: R.Input)
    ensures R.Run(st, [i]) == R.Handle(st, i)
  {
    assert [i][..0] == [];
    assert R.Run(st, []) == st;
  }

  /** The session takes the frame in chunks and the receiver handles it. */
  lemma {:induction false} Receives(c: W.Codec, p: Sync.Pass, y: World, m: W.Msg)
    returns (ys: seq<World>, acts: seq<Act>)
    requires W.Faithful(c) && Encodable(p) && Sent(m) && m.Data? && |y.links| >= 1
    requires W.Transmit(c, m).Some? && W.DecodeOne(c, y.links[0].buf) == W.NeedMore
    requires y.links[0].buf + y.links[0].wire == W.Transmit(c, m).value && y.links[0].wire != []
    requires R.Succeeds(y.server.usable, R.Input(0, m, WholeWrite(m)))
    ensures Goes(c, p, y, ys, acts, Handled(y, m))
    decreases |y.links[0].wire|
  {
    hide W.Faithful, Encodable, W.Transmit, W.DecodeOne, Sent, R.Handle, R.Succeeds, Goes, Enabled, Lossless, Next;
    var n := |y.links[0].wire|;
    if n <= S.CHUNK_MAX {
      Finishes(c, p, y, m);
      ys, acts := Acts(c, p, y, Receive(0, n, [WholeWrite(m)]));
    } else {
      var y' := Buffers(c, p, y, m, S.CHUNK_MAX);
      var xs, bs := Acts(c, p, y, Receive(0, S.CHUNK_MAX, []));
      var zs, ds := Receives(c, p, y', m);
      assert Handled(y', m) == Handled(y, m);
      ys, acts := Then(c, p, y, xs, bs, y', zs, ds, Handled(y, m));
    }
  }

  /** The client reads the acknowledgement; the one pending entry is cleared. */
  lemma Replies(c: W.Codec, p: Sync.Pass, y: World, k: Sync.Key) returns (ys: seq<World>, acts: seq<Act>, y': World)
    requires Encodable(p) && k in p.source && |y.links| >= 1 && y.log.pushes != []
    requires var n := |y.log.pushes| - 1;
             && y.log.pops == n + 1 && y.log.pushes[n] == Entry(p, k) && n !in y.log.cleared
             && (forall m :: 0 <= m < n ==> m in y.log.cleared)
    requires var rs, t := R.Responses(y.server, 0), y.links[0].taken;
             t < |rs| && rs[t] == R.Ack(k.devno, |p.source[k]|, k.offset)
    ensures Goes(c, p, y, ys, acts, y')
    ensures y' == y.(table := Sync.MarkAcked(y.table, k),
                     log := y.log.(cleared := y.log.cleared + {|y.log.pushes| - 1}),
                     links := y.links[0 := y.links[0].(taken := y.links[0].taken + 1)])
  {
    hide Encodable, Goes, R.Responses, Encode, Q.At;
    var n := |y.log.pushes| - 1;
    var a := TakeReply(0, Some(n));
    assert Q.Pending(y.log, n);
    assert Q.Enabled(y.log, Q.Ack(k.devno, k.offset, Some(n)));
    ys, acts := Acts(c, p, y, a);
    y' := Next(c, p, y, a);
  }

  // ---------- a block from rest to rest ----------

  lemma BlockAccepted(p: Sync.Pass, st: R.State, k: Sync.Key)
    requires Encodable(p) && k in p.source && Writable(p, st.usable)
    ensures var m := Message(p, k);
            var i := R.Input(0, m, WholeWrite(m));
            && R.Succeeds(st.usable, i) && R.Handle(st, i).usable == st.usable
            && R.Responses(R.Handle(st, i), 0) == R.Responses(st, 0) + [R.Ack(k.devno, |p.source[k]|, k.offset)]
            && (forall j :: j != 0 ==> R.Responses(R.Handle(st, i), j) == R.Responses(st, j))
  {
    var m := Message(p, k);
    var len := |m.block.data|;
    assert R.Reached([R.Wrote(len)], len, 0) == len;
  }

  /** A changed block is queued, sent, received, written and acknowledged. */
  lemma ChangedBlock(c: W.Codec, p: Sync.Pass, y: World, k: Sync.Key)
    returns (ys: seq<World>, acts: seq<Act>, y': World)
    requires W.Faithful(c) && Encodable(p) && Writable(p, y.server.usable) && AtRest(p, y)
    requires k in p.source && k !in y.visited && !Sync.Unchanged(p, Client(y), k)
    ensures Goes(c, p, y, ys, acts, y') && AtRest(p, y')
    ensures y'.visited == y.visited + {k} && y'.server.usable == y.server.usable
  {
    hide W.Faithful, Encodable, Writable, Goes, Entry, Encode, W.Transmit, W.DecodeOne, Sent, R.Handle, R.Succeeds,
         R.Responses, W.Sendable;
    var m, y1 := Message(p, k), Queued(p, y, k);
    MessageSent(p, k);
    SingleFrame(c, m);
    NothingYet(c);
    var ys1, as1 := Queues(c, p, y, k);
    var ys2, as2, y2 := Sends(c, p, y1, k);
    BlockAccepted(p, y.server, k);
    WireHolds(c, m, y2.links[0], y.links[0]);
    var ys3, as3 := Receives(c, p, y2, m);
    var y3 := Handled(y2, m);
    var ys4, as4, y4 := Replies(c, p, y3, k);
    var ys12, as12 := Then(c, p, y, ys1, as1, y1, ys2, as2, y2);
    var ys13, as13 := Then(c, p, y, ys12, as12, y2, ys3, as3, y3);
    ys, acts := Then(c, p, y, ys13, as13, y3, ys4, as4, y4);
    y' := y4;
    RestAgain(p, y, y4, k);
  }

  lemma WireHolds(c: W.Codec, m: W.Msg, link: Link, was: Link)
    requires W.Faithful(c) && Sent(m) && W.Transmit(c, m).Some?
    requires was.wire == [] && was.buf == [] && link == was.(wire := was.wire + W.Transmit(c, m).value)
    ensures link.buf == [] && link.buf + link.wire == W.Transmit(c, m).value && link.wire != []
  {
    hide W.Faithful, W.Transmit, W.DecodeOne;
    SingleFrame(c, m);
    NothingYet(c);
    var f := W.Transmit(c, m).value;
    assert [] + f == f;
  }

  lemma RestAgain(p: Sync.Pass, y: World, y': World, k: Sync.Key)
    requires AtRest(p, y) && k in p.source
    requires y'.phase.Idle? && y'.visited == y.visited + {k}
    requires y'.table == Sync.MarkAcked(y.table[k := NewRow(p, k)], k)
    requires |y'.log.pushes| == |y.log.pushes| + 1 && y'.log.pops == y.log.pops + 1
    requires y'.log.cleared == y.log.cleared + {|y.log.pushes|}
    requires y'.links == y.links[0 := Link([], [], y.links[0].taken + 1)]
    requires |R.Responses(y'.server, 0)| == |R.Responses(y.server, 0)| + 1
    requires forall j :: j != 0 ==> R.Responses(y'.server, j) == R.Responses(y.server, j)
    ensures AtRest(p, y')
  {
    hide R.Responses;
  }

  lemma BlockDone(c: W.Codec, p: Sync.Pass, y: World, k: Sync.Key) returns (ys: seq<World>, acts: seq<Act>, y': World)
    requires W.Faithful(c) && Encodable(p) && Writable(p, y.server.usable) && AtRest(p, y)
    requires k in p.source && k !in y.visited
    ensures Goes(c, p, y, ys, acts, y') && AtRest(p, y')
    ensures y'.visited == y.visited + {k} && y'.server.usable == y.server.usable
  {
    hide W.Faithful, Encodable, Writable, Goes, R.Responses;
    if Sync.Unchanged(p, Client(y), k) {
      ys, acts := Acts(c, p, y, Scan(Sync.Verify(k)));
      y' := Next(c, p, y, Scan(Sync.Verify(k)));
    } else {
      ys, acts, y' := ChangedBlock(c, p, y, k);
    }
  }

  // ---------- the whole pass ----------

  lemma {:induction false} Completes(c: W.Codec, p: Sync.Pass, y: World)
    returns (ys: seq<World>, acts: seq<Act>, y': World)
    requires W.Faithful(c) && Encodable(p) && Writable(p, y.server.usable) && AtRest(p, y)
    ensures Goes(c, p, y, ys, acts, y') && AtRest(p, y') && p.source.Keys <= y'.visited
    decreases p.source.Keys - y.visited
  {
    hide W.Faithful, Encodable, Writable, Goes, AtRest;
    if p.source.Keys <= y.visited {
      ys, acts := Stays(c, p, y);
      y' := y;
    } else {
      var k :| k in p.source && k !in y.visited;
      var ys1, as1, y1 := BlockDone(c, p, y, k);
      assert k in p.source.Keys - y.visited && k !in p.source.Keys - y1.visited;
      var ys2, as2, y2 := Completes(c, p, y1);
      ys, acts := Then(c, p, y, ys1, as1, y1, ys2, as2, y2);
      y' := y2;
    }
  }

  /**
   * From every start with at least one link and every block on an open disk there is a run that
   * loses nothing, comes to rest, has visited every readable block and left its row acknowledged -
   * and the receiver's disks hash-equal to the source.
   */
  lemma PassCanComplete(c: W.Codec, p: Sync.Pass, y: World) returns (ys: seq<World>, acts: seq<Act>)
    requires W.Faithful(c) && Encodable(p) && Start(p, y)
    requires |y.links| >= 1 && Writable(p, y.server.usable)
    ensures Trace(c, p, ys, acts) && ys[0] == y
    ensures forall i :: 0 <= i < |acts| ==> Lossless(c, ys[i], acts[i])
    ensures Idle(ys[|acts|]) && p.source.Keys <= ys[|acts|].visited
    ensures forall k :: k in p.source ==> k in ys[|acts|].table && ys[|acts|].table[k].ack
    ensures forall k :: k in p.source ==> SystemSynced(p, ys[|acts|], k)
  {
    hide W.Faithful, Encodable, Writable, Sync.Layout, RowTrue, Enabled, Next, Lossless, SystemSynced, Sync.Unchanged;
    assert AtRest(p, y);
    var y';
    ys, acts, y' := Completes(c, p, y);
    SystemPassSyncs(c, p, ys, acts);
  }
}
