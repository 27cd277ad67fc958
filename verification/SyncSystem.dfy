/**
 * A whole incremental pass as the program runs it: the scan, the queue of encoded messages, octets
 * on TCP connections received in arbitrary chunks, the decoding sessions, the receiver with its
 * disks, and the responses on their way back.
 */
module SyncSystem {
  import opened Bytes
  import opened Protocol
  import opened Wrappers
  import Sync = IncSync
  import Q = QueueLog
  import D = Disk
  import R = Receiver
  import S = Streaming
  import W = Wire
  import F = Refinement

  /**
   * wire: octets sent and not yet received; buf: what the session has not decoded yet; taken: how
   * many of the session's responses the client has read or lost.
   */
  datatype Link = Link(wire: seq<byte>, buf: seq<byte>, taken: nat)

  datatype World = World(table: map<Sync.Key, Sync.Row>, phase: Sync.Phase, visited: set<Sync.Key>,
                         log: Q.Log, links: seq<Link>, server: R.State)

  datatype Act =
    | Scan(step: Sync.Step)                                // skip, verify, begin or record a block
    | Push(mallocOk: bool)                                 // one call of queue_push
    | Send(link: nat)                                      // pop an entry and send its frame
    | Lose                                                 // pop an entry and lose it
    | Control(link: nat, msg: W.Msg)                       // a control message
    | Receive(link: nat, n: nat, ios: seq<R.Io>)           // the session takes n octets
    | TakeReply(link: nat, hit: Option<nat>)               // the client reads a response
    | LoseReply(link: nat)
    | Reset(link: nat)                                     // both directions lost

  /** The scan's view: rows, progress and the pass. */
  function Client(y: World): Sync.State {
    Sync.State(y.table, [], [], map[], y.phase, y.visited, {}, {}, map[])
  }

  predicate IsScan(step: Sync.Step) { step.Skip? || step.Verify? || step.Begin? || step.Upsert? }

  /** Every block can be named and encoded. */
  ghost predicate Encodable(p: Sync.Pass) {
    forall k :: k in p.source ==>
      && -0x8000_0000 <= k.devno < 0x8000_0000 && 0 < |p.source[k]| <= BLOCK_SIZE
      && -0x8000_0000_0000_0000 <= k.offset < 0x8000_0000_0000_0000
  }

  /** What the client pushes for the block it is queueing. */
  function Entry(p: Sync.Pass, k: Sync.Key): Q.Entry
    requires Encodable(p) && k in p.source
  {
    F.EntryFor(k, p.source[k], p.hash(k, p.source[k]))
  }

  predicate Accepted(p: Sync.Pass, y: World, mallocOk: bool)
    requires Encodable(p) && y.phase.Pushing? && y.phase.key in p.source
  {
    && mallocOk && |y.log.pushes| - y.log.pops < QUEUE_CAPACITY
    && |Entry(p, y.phase.key).data| <= QUEUE_ENTRY_MAX_PAYLOAD
  }

  /** What the session decodes when the next n octets arrive. */
  function Arrival(c: W.Codec, link: Link, n: nat): W.Parse
    requires n <= |link.wire|
  {
    S.Feed(c, link.buf, [link.wire[..n]])
  }

  function Inputs(sid: nat, msgs: seq<W.Msg>, ios: seq<R.Io>): seq<R.Input>
    requires |ios| == |msgs|
  {
    seq(|msgs|, i requires 0 <= i < |msgs| => R.Input(sid, msgs[i], ios[i]))
  }

  ghost predicate Enabled(c: W.Codec, p: Sync.Pass, y: World, a: Act) {
    match a
    case Scan(step) => IsScan(step) && Sync.Enabled(p, Client(y), step)
    case Push(_) => y.phase.Pushing? && y.phase.key in p.source
    case Send(i) =>
      && i < |y.links| && y.log.pops < |y.log.pushes| && y.log.pops !in y.log.cleared
      && W.WireSend(c, y.log.pushes[y.log.pops].data, W.SEND_SCRATCH_SIZE).Some?
    case Lose => y.log.pops < |y.log.pushes|
    case Control(i, m) => i < |y.links| && !m.Data?
    case Receive(i, n, ios) =>
      && i < |y.links| && 1 <= n <= |y.links[i].wire| && n <= S.CHUNK_MAX
      && |ios| == |Arrival(c, y.links[i], n).msgs|
    case TakeReply(i, hit) =>
      && i < |y.links| && y.links[i].taken < |R.Responses(y.server, i)|
      && var r := R.Responses(y.server, i)[y.links[i].taken];
      && (r.Ack? ==> Q.Enabled(y.log, Q.Ack(r.devno, r.offset, hit)))
    case LoseReply(i) => i < |y.links| && y.links[i].taken < |R.Responses(y.server, i)|
    case Reset(i) => i < |y.links|
  }

  function Next(c: W.Codec, p: Sync.Pass, y: World, a: Act): World
    requires Encodable(p) && Enabled(c, p, y, a)
  {
    match a
    case Scan(step) =>
      var s := Sync.Next(p, Client(y), step);
      y.(table := s.table, phase := s.phase, visited := s.visited)
    case Push(mallocOk) =>
      if !Accepted(p, y, mallocOk) then y
      else
        var log := y.log.(pushes := y.log.pushes + [Entry(p, y.phase.key)]);
        var backpressure := |log.pushes| - log.pops >= BACKPRESSURE_QUEUE_DEPTH;
        y.(log := log, phase := if backpressure then y.phase else Sync.Pushed(y.phase.key))
    case Send(i) =>
      var frame := W.WireSend(c, y.log.pushes[y.log.pops].data, W.SEND_SCRATCH_SIZE).value;
      y.(log := y.log.(pops := y.log.pops + 1),
         links := y.links[i := y.links[i].(wire := y.links[i].wire + frame)])
    case Lose => y.(log := y.log.(pops := y.log.pops + 1))
    case Control(i, m) =>
      y.(links := y.links[i := y.links[i].(wire := y.links[i].wire + W.WireSendControl(m))])
    case Receive(i, n, ios) =>
      var parse := Arrival(c, y.links[i], n);
      // a session whose stream is broken is closed
      y.(server := R.Run(y.server, Inputs(i, parse.msgs, ios)),
         links := y.links[i := if parse.end.Waiting? then
                                 y.links[i].(wire := y.links[i].wire[n..], buf := parse.end.rest)
                               else y.links[i].(wire := [], buf := [])])
    case TakeReply(i, hit) =>
      var r := R.Responses(y.server, i)[y.links[i].taken];
      var y' := y.(links := y.links[i := y.links[i].(taken := y.links[i].taken + 1)]);
      if !r.Ack? then y'
      else
        y'.(table := Sync.MarkAcked(y.table, Sync.Key(r.devno, r.offset)),
            log := Q.Apply(y.log, Q.Ack(r.devno, r.offset, hit)))
    case LoseReply(i) => y.(links := y.links[i := y.links[i].(taken := y.links[i].taken + 1)])
    case Reset(i) => y.(links := y.links[i := Link([], [], |R.Responses(y.server, i)|)])
  }

  /** Nothing is lost: no dropped entry, no reset, every block written in full. */
  ghost predicate Lossless(c: W.Codec, y: World, a: Act) {
    && !a.Lose? && !a.Reset?
    && (a.Receive? && a.link < |y.links| && a.n <= |y.links[a.link].wire| ==>
          var msgs := Arrival(c, y.links[a.link], a.n).msgs;
          forall j :: 0 <= j < |msgs| && j < |a.ios| && msgs[j].Data? ==>
            R.Succeeds(y.server.usable, R.Input(a.link, msgs[j], a.ios[j])))
  }

  ghost predicate Trace(c: W.Codec, p: Sync.Pass, ys: seq<World>, acts: seq<Act>)
    requires Encodable(p)
  {
    && |ys| == |acts| + 1
    && forall i :: 0 <= i < |acts| ==> Enabled(c, p, ys[i], acts[i]) && ys[i + 1] == Next(c, p, ys[i], acts[i])
  }

  function Disks(y: World): D.Image { R.Volatile(y.server.base, y.server.history) }

  /** The row describes what the receiver's disks hold. */
  predicate RowTrue(p: Sync.Pass, y: World, k: Sync.Key)
    requires k in y.table
  {
    y.table[k].hash == p.hash(k, Sync.TargetBlock(Disks(y), k, y.table[k].size))
  }

  /** Nothing queued, on the wire, half decoded or unread. */
  predicate Idle(y: World) {
    && y.phase.Idle? && y.log.pops == |y.log.pushes|
    && forall i :: 0 <= i < |y.links| ==> y.links[i] == Link([], [], |R.Responses(y.server, i)|)
  }

  ghost predicate Start(p: Sync.Pass, y: World) {
    && Sync.Layout(p) && Idle(y) && y.visited == {} && y.log == Q.Log([], 0, {})
    && (forall k :: k in y.table ==> k in p.extent && y.table[k].size <= p.extent[k] && RowTrue(p, y, k))
  }
}
