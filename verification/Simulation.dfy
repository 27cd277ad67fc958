/**
 * Every run of the whole system is a run of the pass machine with the same rows, queue, frames,
 * acknowledgements and disks, so what is proved of the machine holds of the system.
 */
module Simulation {
  import opened Bytes
  import opened MsgPack
  import opened Protocol
  import opened Wrappers
  import opened SyncSystem
  import Sync = IncSync
  import Runs = IncSyncRuns
  import Q = QueueLog
  import D = Disk
  import R = Receiver
  import S = Streaming
  import W = Wire
  import F = Refinement

  // ---------- messages in flight ----------

  /** The frame a message carries; a control message carries none. */
  function FrameOf(m: W.Msg): seq<Sync.Frame> {
    match m
    case Data(b) => [Sync.Frame(Sync.Key(b.devno, b.offset), b.data)]
    case _ => []
  }

  function Frames(msgs: seq<W.Msg>): seq<Sync.Frame> {
    if msgs == [] then [] else FrameOf(msgs[0]) + Frames(msgs[1..])
  }

  lemma {:induction false} FramesAppend(a: seq<W.Msg>, b: seq<W.Msg>)
    ensures Frames(a + b) == Frames(a) + Frames(b)
  {
    if a == [] {
      assert a + b == b;
    } else {
      hide FrameOf;
      assert (a + b)[1..] == a[1..] + b;
      FramesAppend(a[1..], b);
      assert Frames(a + b) == FrameOf(a[0]) + (Frames(a[1..]) + Frames(b));
    }
  }

  function AckOf(r: R.Response): seq<Sync.Key> {
    match r
    case Ack(devno, _, offset) => [Sync.Key(devno, offset)]
    case ServerDone => []
  }

  /** The blocks acknowledged by a list of responses. */
  function AckKeys(rs: seq<R.Response>): seq<Sync.Key> {
    if rs == [] then [] else AckOf(rs[0]) + AckKeys(rs[1..])
  }

  lemma {:induction false} AckKeysAppend(a: seq<R.Response>, b: seq<R.Response>)
    ensures AckKeys(a + b) == AckKeys(a) + AckKeys(b)
  {
    if a == [] {
      assert a + b == b;
    } else {
      hide AckOf;
      assert (a + b)[1..] == a[1..] + b;
      AckKeysAppend(a[1..], b);
      assert AckKeys(a + b) == AckOf(a[0]) + (AckKeys(a[1..]) + AckKeys(b));
    }
  }

  /** A message the client sends: a control message or a non-empty block. */
  ghost predicate Sent(m: W.Msg) { W.Sendable(m) && (m.Data? ==> m.block.data != []) }

  ghost predicate AllSent(msgs: seq<W.Msg>) { forall m :: m in msgs ==> Sent(m) }

  lemma {:induction false} TransmitAppend(c: W.Codec, msgs: seq<W.Msg>, m: W.Msg)
    requires W.Faithful(c) && AllSent(msgs) && Sent(m)
    ensures W.Transmit(c, m).Some? && AllSent(msgs + [m])
    ensures W.TransmitAll(c, msgs + [m]) == W.TransmitAll(c, msgs) + W.Transmit(c, m).value
  {
    hide W.Faithful, W.Transmit;
    W.TransmitParses(c, m, []);
    if msgs == [] {
      assert msgs + [m] == [m];
      assert W.TransmitAll(c, [m]) == W.Transmit(c, m).value + W.TransmitAll(c, [m][1..]);
      assert W.TransmitAll(c, [m]) == W.Transmit(c, m).value;
    } else {
      assert (msgs + [m])[1..] == msgs[1..] + [m];
      TransmitAppend(c, msgs[1..], m);
    }
  }

  /** Part of a sent stream decodes to the first messages; what is left belongs to the others. */
  lemma {:induction false} PartDecodes(c: W.Codec, msgs: seq<W.Msg>, a: seq<byte>, b: seq<byte>)
    returns (n: nat, rest: seq<byte>)
    requires W.Faithful(c) && AllSent(msgs) && a + b == W.TransmitAll(c, msgs)
    ensures n <= |msgs| && AllSent(msgs[n..])
    ensures W.ParseStream(c, a) == W.Parse(msgs[..n], W.Waiting(rest))
    ensures rest + b == W.TransmitAll(c, msgs[n..]) && W.DecodeOne(c, rest) == W.NeedMore
    decreases |a|
  {
    hide W.Faithful, W.Transmit, W.DecodeOne;
    S.DecodeSplit(c, a, b);
    if msgs == [] {
      assert a == [];
      NothingYet(c);
      n, rest := 0, [];
    } else {
      assert Sent(msgs[0]) && AllSent(msgs[1..]);
      W.TransmitParses(c, msgs[0], []);
      var f := W.Transmit(c, msgs[0]).value;
      var more := W.TransmitAll(c, msgs[1..]);
      W.TransmitParses(c, msgs[0], more);
      assert W.DecodeOne(c, a + b) == W.Got(msgs[0], |f|);
      if |a| < |f| {
        n, rest := 0, a;
        assert msgs[0..] == msgs;
      } else {
        FrameArrived(c, f, a, b, more, msgs[0]);
        var m, r := PartDecodes(c, msgs[1..], a[|f|..], b);
        n, rest := m + 1, r;
        assert msgs[1..][m..] == msgs[n..];
        assert [msgs[0]] + msgs[1..][..m] == msgs[..n];
      }
    }
  }

  lemma NothingYet(c: W.Codec)
    ensures W.DecodeOne(c, []) == W.NeedMore
  {}

  lemma FrameArrived(c: W.Codec, f: seq<byte>, a: seq<byte>, b: seq<byte>, more: seq<byte>, m: W.Msg)
    requires a + b == f + more && |f| <= |a| && W.DecodeOne(c, f + []) == W.Got(m, |f|)
    ensures a[|f|..] + b == more && W.DecodeOne(c, a) == W.Got(m, |f|) && |f| >= 4
  {
    hide W.DecodeOne;
    assert f + [] == f;
    assert (a + b)[..|f|] == f && a[..|f|] == f;
    assert a == f + a[|f|..];
    S.DecodeSplit(c, f, a[|f|..]);
    assert (a + b)[|f|..] == a[|f|..] + b;
    assert (f + more)[|f|..] == more;
  }

  // ---------- the machine's runs, put end to end ----------

  ghost predicate Leads(p: Sync.Pass, s: Sync.State, states: seq<Sync.State>, steps: seq<Sync.Step>, s': Sync.State) {
    Sync.Trace(p, states, steps) && states[0] == s && states[|steps|] == s'
  }

  ghost predicate NoLoss(states: seq<Sync.State>, steps: seq<Sync.Step>)
    requires |states| == |steps| + 1
  {
    forall i :: 0 <= i < |steps| ==> Runs.Lossless(states[i], steps[i])
  }

  lemma Joined(p: Sync.Pass, a: seq<Sync.State>, x: seq<Sync.Step>, b: seq<Sync.State>, y: seq<Sync.Step>)
    returns (states: seq<Sync.State>, steps: seq<Sync.Step>)
    requires Sync.Trace(p, a, x) && Sync.Trace(p, b, y) && a[|x|] == b[0]
    ensures Leads(p, a[0], states, steps, b[|y|]) && steps == x + y
    ensures NoLoss(a, x) && NoLoss(b, y) ==> NoLoss(states, steps)
  {
    hide Sync.Next, Sync.Enabled, Runs.Lossless;
    states, steps := a + b[1..], x + y;
    forall i | 0 <= i < |steps|
      ensures Sync.Enabled(p, states[i], steps[i]) && states[i + 1] == Sync.Next(p, states[i], steps[i])
      ensures NoLoss(a, x) && NoLoss(b, y) ==> Runs.Lossless(states[i], steps[i])
    {
      if i < |x| {
        assert states[i] == a[i] && states[i + 1] == a[i + 1];
      } else {
        var j := i - |x|;
        assert states[i] == b[j] && states[i + 1] == b[j + 1] && steps[i] == y[j];
      }
    }
  }

  // ---------- serving what a session decoded ----------

  ghost predicate SameClient(s: Sync.State, s': Sync.State) {
    s'.table == s.table && s'.queue == s.queue && s'.phase == s.phase && s'.visited == s.visited
  }

  /** What the responses st' holds for a session beyond those of st acknowledge. */
  function NewAcks(st: R.State, st': R.State, sid: nat): seq<Sync.Key>
    requires |R.Responses(st, sid)| <= |R.Responses(st', sid)|
  {
    AckKeys(R.Responses(st', sid)[|R.Responses(st, sid)|..])
  }

  /** The machine has done to connection i and the target what the receiver did. */
  ghost predicate Served(s: Sync.State, s': Sync.State, i: nat, st: R.State, st': R.State, rest: seq<Sync.Frame>)
    requires i < |s.conns|
  {
    && SameClient(s, s') && st'.base == st.base && st'.usable == st.usable
    && s'.target == R.Volatile(st'.base, st'.history)
    && R.Responses(st, i) <= R.Responses(st', i)
    && (forall j :: j != i ==> R.Responses(st', j) == R.Responses(st, j))
    && s'.conns == s.conns[i := Sync.Conn(rest, s.conns[i].acks + NewAcks(st, st', i))]
  }

  lemma OneMore(rs: seq<R.Response>, r: R.Response)
    ensures AckKeys((rs + [r])[|rs|..]) == if r.Ack? then [Sync.Key(r.devno, r.offset)] else []
  {
    assert (rs + [r])[|rs|..] == [r] && [r][1..] == [];
  }

  lemma ControlHandled(st: R.State, sid: nat, m: W.Msg, io: R.Io)
    requires !m.Data?
    ensures var st' := R.Handle(st, R.Input(sid, m, io));
            && st'.base == st.base && st'.usable == st.usable
            && R.Volatile(st'.base, st'.history) == R.Volatile(st.base, st.history)
            && R.Responses(st, sid) <= R.Responses(st', sid) && NewAcks(st, st', sid) == []
            && (forall j :: j != sid ==> R.Responses(st', j) == R.Responses(st, j))
  {
    var st' := R.Handle(st, R.Input(sid, m, io));
    if m.CtlEndIncremental? {
      assert st'.history[..|st.history|] == st.history;
      OneMore(R.Responses(st, sid), R.ServerDone);
    } else {
      assert R.Responses(st, sid)[|R.Responses(st, sid)|..] == [];
    }
  }

  lemma DataAnswered(st: R.State, sid: nat, b: Block, io: R.Io)
    requires b.data != []
    ensures var i := R.Input(sid, W.Data(b), io);
            var st' := R.Handle(st, i);
            && st'.base == st.base && st'.usable == st.usable
            && R.Responses(st, sid) <= R.Responses(st', sid)
            && NewAcks(st, st', sid) ==
               (if F.Written(st, b, io) == |b.data| then [Sync.Key(b.devno, b.offset)] else [])
            && (forall j :: j != sid ==> R.Responses(st', j) == R.Responses(st, j))
            && (R.Succeeds(st.usable, i) <==> F.Written(st, b, io) == |b.data|)
  {
    hide R.Reached;
    var i := R.Input(sid, W.Data(b), io);
    var st' := R.Handle(st, i);
    if R.Succeeds(st.usable, i) {
      OneMore(R.Responses(st, sid), R.Ack(b.devno, |b.data|, b.offset));
    } else {
      assert R.Responses(st, sid)[|R.Responses(st, sid)|..] == [];
    }
  }

  /** n deliveries on connection i. */
  predicate Deliveries(steps: seq<Sync.Step>, i: nat, n: nat) {
    |steps| == n && forall j :: 0 <= j < n ==> steps[j].Deliver? && steps[j].conn == i
  }

  lemma ServeOne(p: Sync.Pass, s: Sync.State, i: nat, st: R.State, m: W.Msg, io: R.Io, rest: seq<Sync.Frame>)
    returns (states: seq<Sync.State>, steps: seq<Sync.Step>)
    requires i < |s.conns| && Sent(m) && s.target == R.Volatile(st.base, st.history)
    requires s.conns[i].frames == Frames([m]) + rest
    ensures Sync.Trace(p, states, steps) && states[0] == s && Deliveries(steps, i, |Frames([m])|)
    ensures Served(s, states[|steps|], i, st, R.Handle(st, R.Input(i, m, io)), rest)
    ensures (m.Data? ==> R.Succeeds(st.usable, R.Input(i, m, io))) ==> NoLoss(states, steps)
  {
    hide R.Volatile, R.Handle, R.Responses, R.Succeeds, F.Written, D.Apply, NewAcks;
    if m.Data? {
      var b := m.block;
      var n := F.Written(st, b, io);
      assert Frames([m]) == [Sync.Frame(Sync.Key(b.devno, b.offset), b.data)];
      DataAnswered(st, i, b, io);
      F.DeliverRefines(p, s, i, st, io, i, b);
      var s' := Sync.Next(p, s, Sync.Deliver(i, n));
      states, steps := [s, s'], [Sync.Deliver(i, n)];
      assert s.conns[i].frames[1..] == rest;
      assert s.conns[i].acks + [] == s.conns[i].acks;
    } else {
      ControlHandled(st, i, m, io);
      states, steps := [s], [];
      assert Frames([m]) == [] && [] + rest == rest;
      assert s.conns[i].acks + [] == s.conns[i].acks;
    }
  }

  /** A session's messages handled in order are so many deliveries of the machine. */
  lemma {:induction false} ServeAll(p: Sync.Pass, s: Sync.State, i: nat, st: R.State, msgs: seq<W.Msg>,
                                    ios: seq<R.Io>, rest: seq<Sync.Frame>)
    returns (states: seq<Sync.State>, steps: seq<Sync.Step>)
    requires i < |s.conns| && AllSent(msgs) && |ios| == |msgs| && s.target == R.Volatile(st.base, st.history)
    requires s.conns[i].frames == Frames(msgs) + rest
    ensures Sync.Trace(p, states, steps) && states[0] == s && Deliveries(steps, i, |Frames(msgs)|)
    ensures Served(s, states[|steps|], i, st, R.Run(st, Inputs(i, msgs, ios)), rest)
    ensures (forall j :: 0 <= j < |msgs| && msgs[j].Data? ==> R.Succeeds(st.usable, R.Input(i, msgs[j], ios[j]))) ==>
              NoLoss(states, steps)
    decreases |msgs|
  {
    hide R.Volatile, R.Handle, R.Responses, R.Succeeds, Sync.Next, Sync.Enabled, NoLoss, Served, Frames, Sent;
    if msgs == [] {
      states, steps := [s], [];
      assert Frames(msgs) == [] by { NoFrames(); }
      assert s.conns[i].frames == rest;
      NothingServed(p, s, i, st, rest);
    } else {
      var n := |msgs| - 1;
      var last, init := msgs[n], Inputs(i, msgs[..n], ios[..n]);
      assert msgs == msgs[..n] + [last] && last in msgs;
      FramesAppend(msgs[..n], [last]);
      assert s.conns[i].frames == Frames(msgs[..n]) + (Frames([last]) + rest);
      var a, x := ServeAll(p, s, i, st, msgs[..n], ios[..n], Frames([last]) + rest);
      assert Inputs(i, msgs, ios)[..n] == init;
      states, steps := ServeMore(p, s, a, x, i, st, R.Run(st, init), last, ios[n], rest);
    }
  }

  lemma NoFrames()
    ensures Frames([]) == []
  {}

  lemma ServeMore(p: Sync.Pass, s: Sync.State, a: seq<Sync.State>, x: seq<Sync.Step>, i: nat, st: R.State, mid: R.State,
                  m: W.Msg, io: R.Io, rest: seq<Sync.Frame>)
    returns (states: seq<Sync.State>, steps: seq<Sync.Step>)
    requires Sync.Trace(p, a, x) && a[0] == s && i < |s.conns| && Sent(m)
    requires Served(s, a[|x|], i, st, mid, Frames([m]) + rest)
    ensures Sync.Trace(p, states, steps) && states[0] == s
    ensures forall n: nat :: Deliveries(x, i, n) ==> Deliveries(steps, i, n + |Frames([m])|)
    ensures Served(s, states[|steps|], i, st, R.Handle(mid, R.Input(i, m, io)), rest)
    ensures NoLoss(a, x) && (m.Data? ==> R.Succeeds(st.usable, R.Input(i, m, io))) ==> NoLoss(states, steps)
  {
    hide R.Volatile, R.Handle, R.Responses, R.Succeeds, Sync.Next, Sync.Enabled, NoLoss, NewAcks, Frames, Sent;
    var b, y := ServeOne(p, a[|x|], i, mid, m, io, rest);
    ServedTwice(s, a[|x|], b[|y|], i, st, mid, R.Handle(mid, R.Input(i, m, io)), Frames([m]) + rest, rest);
    states, steps := Joined(p, a, x, b, y);
  }

  lemma NothingServed(p: Sync.Pass, s: Sync.State, i: nat, st: R.State, rest: seq<Sync.Frame>)
    requires i < |s.conns| && s.conns[i].frames == rest && s.target == R.Volatile(st.base, st.history)
    ensures Sync.Trace(p, [s], []) && NoLoss([s], []) && Served(s, s, i, st, st, rest)
  {
    hide R.Volatile, R.Responses;
    assert R.Responses(st, i)[|R.Responses(st, i)|..] == [];
    assert s.conns[i].acks + [] == s.conns[i].acks;
  }

  lemma NewAcksTwice(st: R.State, st1: R.State, st2: R.State, i: nat)
    requires R.Responses(st, i) <= R.Responses(st1, i) <= R.Responses(st2, i)
    ensures NewAcks(st, st2, i) == NewAcks(st, st1, i) + NewAcks(st1, st2, i)
  {
    hide R.Responses, AckKeys;
    var r0, r1, r2 := R.Responses(st, i), R.Responses(st1, i), R.Responses(st2, i);
    assert r2[|r0|..] == r1[|r0|..] + r2[|r1|..];
    AckKeysAppend(r1[|r0|..], r2[|r1|..]);
  }

  lemma ServedTwice(s: Sync.State, s1: Sync.State, s2: Sync.State, i: nat, st: R.State, st1: R.State, st2: R.State,
                    mid: seq<Sync.Frame>, rest: seq<Sync.Frame>)
    requires i < |s.conns| == |s1.conns| && Served(s, s1, i, st, st1, mid) && Served(s1, s2, i, st1, st2, rest)
    ensures Served(s, s2, i, st, st2, rest)
  {
    hide R.Volatile, R.Responses, NewAcks;
    NewAcksTwice(st, st1, st2, i);
    var acks := s.conns[i].acks;
    assert (acks + NewAcks(st, st1, i)) + NewAcks(st1, st2, i) == acks + NewAcks(st, st2, i);
    assert s2.conns == s.conns[i := s2.conns[i]];
  }

  // ---------- the relation ----------

  /** The connection's octets, wherever they are, are the frames in flight; its unread responses the acknowledgements. */
  ghost predicate LinkOk(c: W.Codec, link: Link, rs: seq<R.Response>, conn: Sync.Conn, msgs: seq<W.Msg>)
    requires W.Faithful(c)
  {
    && AllSent(msgs) && link.buf + link.wire == W.TransmitAll(c, msgs) && W.DecodeOne(c, link.buf) == W.NeedMore
    && conn.frames == Frames(msgs) && link.taken <= |rs| && conn.acks == AckKeys(rs[link.taken..])
  }

  ghost predicate LinksOk(c: W.Codec, y: World, s: Sync.State, flight: seq<seq<W.Msg>>)
    requires W.Faithful(c)
  {
    && |s.conns| == |y.links| == |flight|
    && forall i :: 0 <= i < |y.links| ==> LinkOk(c, y.links[i], R.Responses(y.server, i), s.conns[i], flight[i])
  }

  /** The entry is an encoded block. */
  predicate EntryOk(e: Q.Entry) {
    && -0x8000_0000 <= e.devno < 0x8000_0000 && 0 < |F.Contents(e)| <= BLOCK_SIZE
    && -0x8000_0000_0000_0000 <= e.offset < 0x8000_0000_0000_0000
    && e.data == Encode(Block(e.devno, e.offset, F.Contents(e)))
  }

  ghost predicate QueueOk(l: Q.Log, queue: seq<Sync.Item>) {
    && Q.WellFormed(l) && queue == F.Waiting(l)
    && forall n :: 0 <= n < |l.pushes| ==> EntryOk(l.pushes[n])
  }

  /** flight: the messages whose octets are on each link. */
  ghost predicate Sim(c: W.Codec, y: World, s: Sync.State, flight: seq<seq<W.Msg>>)
    requires W.Faithful(c)
  {
    && s.table == y.table && s.phase == y.phase && s.visited == y.visited && s.target == Disks(y)
    && QueueOk(y.log, s.queue) && LinksOk(c, y, s, flight)
  }

  lemma OneLink(c: W.Codec, y: World, y': World, s: Sync.State, s': Sync.State, flight: seq<seq<W.Msg>>,
                i: nat, link: Link, conn: Sync.Conn, msgs: seq<W.Msg>)
    requires W.Faithful(c) && LinksOk(c, y, s, flight) && i < |y.links|
    requires y'.links == y.links[i := link] && s'.conns == s.conns[i := conn]
    requires forall j :: j != i ==> R.Responses(y'.server, j) == R.Responses(y.server, j)
    requires LinkOk(c, link, R.Responses(y'.server, i), conn, msgs)
    ensures LinksOk(c, y', s', flight[i := msgs])
  {
    hide W.Faithful, LinkOk, R.Responses;
    forall j | 0 <= j < |y'.links|
      ensures LinkOk(c, y'.links[j], R.Responses(y'.server, j), s'.conns[j], flight[i := msgs][j])
    {
      if j != i { assert LinkOk(c, y.links[j], R.Responses(y.server, j), s.conns[j], flight[j]); }
    }
  }

  lemma SameLinks(c: W.Codec, y: World, y': World, s: Sync.State, s': Sync.State, flight: seq<seq<W.Msg>>)
    requires W.Faithful(c) && LinksOk(c, y, s, flight)
    requires y'.links == y.links && s'.conns == s.conns && y'.server == y.server
    ensures LinksOk(c, y', s', flight)
  {
    hide W.Faithful, LinkOk, R.Responses;
    forall j | 0 <= j < |y'.links|
      ensures LinkOk(c, y'.links[j], R.Responses(y'.server, j), s'.conns[j], flight[j])
    {
      assert LinkOk(c, y.links[j], R.Responses(y.server, j), s.conns[j], flight[j]);
    }
  }

  /**
   * Which steps of the machine an act is, and what it does to the messages in flight.  Receiving n
   * octets takes exactly these off the wire and the messages they complete out of flight, and
   * delivers every block among them.
   */
  ghost predicate Mirrors(c: W.Codec, p: Sync.Pass, y: World, a: Act, steps: seq<Sync.Step>,
                          flight: seq<seq<W.Msg>>, flight': seq<seq<W.Msg>>)
    requires Encodable(p) && Enabled(c, p, y, a) && |flight| == |y.links|
  {
    match a
    case Scan(step) => steps == [step] && flight' == flight
    case Push(mallocOk) =>
      && |steps| == 1 && steps[0].Push? && (steps[0].rc == -1 <==> !Accepted(p, y, mallocOk)) && flight' == flight
    case Send(i) => steps == [Sync.Flush(i)] && SentOn(flight, flight', i) && flight'[i][|flight[i]|].Data?
    case Lose => steps == [Sync.Drop] && flight' == flight
    case Control(i, m) => steps == [] && SentOn(flight, flight', i) && flight'[i][|flight[i]|] == m
    case Receive(i, n, ios) =>
      var parse := Arrival(c, y.links[i], n);
      && parse.end.Waiting? && Next(c, p, y, a).links[i].wire == y.links[i].wire[n..]
      && Deliveries(steps, i, |Frames(parse.msgs)|)
      && |flight'| == |flight| && flight[i] == parse.msgs + flight'[i] && flight' == flight[i := flight'[i]]
    case TakeReply(i, hit) =>
      && flight' == flight
      && if R.Responses(y.server, i)[y.links[i].taken].Ack?
         then |steps| == 1 && steps[0].TakeAck? && steps[0].conn == i
         else steps == []
    case LoseReply(i) =>
      && flight' == flight
      && steps == if R.Responses(y.server, i)[y.links[i].taken].Ack? then [Sync.LoseAck(i)] else []
    case Reset(i) => steps == [Sync.Reset(i)] && flight' == flight[i := []]
  }

  /** One more message in flight on link i. */
  ghost predicate SentOn(flight: seq<seq<W.Msg>>, flight': seq<seq<W.Msg>>, i: nat) {
    && i < |flight| == |flight'| && flight' == flight[i := flight'[i]]
    && |flight'[i]| == |flight[i]| + 1 && flight[i] <= flight'[i]
  }

  // ---------- each act of the system ----------

  lemma SimScan(c: W.Codec, p: Sync.Pass, y: World, s: Sync.State, flight: seq<seq<W.Msg>>, step: Sync.Step)
    requires W.Faithful(c) && Encodable(p) && Sim(c, y, s, flight) && Enabled(c, p, y, Scan(step))
    ensures Sync.Enabled(p, s, step) && Sim(c, Next(c, p, y, Scan(step)), Sync.Next(p, s, step), flight)
  {
    hide W.Faithful, Encodable, LinksOk, QueueOk, R.Volatile;
    SameLinks(c, y, Next(c, p, y, Scan(step)), s, Sync.Next(p, s, step), flight);
  }

  lemma EntryIsOk(p: Sync.Pass, k: Sync.Key)
    requires Encodable(p) && k in p.source
    ensures EntryOk(Entry(p, k)) && |Entry(p, k).data| <= QUEUE_ENTRY_MAX_PAYLOAD
  {
    hide Encode, F.Contents;
    F.EntryCarries(k, p.source[k], p.hash(k, p.source[k]));
  }

  lemma SimPush(c: W.Codec, p: Sync.Pass, y: World, s: Sync.State, flight: seq<seq<W.Msg>>, mallocOk: bool)
    returns (rc: int)
    requires W.Faithful(c) && Encodable(p) && Sim(c, y, s, flight) && Enabled(c, p, y, Push(mallocOk))
    ensures Sync.Enabled(p, s, Sync.Push(rc))
    ensures Sim(c, Next(c, p, y, Push(mallocOk)), Sync.Next(p, s, Sync.Push(rc)), flight)
    ensures rc == -1 <==> !Accepted(p, y, mallocOk)
  {
    hide W.Faithful, LinksOk, R.Volatile, EntryOk, F.EntryFor, F.Waiting, Q.WellFormed;
    var y', k := Next(c, p, y, Push(mallocOk)), y.phase.key;
    EntryIsOk(p, k);
    if Accepted(p, y, mallocOk) {
      F.PushRefines(p, s, y.log, k, p.hash(k, p.source[k]));
      rc := if |y.log.pushes| - y.log.pops + 1 >= BACKPRESSURE_QUEUE_DEPTH then 2 else 0;
      assert y'.log == Q.Apply(y.log, Q.Push(Entry(p, k)));
    } else {
      rc := -1;
    }
    SameLinks(c, y, y', s, Sync.Next(p, s, Sync.Push(rc)), flight);
  }

  lemma QueuePop(l: Q.Log, queue: seq<Sync.Item>)
    requires QueueOk(l, queue) && l.pops < |l.pushes|
    ensures queue != [] && QueueOk(l.(pops := l.pops + 1), queue[1..])
    ensures queue[0] == F.ItemOf(l, l.pops)
  {
    hide EntryOk, F.ItemOf;
    F.PopRefines(l);
  }

  lemma SimLose(c: W.Codec, p: Sync.Pass, y: World, s: Sync.State, flight: seq<seq<W.Msg>>)
    requires W.Faithful(c) && Encodable(p) && Sim(c, y, s, flight) && Enabled(c, p, y, Lose)
    ensures Sync.Enabled(p, s, Sync.Drop) && Sim(c, Next(c, p, y, Lose), Sync.Next(p, s, Sync.Drop), flight)
  {
    hide W.Faithful, Encodable, LinksOk, QueueOk, R.Volatile;
    QueuePop(y.log, s.queue);
    SameLinks(c, y, Next(c, p, y, Lose), s, Sync.Next(p, s, Sync.Drop), flight);
  }

  /** One more frame at the end of the wire. */
  lemma LinkSends(c: W.Codec, link: Link, rs: seq<R.Response>, conn: Sync.Conn, msgs: seq<W.Msg>, m: W.Msg)
    requires W.Faithful(c) && LinkOk(c, link, rs, conn, msgs) && Sent(m)
    ensures W.Transmit(c, m).Some?
    ensures LinkOk(c, link.(wire := link.wire + W.Transmit(c, m).value), rs,
                   conn.(frames := conn.frames + Frames([m])), msgs + [m])
  {
    hide W.Faithful, W.Transmit, W.TransmitAll, W.DecodeOne, Frames, AckKeys;
    TransmitAppend(c, msgs, m);
    FramesAppend(msgs, [m]);
    var f := W.Transmit(c, m).value;
    assert link.buf + (link.wire + f) == (link.buf + link.wire) + f;
  }

  lemma SimSend(c: W.Codec, p: Sync.Pass, y: World, s: Sync.State, flight: seq<seq<W.Msg>>, i: nat)
    returns (flight': seq<seq<W.Msg>>)
    requires W.Faithful(c) && Encodable(p) && Sim(c, y, s, flight) && Enabled(c, p, y, Send(i))
    ensures Sync.Enabled(p, s, Sync.Flush(i))
    ensures Sim(c, Next(c, p, y, Send(i)), Sync.Next(p, s, Sync.Flush(i)), flight')
    ensures SentOn(flight, flight', i) && flight'[i][|flight[i]|].Data?
  {
    hide W.Faithful, Encodable, LinkOk, R.Volatile, Encode, F.Contents, W.WireSend, R.Responses;
    var e := y.log.pushes[y.log.pops];
    assert EntryOk(e);
    var m := W.Data(Block(e.devno, e.offset, F.Contents(e)));
    QueuePop(y.log, s.queue);
    assert LinkOk(c, y.links[i], R.Responses(y.server, i), s.conns[i], flight[i]);
    LinkSends(c, y.links[i], R.Responses(y.server, i), s.conns[i], flight[i], m);
    assert W.Transmit(c, m) == W.WireSend(c, e.data, W.SEND_SCRATCH_SIZE);
    assert Frames([m]) == [Sync.Frame(s.queue[0].key, s.queue[0].payload.value)];
    flight' := flight[i := flight[i] + [m]];
    var y', s' := Next(c, p, y, Send(i)), Sync.Next(p, s, Sync.Flush(i));
    OneLink(c, y, y', s, s', flight, i, y'.links[i], s'.conns[i], flight[i] + [m]);
  }

  lemma SimControl(c: W.Codec, p: Sync.Pass, y: World, s: Sync.State, flight: seq<seq<W.Msg>>, i: nat, m: W.Msg)
    returns (flight': seq<seq<W.Msg>>)
    requires W.Faithful(c) && Encodable(p) && Sim(c, y, s, flight) && Enabled(c, p, y, Control(i, m))
    ensures Sim(c, Next(c, p, y, Control(i, m)), s, flight')
    ensures SentOn(flight, flight', i) && flight'[i][|flight[i]|] == m
  {
    hide W.Faithful, Encodable, LinkOk, R.Volatile, W.WireSendControl, R.Responses, QueueOk;
    assert LinkOk(c, y.links[i], R.Responses(y.server, i), s.conns[i], flight[i]);
    LinkSends(c, y.links[i], R.Responses(y.server, i), s.conns[i], flight[i], m);
    assert Frames([m]) == [] && s.conns[i].frames + [] == s.conns[i].frames;
    flight' := flight[i := flight[i] + [m]];
    var y' := Next(c, p, y, Control(i, m));
    assert s.conns == s.conns[i := s.conns[i]];
    OneLink(c, y, y', s, s, flight, i, y'.links[i], s.conns[i], flight[i] + [m]);
  }

  /** The next response is the machine's next acknowledgement, or none. */
  lemma ReplyTaken(c: W.Codec, link: Link, rs: seq<R.Response>, conn: Sync.Conn, msgs: seq<W.Msg>)
    requires W.Faithful(c) && LinkOk(c, link, rs, conn, msgs) && link.taken < |rs|
    ensures rs[link.taken].Ack? ==> conn.acks != [] && conn.acks[0] == Sync.Key(rs[link.taken].devno, rs[link.taken].offset)
    ensures var acks := if rs[link.taken].Ack? then conn.acks[1..] else conn.acks;
            LinkOk(c, link.(taken := link.taken + 1), rs, conn.(acks := acks), msgs)
  {
    hide W.Faithful, W.DecodeOne, AllSent, Frames;
    assert rs[link.taken..][1..] == rs[link.taken + 1..];
  }

  lemma SimLoseReply(c: W.Codec, p: Sync.Pass, y: World, s: Sync.State, flight: seq<seq<W.Msg>>, i: nat)
    requires W.Faithful(c) && Encodable(p) && Sim(c, y, s, flight) && Enabled(c, p, y, LoseReply(i))
    ensures var r := R.Responses(y.server, i)[y.links[i].taken];
            && (r.Ack? ==> Sync.Enabled(p, s, Sync.LoseAck(i)))
            && Sim(c, Next(c, p, y, LoseReply(i)), if r.Ack? then Sync.Next(p, s, Sync.LoseAck(i)) else s, flight)
  {
    hide W.Faithful, Encodable, LinkOk, R.Volatile, R.Responses, QueueOk;
    assert LinkOk(c, y.links[i], R.Responses(y.server, i), s.conns[i], flight[i]);
    ReplyTaken(c, y.links[i], R.Responses(y.server, i), s.conns[i], flight[i]);
    var r := R.Responses(y.server, i)[y.links[i].taken];
    var y', s' := Next(c, p, y, LoseReply(i)), if r.Ack? then Sync.Next(p, s, Sync.LoseAck(i)) else s;
    assert s'.conns == s.conns[i := s'.conns[i]];
    OneLink(c, y, y', s, s', flight, i, y'.links[i], s'.conns[i], flight[i]);
    assert flight[i := flight[i]] == flight;
  }

  lemma QueueAck(p: Sync.Pass, l: Q.Log, s: Sync.State, i: nat, hit: Option<nat>) returns (freed: Option<nat>)
    requires QueueOk(l, s.queue) && i < |s.conns| && s.conns[i].acks != []
    requires var k := s.conns[i].acks[0]; Q.Enabled(l, Q.Ack(k.devno, k.offset, hit))
    ensures var k := s.conns[i].acks[0];
            && Sync.Enabled(p, s, Sync.TakeAck(i, freed))
            && QueueOk(Q.Apply(l, Q.Ack(k.devno, k.offset, hit)), Sync.Next(p, s, Sync.TakeAck(i, freed)).queue)
  {
    hide EntryOk, F.Waiting, Q.Pending;
    freed := if hit.Some? && hit.value >= l.pops then Some(hit.value - l.pops) else None;
    F.AckRefines(p, s, l, i, hit);
  }

  lemma SimReply(c: W.Codec, p: Sync.Pass, y: World, s: Sync.State, flight: seq<seq<W.Msg>>, i: nat, hit: Option<nat>)
    returns (freed: Option<nat>)
    requires W.Faithful(c) && Encodable(p) && Sim(c, y, s, flight) && Enabled(c, p, y, TakeReply(i, hit))
    ensures var r := R.Responses(y.server, i)[y.links[i].taken];
            && (r.Ack? ==> Sync.Enabled(p, s, Sync.TakeAck(i, freed)))
            && Sim(c, Next(c, p, y, TakeReply(i, hit)),
                   if r.Ack? then Sync.Next(p, s, Sync.TakeAck(i, freed)) else s, flight)
  {
    hide W.Faithful, Encodable, LinkOk, R.Volatile, R.Responses, QueueOk, Q.Enabled, Q.Apply, Sync.MarkAcked;
    assert LinkOk(c, y.links[i], R.Responses(y.server, i), s.conns[i], flight[i]);
    ReplyTaken(c, y.links[i], R.Responses(y.server, i), s.conns[i], flight[i]);
    var r := R.Responses(y.server, i)[y.links[i].taken];
    freed := None;
    if r.Ack? { freed := QueueAck(p, y.log, s, i, hit); }
    var y', s' := Next(c, p, y, TakeReply(i, hit)), if r.Ack? then Sync.Next(p, s, Sync.TakeAck(i, freed)) else s;
    assert s'.conns == s.conns[i := s'.conns[i]];
    OneLink(c, y, y', s, s', flight, i, y'.links[i], s'.conns[i], flight[i]);
    assert flight[i := flight[i]] == flight;
  }

  lemma SimReset(c: W.Codec, p: Sync.Pass, y: World, s: Sync.State, flight: seq<seq<W.Msg>>, i: nat)
    returns (flight': seq<seq<W.Msg>>)
    requires W.Faithful(c) && Encodable(p) && Sim(c, y, s, flight) && Enabled(c, p, y, Reset(i))
    ensures Sync.Enabled(p, s, Sync.Reset(i))
    ensures Sim(c, Next(c, p, y, Reset(i)), Sync.Next(p, s, Sync.Reset(i)), flight')
    ensures i < |flight| && flight' == flight[i := []]
  {
    hide W.Faithful, Encodable, R.Volatile, R.Responses, QueueOk;
    var y', s' := Next(c, p, y, Reset(i)), Sync.Next(p, s, Sync.Reset(i));
    EmptyLink(c, R.Responses(y.server, i));
    OneLink(c, y, y', s, s', flight, i, y'.links[i], s'.conns[i], []);
    flight' := flight[i := []];
  }

  lemma EmptyLink(c: W.Codec, rs: seq<R.Response>)
    requires W.Faithful(c)
    ensures LinkOk(c, Link([], [], |rs|), rs, Sync.Conn([], []), [])
  {
    assert rs[|rs|..] == [];
  }

  // ---------- a chunk arrives ----------

  /** An undecoded rest is less than one frame, so another chunk always fits. */
  lemma BufferFits(c: W.Codec, msgs: seq<W.Msg>, buf: seq<byte>, wire: seq<byte>)
    requires W.Faithful(c) && AllSent(msgs) && buf + wire == W.TransmitAll(c, msgs)
    requires W.DecodeOne(c, buf) == W.NeedMore
    ensures |buf| < 1179744
  {
    hide W.Faithful, W.Transmit, W.DecodeOne;
    if msgs == [] {
      assert |buf + wire| == 0;
    } else {
      assert Sent(msgs[0]) && AllSent(msgs[1..]);
      W.TransmitParses(c, msgs[0], []);
      var f := W.Transmit(c, msgs[0]).value;
      if |f| <= |buf| { FrameArrived(c, f, buf, wire, W.TransmitAll(c, msgs[1..]), msgs[0]); }
    }
  }

  /** What arrives decodes to the next messages in flight, never to an error or an overflow. */
  lemma Decodes(c: W.Codec, link: Link, msgs: seq<W.Msg>, n: nat) returns (k: nat, rest: seq<byte>)
    requires W.Faithful(c) && AllSent(msgs) && link.buf + link.wire == W.TransmitAll(c, msgs)
    requires W.DecodeOne(c, link.buf) == W.NeedMore && n <= |link.wire| && n <= S.CHUNK_MAX
    ensures k <= |msgs| && AllSent(msgs[k..])
    ensures Arrival(c, link, n) == W.Parse(msgs[..k], W.Waiting(rest))
    ensures rest + link.wire[n..] == W.TransmitAll(c, msgs[k..]) && W.DecodeOne(c, rest) == W.NeedMore
  {
    hide W.Faithful, W.TransmitAll, W.DecodeOne, W.ParseStream, AllSent;
    BufferFits(c, msgs, link.buf, link.wire);
    var a, b := link.buf + link.wire[..n], link.wire[n..];
    assert link.wire == link.wire[..n] + b;
    assert a + b == link.buf + link.wire;
    k, rest := PartDecodes(c, msgs, a, b);
    assert S.Feed(c, rest, []) == W.Parse([], W.Waiting(rest));
    assert [link.wire[..n]][1..] == [] && msgs[..k] + [] == msgs[..k];
  }

  lemma SimReceive(c: W.Codec, p: Sync.Pass, y: World, s: Sync.State, flight: seq<seq<W.Msg>>,
                   i: nat, n: nat, ios: seq<R.Io>)
    returns (states: seq<Sync.State>, steps: seq<Sync.Step>, flight': seq<seq<W.Msg>>)
    requires W.Faithful(c) && Encodable(p) && Sim(c, y, s, flight) && Enabled(c, p, y, Receive(i, n, ios))
    ensures Sync.Trace(p, states, steps) && states[0] == s
    ensures Sim(c, Next(c, p, y, Receive(i, n, ios)), states[|steps|], flight')
    ensures Mirrors(c, p, y, Receive(i, n, ios), steps, flight, flight')
    ensures Lossless(c, y, Receive(i, n, ios)) ==> NoLoss(states, steps)
  {
    hide W.Faithful, Encodable, R.Volatile, R.Responses, R.Run, R.Succeeds, QueueOk, W.TransmitAll, W.DecodeOne,
         Arrival, Sync.Next, Sync.Enabled, NoLoss, NewAcks, AllSent, Frames, AckKeys;
    var link, msgs, st := y.links[i], flight[i], y.server;
    assert LinkOk(c, link, R.Responses(st, i), s.conns[i], msgs);
    var k, rest := Decodes(c, link, msgs, n);
    assert msgs == msgs[..k] + msgs[k..];
    FramesAppend(msgs[..k], msgs[k..]);
    FirstSent(msgs, k);
    states, steps := ServeAll(p, s, i, st, msgs[..k], ios, Frames(msgs[k..]));
    var y', s' := Next(c, p, y, Receive(i, n, ios)), states[|steps|];
    flight' := flight[i := msgs[k..]];
    LinkReceives(c, link, y'.links[i], st, y'.server, s, s', i, msgs, k);
    OneLink(c, y, y', s, s', flight, i, y'.links[i], s'.conns[i], msgs[k..]);
  }

  lemma FirstSent(msgs: seq<W.Msg>, k: nat)
    requires AllSent(msgs) && k <= |msgs|
    ensures AllSent(msgs[..k])
  {}

  lemma LinkReceives(c: W.Codec, link: Link, link': Link, st: R.State, st': R.State, s: Sync.State, s': Sync.State,
                     i: nat, msgs: seq<W.Msg>, k: nat)
    requires W.Faithful(c) && i < |s.conns| && k <= |msgs| && AllSent(msgs[k..])
    requires LinkOk(c, link, R.Responses(st, i), s.conns[i], msgs) && link'.taken == link.taken
    requires link'.buf + link'.wire == W.TransmitAll(c, msgs[k..]) && W.DecodeOne(c, link'.buf) == W.NeedMore
    requires Served(s, s', i, st, st', Frames(msgs[k..]))
    ensures LinkOk(c, link', R.Responses(st', i), s'.conns[i], msgs[k..])
  {
    hide W.Faithful, R.Volatile, R.Responses, W.TransmitAll, W.DecodeOne, AllSent, Frames;
    var rs, rs' := R.Responses(st, i), R.Responses(st', i);
    assert rs'[link.taken..] == rs[link.taken..] + rs'[|rs|..];
    AckKeysAppend(rs[link.taken..], rs'[|rs|..]);
  }

  // ---------- whole runs ----------

  lemma OneStep(p: Sync.Pass, s: Sync.State, step: Sync.Step) returns (states: seq<Sync.State>, steps: seq<Sync.Step>)
    requires Sync.Enabled(p, s, step)
    ensures Leads(p, s, states, steps, Sync.Next(p, s, step)) && steps == [step]
    ensures !step.Drop? && !step.Reset? && !step.Deliver? ==> NoLoss(states, steps)
  {
    states, steps := [s, Sync.Next(p, s, step)], [step];
  }

  lemma NoStep(p: Sync.Pass, s: Sync.State) returns (states: seq<Sync.State>, steps: seq<Sync.Step>)
    ensures Leads(p, s, states, steps, s) && NoLoss(states, steps) && steps == []
  {
    states, steps := [s], [];
  }

  /** Each act of the system is the run of the machine it should be, and loses nothing if the act does not. */
  lemma ActSimulated(c: W.Codec, p: Sync.Pass, y: World, s: Sync.State, flight: seq<seq<W.Msg>>, a: Act)
    returns (states: seq<Sync.State>, steps: seq<Sync.Step>, flight': seq<seq<W.Msg>>)
    requires W.Faithful(c) && Encodable(p) && Sim(c, y, s, flight) && Enabled(c, p, y, a)
    ensures Sync.Trace(p, states, steps) && states[0] == s
    ensures Sim(c, Next(c, p, y, a), states[|steps|], flight')
    ensures Mirrors(c, p, y, a, steps, flight, flight')
    ensures Lossless(c, y, a) ==> NoLoss(states, steps)
  {
    hide W.Faithful, Encodable, Sim, Next, Sync.Next, Sync.Enabled, NoLoss, R.Responses, Arrival, R.Succeeds;
    flight' := flight;
    match a {
      case Scan(step) =>
        SimScan(c, p, y, s, flight, step);
        states, steps := OneStep(p, s, step);
      case Push(mallocOk) =>
        var rc := SimPush(c, p, y, s, flight, mallocOk);
        states, steps := OneStep(p, s, Sync.Push(rc));
      case Send(i) =>
        flight' := SimSend(c, p, y, s, flight, i);
        states, steps := OneStep(p, s, Sync.Flush(i));
      case Lose =>
        SimLose(c, p, y, s, flight);
        states, steps := OneStep(p, s, Sync.Drop);
      case Control(i, m) =>
        flight' := SimControl(c, p, y, s, flight, i, m);
        states, steps := NoStep(p, s);
      case Receive(i, n, ios) =>
        states, steps, flight' := SimReceive(c, p, y, s, flight, i, n, ios);
      case TakeReply(i, hit) =>
        var freed := SimReply(c, p, y, s, flight, i, hit);
        if R.Responses(y.server, i)[y.links[i].taken].Ack? {
          states, steps := OneStep(p, s, Sync.TakeAck(i, freed));
        } else {
          states, steps := NoStep(p, s);
        }
      case LoseReply(i) =>
        SimLoseReply(c, p, y, s, flight, i);
        if R.Responses(y.server, i)[y.links[i].taken].Ack? {
          states, steps := OneStep(p, s, Sync.LoseAck(i));
        } else {
          states, steps := NoStep(p, s);
        }
      case Reset(i) =>
        flight' := SimReset(c, p, y, s, flight, i);
        states, steps := OneStep(p, s, Sync.Reset(i));
    }
  }

  /** The machine's state at the start of a pass. */
  function Initial(y: World): Sync.State {
    Sync.State(y.table, [], seq(|y.links|, _ => Sync.Conn([], [])), Disks(y), Sync.Idle, {}, {}, {}, map[])
  }

  lemma StartSimulated(c: W.Codec, p: Sync.Pass, y: World)
    requires W.Faithful(c) && Start(p, y)
    ensures Sync.Start(p, Initial(y)) && Sim(c, y, Initial(y), seq(|y.links|, _ => []))
  {
    hide W.Faithful, R.Volatile, R.Responses, LinkOk, Sync.Layout;
    var s := Initial(y);
    forall k | k in s.table ensures Sync.RowMatches(p, s, k) { assert RowTrue(p, y, k); }
    forall i | 0 <= i < |y.links|
      ensures LinkOk(c, y.links[i], R.Responses(y.server, i), s.conns[i], [])
    {
      EmptyLink(c, R.Responses(y.server, i));
    }
  }

  /**
   * Every run of the system, up to any point, is a run of the machine that ends in the same rows,
   * queue, frames, acknowledgements and disks.
   */
  lemma {:induction false} RunSimulated(c: W.Codec, p: Sync.Pass, ys: seq<World>, acts: seq<Act>, i: nat)
    returns (states: seq<Sync.State>, steps: seq<Sync.Step>, flight: seq<seq<W.Msg>>)
    requires W.Faithful(c) && Encodable(p) && Trace(c, p, ys, acts) && Start(p, ys[0]) && i <= |acts|
    ensures Sync.Trace(p, states, steps) && states[0] == Initial(ys[0])
    ensures Sim(c, ys[i], states[|steps|], flight)
    ensures (forall j :: 0 <= j < i ==> Lossless(c, ys[j], acts[j])) ==> NoLoss(states, steps)
    decreases i
  {
    hide W.Faithful, Encodable, Sim, Next, Enabled, Sync.Next, Sync.Enabled, NoLoss, Lossless, Start, Initial;
    if i == 0 {
      StartSimulated(c, p, ys[0]);
      states, steps := NoStep(p, Initial(ys[0]));
      flight := seq(|ys[0].links|, _ => []);
    } else {
      var a, x, fl := RunSimulated(c, p, ys, acts, i - 1);
      var b, z, fl' := ActSimulated(c, p, ys[i - 1], a[|x|], fl, acts[i - 1]);
      states, steps := Joined(p, a, x, b, z);
      flight := fl';
    }
  }

  // ---------- what the system guarantees ----------

  /**
   * At every moment of every run - any interleaving, chunking, loss, reset, failed or torn write -
   * each row with ack = 1 describes what the receiver's disks hold, except the one being queued.
   */
  lemma SystemAckedRowsTrue(c: W.Codec, p: Sync.Pass, ys: seq<World>, acts: seq<Act>, i: nat, k: Sync.Key)
    requires W.Faithful(c) && Encodable(p) && Trace(c, p, ys, acts) && Start(p, ys[0]) && i <= |acts|
    requires k in ys[i].table && ys[i].table[k].ack && (ys[i].phase.Idle? || ys[i].phase.key != k)
    ensures RowTrue(p, ys[i], k)
  {
    hide W.Faithful, Encodable, Enabled, Next, Start, QueueOk, LinksOk, Initial, NoLoss, Sync.Trace;
    var states, steps, flight := RunSimulated(c, p, ys, acts, i);
    StartSimulated(c, p, ys[0]);
    Sync.AckedRowsMatch(p, states, steps, |steps|, k);
  }

  lemma {:induction false} FramesHaveHeaders(c: W.Codec, msgs: seq<W.Msg>)
    requires W.Faithful(c) && AllSent(msgs)
    ensures |W.TransmitAll(c, msgs)| >= 4 * |msgs|
  {
    hide W.Faithful, W.Transmit, W.DecodeOne;
    if msgs != [] {
      assert Sent(msgs[0]);
      W.TransmitParses(c, msgs[0], []);
      FramesHaveHeaders(c, msgs[1..]);
    }
  }

  lemma IdleIsQuiet(c: W.Codec, y: World, s: Sync.State, flight: seq<seq<W.Msg>>)
    requires W.Faithful(c) && Sim(c, y, s, flight) && Idle(y)
    ensures Sync.Quiet(s)
  {
    hide W.Faithful, R.Volatile, R.Responses, W.TransmitAll, W.DecodeOne, AllSent, EntryOk;
    forall i | 0 <= i < |s.conns|
      ensures s.conns[i] == Sync.Conn([], [])
    {
      assert LinkOk(c, y.links[i], R.Responses(y.server, i), s.conns[i], flight[i]);
      FramesHaveHeaders(c, flight[i]);
      var rs := R.Responses(y.server, i);
      assert rs[|rs|..] == [];
    }
  }

  lemma InitialRows(y: World)
    ensures Initial(y).table == y.table
  {}

  /** Row and receiver's disks both have the source's hash. */
  predicate SystemSynced(p: Sync.Pass, y: World, k: Sync.Key) {
    && k in p.source && k in y.table && y.table[k].hash == p.hash(k, p.source[k]) && RowTrue(p, y, k)
  }

  /**
   * A run that loses nothing, visits every readable block and comes to rest leaves the receiver's
   * disks hash-equal to the source, blocks whose stored hash differed octet for octet, and every
   * row true.
   */
  lemma SystemPassSyncs(c: W.Codec, p: Sync.Pass, ys: seq<World>, acts: seq<Act>)
    requires W.Faithful(c) && Encodable(p) && Trace(c, p, ys, acts) && Start(p, ys[0])
    requires forall j :: 0 <= j < |acts| ==> Lossless(c, ys[j], acts[j])
    requires Idle(ys[|acts|]) && p.source.Keys <= ys[|acts|].visited
    ensures forall k :: k in p.source ==> SystemSynced(p, ys[|acts|], k)
    ensures forall k :: k in p.source && !Sync.Unchanged(p, Client(ys[0]), k) ==> Sync.Holds(p, Disks(ys[|acts|]), k)
    ensures forall k :: k in ys[|acts|].table ==> RowTrue(p, ys[|acts|], k)
  {
    hide W.Faithful, Encodable, Enabled, Next, Start, QueueOk, LinksOk, Initial, Lossless, Idle, Sync.Quiet;
    var y := ys[|acts|];
    var states, steps, flight := RunSimulated(c, p, ys, acts, |acts|);
    var s := states[|steps|];
    StartSimulated(c, p, ys[0]);
    IdleIsQuiet(c, y, s, flight);
    Runs.LosslessPassSyncs(p, states, steps);
    assert states[0].table == Client(ys[0]).table by { InitialRows(ys[0]); }
    forall k | k in y.table ensures RowTrue(p, y, k) { assert Sync.RowMatches(p, s, k); }
    forall k | k in p.source ensures SystemSynced(p, y, k) { assert Runs.Synced(p, s, k); }
  }
}
