/**
 * The receiver's own form: the block writer with its counters and disks updated in place, and the
 * receive loop of one session that feeds it.
 */
module ReceiverService {
  import opened Bytes
  import opened MsgPack
  import opened Wrappers
  import opened Wire
  import opened Streaming
  import opened Sessions
  import opened Disk
  import opened Receiver

  type DiskNo = d: int | 0 <= d < MAX_TARGET_DISKS

  class BlockWriter {
    const usable: set<DiskNo>
    ghost const base: Image
    /** Disk contents as the operating system shows them, and as a crash would leave them. */
    var image: Image
    var durable: Image
    var totalBlocks: nat
    var totalBytes: nat
    var blocksSinceFsync: nat
    var responses: map<int, seq<Response>>
    ghost var history: seq<Event>

    ghost predicate Consistent()
      reads this
    {
      && image == Volatile(base, history)
      && durable == Durable(base, history)
    }

    ghost predicate Valid()
      reads this
    {
      Consistent() && Unsynced(history) <= blocksSinceFsync < FSYNC_BLOCK_INTERVAL
    }

    ghost function Abstract(): State
      reads this
    {
      State(usable, base, history, blocksSinceFsync, responses)
    }

    constructor (usable: set<DiskNo>, image: Image)
      ensures Valid() && Fresh(Abstract()) && this.usable == usable && this.base == image
    {
      this.usable, base, this.image, durable := usable, image, image, image;
      totalBlocks, totalBytes, blocksSinceFsync, responses := 0, 0, 0, map[];
      history := [];
    }

    /** One fsync per open disk; a failure on one does not stop the others. */
    method FsyncAll(synced: set<int>) returns (rc: int)
      requires Consistent()
      modifies this`durable, this`history
      ensures Consistent() && history == old(history) + [SyncAll(synced * usable)]
      ensures Unsynced(history) == 0
      ensures rc == 0 <==> usable <= synced
    {
      rc := 0;
      ghost var secured := {};
      for i := 0 to MAX_TARGET_DISKS
        invariant secured == set d | d in usable && d in synced && d < i
        invariant durable == TakeDisks(old(durable), image, secured)
        invariant history == old(history)
        invariant rc == 0 <==> forall d :: d in usable ==> d in synced || d >= i
      {
        if i in usable {
          if i in synced {
            durable := TakeDisks(durable, image, {i});
            secured := secured + {i};
          } else {
            rc := -1;
          }
        }
      }
      assert secured == synced * usable;
      assert usable <= synced <==> forall d :: d in usable ==> d in synced;
      history := history + [SyncAll(synced * usable)];
      assert history[..|history| - 1] == old(history);
      UnsyncedAppend(old(history), SyncAll(synced * usable));
    }

    /** The short-write loop: data[done..] from the current position on. */
    method WriteAll(w: Write, results: seq<WriteResult>) returns (written: nat)
      modifies this`image
      ensures written == Reached(results, |w.data|, 0) == Min(|w.data|, Total(BeforeFailure(results)))
      ensures image == Apply(old(image), Write(w.devno, w.offset, w.data[..written]))
    {
      ReachedIsTotal(results, |w.data|, 0);
      written := 0;
      var call := 0;
      assert image == Apply(image, Write(w.devno, w.offset, w.data[..0]));
      while written < |w.data| && call < |results|
        invariant written <= |w.data| && call <= |results|
        decreases |results| - call
        invariant Reached(results, |w.data|, 0) == Reached(results[call..], |w.data|, written)
        invariant image == Apply(old(image), Write(w.devno, w.offset, w.data[..written]))
      {
        assert results[call..][1..] == results[call + 1..];
        if results[call].Failed? {
          return;
        }
        if results[call].Wrote? {
          var n := results[call].n;
          var k := if written + n < |w.data| then n else |w.data| - written;
          image := Apply(image, Write(w.devno, w.offset + written, w.data[written..written + k]));
          Extended(old(image), w, written, k);
          written := written + k;
        }
        call := call + 1;
      }
    }

    method WriteBlock(b: Block, io: Io) returns (rc: int)
      requires Valid()
      modifies this`image, this`durable, this`totalBlocks, this`totalBytes, this`blocksSinceFsync, this`history
      ensures Valid() && Abstract() == AfterWrite(old(Abstract()), b, io)
      ensures rc == 0 <==> Accepts(usable, b) && Reached(io.writes, |b.data|, 0) == |b.data|
      ensures totalBlocks == old(totalBlocks) + if rc == 0 then 1 else 0
      ensures totalBytes == old(totalBytes) + if rc == 0 then |b.data| else 0
    {
      hide Volatile, Durable, Unsynced, Reached, Apply, Completed;
      if b.devno < 0 || b.devno >= MAX_TARGET_DISKS || b.devno !in usable { return -1; }
      if b.offset < 0 { return -1; }
      var written := WriteAll(Write(b.devno, b.offset, b.data), io.writes);
      ghost var w := WriteOf(b, written);
      if written < |b.data| {
        HistoryGrows(base, history, Torn(w));
        history := history + [Torn(w)];
        rc := -1;
      } else {
        Complete(b, io.synced, w);
        rc := 0;
      }
    }

    /** A finished write: statistics and the periodic fsync. */
    method Complete(b: Block, synced: set<int>, ghost w: Write)
      requires image == Apply(Volatile(base, history), w) && durable == Durable(base, history)
      requires Unsynced(history) <= blocksSinceFsync < FSYNC_BLOCK_INTERVAL
      modifies this`durable, this`totalBlocks, this`totalBytes, this`blocksSinceFsync, this`history
      ensures Valid() && Abstract() == Completed(old(Abstract()), w, synced)
      ensures totalBlocks == old(totalBlocks) + 1 && totalBytes == old(totalBytes) + |b.data|
    {
      hide Volatile, Durable, Unsynced, Apply;
      HistoryGrows(base, history, Written(w));
      history := history + [Written(w)];
      totalBlocks, totalBytes := totalBlocks + 1, totalBytes + |b.data|;
      blocksSinceFsync := blocksSinceFsync + 1;
      if blocksSinceFsync >= FSYNC_BLOCK_INTERVAL {
        var _ := FsyncAll(synced);
        blocksSinceFsync := 0;
      }
    }

    method Send(sid: int, r: Response)
      requires Valid()
      modifies this`responses
      ensures Valid() && Abstract() == Respond(old(Abstract()), sid, r)
    {
      responses := responses[sid := (if sid in responses then responses[sid] else []) + [r]];
    }

    /** One decoded message: write and acknowledge, or end the pass. */
    method HandleMessage(i: Input)
      requires Valid()
      modifies this
      ensures Valid() && Abstract() == Handle(old(Abstract()), i)
    {
      match i.msg
      case Data(b) =>
        var rc := WriteBlock(b, i.io);
        if rc == 0 { Send(i.sid, Ack(b.devno, |b.data|, b.offset)); }
      case CtlIncremental =>
      case CtlEndIncremental =>
        var _ := FsyncAll(i.io.synced);
        Send(i.sid, ServerDone);
    }
  }

  lemma HistoryGrows(base: Image, h: seq<Event>, e: Event)
    requires !e.SyncAll?
    ensures Volatile(base, h + [e]) == Apply(Volatile(base, h), e.w)
    ensures Durable(base, h + [e]) == Durable(base, h)
    ensures Unsynced(h + [e]) == Unsynced(h) + if e.Written? then 1 else 0
  {
    assert (h + [e])[..|h|] == h;
  }

  // ---------- the receive loop ----------

  function Inputs(sid: int, msgs: seq<Msg>, env: nat -> Io): seq<Input> {
    seq(|msgs|, i requires 0 <= i < |msgs| => Input(sid, msgs[i], env(i)))
  }

  lemma RunNext(st: State, sid: int, msgs: seq<Msg>, env: nat -> Io, m: Msg)
    ensures Run(st, Inputs(sid, msgs + [m], env)) ==
            Handle(Run(st, Inputs(sid, msgs, env)), Input(sid, m, env(|msgs|)))
  {
    assert Inputs(sid, msgs + [m], env)[..|msgs|] == Inputs(sid, msgs, env);
  }

  /** Messages already handled, and what the buffered octets still hold. */
  ghost predicate Draining(c: Codec, goal: Parse, msgs: seq<Msg>, rc: int, msg: Option<Msg>, buf: seq<byte>) {
    match rc
    case 1 => msg.Some? && goal == Prepend(msgs + [msg.value], ParseStream(c, buf))
    case 0 => DecodeOne(c, buf).NeedMore? && goal == Parse(msgs, Waiting(buf))
    case _ => goal == Parse(msgs, Broken)
  }

  lemma DrainStep(c: Codec, msgs: seq<Msg>, s: seq<byte>)
    ensures var goal := Prepend(msgs, ParseStream(c, s));
            match DecodeOne(c, s)
            case NeedMore => Draining(c, goal, msgs, 0, None, s)
            case Bad => Draining(c, goal, msgs, -1, None, s)
            case Got(m, used) => Draining(c, goal, msgs, 1, Some(m), s[used..])
  {
    match DecodeOne(c, s)
    case NeedMore =>
    case Bad =>
    case Got(m, used) =>
      var p := ParseStream(c, s[used..]);
      assert msgs + ([m] + p.msgs) == (msgs + [m]) + p.msgs;
  }

  /**
   * One chunk: feed it, then drain every complete frame, handling each message before the next
   * is decoded.
   */
  method FeedChunk(c: Codec, s: Session, w: BlockWriter, sid: int, env: nat -> Io,
                   chunk: seq<byte>, done: seq<Msg>, ghost start: State)
    returns (p: Parse)
    requires s.Valid() && w.Valid() && s.recvLen + |chunk| <= RECV_CAP
    requires w.Abstract() == Run(start, Inputs(sid, done, env))
    modifies s`recvLen, s.recvBuf, w
    ensures s.Valid() && w.Valid()
    ensures p == Prepend(done, ParseStream(c, old(s.Buffered()) + chunk))
    ensures p.end.Waiting? ==> s.Buffered() == p.end.rest && DecodeOne(c, p.end.rest).NeedMore?
    ensures w.Abstract() == Run(start, Inputs(sid, p.msgs, env))
  {
    hide DecodeOne, ParseStream, Run, Inputs, Handle;
    var msgs := done;
    ghost var octets := s.Buffered() + chunk;
    ghost var goal := Prepend(done, ParseStream(c, octets));
    var rc, msg := s.ProtocolDecode(c, chunk);
    DrainStep(c, msgs, octets);
    while rc == 1
      invariant s.Valid() && w.Valid() && rc in {-1, 0, 1}
      invariant Draining(c, goal, msgs, rc, msg, s.Buffered())
      invariant w.Abstract() == Run(start, Inputs(sid, msgs, env))
      decreases rc == 1, s.recvLen
    {
      w.HandleMessage(Input(sid, msg.value, env(|msgs|)));
      RunNext(start, sid, msgs, env, msg.value);
      msgs := msgs + [msg.value];
      ghost var left := s.Buffered();
      assert left + [] == left;
      rc, msg := s.ProtocolDecode(c, []);
      DrainStep(c, msgs, left);
    }
    p := Parse(msgs, if rc == 0 then Waiting(s.recvBuf[..s.recvLen]) else Broken);
  }

  /**
   * The whole receive loop of a session.  The messages handled and the way it ends are those of
   * Feed, and the writer has been taken through exactly those messages in order.
   */
  method HandleSession(c: Codec, s: Session, w: BlockWriter, sid: int, env: nat -> Io, chunks: seq<seq<byte>>)
    returns (p: Parse)
    requires s.Valid() && w.Valid() && DecodeOne(c, s.Buffered()).NeedMore?
    modifies s`recvLen, s.recvBuf, w
    ensures s.Valid() && w.Valid()
    ensures p == Feed(c, old(s.Buffered()), chunks)
    ensures w.Abstract() == Run(old(w.Abstract()), Inputs(sid, p.msgs, env))
  {
    ghost var start := w.Abstract();
    var msgs: seq<Msg> := [];
    var i := 0;
    ghost var whole := Feed(c, s.Buffered(), chunks);
    assert [] + whole.msgs == whole.msgs && chunks[0..] == chunks;
    while i < |chunks|
      invariant 0 <= i <= |chunks| && s.Valid() && w.Valid()
      invariant whole == Prepend(msgs, Feed(c, s.Buffered(), chunks[i..]))
      invariant w.Abstract() == Run(start, Inputs(sid, msgs, env))
    {
      assert chunks[i..][0] == chunks[i] && chunks[i..][1..] == chunks[i + 1..];
      if s.recvLen + |chunks[i]| > RECV_CAP {
        assert msgs + [] == msgs;
        return Parse(msgs, Overflow);
      }
      ghost var octets := s.Buffered() + chunks[i];
      ghost var before := msgs;
      p := FeedChunk(c, s, w, sid, env, chunks[i], msgs, start);
      if p.end.Broken? { return; }
      msgs := p.msgs;
      i := i + 1;
      NextChunk(before, ParseStream(c, octets), Feed(c, s.Buffered(), chunks[i..]));
    }
    p := Parse(msgs, Waiting(s.recvBuf[..s.recvLen]));
    assert msgs + [] == msgs;
  }

  lemma NextChunk(before: seq<Msg>, p: Parse, q: Parse)
    ensures Prepend(before, Prepend(p.msgs, q)) == Prepend(before + p.msgs, q)
  {
    assert before + (p.msgs + q.msgs) == (before + p.msgs) + q.msgs;
  }

  /** Writing a prefix and then the octets after it is writing the longer prefix. */
  lemma Extended(img: Image, w: Write, n: nat, k: nat)
    requires n + k <= |w.data|
    ensures Apply(Apply(img, Write(w.devno, w.offset, w.data[..n])),
                  Write(w.devno, w.offset + n, w.data[n..n + k]))
            == Apply(img, Write(w.devno, w.offset, w.data[..n + k]))
  {
    var first := Write(w.devno, w.offset, w.data[..n]);
    var next := Write(w.devno, w.offset + n, w.data[n..n + k]);
    var both := Write(w.devno, w.offset, w.data[..n + k]);
    var a, b := Apply(Apply(img, first), next), Apply(img, both);
    forall q: (int, int)
      ensures q in a <==> q in b
      ensures q in a ==> a[q] == b[q]
    {
      AppliedAt(img, first, q.0, q.1);
      AppliedAt(Apply(img, first), next, q.0, q.1);
      AppliedAt(img, both, q.0, q.1);
    }
  }
}
