/**
 * The receiver behind the decoder: block writes, fsync policy and responses, over every sequence
 * of messages from every session.  What the operating system does - how much each write call
 * takes, which disks an fsync succeeds on - is part of the input.
 */
module Receiver {
  import opened MsgPack
  import opened Wire
  import opened Disk

  const FSYNC_BLOCK_INTERVAL := 2000
  const MAX_TARGET_DISKS := 16

  datatype WriteResult = Wrote(n: nat) | Interrupted | Failed

  /** The system calls made while one message is handled. */
  datatype Io = Io(writes: seq<WriteResult>, synced: set<int>)

  datatype Input = Input(sid: int, msg: Msg, io: Io)

  datatype Response = Ack(devno: int, size: nat, offset: int) | ServerDone

  /** What happened to the disks, oldest first.  Torn is a write that failed part way. */
  datatype Event = Written(w: Write) | Torn(w: Write) | SyncAll(ok: set<int>)

  datatype State = State(usable: set<int>, base: Image, history: seq<Event>, sinceFsync: nat,
                         responses: map<int, seq<Response>>)

  /** How far the short-write loop gets; it stops early on an error. */
  function Reached(results: seq<WriteResult>, len: nat, done: nat): (r: nat)
    requires done <= len
    ensures done <= r <= len
  {
    if done == len || results == [] then done
    else match results[0]
      case Failed => done
      case Interrupted => Reached(results[1..], len, done)
      case Wrote(n) => Reached(results[1..], len, if done + n < len then done + n else len)
  }

  /** The results up to the first failure. */
  function BeforeFailure(results: seq<WriteResult>): seq<WriteResult> {
    if results == [] || results[0].Failed? then [] else [results[0]] + BeforeFailure(results[1..])
  }

  function Total(results: seq<WriteResult>): nat {
    if results == [] then 0 else (if results[0].Wrote? then results[0].n else 0) + Total(results[1..])
  }

  function Min(a: nat, b: nat): nat { if a < b then a else b }

  /** The loop writes all that the calls before the first failure took, and never more than asked. */
  lemma {:induction false} ReachedIsTotal(results: seq<WriteResult>, len: nat, done: nat)
    requires done <= len
    ensures Reached(results, len, done) == Min(len, done + Total(BeforeFailure(results)))
    decreases |results|
  {
    if results != [] && !results[0].Failed? {
      var rest := BeforeFailure(results[1..]);
      assert BeforeFailure(results)[1..] == rest;
      var n := if results[0].Wrote? then results[0].n else 0;
      if done < len { ReachedIsTotal(results[1..], len, Min(len, done + n)); }
    }
  }

  function WithoutInterrupts(results: seq<WriteResult>): seq<WriteResult> {
    if results == [] then []
    else (if results[0].Interrupted? then [] else [results[0]]) + WithoutInterrupts(results[1..])
  }

  lemma {:induction false} InterruptsTakeNothing(results: seq<WriteResult>)
    ensures Total(BeforeFailure(WithoutInterrupts(results))) == Total(BeforeFailure(results))
  {
    if results != [] {
      InterruptsTakeNothing(results[1..]);
      var rest := WithoutInterrupts(results[1..]);
      if results[0].Interrupted? {
        assert WithoutInterrupts(results) == rest;
        assert BeforeFailure(results)[1..] == BeforeFailure(results[1..]);
      } else {
        assert WithoutInterrupts(results)[1..] == rest;
        if results[0].Wrote? {
          assert BeforeFailure(results)[1..] == BeforeFailure(results[1..]);
          assert BeforeFailure(WithoutInterrupts(results))[1..] == BeforeFailure(rest);
        }
      }
    }
  }

  /** Interrupted write calls change nothing. */
  lemma InterruptsIgnored(results: seq<WriteResult>, len: nat)
    ensures Reached(WithoutInterrupts(results), len, 0) == Reached(results, len, 0)
  {
    ReachedIsTotal(results, len, 0);
    ReachedIsTotal(WithoutInterrupts(results), len, 0);
    InterruptsTakeNothing(results);
  }

  /** A negative offset fails in lseek. */
  predicate Accepts(usable: set<int>, b: Block) {
    0 <= b.devno < MAX_TARGET_DISKS && b.devno in usable && b.offset >= 0
  }

  predicate Succeeds(usable: set<int>, i: Input) {
    i.msg.Data? && Accepts(usable, i.msg.block)
    && Reached(i.io.writes, |i.msg.block.data|, 0) == |i.msg.block.data|
  }

  function WriteOf(b: Block, n: nat): Write
    requires n <= |b.data|
  {
    Write(b.devno, b.offset, b.data[..n])
  }

  /** A completed write is counted; every 2000th is followed by an fsync of all disks. */
  function Completed(st: State, w: Write, synced: set<int>): State {
    var h := st.history + [Written(w)];
    if st.sinceFsync + 1 >= FSYNC_BLOCK_INTERVAL then
      st.(history := h + [SyncAll(synced * st.usable)], sinceFsync := 0)
    else st.(history := h, sinceFsync := st.sinceFsync + 1)
  }

  function AfterWrite(st: State, b: Block, io: Io): State {
    if !Accepts(st.usable, b) then st
    else
      var n := Reached(io.writes, |b.data|, 0);
      if n < |b.data| then st.(history := st.history + [Torn(WriteOf(b, n))])
      else Completed(st, WriteOf(b, n), io.synced)
  }

  function Responses(st: State, sid: int): seq<Response> {
    if sid in st.responses then st.responses[sid] else []
  }

  function Respond(st: State, sid: int, r: Response): State {
    st.(responses := st.responses[sid := Responses(st, sid) + [r]])
  }

  /** fsync at the end of an incremental pass: SERVER_DONE goes out whatever fsync returned. */
  function Handle(st: State, i: Input): State {
    match i.msg
    case Data(b) =>
      var st' := AfterWrite(st, b, i.io);
      if Succeeds(st.usable, i) then Respond(st', i.sid, Ack(b.devno, |b.data|, b.offset)) else st'
    case CtlIncremental => st
    case CtlEndIncremental =>
      Respond(st.(history := st.history + [SyncAll(i.io.synced * st.usable)]), i.sid, ServerDone)
  }

  function Run(st: State, inputs: seq<Input>): State {
    if inputs == [] then st else Handle(Run(st, inputs[..|inputs| - 1]), inputs[|inputs| - 1])
  }

  predicate Fresh(st: State) {
    st.history == [] && st.sinceFsync == 0 && st.responses == map[]
  }

  // ---------- the disks after a history ----------

  function Volatile(base: Image, h: seq<Event>): Image {
    if h == [] then base
    else
      var img := Volatile(base, h[..|h| - 1]);
      match h[|h| - 1]
      case Written(w) => Apply(img, w)
      case Torn(w) => Apply(img, w)
      case SyncAll(_) => img
  }

  /** safe, with the disks in ds replaced by those of img. */
  function TakeDisks(safe: Image, img: Image, ds: set<int>): Image {
    map k | k in safe.Keys + img.Keys && (if k.0 in ds then k in img else k in safe)
      :: if k.0 in ds then img[k] else safe[k]
  }

  /** What is certain to survive a crash; a failed fsync secures nothing. */
  function Durable(base: Image, h: seq<Event>): Image {
    if h == [] then base
    else
      var img := Durable(base, h[..|h| - 1]);
      match h[|h| - 1]
      case SyncAll(ok) => TakeDisks(img, Volatile(base, h[..|h| - 1]), ok)
      case _ => img
  }

  /** Completed block writes after the latest fsync of all disks. */
  function Unsynced(h: seq<Event>): nat {
    if h == [] || h[|h| - 1].SyncAll? then 0
    else Unsynced(h[..|h| - 1]) + if h[|h| - 1].Written? then 1 else 0
  }

  // ---------- fsync bound ----------

  lemma UnsyncedAppend(h: seq<Event>, e: Event)
    ensures Unsynced(h + [e]) == if e.SyncAll? then 0 else Unsynced(h) + if e.Written? then 1 else 0
  {
    assert (h + [e])[..|h|] == h;
  }

  ghost predicate Bounded(st: State) {
    Unsynced(st.history) <= st.sinceFsync < FSYNC_BLOCK_INTERVAL
  }

  lemma CompletedKeepsBound(st: State, w: Write, synced: set<int>)
    requires Bounded(st)
    ensures Bounded(Completed(st, w, synced))
  {
    var h := st.history + [Written(w)];
    UnsyncedAppend(st.history, Written(w));
    UnsyncedAppend(h, SyncAll(synced * st.usable));
    hide Unsynced;
  }

  lemma HandleKeepsBound(st: State, i: Input)
    requires Bounded(st)
    ensures Bounded(Handle(st, i))
  {
    hide Unsynced, Completed, Reached, Accepts;
    match i.msg
    case Data(b) =>
      var n := Reached(i.io.writes, |b.data|, 0);
      UnsyncedAppend(st.history, Torn(WriteOf(b, n)));
      CompletedKeepsBound(st, WriteOf(b, n), i.io.synced);
    case CtlIncremental =>
    case CtlEndIncremental =>
      UnsyncedAppend(st.history, SyncAll(i.io.synced * st.usable));
  }

  /** After every message at most 1999 completed writes lie after the latest fsync of all disks. */
  lemma {:induction false} UnsyncedBound(st: State, inputs: seq<Input>)
    requires Fresh(st)
    ensures Unsynced(Run(st, inputs).history) <= Run(st, inputs).sinceFsync <= 1999
  {
    if inputs != [] {
      UnsyncedBound(st, inputs[..|inputs| - 1]);
      HandleKeepsBound(Run(st, inputs[..|inputs| - 1]), inputs[|inputs| - 1]);
    }
  }

  // ---------- responses ----------

  /** One ACK per data frame of the session that was written completely, one DONE per end marker. */
  function Expected(usable: set<int>, inputs: seq<Input>, sid: int): seq<Response> {
    if inputs == [] then []
    else
      var i := inputs[|inputs| - 1];
      Expected(usable, inputs[..|inputs| - 1], sid) +
      if i.sid != sid then []
      else if Succeeds(usable, i) then [Ack(i.msg.block.devno, |i.msg.block.data|, i.msg.block.offset)]
      else if i.msg.CtlEndIncremental? then [ServerDone]
      else []
  }

  lemma {:induction false} UsableFixed(st: State, inputs: seq<Input>)
    ensures Run(st, inputs).usable == st.usable && Run(st, inputs).base == st.base
  {
    if inputs != [] { UsableFixed(st, inputs[..|inputs| - 1]); }
  }

  /** Responses on each session are exactly its written frames and end markers, in order. */
  lemma {:induction false} ResponsesInOrder(st: State, inputs: seq<Input>, sid: int)
    requires Fresh(st)
    ensures Responses(Run(st, inputs), sid) == Expected(st.usable, inputs, sid)
  {
    if inputs != [] {
      ResponsesInOrder(st, inputs[..|inputs| - 1], sid);
      UsableFixed(st, inputs[..|inputs| - 1]);
    }
  }

  /**
   * A block is acknowledged, with its own name and size, exactly if its disk is one of the sixteen
   * and open, its offset is not negative and the write calls before the first failure took it all.
   */
  lemma AckedIff(st: State, i: Input)
    requires i.msg.Data?
    ensures var b := i.msg.block;
            Responses(Handle(st, i), i.sid) ==
            if && 0 <= b.devno < 16 && b.devno in st.usable && b.offset >= 0
               && Total(BeforeFailure(i.io.writes)) >= |b.data|
            then Responses(st, i.sid) + [Ack(b.devno, |b.data|, b.offset)]
            else Responses(st, i.sid)
  {
    hide Reached, Total, BeforeFailure;
    ReachedIsTotal(i.io.writes, |i.msg.block.data|, 0);
  }

  // ---------- the fsync schedule ----------

  function Completions(h: seq<Event>): nat {
    if h == [] then 0 else Completions(h[..|h| - 1]) + if h[|h| - 1].Written? then 1 else 0
  }

  function Syncs(h: seq<Event>): nat {
    if h == [] then 0 else Syncs(h[..|h| - 1]) + if h[|h| - 1].SyncAll? then 1 else 0
  }

  function EndMarkers(inputs: seq<Input>): nat {
    if inputs == [] then 0
    else EndMarkers(inputs[..|inputs| - 1]) + if inputs[|inputs| - 1].msg.CtlEndIncremental? then 1 else 0
  }

  lemma CountsAppend(h: seq<Event>, e: Event)
    ensures Completions(h + [e]) == Completions(h) + if e.Written? then 1 else 0
    ensures Syncs(h + [e]) == Syncs(h) + if e.SyncAll? then 1 else 0
  {
    assert (h + [e])[..|h|] == h;
  }

  ghost predicate OnSchedule(st: State, markers: nat) {
    && Syncs(st.history) == markers + Completions(st.history) / 2000
    && st.sinceFsync == Completions(st.history) % 2000
  }

  lemma CompletedOnSchedule(st: State, w: Write, synced: set<int>, markers: nat)
    requires OnSchedule(st, markers)
    ensures OnSchedule(Completed(st, w, synced), markers)
  {
    hide Completions, Syncs;
    CountsAppend(st.history, Written(w));
    CountsAppend(st.history + [Written(w)], SyncAll(synced * st.usable));
    OneMoreOf2000(Completions(st.history));
  }

  lemma OneMoreOf2000(n: nat)
    ensures (n + 1) % 2000 == (if n % 2000 == 1999 then 0 else n % 2000 + 1)
    ensures (n + 1) / 2000 == n / 2000 + (if n % 2000 == 1999 then 1 else 0)
  {}

  lemma HandledOnSchedule(st: State, i: Input, markers: nat)
    requires OnSchedule(st, markers)
    ensures OnSchedule(Handle(st, i), markers + if i.msg.CtlEndIncremental? then 1 else 0)
  {
    hide Completions, Syncs, Completed, Reached, Accepts;
    match i.msg
    case Data(b) =>
      var n := Reached(i.io.writes, |b.data|, 0);
      CountsAppend(st.history, Torn(WriteOf(b, n)));
      CompletedOnSchedule(st, WriteOf(b, n), i.io.synced, markers);
    case CtlIncremental =>
    case CtlEndIncremental =>
      CountsAppend(st.history, SyncAll(i.io.synced * st.usable));
  }

  /** fsync runs once per end marker and once per 2000 completed writes, neither more nor less often. */
  lemma {:induction false} FsyncSchedule(st: State, inputs: seq<Input>)
    requires Fresh(st)
    ensures var h := Run(st, inputs).history;
            && Syncs(h) == EndMarkers(inputs) + Completions(h) / 2000
            && Run(st, inputs).sinceFsync == Completions(h) % 2000
  {
    if inputs != [] {
      FsyncSchedule(st, inputs[..|inputs| - 1]);
      HandledOnSchedule(Run(st, inputs[..|inputs| - 1]), inputs[|inputs| - 1], EndMarkers(inputs[..|inputs| - 1]));
    }
  }

  // ---------- durability ----------

  function Writes(h: seq<Event>): seq<Write> {
    if h == [] then []
    else Writes(h[..|h| - 1]) + match h[|h| - 1]
                                case Written(w) => [w]
                                case Torn(w) => [w]
                                case SyncAll(_) => []
  }

  lemma {:induction false} VolatileIsReplay(base: Image, h: seq<Event>)
    ensures Volatile(base, h) == ApplyAll(base, Writes(h))
  {
    if h != [] {
      VolatileIsReplay(base, h[..|h| - 1]);
      var ws := Writes(h[..|h| - 1]);
      if !h[|h| - 1].SyncAll? {
        var w := h[|h| - 1].w;
        assert (ws + [w])[..|ws|] == ws;
      } else {
        assert ws + [] == ws;
      }
    }
  }

  lemma WritesAppend(h: seq<Event>, e: Event)
    ensures Writes(h + [e]) == Writes(h) + match e
                                           case Written(w) => [w]
                                           case Torn(w) => [w]
                                           case SyncAll(_) => []
  {
    assert (h + [e])[..|h|] == h;
  }

  /** The writes of a run, in order: one per data frame the disk accepted at all. */
  lemma HandleWrites(st: State, i: Input)
    ensures Writes(Handle(st, i).history) == Writes(st.history) +
            if i.msg.Data? && Accepts(st.usable, i.msg.block)
            then [WriteOf(i.msg.block, Reached(i.io.writes, |i.msg.block.data|, 0))]
            else []
  {
    match i.msg
    case Data(b) =>
      var w := WriteOf(b, Reached(i.io.writes, |b.data|, 0));
      WritesAppend(st.history, Torn(w));
      WritesAppend(st.history, Written(w));
      WritesAppend(st.history + [Written(w)], SyncAll(i.io.synced * st.usable));
      hide Writes, Reached;
      assert Writes(st.history) + [] == Writes(st.history);
    case CtlIncremental =>
    case CtlEndIncremental =>
      WritesAppend(st.history, SyncAll(i.io.synced * st.usable));
  }

  lemma {:induction false} SucceededIsWritten(st: State, inputs: seq<Input>, i: Input)
    requires i in inputs && Succeeds(st.usable, i)
    ensures WriteOf(i.msg.block, |i.msg.block.data|) in Writes(Run(st, inputs).history)
  {
    var n := |inputs| - 1;
    var before := Run(st, inputs[..n]);
    HandleWrites(before, inputs[n]);
    UsableFixed(st, inputs[..n]);
    if i != inputs[n] {
      assert i in inputs[..n];
      SucceededIsWritten(st, inputs[..n], i);
    }
  }

  /** A crash now would lose nothing of disk d. */
  ghost predicate Secured(base: Image, h: seq<Event>, d: int) {
    forall p :: ReadByte(Durable(base, h), d, p) == ReadByte(Volatile(base, h), d, p)
  }

  lemma SyncSecures(base: Image, h: seq<Event>, ok: set<int>, d: int)
    ensures Volatile(base, h + [SyncAll(ok)]) == Volatile(base, h)
    ensures Secured(base, h + [SyncAll(ok)], d) <==> d in ok || Secured(base, h, d)
  {
    var h' := h + [SyncAll(ok)];
    assert h'[..|h|] == h;
    var was, now, img := Durable(base, h), Durable(base, h'), Volatile(base, h);
    hide Volatile, Durable;
    forall p
      ensures ReadByte(now, d, p) == ReadByte(if d in ok then img else was, d, p)
    {}
  }

  /**
   * After an end marker each disk is secured exactly if its fsync succeeded or it already was;
   * the DONE response goes out either way.
   */
  lemma DoneDurableIff(st: State, i: Input, d: int)
    requires i.msg.CtlEndIncremental?
    ensures Secured(st.base, Handle(st, i).history, d) <==>
            d in i.io.synced * st.usable || Secured(st.base, st.history, d)
    ensures Responses(Handle(st, i), i.sid) == Responses(st, i.sid) + [ServerDone]
  {
    SyncSecures(st.base, st.history, i.io.synced * st.usable, d);
  }

  lemma WrittenReadsBack(base: Image, h: seq<Event>, w: Write)
    requires AllAgree(Writes(h)) && w in Writes(h)
    ensures ReadBlock(Volatile(base, h), w.devno, w.offset, |w.data|) == w.data
  {
    VolatileIsReplay(base, h);
    ReadAfter(base, Writes(h), w);
  }

  lemma SecuredReads(base: Image, h: seq<Event>, d: int, offset: int, len: nat)
    requires Secured(base, h, d)
    ensures ReadBlock(Durable(base, h), d, offset, len) == ReadBlock(Volatile(base, h), d, offset, len)
  {
    hide Durable, Volatile;
    var a, b := ReadBlock(Durable(base, h), d, offset, len), ReadBlock(Volatile(base, h), d, offset, len);
    forall k | 0 <= k < len
      ensures a[k] == b[k]
    {
      assert ReadByte(Durable(base, h), d, offset + k) == ReadByte(Volatile(base, h), d, offset + k);
    }
  }

  /**
   * When SERVER_DONE follows an fsync that succeeded on every disk, every block acknowledged on
   * any session survives a crash with the contents it was sent with.
   */
  lemma DoneIsDurable(st: State, inputs: seq<Input>, done: Input, i: Input)
    requires done.msg.CtlEndIncremental? && st.usable <= done.io.synced
    requires i in inputs && Succeeds(st.usable, i)
    requires AllAgree(Writes(Run(st, inputs).history))
    ensures var b := i.msg.block;
            ReadBlock(Durable(st.base, Run(st, inputs + [done]).history), b.devno, b.offset, |b.data|) == b.data
  {
    var b, mid := i.msg.block, Run(st, inputs);
    assert (inputs + [done])[..|inputs|] == inputs;
    UsableFixed(st, inputs);
    SucceededIsWritten(st, inputs, i);
    hide AllAgree, Durable, Volatile, Writes, Reached;
    var ok := done.io.synced * st.usable;
    SyncSecures(st.base, mid.history, ok, b.devno);
    SecuredReads(st.base, mid.history + [SyncAll(ok)], b.devno, b.offset, |b.data|);
    WrittenReadsBack(st.base, mid.history, WriteOf(b, |b.data|));
  }

  /** Without a successful fsync DONE promises nothing: a block is acknowledged, DONE sent, and a crash loses it. */
  lemma DoneWithoutDurability()
    ensures var st := State({0}, map[], [], 0, map[]);
            var io := Io([Wrote(1)], {});
            var end := Handle(Handle(st, Input(7, Data(Block(0, 0, [1])), io)), Input(7, CtlEndIncremental, io));
            && Responses(end, 7) == [Ack(0, 1, 0), ServerDone]
            && ReadBlock(Volatile(st.base, end.history), 0, 0, 1) == [1]
            && !Secured(st.base, end.history, 0)
  {
    var st := State({0}, map[], [], 0, map[]);
    var io := Io([Wrote(1)], {});
    assert Reached(io.writes, 1, 0) == 1;
    var w := Write(0, 0, [1]);
    assert [1][..1] == [1];
    var s1 := Handle(st, Input(7, Data(Block(0, 0, [1])), io));
    assert s1.history == [Written(w)] && [Written(w)][..0] == [];
    var v, d := Volatile(map[], [Written(w)]), Durable(map[], [Written(w)]);
    assert v == Apply(map[], w) && d == map[];
    ReadBack(map[], w);
    AppliedAt(map[], w, 0, 0);
    assert ReadByte(v, 0, 0) == 1 && ReadByte(d, 0, 0) == 0;
    SyncSecures(map[], [Written(w)], {}, 0);
    assert io.synced * st.usable == {};
  }
}
