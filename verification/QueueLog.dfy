/**
 * What the send queue means: an append-only log of pushes.  Popping moves a mark; the entry stays
 * in its slot, with its payload, until it is acknowledged or its slot is reused 256 pushes later.
 */
module QueueLog {
  import opened Bytes
  import opened Protocol
  import opened Wrappers

  datatype Entry = Entry(devno: int, offset: int, hash: int, data: seq<byte>) {
    predicate Named(devno: int, offset: int) { this.devno == devno && this.offset == offset }
  }

  /** cleared: the pushes whose pending flag was reset and payload freed by an acknowledgement. */
  datatype Log = Log(pushes: seq<Entry>, pops: nat, cleared: set<nat>)

  predicate WellFormed(l: Log) {
    l.pops <= |l.pushes| <= l.pops + QUEUE_CAPACITY && forall n :: n in l.cleared ==> n < |l.pushes|
  }

  /** The oldest push whose slot has not been reused. */
  function Oldest(l: Log): nat { if |l.pushes| <= QUEUE_CAPACITY then 0 else |l.pushes| - QUEUE_CAPACITY }

  /** The slot a push goes to. */
  function At(n: nat): (i: nat)
    ensures i < QUEUE_CAPACITY
  {
    n % 256
  }

  predicate Pending(l: Log, n: nat) { Oldest(l) <= n < |l.pushes| && n !in l.cleared }

  datatype Op =
    | Push(e: Entry)
    | Pop
    /** hit: of the pending pushes of this name the one in the lowest slot, if any. */
    | Ack(devno: int, offset: int, hit: Option<nat>)

  predicate Enabled(l: Log, op: Op) {
    match op
    case Push(_) => |l.pushes| - l.pops < QUEUE_CAPACITY
    case Pop => l.pops < |l.pushes|
    case Ack(d, o, hit) =>
      if hit.Some? then
        && Pending(l, hit.value) && l.pushes[hit.value].Named(d, o)
        && forall n :: 0 <= n < |l.pushes| && Pending(l, n) && l.pushes[n].Named(d, o) ==> At(hit.value) <= At(n)
      else forall n :: 0 <= n < |l.pushes| && Pending(l, n) ==> !l.pushes[n].Named(d, o)
  }

  function Apply(l: Log, op: Op): Log
    requires Enabled(l, op)
  {
    match op
    case Push(e) => l.(pushes := l.pushes + [e])
    case Pop => l.(pops := l.pops + 1)
    case Ack(_, _, hit) => if hit.Some? then l.(cleared := l.cleared + {hit.value}) else l
  }

  ghost predicate Trace(states: seq<Log>, ops: seq<Op>) {
    && |states| == |ops| + 1 && states[0] == Log([], 0, {})
    && forall i :: 0 <= i < |ops| ==> Enabled(states[i], ops[i]) && states[i + 1] == Apply(states[i], ops[i])
  }

  /** Every entry waiting to be popped still has its payload. */
  predicate WindowIntact(l: Log) { forall n :: l.pops <= n < |l.pushes| ==> n !in l.cleared }

  lemma {:induction false} TraceWellFormed(states: seq<Log>, ops: seq<Op>, i: nat)
    requires Trace(states, ops) && i <= |ops|
    ensures WellFormed(states[i])
  {
    if i > 0 {
      TraceWellFormed(states, ops, i - 1);
      assert states[i] == Apply(states[i - 1], ops[i - 1]);
    }
  }

  // ---------- first in, first out ----------

  /** The entries pushed by the first j operations. */
  function Pushed(ops: seq<Op>, j: nat): seq<Entry>
    requires j <= |ops|
  {
    if j == 0 then [] else Pushed(ops, j - 1) + if ops[j - 1].Push? then [ops[j - 1].e] else []
  }

  /** The entries handed out by the pops among the first j operations. */
  ghost function Popped(states: seq<Log>, ops: seq<Op>, j: nat): seq<Entry>
    requires Trace(states, ops) && j <= |ops|
  {
    if j == 0 then []
    else
      var l := states[j - 1];
      Popped(states, ops, j - 1) + if ops[j - 1].Pop? && l.pops < |l.pushes| then [l.pushes[l.pops]] else []
  }

  /** The pops of any run hand out exactly the first entries pushed, in push order. */
  lemma {:induction false} PopsFollowPushes(states: seq<Log>, ops: seq<Op>, j: nat)
    requires Trace(states, ops) && j <= |ops|
    ensures states[j].pushes == Pushed(ops, j) && states[j].pops <= |states[j].pushes|
    ensures Popped(states, ops, j) == Pushed(ops, j)[..states[j].pops]
  {
    if j > 0 {
      PopsFollowPushes(states, ops, j - 1);
      assert states[j] == Apply(states[j - 1], ops[j - 1]) && Enabled(states[j - 1], ops[j - 1]);
    }
  }

  // ---------- payloads of entries still waiting ----------

  lemma SlotsDiffer(l: Log, m: nat, n: nat)
    requires Oldest(l) <= m < |l.pushes| && Oldest(l) <= n < |l.pushes| && m != n
    ensures At(m) != At(n)
  {}

  /**
   * Each waiting entry the acknowledgement names has a copy that was popped, is still pending and
   * lies in a lower slot, so that the scan meets the copy first.
   */
  predicate Shielded(l: Log, op: Op) {
    op.Ack? ==>
      forall n :: 0 <= n < |l.pushes| && l.pops <= n && l.pushes[n].Named(op.devno, op.offset) ==>
        exists m :: 0 <= m < |l.pushes| && m < l.pops && Pending(l, m)
                    && l.pushes[m].Named(op.devno, op.offset) && At(m) < At(n)
  }

  /** One operation leaves every waiting entry its payload exactly if it is shielded. */
  lemma StepIntactIff(l: Log, op: Op)
    requires WellFormed(l) && WindowIntact(l) && Enabled(l, op)
    ensures WindowIntact(Apply(l, op)) <==> Shielded(l, op)
  {
    hide At;
    if op.Ack? && op.hit.Some? {
      var h, d, o := op.hit.value, op.devno, op.offset;
      if h >= l.pops {
        assert h in Apply(l, op).cleared;
        assert l.pushes[h].Named(d, o);
      } else {
        forall n | 0 <= n < |l.pushes| && l.pops <= n && l.pushes[n].Named(d, o)
          ensures At(h) < At(n)
        {
          assert Pending(l, n);
          SlotsDiffer(l, h, n);
        }
      }
    }
  }

  /**
   * Exactly the runs in which every waiting entry keeps its payload at every moment: those whose
   * acknowledgements are all shielded.
   */
  lemma {:induction false} PayloadsIntactIff(states: seq<Log>, ops: seq<Op>, i: nat)
    requires Trace(states, ops) && i <= |ops|
    ensures (forall m :: 0 <= m <= i ==> WindowIntact(states[m])) <==>
            (forall m :: 0 <= m < i ==> Shielded(states[m], ops[m]))
  {
    if i > 0 {
      hide WindowIntact, Shielded, Enabled;
      PayloadsIntactIff(states, ops, i - 1);
      TraceWellFormed(states, ops, i - 1);
      if WindowIntact(states[i - 1]) { StepIntactIff(states[i - 1], ops[i - 1]); }
      assert states[i] == Apply(states[i - 1], ops[i - 1]);
    } else {
      EmptyIntact(states[0]);
    }
  }

  lemma EmptyIntact(l: Log)
    requires l.pushes == []
    ensures WindowIntact(l)
  {}

  /** So a pop in such a run hands out the octets that were pushed. */
  lemma PoppedPayloadsIntact(states: seq<Log>, ops: seq<Op>, i: nat)
    requires Trace(states, ops) && i < |ops| && ops[i].Pop?
    requires forall m :: 0 <= m < i ==> Shielded(states[m], ops[m])
    ensures Pending(states[i], states[i].pops)
  {
    hide Shielded;
    PayloadsIntactIff(states, ops, i);
    TraceWellFormed(states, ops, i);
    assert Enabled(states[i], ops[i]) && WindowIntact(states[i]);
  }

  // ---------- a run that loses a payload ----------

  /** 255 other entries, then the same one twice. */
  function Wrapping(e: Entry, other: Entry): seq<Entry> { seq(257, i => if i < 255 then other else e) }

  /** Push and pop in turn; the last push is not popped. */
  function WrappingOps(e: Entry, other: Entry): seq<Op> {
    seq(513, i requires 0 <= i < 513 => if i % 2 == 0 then Push(Wrapping(e, other)[i / 2]) else Pop)
  }

  function WrappingStates(e: Entry, other: Entry): seq<Log> {
    seq(514, i requires 0 <= i < 514 => Log(Wrapping(e, other)[..(i + 1) / 2], i / 2, {}))
  }

  lemma WrappingStep(e: Entry, other: Entry, i: nat)
    requires i < 513
    ensures var l, op := WrappingStates(e, other)[i], WrappingOps(e, other)[i];
            Enabled(l, op) && WrappingStates(e, other)[i + 1] == Apply(l, op)
  {
    var all := Wrapping(e, other);
    if i % 2 == 0 { assert all[..i / 2 + 1] == all[..i / 2] + [all[i / 2]]; }
  }

  lemma WrappingTrace(e: Entry, other: Entry)
    ensures Trace(WrappingStates(e, other), WrappingOps(e, other))
  {
    var states, ops := WrappingStates(e, other), WrappingOps(e, other);
    assert states[0] == Log([], 0, {});
    forall i | 0 <= i < |ops|
      ensures Enabled(states[i], ops[i]) && states[i + 1] == Apply(states[i], ops[i])
    {
      WrappingStep(e, other, i);
    }
  }

  /**
   * The condition is needed.  A block is pushed twice, as queue_push makes its callers do under
   * backpressure; the first copy fell into slot 255 and was popped, the second waits in slot 0.
   * The acknowledgement of the first then frees the payload of the second.
   */
  lemma DuplicateLosesPayload(e: Entry, other: Entry) returns (states: seq<Log>, ops: seq<Op>)
    requires !other.Named(e.devno, e.offset)
    ensures Trace(states, ops) && |ops| == 514 && ops[513] == Ack(e.devno, e.offset, Some(256))
    ensures Enabled(states[514], Pop) && !Pending(states[514], states[514].pops)
  {
    WrappingTrace(e, other);
    var l, ack := WrappingStates(e, other)[513], Ack(e.devno, e.offset, Some(256));
    assert l.pops == 256 && |l.pushes| == 257 && l.pushes[256] == e;
    states, ops := WrappingStates(e, other) + [Apply(l, ack)], WrappingOps(e, other) + [ack];
    TraceExtends(WrappingStates(e, other), WrappingOps(e, other), ack);
  }

  lemma TraceExtends(states: seq<Log>, ops: seq<Op>, op: Op)
    requires Trace(states, ops) && Enabled(states[|ops|], op)
    ensures Trace(states + [Apply(states[|ops|], op)], ops + [op])
  {}
}
