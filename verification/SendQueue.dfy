/** The ring buffer behind the send queue, with its heap payloads, updated in place. */
module SendQueue {
  import opened Bytes
  import opened Protocol
  import opened QueueLog
  import opened Wrappers

  /** payload is an allocation number, or None for a null pointer. */
  datatype Slot = Slot(devno: int, offset: int, hash: int, payload: Option<nat>, len: nat, pending: bool)

  const EMPTY := Slot(0, 0, 0, None, 0, false)

  /** The slot is what the log says about push n. */
  predicate Describes(x: Slot, l: Log, n: nat)
    requires n < |l.pushes|
  {
    var e := l.pushes[n];
    && x.devno == e.devno && x.offset == e.offset && x.hash == e.hash && x.len == |e.data|
    && x.pending == (n !in l.cleared) && x.payload == if n in l.cleared then None else Some(n)
  }

  /** Slot i holds the latest push n with n mod 256 = i, or nothing yet. */
  ghost predicate Ring(ring: seq<Slot>, l: Log) {
    && |ring| == 256 && WellFormed(l)
    && (forall n: nat :: Oldest(l) <= n < |l.pushes| ==> Describes(ring[At(n)], l, n))
    && (forall i: nat :: |l.pushes| <= i < 256 ==> ring[i] == EMPTY)
  }

  /** Exactly the payloads of pending pushes are live; every other one has been freed. */
  ghost predicate Owned(heap: map<nat, seq<byte>>, freed: set<nat>, l: Log) {
    && (forall n: nat :: n in heap <==> Pending(l, n))
    && (forall n: nat :: n in heap ==> n < |l.pushes| && heap[n] == l.pushes[n].data)
    && (forall n: nat :: n in freed <==> n < |l.pushes| && !Pending(l, n))
  }

  // ---------- the ring under each operation ----------

  function PushSlot(e: Entry, id: nat): Slot { Slot(e.devno, e.offset, e.hash, Some(id), |e.data|, true) }

  lemma RingPush(ring: seq<Slot>, l: Log, e: Entry)
    requires Ring(ring, l) && Enabled(l, Push(e))
    ensures Ring(ring[At(|l.pushes|) := PushSlot(e, |l.pushes|)], Apply(l, Push(e)))
  {
    var l' := Apply(l, Push(e));
    var ring' := ring[At(|l.pushes|) := PushSlot(e, |l.pushes|)];
    forall n: nat | Oldest(l') <= n < |l'.pushes|
      ensures Describes(ring'[At(n)], l', n)
    {
      if n < |l.pushes| {
        assert At(n) != At(|l.pushes|);
        assert Describes(ring[At(n)], l, n);
      }
    }
  }

  lemma HeapPush(ring: seq<Slot>, heap: map<nat, seq<byte>>, freed: set<nat>, l: Log, e: Entry)
    requires Ring(ring, l) && Owned(heap, freed, l) && Enabled(l, Push(e))
    ensures var n, was := |l.pushes|, ring[At(|l.pushes|)].payload;
            && n !in heap
            && (was.Some? ==> was.value in heap && was.value !in freed && was.value != n)
            && Owned((if was.Some? then heap - {was.value} else heap)[n := e.data],
                     if was.Some? then freed + {was.value} else freed, Apply(l, Push(e)))
  {
    var n, l' := |l.pushes|, Apply(l, Push(e));
    if n >= 256 {
      assert At(n) == At(n - 256);
      assert Describes(ring[At(n)], l, n - 256);
      forall m: nat ensures Pending(l', m) <==> (m == n || (m != n - 256 && Pending(l, m))) {}
    } else {
      assert At(n) == n && ring[n] == EMPTY;
      forall m: nat ensures Pending(l', m) <==> (m == n || Pending(l, m)) {}
    }
  }

  lemma RingPop(ring: seq<Slot>, l: Log)
    requires Ring(ring, l) && Enabled(l, Pop)
    ensures Ring(ring, Apply(l, Pop)) && Describes(ring[At(l.pops)], l, l.pops)
  {
    var l' := Apply(l, Pop);
    forall n: nat | Oldest(l') <= n < |l'.pushes|
      ensures Describes(ring[At(n)], l', n)
    {
      assert Describes(ring[At(n)], l, n);
    }
  }

  /** The push whose entry slot i holds. */
  function PushAt(l: Log, i: nat): (n: nat)
    requires i < 256 && (i < |l.pushes| || |l.pushes| > 256)
    ensures Oldest(l) <= n < |l.pushes| && At(n) == i
  {
    if |l.pushes| <= 256 then i else Oldest(l) + (i - Oldest(l)) % 256
  }

  lemma PushAtUnique(l: Log, n: nat)
    requires Oldest(l) <= n < |l.pushes|
    ensures PushAt(l, At(n)) == n
  {}

  function ClearSlot(x: Slot): Slot { x.(pending := false, payload := None) }

  lemma RingAck(ring: seq<Slot>, l: Log, i: nat)
    requires Ring(ring, l) && i < 256 && ring[i].pending
    ensures i < |l.pushes| || |l.pushes| > 256
    ensures var n := PushAt(l, i);
            var l' := l.(cleared := l.cleared + {n});
            Pending(l, n) && Describes(ring[i], l, n) && Ring(ring[i := ClearSlot(ring[i])], l')
  {
    var n := PushAt(l, i);
    var l' := l.(cleared := l.cleared + {n});
    var ring' := ring[i := ClearSlot(ring[i])];
    assert Describes(ring[At(n)], l, n);
    forall m: nat | Oldest(l') <= m < |l'.pushes|
      ensures Describes(ring'[At(m)], l', m)
    {
      assert Describes(ring[At(m)], l, m);
      if m != n { PushAtUnique(l, m); }
    }
  }

  lemma HeapAck(heap: map<nat, seq<byte>>, freed: set<nat>, l: Log, n: nat)
    requires Owned(heap, freed, l) && Pending(l, n)
    ensures n in heap && n !in freed
    ensures Owned(heap - {n}, freed + {n}, l.(cleared := l.cleared + {n}))
  {
    var l' := l.(cleared := l.cleared + {n});
    forall m: nat ensures Pending(l', m) <==> Pending(l, m) && m != n {}
  }

  /** A scan of all slots that finds no pending slot of that name has looked at every pending push. */
  lemma ScanComplete(ring: seq<Slot>, l: Log, devno: int, offset: int)
    requires Ring(ring, l)
    requires forall i :: 0 <= i < 256 ==> !(ring[i].pending && ring[i].devno == devno && ring[i].offset == offset)
    ensures Enabled(l, Ack(devno, offset, None))
  {
    forall n | 0 <= n < |l.pushes| && Pending(l, n)
      ensures !l.pushes[n].Named(devno, offset)
    {
      assert Describes(ring[At(n)], l, n);
    }
  }

  /** No earlier slot matches, so no matching pending push lies in one. */
  lemma FirstHit(ring: seq<Slot>, l: Log, devno: int, offset: int, i: nat)
    requires Ring(ring, l) && i < 256
    requires forall j :: 0 <= j < i ==> !(ring[j].pending && ring[j].devno == devno && ring[j].offset == offset)
    ensures forall n: nat :: Pending(l, n) && l.pushes[n].Named(devno, offset) ==> i <= At(n)
  {
    forall n: nat | Pending(l, n) && l.pushes[n].Named(devno, offset)
      ensures i <= At(n)
    {
      assert Describes(ring[At(n)], l, n);
    }
  }

  class Queue {
    const entries: array<Slot>
    var head: nat
    var tail: nat
    var count: nat
    var backpressure: bool
    /** Live allocations, by number; numbers are never reused. */
    var heap: map<nat, seq<byte>>
    var nextId: nat
    ghost var freed: set<nat>
    ghost var log: Log

    ghost predicate Valid()
      reads this, entries
    {
      && Ring(entries[..], log) && Owned(heap, freed, log) && nextId == |log.pushes|
      && head == At(|log.pushes|) && tail == At(log.pops) && count == |log.pushes| - log.pops
      && (backpressure <==> count >= BACKPRESSURE_QUEUE_DEPTH)
    }

    constructor ()
      ensures Valid() && log == Log([], 0, {}) && fresh(entries)
    {
      entries := new Slot[256](_ => EMPTY);
      head, tail, count, backpressure := 0, 0, 0, false;
      heap, nextId, freed, log := map[], 0, {}, Log([], 0, {});
    }

    /** malloc() and memcpy(). */
    method Allocate(data: seq<byte>) returns (id: nat)
      modifies this`heap, this`nextId
      ensures id == old(nextId) && nextId == id + 1 && heap == old(heap)[id := data]
    {
      id := nextId;
      heap, nextId := heap[id := data], nextId + 1;
    }

    /** free(): only a live allocation, so never twice. */
    method Free(id: nat)
      requires id in heap && id !in freed
      modifies this`heap, this`freed
      ensures heap == old(heap) - {id} && freed == old(freed) + {id}
    {
      heap := heap - {id};
      freed := freed + {id};
    }

    /** 0, or 2 once the queue is at least 40 deep; the entry is queued either way.  -1 changes nothing. */
    method Push(e: Entry, mallocOk: bool) returns (rc: int)
      requires Valid()
      modifies this, entries
      ensures Valid()
      ensures rc == -1 <==> |e.data| > 1048832 || old(count) >= 256 || !mallocOk
      ensures rc == -1 ==> log == old(log)
      ensures rc != -1 ==> log == Apply(old(log), QueueLog.Push(e))
      ensures rc != -1 ==> rc == if count >= 40 then 2 else 0
    {
      hide Ring, Owned, Describes, Pending, Oldest, At, PushSlot;
      if |e.data| > QUEUE_ENTRY_MAX_PAYLOAD { return -1; }
      RingSize(entries[..], log);
      NextSlot(|log.pushes|);
      if count >= QUEUE_CAPACITY { return -1; }
      if !mallocOk { return -1; }
      RingPush(entries[..], log, e);
      HeapPush(entries[..], heap, freed, log, e);
      var was := entries[head].payload;
      var copy := Allocate(e.data);
      if was.Some? { Free(was.value); }
      entries[head] := PushSlot(e, copy);
      assert entries[..] == old(entries[..])[head := PushSlot(e, copy)];
      assert was.Some? ==> heap == (old(heap) - {was.value})[copy := e.data];
      log := Apply(log, QueueLog.Push(e));
      head := (head + 1) % 256;
      count := count + 1;
      if count >= BACKPRESSURE_QUEUE_DEPTH { backpressure := true; }
      return if backpressure then 2 else 0;
    }

    /** A copy of the oldest waiting entry; the payload stays with the queue. */
    method Pop() returns (out: Option<Slot>)
      requires Valid()
      modifies this`tail, this`count, this`backpressure, this`log
      ensures Valid()
      ensures out.None? <==> old(count) == 0
      ensures out.None? ==> log == old(log)
      ensures out.Some? ==> log == Apply(old(log), QueueLog.Pop) && Describes(out.value, log, old(log.pops))
    {
      hide Ring, Owned, Describes, Pending, Oldest, At;
      RingSize(entries[..], log);
      if count == 0 { return None; }
      RingPop(entries[..], log);
      HeapPop(heap, freed, log);
      NextSlot(log.pops);
      assert entries[tail] == entries[..][At(log.pops)];
      out := Some(entries[tail]);
      DescribesStill(out.value, log);
      log := Apply(log, QueueLog.Pop);
      tail := (tail + 1) % 256;
      count := count - 1;
      if count < BACKPRESSURE_QUEUE_DEPTH { backpressure := false; }
    }

    /** Clears the first pending slot of that name, wherever its entry is, and frees its payload. */
    method Ack(devno: int, offset: int) returns (ghost hit: Option<nat>)
      requires Valid()
      modifies this`heap, this`freed, this`log, entries
      ensures Valid()
      ensures Enabled(old(log), QueueLog.Ack(devno, offset, hit))
      ensures log == Apply(old(log), QueueLog.Ack(devno, offset, hit))
    {
      hide Ring, Owned;
      RingSize(entries[..], log);
      var i := 0;
      while i < 256
        invariant 0 <= i <= 256 && Valid() && log == old(log) && entries[..] == old(entries[..])
        invariant entries.Length == 256
        invariant forall j :: 0 <= j < i ==>
                    !(entries[j].pending && entries[j].devno == devno && entries[j].offset == offset)
      {
        if entries[i].pending && entries[i].devno == devno && entries[i].offset == offset {
          RingAck(entries[..], log, i);
          ghost var n := PushAt(log, i);
          HeapAck(heap, freed, log, n);
          FirstHit(entries[..], log, devno, offset, i);
          hit := Some(n);
          Free(entries[i].payload.value);
          entries[i] := ClearSlot(entries[i]);
          assert entries[..] == old(entries[..])[i := ClearSlot(old(entries[..])[i])];
          log := log.(cleared := log.cleared + {n});
          return;
        }
        i := i + 1;
      }
      ScanComplete(entries[..], log, devno, offset);
      hit := None;
    }

    /** The names of all pending pushes, popped or not, in slot order, cut off after max of them. */
    method GetPending(max: nat) returns (names: seq<(int, int)>)
      requires Valid()
      ensures var all := Names(log, PendingBelow(log, 256));
              names == if |all| <= max then all else all[..max]
    {
      hide Ring, Owned, Pending, Describes, At;
      RingSize(entries[..], log);
      names := [];
      var i := 0;
      while i < 256 && |names| < max
        invariant 0 <= i <= 256 && |names| <= max
        invariant names == Names(log, PendingBelow(log, i))
      {
        SlotRead(entries[..], log, i);
        if entries[i].pending {
          names := names + [(entries[i].devno, entries[i].offset)];
        }
        i := i + 1;
      }
      BelowPrefix(log, i, 256);
      NamesPrefix(log, PendingBelow(log, i), PendingBelow(log, 256));
    }

    /** Frees what is left: every allocation ever made has then been freed, each exactly once. */
    method Destroy()
      requires Valid()
      modifies this`heap, this`freed, entries
      ensures heap == map[]
      ensures forall n: nat :: n in freed <==> n < nextId
    {
      RingSize(entries[..], log);
      var i := 0;
      ghost var ring := entries[..];
      while i < 256
        invariant 0 <= i <= 256 && entries.Length == 256 && entries[i..] == ring[i..]
        invariant forall n: nat :: n in heap <==> Pending(log, n) && At(n) >= i
        invariant forall n: nat :: n in freed <==> n < |log.pushes| && n !in heap
      {
        assert entries[i] == ring[i];
        if entries[i].payload.Some? {
          ghost var n := PushAt(log, i);
          assert Describes(ring[At(n)], log, n);
          PushedOnce(log, n);
          Free(entries[i].payload.value);
          entries[i] := entries[i].(payload := None);
        } else {
          NoneHere(ring, log, i);
        }
        i := i + 1;
      }
      assert heap == map[];
    }
  }

  lemma NextSlot(n: nat)
    ensures At(n + 1) == (At(n) + 1) % 256
  {}

  lemma HeapPop(heap: map<nat, seq<byte>>, freed: set<nat>, l: Log)
    requires Owned(heap, freed, l) && Enabled(l, Pop)
    ensures Owned(heap, freed, Apply(l, Pop))
  {
    forall n: nat ensures Pending(Apply(l, Pop), n) <==> Pending(l, n) {}
  }

  lemma RingSize(ring: seq<Slot>, l: Log)
    requires Ring(ring, l)
    ensures |ring| == 256 && WellFormed(l)
  {}

  lemma DescribesStill(x: Slot, l: Log)
    requires l.pops < |l.pushes| && Describes(x, l, l.pops)
    ensures Describes(x, Apply(l, Pop), l.pops)
  {}

  lemma PushedOnce(l: Log, n: nat)
    requires Oldest(l) <= n < |l.pushes|
    ensures forall m: nat :: Pending(l, m) && At(m) == At(n) ==> m == n
  {
    forall m: nat | Pending(l, m) && At(m) == At(n) ensures m == n { PushAtUnique(l, m); PushAtUnique(l, n); }
  }

  /** The pending pushes in slots below i, in slot order. */
  function PendingBelow(l: Log, i: nat): (ns: seq<nat>)
    requires i <= 256
    ensures forall j :: 0 <= j < |ns| ==> ns[j] < |l.pushes|
  {
    if i == 0 then []
    else
      PendingBelow(l, i - 1) +
      if (i - 1 < |l.pushes| || |l.pushes| > 256) && Pending(l, PushAt(l, i - 1)) then [PushAt(l, i - 1)] else []
  }

  function Names(l: Log, ns: seq<nat>): seq<(int, int)>
    requires forall j :: 0 <= j < |ns| ==> ns[j] < |l.pushes|
  {
    seq(|ns|, j requires 0 <= j < |ns| => (l.pushes[ns[j]].devno, l.pushes[ns[j]].offset))
  }

  /** Nothing pending is missed and nothing else is listed. */
  lemma {:induction false} PendingBelowIff(l: Log, i: nat, n: nat)
    requires i <= 256
    ensures n in PendingBelow(l, i) <==> Pending(l, n) && At(n) < i
  {
    if i > 0 {
      PendingBelowIff(l, i - 1, n);
      if Pending(l, n) && At(n) == i - 1 { PushAtUnique(l, n); }
    }
  }

  lemma SlotRead(ring: seq<Slot>, l: Log, i: nat)
    requires Ring(ring, l) && i < 256
    ensures Names(l, PendingBelow(l, i + 1)) ==
            Names(l, PendingBelow(l, i)) + if ring[i].pending then [(ring[i].devno, ring[i].offset)] else []
  {
    if i < |l.pushes| || |l.pushes| > 256 {
      var n := PushAt(l, i);
      assert Describes(ring[At(n)], l, n);
    }
  }

  lemma {:induction false} BelowPrefix(l: Log, i: nat, j: nat)
    requires i <= j <= 256
    ensures PendingBelow(l, i) <= PendingBelow(l, j)
    decreases j
  {
    if i < j { BelowPrefix(l, i, j - 1); }
  }

  lemma NamesPrefix(l: Log, a: seq<nat>, b: seq<nat>)
    requires forall j :: 0 <= j < |b| ==> b[j] < |l.pushes|
    requires a <= b
    ensures (forall j :: 0 <= j < |a| ==> a[j] < |l.pushes|) && Names(l, a) == Names(l, b)[..|a|]
  {}

  lemma NoneHere(ring: seq<Slot>, l: Log, i: nat)
    requires Ring(ring, l) && i < 256 && ring[i].payload.None?
    ensures forall m: nat :: Pending(l, m) ==> At(m) != i
  {
    forall m: nat | Pending(l, m) ensures At(m) != i { assert Describes(ring[At(m)], l, m); }
  }
}
