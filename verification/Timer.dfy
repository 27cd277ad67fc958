/** The client's timers: due times in wrapping 64-bit milliseconds, and the loop that drains them. */
module Timer {
  import opened Words

  const NONE := 0
  const RETRANSMIT := 1
  const RECONNECT := 2
  const ACTION := 3
  const INCREMENTAL := 4
  const COUNT := 5

  /** Milliseconds between firings: 18 s, 20 s, 10 s, 18 s. */
  function Interval(i: nat): nat
    requires 1 <= i < COUNT
  {
    if i == RECONNECT then 20000 else if i == ACTION then 10000 else 18000
  }

  function Due(lastFire: seq<u64>, i: nat, now: u64): bool
    requires 1 <= i < COUNT == |lastFire|
  {
    Wrap(now - lastFire[i]) >= Interval(i)
  }

  /** Which timers are due; the count bounds how often a drain can still fire. */
  function DueSet(lastFire: seq<u64>, now: u64): set<nat>
    requires |lastFire| == COUNT
  {
    set i: nat | 1 <= i < COUNT && Due(lastFire, i, now)
  }

  /** Due now and, as its age does not wrap within ten seconds, for as long as the drain may take. */
  predicate DueFor(lastFire: seq<u64>, i: nat, now: u64)
    requires 1 <= i < COUNT == |lastFire|
  {
    Due(lastFire, i, now) && Wrap(now - lastFire[i]) + 10000 <= 0x1_0000_0000_0000_0000
  }

  class TimerManager {
    var lastFire: array<u64>

    ghost predicate Valid()
      reads this
    {
      lastFire.Length == COUNT
    }

    /** The action timer first fires after 5 s: its last firing lies 5 s in the past, wrapped. */
    constructor (now: u64)
      ensures Valid() && fresh(lastFire)
      ensures forall i: nat :: 1 <= i < COUNT ==>
                lastFire[i] == Wrap(now - (if i == ACTION then 5000 else 0))
    {
      lastFire := new u64[COUNT](i => if i == ACTION then Wrap(now + 5000 - 10000) else now);
    }

    /** The first due timer in index order, or NONE. */
    method Check(now: u64) returns (ev: nat)
      requires Valid()
      ensures ev < COUNT
      ensures ev == NONE <==> DueSet(lastFire[..], now) == {}
      ensures ev != NONE ==> Due(lastFire[..], ev, now) && forall i: nat :: 1 <= i < ev ==> !Due(lastFire[..], i, now)
    {
      var i := 1;
      while i < COUNT
        invariant 1 <= i <= COUNT && forall j: nat :: 1 <= j < i ==> !Due(lastFire[..], j, now)
      {
        if Wrap(now - lastFire[i]) >= Interval(i) {
          assert Due(lastFire[..], i, now);
          assert i in DueSet(lastFire[..], now);
          return i;
        }
        i := i + 1;
      }
      return NONE;
    }

    /**
     * Check, handle, reset, until nothing is due.  took(n) is how long the n-th handler runs; if
     * together they stay under ten seconds, no timer fires twice, so at most four fire, and none
     * is left due.
     */
    method Drain(start: u64, took: nat -> nat) returns (fired: seq<nat>, now: u64)
      requires Valid()
      requires forall n: nat :: n <= 4 ==> Elapsing(took, n) < 10000
      requires start + 10000 < 0x1_0000_0000_0000_0000
      modifies lastFire
      ensures Valid() && lastFire == old(lastFire)
      ensures |fired| <= 4 && Distinct(fired)
      ensures now == start + Elapsing(took, |fired|)
      ensures DueSet(lastFire[..], now) == {}
      ensures forall i: nat :: 1 <= i < COUNT && DueFor(old(lastFire[..]), i, start) ==> i in fired
    {
      hide Reset, Distinct, DueSet, Due, Wrap;
      fired, now := [], start;
      NoneReset(lastFire[..], start);
      var ev := Check(now);
      while ev != NONE
        invariant Valid() && lastFire == old(lastFire) && 0 <= ev < COUNT
        invariant |fired| <= 4 && Distinct(fired) && now == start + Elapsing(took, |fired|)
        invariant Reset(old(lastFire[..]), lastFire[..], fired, start, now)
        invariant ev == NONE <==> DueSet(lastFire[..], now) == {}
        invariant ev != NONE ==> Due(lastFire[..], ev, now) && ev !in fired
        decreases 4 - |fired|
      {
        AtMostFour(fired, ev);
        ghost var before, was := lastFire[..], now;
        assert Elapsing(took, |fired| + 1) == Elapsing(took, |fired|) + took(|fired|);
        now := now + took(|fired|);
        lastFire[ev] := now;
        assert lastFire[..] == before[ev := now];
        ResetOne(old(lastFire[..]), before, fired, start, was, ev, now);
        fired := fired + [ev];
        ev := Check(now);
        if ev != NONE { FiredOnce(old(lastFire[..]), lastFire[..], fired, start, now, ev); }
      }
      AllFired(old(lastFire[..]), lastFire[..], fired, start, now);
    }
  }

  predicate Distinct(fired: seq<nat>) {
    && (forall i :: 0 <= i < |fired| ==> 1 <= fired[i] < COUNT)
    && (forall i, j :: 0 <= i < j < |fired| ==> fired[i] != fired[j])
  }

  /** Fired timers were reset within the pass, the others not at all. */
  ghost predicate Reset(was: seq<u64>, last: seq<u64>, fired: seq<nat>, start: u64, now: u64) {
    && |was| == |last| == COUNT && start <= now < start + 10000
    && forall i: nat :: 1 <= i < COUNT ==> if i in fired then start <= last[i] <= now else last[i] == was[i]
  }

  lemma NoneReset(was: seq<u64>, start: u64)
    requires |was| == COUNT
    ensures Reset(was, was, [], start, start) && Distinct([])
  {}

  lemma ResetOne(was: seq<u64>, last: seq<u64>, fired: seq<nat>, start: u64, now: u64, ev: nat, later: u64)
    requires Reset(was, last, fired, start, now) && Distinct(fired) && 1 <= ev < COUNT && ev !in fired
    requires now <= later < start + 10000
    ensures Reset(was, last[ev := later], fired + [ev], start, later) && Distinct(fired + [ev])
  {}

  /** A timer that already fired in this pass is not due again. */
  lemma FiredOnce(was: seq<u64>, last: seq<u64>, fired: seq<nat>, start: u64, now: u64, ev: nat)
    requires Reset(was, last, fired, start, now) && 1 <= ev < COUNT && Due(last, ev, now)
    ensures ev !in fired
  {
    if ev in fired { Recent(last[ev], now, ev); }
  }

  /** A timer due at the start stays due until it fires. */
  lemma AllFired(was: seq<u64>, last: seq<u64>, fired: seq<nat>, start: u64, now: u64)
    requires Reset(was, last, fired, start, now) && DueSet(last, now) == {}
    ensures forall i: nat :: 1 <= i < COUNT && DueFor(was, i, start) ==> i in fired
  {
    forall i: nat | 1 <= i < COUNT && DueFor(was, i, start)
      ensures i in fired
    {
      if i !in fired { StillDue(was, last, fired, start, now, i); }
    }
  }

  lemma StillDue(was: seq<u64>, last: seq<u64>, fired: seq<nat>, start: u64, now: u64, i: nat)
    requires Reset(was, last, fired, start, now)
    requires 1 <= i < COUNT && i !in fired && DueFor(was, i, start)
    ensures i in DueSet(last, now)
  {
    Later(was[i], start, now);
  }

  lemma AtMostFour(fired: seq<nat>, ev: nat)
    requires Distinct(fired) && 1 <= ev < COUNT && ev !in fired
    ensures |fired| < 4
  {
    var done := set i: nat | i in fired;
    DistinctSize(fired);
    var all: set<nat> := {1, 2, 3, 4};
    assert done <= all - {ev};
    Smaller(done, all - {ev});
    assert |all| == 4;
  }

  lemma {:induction false} DistinctSize(fired: seq<nat>)
    requires forall i, j :: 0 <= i < j < |fired| ==> fired[i] != fired[j]
    ensures |set i: nat | i in fired| == |fired|
  {
    if fired != [] {
      var init, last := fired[..|fired| - 1], fired[|fired| - 1];
      DistinctSize(init);
      assert (set i: nat | i in fired) == (set i: nat | i in init) + {last};
      assert last !in init;
    }
  }

  /** Time spent in the first n handlers. */
  function Elapsing(took: nat -> nat, n: nat): nat {
    if n == 0 then 0 else Elapsing(took, n - 1) + took(n - 1)
  }

  /** An age that does not wrap grows with the clock, wrapped or not. */
  lemma Later(last: u64, t: u64, t': u64)
    requires t <= t' < t + 10000 && Wrap(t - last) + 10000 <= 0x1_0000_0000_0000_0000
    ensures Wrap(t' - last) == Wrap(t - last) + (t' - t)
  {}

  /** The age of a timer whose last firing was set back, even where that wrapped. */
  lemma Age(now: u64, back: nat, t: u64)
    requires now <= t && t - now + back < 0x1_0000_0000_0000_0000
    ensures Wrap(t - Wrap(now - back)) == t - now + back
  {}

  /** From the start at now: 18 s, 20 s, 5 s (even where its start value wrapped) and 18 s. */
  lemma FirstDue(now: u64, t: u64, lastFire: seq<u64>)
    requires |lastFire| == COUNT && now <= t && t - now + 5000 < 0x1_0000_0000_0000_0000
    requires forall i :: 1 <= i < COUNT ==> lastFire[i] == Wrap(now - (if i == ACTION then 5000 else 0))
    ensures Due(lastFire, RETRANSMIT, t) <==> t - now >= 18000
    ensures Due(lastFire, RECONNECT, t) <==> t - now >= 20000
    ensures Due(lastFire, ACTION, t) <==> t - now >= 5000
    ensures Due(lastFire, INCREMENTAL, t) <==> t - now >= 18000
  {
    hide Wrap;
    Age(now, 0, t);
    Age(now, 5000, t);
  }

  /** From a reset at now: 18 s, 20 s, 10 s and 18 s. */
  lemma NextDue(now: u64, t: u64, lastFire: seq<u64>)
    requires |lastFire| == COUNT && now <= t
    ensures lastFire[RETRANSMIT] == now ==> (Due(lastFire, RETRANSMIT, t) <==> t - now >= 18000)
    ensures lastFire[RECONNECT] == now ==> (Due(lastFire, RECONNECT, t) <==> t - now >= 20000)
    ensures lastFire[ACTION] == now ==> (Due(lastFire, ACTION, t) <==> t - now >= 10000)
    ensures lastFire[INCREMENTAL] == now ==> (Due(lastFire, INCREMENTAL, t) <==> t - now >= 18000)
  {
    NoWrap(now, t);
    hide Wrap;
  }

  lemma NoWrap(now: u64, t: u64)
    requires now <= t
    ensures Wrap(t - now) == t - now
  {}

  /** A timer reset less than ten seconds ago is not due. */
  lemma Recent(last: u64, now: u64, i: nat)
    requires 1 <= i < COUNT && last <= now < last + 10000
    ensures Wrap(now - last) < Interval(i)
  {}

  lemma Smaller<T>(a: set<T>, b: set<T>)
    requires a <= b
    ensures |a| <= |b|
  {
    assert |b - a| == |b| - |a|;
  }
}
