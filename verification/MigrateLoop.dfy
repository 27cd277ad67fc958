/** The convergence loop in the client's own form: fields and parallel arrays updated in place. */
module MigrateLoop {
  import opened IncSync
  import opened Convergence

  // ---------- the shuffle ----------

  predicate IsPermutation(perm: seq<nat>, n: nat) {
    && |perm| == n && (forall i :: 0 <= i < n ==> perm[i] < n)
    && (forall i, j :: 0 <= i < j < n ==> perm[i] != perm[j])
  }

  function Swapped<T>(s: seq<T>, i: nat, j: nat): (r: seq<T>)
    requires i < |s| && j < |s|
    ensures |r| == |s|
  {
    s[i := s[j]][j := s[i]]
  }

  lemma SwapKeeps(perm: seq<nat>, n: nat, i: nat, j: nat)
    requires IsPermutation(perm, n) && i < n && j < n
    ensures IsPermutation(Swapped(perm, i, j), n)
  {}

  /** The position to exchange with i. */
  function Choice(rand: nat -> nat, i: nat): (j: nat)
    ensures j <= i
  {
    rand(i) % (i + 1)
  }

  /** What is left of the shuffle from position i down. */
  function Shuffle(perm: seq<nat>, i: nat, rand: nat -> nat): seq<nat>
    requires i < |perm|
    decreases i
  {
    if i == 0 then perm
    else
      var j := Choice(rand, i);
      Shuffle(Swapped(perm, i, j), i - 1, rand)
  }

  lemma ShuffleOnce(perm: seq<nat>, i: nat, rand: nat -> nat, j: nat)
    requires 0 < i < |perm| && j == Choice(rand, i)
    ensures Shuffle(perm, i, rand) == Shuffle(Swapped(perm, i, j), i - 1, rand)
  {}

  function Identity(n: nat): seq<nat> { seq(n, i => i) }

  /** The order the shuffle gives n blocks. */
  function Shuffled(n: nat, rand: nat -> nat): seq<nat>
    requires n > 0
  {
    Shuffle(Identity(n), n - 1, rand)
  }

  lemma ShuffleStarts(n: nat, rand: nat -> nat)
    ensures |Identity(n)| == n && IsPermutation(Identity(n), n)
    ensures n > 0 ==> Shuffled(n, rand) == Shuffle(Identity(n), n - 1, rand)
  {}

  lemma ShuffleEnds(perm: seq<nat>, n: nat, rand: nat -> nat)
    requires IsPermutation(perm, n) && n > 0
    ensures Shuffle(perm, 0, rand) == perm
  {}

  method Swap(a: array<int>, i: nat, j: nat)
    requires i < a.Length && j < a.Length
    modifies a
    ensures a[..] == Swapped(old(a[..]), i, j)
  {
    a[i], a[j] := a[j], a[i];
  }

  /** The same exchange in all four arrays. */
  method SwapBlocks(devnos: array<int>, offsets: array<int>, hashes: array<int>, lastSents: array<int>, i: nat, j: nat)
    requires i < devnos.Length && i < offsets.Length && i < hashes.Length && i < lastSents.Length
    requires j < devnos.Length && j < offsets.Length && j < hashes.Length && j < lastSents.Length
    requires devnos != offsets && devnos != hashes && devnos != lastSents
    requires offsets != hashes && offsets != lastSents && hashes != lastSents
    modifies devnos, offsets, hashes, lastSents
    ensures devnos[..] == Swapped(old(devnos[..]), i, j) && offsets[..] == Swapped(old(offsets[..]), i, j)
    ensures hashes[..] == Swapped(old(hashes[..]), i, j) && lastSents[..] == Swapped(old(lastSents[..]), i, j)
  {
    hide Swapped;
    Swap(devnos, i, j);
    Swap(offsets, i, j);
    Swap(hashes, i, j);
    Swap(lastSents, i, j);
  }

  /** a, over its first n elements, is b read through perm. */
  ghost predicate Permuted(a: seq<int>, b: seq<int>, perm: seq<nat>, n: nat) {
    && |perm| == n <= |a| == |b| && (forall i :: 0 <= i < n ==> perm[i] < n && a[i] == b[perm[i]])
    && a[n..] == b[n..]
  }

  lemma PermutedStarts(a: seq<int>, n: nat)
    requires n <= |a|
    ensures Permuted(a, a, Identity(n), n)
  {}

  lemma PermutedSwap(a: seq<int>, b: seq<int>, perm: seq<nat>, n: nat, i: nat, j: nat)
    requires Permuted(a, b, perm, n) && i < n && j < n
    ensures Permuted(Swapped(a, i, j), b, Swapped(perm, i, j), n)
  {}

  /**
   * Fisher-Yates on four parallel arrays: one permutation of the first n positions, the same for
   * all four, so every block keeps its own offset, hash and time.
   */
  method ShuffleBlocks(devnos: array<int>, offsets: array<int>, hashes: array<int>, lastSents: array<int>,
                       n: nat, rand: nat -> nat)
    returns (ghost perm: seq<nat>)
    requires n <= devnos.Length && n <= offsets.Length && n <= hashes.Length && n <= lastSents.Length
    requires devnos != offsets && devnos != hashes && devnos != lastSents
    requires offsets != hashes && offsets != lastSents && hashes != lastSents
    modifies devnos, offsets, hashes, lastSents
    ensures IsPermutation(perm, n) && (n > 0 ==> perm == Shuffled(n, rand))
    ensures Permuted(devnos[..], old(devnos[..]), perm, n) && Permuted(offsets[..], old(offsets[..]), perm, n)
    ensures Permuted(hashes[..], old(hashes[..]), perm, n) && Permuted(lastSents[..], old(lastSents[..]), perm, n)
  {
    hide Permuted, IsPermutation, Shuffle, Shuffled, Identity, Choice, Swapped;
    perm := Identity(n);
    ShuffleStarts(n, rand);
    PermutedStarts(devnos[..], n); PermutedStarts(offsets[..], n);
    PermutedStarts(hashes[..], n); PermutedStarts(lastSents[..], n);
    var i := n - 1;
    while i > 0
      invariant -1 <= i < n && (n > 0 ==> i >= 0) && IsPermutation(perm, n) && |perm| == n
      invariant n > 0 ==> Shuffled(n, rand) == Shuffle(perm, i, rand)
      invariant Permuted(devnos[..], old(devnos[..]), perm, n) && Permuted(offsets[..], old(offsets[..]), perm, n)
      invariant Permuted(hashes[..], old(hashes[..]), perm, n) && Permuted(lastSents[..], old(lastSents[..]), perm, n)
    {
      var j := Choice(rand, i);
      ShuffleOnce(perm, i, rand, j);
      SwapKeeps(perm, n, i, j);
      PermutedSwap(devnos[..], old(devnos[..]), perm, n, i, j);
      PermutedSwap(offsets[..], old(offsets[..]), perm, n, i, j);
      PermutedSwap(hashes[..], old(hashes[..]), perm, n, i, j);
      PermutedSwap(lastSents[..], old(lastSents[..]), perm, n, i, j);
      SwapBlocks(devnos, offsets, hashes, lastSents, i, j);
      perm := Swapped(perm, i, j);
      i := i - 1;
    }
    if n > 0 { ShuffleEnds(perm, n, rand); }
  }

  // ---------- every order is possible ----------

  lemma {:induction false} Valued(perm: seq<nat>, m: nat)
    requires m <= |perm| && forall i, j :: 0 <= i < j < |perm| ==> perm[i] != perm[j]
    ensures |set i | 0 <= i < m :: perm[i]| == m
  {
    if m > 0 {
      Valued(perm, m - 1);
      var less := set i | 0 <= i < m - 1 :: perm[i];
      assert (set i | 0 <= i < m :: perm[i]) == less + {perm[m - 1]};
      assert perm[m - 1] !in less;
    }
  }

  /** A permutation takes every value. */
  lemma Onto(perm: seq<nat>, n: nat, v: nat) returns (p: nat)
    requires IsPermutation(perm, n) && v < n
    ensures p < n && perm[p] == v
  {
    var id := Identity(n);
    var values, all := set i | 0 <= i < n :: perm[i], set i | 0 <= i < n :: id[i];
    Valued(perm, n);
    Valued(id, n);
    forall i | 0 <= i < n ensures perm[i] in all { assert id[perm[i]] == perm[i]; }
    SameSize(values, all);
    assert id[v] in values;
    p :| 0 <= p < n && perm[p] == v;
  }

  lemma {:induction false} ShuffleLocal(perm: seq<nat>, i: nat, r: nat -> nat, r': nat -> nat)
    requires i < |perm| && forall k :: 0 < k <= i ==> r(k) == r'(k)
    ensures Shuffle(perm, i, r) == Shuffle(perm, i, r')
    decreases i
  {
    if i > 0 {
      var j := Choice(r, i);
      ShuffleLocal(Swapped(perm, i, j), i - 1, r, r');
    }
  }

  lemma Partner(cur: seq<nat>, target: seq<nat>, n: nat, i: nat) returns (p: nat)
    requires IsPermutation(cur, n) && IsPermutation(target, n) && i < n
    requires forall k :: i < k < n ==> cur[k] == target[k]
    ensures p <= i && cur[p] == target[i]
  {
    p := Onto(cur, n, target[i]);
  }

  lemma SmallMod(p: nat, m: nat)
    requires p < m
    ensures p % m == p
  {}

  lemma Choosing(cur: seq<nat>, i: nat, p: nat, rest: nat -> nat) returns (rand: nat -> nat)
    requires 0 < i < |cur| && p <= i
    ensures Shuffle(cur, i, rand) == Shuffle(Swapped(cur, i, p), i - 1, rest)
  {
    hide Shuffle;
    rand := k => if k == i then p else rest(k);
    SmallMod(p, i + 1);
    ShuffleOnce(cur, i, rand, p);
    ShuffleLocal(Swapped(cur, i, p), i - 1, rand, rest);
  }

  /** From any order that already agrees above i, suitable choices lead to the target. */
  lemma {:induction false} Steered(cur: seq<nat>, target: seq<nat>, n: nat, i: nat) returns (rand: nat -> nat)
    requires IsPermutation(cur, n) && IsPermutation(target, n) && i < n
    requires forall k :: i < k < n ==> cur[k] == target[k]
    ensures Shuffle(cur, i, rand) == target
    decreases i
  {
    var p := Partner(cur, target, n, i);
    if i == 0 {
      rand := k => 0;
      assert cur == target;
    } else {
      hide Shuffle;
      SwapKeeps(cur, n, i, p);
      var rest := Steered(Swapped(cur, i, p), target, n, i - 1);
      rand := Choosing(cur, i, p, rest);
    }
  }

  /** Each of the n! orders is the outcome for some sequence of random numbers. */
  lemma EveryOrderPossible(target: seq<nat>, n: nat) returns (rand: nat -> nat)
    requires IsPermutation(target, n) && n > 0
    ensures Shuffled(n, rand) == target
  {
    rand := Steered(Identity(n), target, n, n - 1);
  }

  /** Shuffling a query result gives the same rows in another order: still a batch. */
  lemma ShuffledIsBatch(t: Table, batch: seq<Pick>, shuffled: seq<Pick>, perm: seq<nat>)
    requires IsBatch(t, batch) && IsPermutation(perm, |batch|) && |shuffled| == |batch|
    requires forall i :: 0 <= i < |batch| ==> shuffled[i] == batch[perm[i]]
    ensures IsBatch(t, shuffled)
  {
    DistinctKeys(batch);
    forall i, j | 0 <= i < j < |shuffled|
      ensures shuffled[i].key != shuffled[j].key
    {
      assert batch[perm[i]].key != batch[perm[j]].key;
    }
    DistinctKeys(shuffled);
    assert Keys(shuffled) <= Keys(batch) by {
      forall i | 0 <= i < |shuffled| ensures shuffled[i].key in Keys(batch) { assert batch[perm[i]].key in Keys(batch); }
    }
    SameSize(Keys(shuffled), Keys(batch));
  }

  lemma SameSize<T>(a: set<T>, b: set<T>)
    requires a <= b && |a| == |b|
    ensures a == b
  {
    assert |b - a| == |b| - |a|;
  }

  // ---------- the loop ----------

  class Migration {
    var table: Table
    var incRound: nat
    var incVersion: nat
    var zeroChangeRounds: nat
    var allDone: bool

    ghost function Abstract(): Loop
      reads this
    {
      Loop(table, incVersion, incRound, zeroChangeRounds)
    }

    constructor (table: Table, version: nat, round: nat)
      ensures Abstract() == Loop(table, version, round, 0) && !allDone
    {
      this.table, incVersion, incRound := table, version, round;
      zeroChangeRounds, allDone := 0, false;
    }

    /** One block of the round. */
    method ExamineBlock(b: Pick, x: Seen, version: nat, now: int) returns (stop: bool, resent: bool)
      requires b.key in table && !x.Stopped?
      modifies this`table
      ensures table == Touched(old(table), b, x, version, now)
      ensures stop == Stops(b, x, now) && resent == Resends(b, x, now)
    {
      stop, resent := false, false;
      if Cooling(b.lastSent, now) { return; }
      if x.Backlog? { return true, false; }
      if x.Unreadable? { return; }
      if x.hash == b.hash {
        table := Confirm(table, b.key, version, now);
        return;
      }
      table := table[b.key := table[b.key].(lastSent := now)];
      if x.fate.Interrupted? { return true, false; }
      if x.fate.Queued? {
        table := Resend(table, b.key, x, version);
        resent := true;
      }
    }

    method DoIncrementalRound(batch: seq<Pick>, seen: seq<Seen>, version: nat, now: int) returns (requeued: nat)
      requires |seen| == |batch| && AllUnacked(table, batch)
      modifies this`table
      ensures table == Round(old(table), batch, seen, version, now).table
      ensures requeued == |Round(old(table), batch, seen, version, now).resent|
    {
      hide Round, Touched, Stops, Resends, AllUnacked, Keys, Also;
      AlsoNone(Round(table, batch, seen, version, now));
      requeued := 0;
      ghost var done: set<Key> := {};
      ghost var whole := Round(table, batch, seen, version, now);
      assert batch[0..] == batch && seen[0..] == seen;
      var i := 0;
      while i < |batch|
        invariant 0 <= i <= |batch| && AllUnacked(table, batch[i..])
        invariant whole == Also(done, Round(table, batch[i..], seen[i..], version, now))
        invariant requeued == |done| && done !! Keys(batch[i..])
      {
        ghost var t := table;
        assert batch[i..][0] == batch[i] && seen[i..][0] == seen[i];
        assert batch[i..][1..] == batch[i + 1..] && seen[i..][1..] == seen[i + 1..];
        RoundStep(table, batch[i..], seen[i..], version, now);
        AlsoStop(done, t); AlsoStop(done, Touched(t, batch[i], seen[i], version, now));
        if seen[i].Stopped? { return; }
        var stop, resent := ExamineBlock(batch[i], seen[i], version, now);
        if stop { return; }
        AlsoTwice(done, if resent then {batch[i].key} else {}, Round(table, batch[i + 1..], seen[i + 1..], version, now));
        if resent {
          requeued := requeued + 1;
          done := done + {batch[i].key};
        }
        i := i + 1;
      }
      AlsoStop(done, table);
      RoundOver(table, seen[i..], version, now);
    }

    method ShouldFinish(requeued: nat, version: nat) returns (finish: bool)
      modifies this`zeroChangeRounds
      ensures var v := Convergence.ShouldFinish(table, requeued, version, incRound, old(zeroChangeRounds));
              finish == v.finish && zeroChangeRounds == v.zeroRounds
    {
      var unacked := |Stale(table, version)|;
      if unacked == 0 { return true; }
      if requeued == 0 {
        zeroChangeRounds := zeroChangeRounds + 1;
        if zeroChangeRounds >= CONVERGENCE_ZERO_ROUNDS {
          var threshold := |table| / 20;
          if threshold < 512 { threshold := 512; }
          if unacked <= threshold { return true; }
        }
      } else {
        zeroChangeRounds := 0;
      }
      return incRound >= MAX_INCREMENTAL_ROUNDS;
    }

    /** The incremental timer fires: one round, then stop or start the next version. */
    method OnIncrementalTimer(e: Env)
      requires Possible(Abstract(), e)
      modifies this
      ensures Abstract() == Tick(old(Abstract()), e)
      ensures allDone == (old(allDone) || (VerdictOf(old(Abstract()), e).finish && e.endSent))
    {
      hide Round, IsBatch, Stale;
      BatchUnacked(table, e.batch);
      incRound := incRound + 1;
      var requeued := DoIncrementalRound(e.batch, e.seen, incVersion, e.now);
      var finish := ShouldFinish(requeued, incVersion);
      if finish {
        if e.endSent { allDone := true; }
      } else {
        incVersion := incVersion + 1;
      }
    }
  }

  function Also(done: set<Key>, o: Outcome): Outcome { o.(resent := done + o.resent) }

  lemma AlsoNone(o: Outcome)
    ensures Also({}, o) == o
  {}

  lemma AlsoStop(done: set<Key>, t: Table)
    ensures Also(done, Outcome(t, {})) == Outcome(t, done)
  {}

  lemma AlsoTwice(done: set<Key>, more: set<Key>, o: Outcome)
    ensures Also(done, Also(more, o)) == Also(done + more, o) && done + {} == done
  {
    assert done + (more + o.resent) == (done + more) + o.resent;
  }

  lemma RoundOver(t: Table, seen: seq<Seen>, version: nat, now: int)
    requires seen == []
    ensures Round(t, [], seen, version, now) == Outcome(t, {})
  {}

  lemma RoundStep(t: Table, batch: seq<Pick>, seen: seq<Seen>, version: nat, now: int)
    requires batch != [] && |seen| == |batch| && AllUnacked(t, batch)
    ensures var b, x := batch[0], seen[0];
            && b.key in t && b.key !in Keys(batch[1..]) && b.key in Keys(batch) && Keys(batch[1..]) <= Keys(batch)
            && AllUnacked(Touched(t, b, x, version, now), batch[1..])
            && (x.Stopped? ==> Round(t, batch, seen, version, now) == Outcome(t, {}))
            && (!x.Stopped? ==>
                  var t1 := Touched(t, b, x, version, now);
                  Round(t, batch, seen, version, now) ==
                  if Stops(b, x, now) then Outcome(t1, {})
                  else Also(if Resends(b, x, now) then {b.key} else {},
                            Round(t1, batch[1..], seen[1..], version, now)))
  {
    var b, x := batch[0], seen[0];
    KeysSplit(batch);
    var t1 := Touched(t, b, x, version, now);
    RestUnacked(t, t1[b.key], batch);
    assert t1 == t[b.key := t1[b.key]];
    var rest := Round(t1, batch[1..], seen[1..], version, now);
    assert rest.resent + {b.key} == {b.key} + rest.resent && {} + rest.resent == rest.resent;
  }
}
