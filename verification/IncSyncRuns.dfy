/** What whole incremental passes achieve, one after another. */
module IncSyncRuns {
  import opened IncSync

  // ---------- passes that lose no frame ----------

  /** Acknowledgements may still be lost, and blocks sent more than once. */
  predicate Lossless(s: State, step: Step) {
    && !step.Drop? && !step.Reset?
    && (step.Deliver? && step.conn < |s.conns| && s.conns[step.conn].frames != [] ==>
          step.n == |s.conns[step.conn].frames[0].data|)
  }

  predicate Queued(s: State, k: Key) { exists i :: i in s.queue && i.key == k }

  predicate OnWire(s: State, k: Key) {
    exists c, f :: c in s.conns && f in c.frames && f.key == k
  }

  /** Each changed block has arrived, is on its way, or is still being queued. */
  predicate Pending(s: State, k: Key) {
    k in s.delivered || Queued(s, k) || OnWire(s, k) || s.phase == Pushing(k)
  }

  ghost predicate NothingLost(s: State) { forall k :: k in s.changed ==> Pending(s, k) }

  /** A frame on the wire stays there unless it is the one just delivered. */
  lemma WireKept(s: State, s': State, c: nat, to: Conn, k: Key)
    requires OnWire(s, k) && c < |s.conns| && s'.conns == s.conns[c := to]
    requires forall f :: f in s.conns[c].frames && f.key == k ==> f in to.frames
    ensures OnWire(s', k)
  {
    var d, f :| d in s.conns && f in d.frames && f.key == k;
    var j :| 0 <= j < |s.conns| && s.conns[j] == d;
    assert s'.conns[j] in s'.conns && f in s'.conns[j].frames;
  }

  lemma SendingKept(p: Pass, s: State, step: Step, k: Key)
    requires Enabled(p, s, step) && (step.Flush? || step.Deliver?) && Lossless(s, step)
    requires Pending(s, k)
    ensures Pending(Next(p, s, step), k)
  {
    var s', c := Next(p, s, step), step.conn;
    var to := s'.conns[c];
    assert to in s'.conns;
    if step.Flush? {
      var f := Frame(s.queue[0].key, s.queue[0].payload.value);
      assert f in to.frames;
      if OnWire(s, k) { WireKept(s, s', c, to, k); }
      if i :| i in s.queue && i.key == k {
        if i.key != s.queue[0].key { assert i in s'.queue; }
      }
    } else if OnWire(s, k) && k != s.conns[c].frames[0].key {
      WireKept(s, s', c, to, k);
    }
  }

  lemma QuietStepKept(p: Pass, s: State, step: Step, k: Key)
    requires Enabled(p, s, step) && !step.Flush? && !step.Deliver? && Lossless(s, step)
    requires Pending(s, k)
    ensures Pending(Next(p, s, step), k)
  {
    var s' := Next(p, s, step);
    if OnWire(s, k) && (step.TakeAck? || step.LoseAck?) {
      WireKept(s, s', step.conn, s'.conns[step.conn], k);
    }
    if Queued(s, k) {
      var j :| 0 <= j < |s.queue| && s.queue[j].key == k;
      assert s'.queue[j] in s'.queue && s'.queue[j].key == k;
    }
    if step.Push? && step.rc != -1 {
      assert s'.queue[|s.queue|] in s'.queue;
    }
  }

  lemma StepLosesNothing(p: Pass, s: State, step: Step)
    requires Enabled(p, s, step) && Lossless(s, step) && NothingLost(s)
    ensures NothingLost(Next(p, s, step))
  {
    hide Pending, Lossless;
    var s' := Next(p, s, step);
    forall k | k in s'.changed
      ensures Pending(s', k)
    {
      if k in s.changed {
        if step.Flush? || step.Deliver? { SendingKept(p, s, step, k); } else { QuietStepKept(p, s, step, k); }
      } else {
        BeginIsPending(s', k);
      }
    }
  }

  lemma BeginIsPending(s: State, k: Key)
    requires s.phase == Pushing(k)
    ensures Pending(s, k)
  {}

  ghost predicate LosslessTrace(p: Pass, states: seq<State>, steps: seq<Step>) {
    Trace(p, states, steps) && forall i :: 0 <= i < |steps| ==> Lossless(states[i], steps[i])
  }

  lemma {:induction false} TraceLosesNothing(p: Pass, states: seq<State>, steps: seq<Step>, i: nat)
    requires LosslessTrace(p, states, steps) && Start(p, states[0]) && i <= |steps|
    ensures NothingLost(states[i])
  {
    if i > 0 {
      hide NothingLost, Start, Next, Enabled, Lossless;
      TraceLosesNothing(p, states, steps, i - 1);
      StepLosesNothing(p, states[i - 1], steps[i - 1]);
    }
  }

  /** Source and target have the same hash for block k, and the row says so. */
  predicate Synced(p: Pass, s: State, k: Key) {
    && k in p.source && k in s.table
    && s.table[k].hash == p.hash(k, p.source[k])
    && p.hash(k, TargetBlock(s.target, k, s.table[k].size)) == p.hash(k, p.source[k])
  }

  /**
   * A pass that loses no frame, visits every readable block and ends quiet leaves each of them
   * hash-equal to the source, those whose stored hash differed octet for octet, and every row true
   * of the target.
   */
  lemma LosslessPassSyncs(p: Pass, states: seq<State>, steps: seq<Step>)
    requires LosslessTrace(p, states, steps) && Start(p, states[0])
    requires var s := states[|steps|]; Quiet(s) && p.source.Keys <= s.visited
    ensures var s := states[|steps|];
            && (forall k :: k in p.source ==> Synced(p, s, k))
            && (forall k :: k in p.source && !Unchanged(p, states[0], k) ==> Holds(p, s.target, k))
            && AllRowsMatch(p, s) && RowsFit(p, s)
  {
    TraceInv(p, states, steps, |steps|);
    TraceLosesNothing(p, states, steps, |steps|);
    forall k | k in states[|steps|].table && k !in states[|steps|].changed
      ensures RowMatches(p, states[|steps|], k)
    {
      UnchangedRowMatches(p, states, steps, |steps|, k);
    }
    QuietIsSynced(p, states[|steps|]);
    forall k | k in p.source && !Unchanged(p, states[0], k)
      ensures k in states[|steps|].changed
    {
      TraceKeeps(p, states, steps, |steps|, k);
    }
  }

  lemma QuietIsSynced(p: Pass, s: State)
    requires Inv(p, s) && NothingLost(s) && Quiet(s) && p.source.Keys <= s.visited
    requires forall k :: k in s.table && k !in s.changed ==> RowMatches(p, s, k)
    ensures forall k :: k in p.source ==> Synced(p, s, k)
    ensures forall k :: k in s.changed ==> Holds(p, s.target, k)
    ensures AllRowsMatch(p, s)
  {
    hide Layout;
    forall k | k in s.changed
      ensures Holds(p, s.target, k)
    {
      assert Pending(s, k);
    }
    forall k | k in s.table
      ensures RowMatches(p, s, k)
    {
      assert RowOk(p, s, k);
    }
    forall k | k in p.source
      ensures Synced(p, s, k)
    {
      assert k in s.visited;
      if k !in s.changed { assert Unchanged(p, s, k); }
      assert RowOk(p, s, k);
    }
  }

  // ---------- passes in succession ----------

  datatype PassRun = PassRun(p: Pass, states: seq<State>, steps: seq<Step>)

  /** The next pass finds the rows and the target as the last one left them; sources may change. */
  ghost predicate Follows(r: PassRun, next: PassRun)
    requires |r.states| > 0 && |next.states| > 0
  {
    var s, t := r.states[|r.states| - 1], next.states[0];
    && next.p.extent == r.p.extent && next.p.hash == r.p.hash && Layout(next.p)
    && s.phase.Idle? && t.table == s.table && t.target == s.target && NewPass(t)
  }

  /** Lossless, complete and ending quiet. */
  ghost predicate Complete(r: PassRun) {
    && LosslessTrace(r.p, r.states, r.steps)
    && Quiet(r.states[|r.steps|]) && r.p.source.Keys <= r.states[|r.steps|].visited
  }

  ghost predicate Chain(runs: seq<PassRun>) {
    && (forall i :: 0 <= i < |runs| ==> Complete(runs[i]))
    && (forall i :: 0 <= i < |runs| - 1 ==> Follows(runs[i], runs[i + 1]))
  }

  lemma {:induction false} EveryPassStartsWell(runs: seq<PassRun>, i: nat)
    requires Chain(runs) && i < |runs| && Start(runs[0].p, runs[0].states[0])
    ensures Start(runs[i].p, runs[i].states[0])
  {
    if i > 0 {
      EveryPassStartsWell(runs, i - 1);
      var r, next := runs[i - 1], runs[i];
      assert Complete(r) && Follows(r, next);
      LosslessPassSyncs(r.p, r.states, r.steps);
      MatchCarriesOver(r.p, r.states[|r.steps|], next.p, next.states[0]);
    }
  }

  lemma MatchCarriesOver(p: Pass, s: State, p': Pass, t: State)
    requires AllRowsMatch(p, s) && p'.hash == p.hash && t.table == s.table && t.target == s.target
    ensures AllRowsMatch(p', t)
  {
    forall k | k in t.table ensures RowMatches(p', t, k) { assert RowMatches(p, s, k); }
  }

  /** However often it is repeated, every such pass ends with target and source hash-equal. */
  lemma EveryPassSyncs(runs: seq<PassRun>, i: nat, k: Key)
    requires Chain(runs) && i < |runs| && Start(runs[0].p, runs[0].states[0])
    requires k in runs[i].p.source
    ensures Synced(runs[i].p, runs[i].states[|runs[i].steps|], k)
  {
    EveryPassStartsWell(runs, i);
    assert Complete(runs[i]);
    LosslessPassSyncs(runs[i].p, runs[i].states, runs[i].steps);
  }

  // ---------- what a pass leaves in the rows ----------

  /** The step sets ack in the row of block k: verified unchanged, or its acknowledgement read. */
  predicate Confirms(s: State, step: Step, k: Key) {
    && k in s.table
    && (|| step == Verify(k)
        || (step.TakeAck? && step.conn < |s.conns| && s.conns[step.conn].acks != [] && s.conns[step.conn].acks[0] == k))
  }

  predicate Records(s: State, step: Step, k: Key) { step == Upsert && !s.phase.Idle? && s.phase.key == k }

  /** Block k was not recorded by any of the steps from j up to i. */
  ghost predicate Unrecorded(states: seq<State>, steps: seq<Step>, j: nat, i: nat, k: Key)
    requires i <= |steps| < |states|
  {
    forall m :: j <= m < i ==> !Records(states[m], steps[m], k)
  }

  ghost predicate ConfirmedAt(states: seq<State>, steps: seq<Step>, j: nat, i: nat, k: Key)
    requires i <= |steps| < |states|
  {
    j < i && Confirms(states[j], steps[j], k) && Unrecorded(states, steps, j + 1, i, k)
  }

  /** Some step before i confirmed block k, and it has not been recorded since. */
  ghost predicate Confirmed(states: seq<State>, steps: seq<Step>, i: nat, k: Key)
    requires i <= |steps| < |states|
  {
    exists j: nat :: ConfirmedAt(states, steps, j, i, k)
  }

  lemma OneStepOn(states: seq<State>, steps: seq<Step>, i: nat, k: Key)
    requires 0 < i <= |steps| < |states|
    ensures var s, step := states[i - 1], steps[i - 1];
            && (Unrecorded(states, steps, 0, i, k) <==> Unrecorded(states, steps, 0, i - 1, k) && !Records(s, step, k))
            && (Confirmed(states, steps, i, k) <==>
                Confirms(s, step, k) || (Confirmed(states, steps, i - 1, k) && !Records(s, step, k)))
  {
    hide Confirms, Records;
    if Confirms(states[i - 1], steps[i - 1], k) { assert ConfirmedAt(states, steps, i - 1, i, k); }
    if Confirmed(states, steps, i - 1, k) && !Records(states[i - 1], steps[i - 1], k) {
      var j: nat :| ConfirmedAt(states, steps, j, i - 1, k);
      assert ConfirmedAt(states, steps, j, i, k);
    }
    if Confirmed(states, steps, i, k) && !Confirms(states[i - 1], steps[i - 1], k) {
      var j: nat :| ConfirmedAt(states, steps, j, i, k);
      assert ConfirmedAt(states, steps, j, i - 1, k);
    }
  }

  lemma StepAcks(p: Pass, s: State, step: Step, k: Key)
    requires Enabled(p, s, step) && k in Next(p, s, step).table
    ensures Next(p, s, step).table[k].ack <==>
            Confirms(s, step, k) || (k in s.table && s.table[k].ack && !Records(s, step, k))
  {}

  /**
   * Exactly when a row has ack = 1, at any moment of any run: it was verified or its acknowledgement
   * was read, or it was acknowledged at the start, and it has not been recorded anew since.
   */
  lemma {:induction false} AckIff(p: Pass, states: seq<State>, steps: seq<Step>, i: nat, k: Key)
    requires Trace(p, states, steps) && i <= |steps| && k in states[i].table
    ensures states[i].table[k].ack <==>
            || (k in states[0].table && states[0].table[k].ack && Unrecorded(states, steps, 0, i, k))
            || Confirmed(states, steps, i, k)
  {
    hide Next, Enabled, Confirms, Records, Unrecorded, Confirmed;
    if i > 0 {
      var s, step := states[i - 1], steps[i - 1];
      StepAcks(p, s, step, k);
      assert states[i] == Next(p, s, step);
      if k in s.table { AckIff(p, states, steps, i - 1, k); } else { NewRowUnacked(p, states, steps, i, k); }
      OneStepOn(states, steps, i, k);
    } else {
      NothingYet(states, steps, k);
    }
  }

  lemma NothingYet(states: seq<State>, steps: seq<Step>, k: Key)
    requires |steps| < |states|
    ensures Unrecorded(states, steps, 0, 0, k) && !Confirmed(states, steps, 0, k)
  {}

  /** A row that was not there before was never confirmed. */
  lemma {:induction false} NewRowUnacked(p: Pass, states: seq<State>, steps: seq<Step>, i: nat, k: Key)
    requires Trace(p, states, steps) && 0 < i <= |steps| && k !in states[i - 1].table
    ensures k !in states[0].table && !Confirmed(states, steps, i - 1, k)
  {
    forall j: nat | j <= i - 1
      ensures k !in states[j].table
    {
      RowsStay(p, states, steps, j, i - 1, k);
    }
  }

  lemma {:induction false} RowsStay(p: Pass, states: seq<State>, steps: seq<Step>, j: nat, i: nat, k: Key)
    requires Trace(p, states, steps) && j <= i <= |steps| && k !in states[i].table
    ensures k !in states[j].table
    decreases i - j
  {
    if j < i {
      RowsStay(p, states, steps, j + 1, i, k);
      assert states[j + 1] == Next(p, states[j], steps[j]);
    }
  }

  /** Version and time the pass has written into the row of a block it is done with. */
  ghost predicate Stamped(p: Pass, s: State, k: Key) {
    k in s.visited && k in p.source ==>
      && k in s.table && s.table[k].version == p.version
      && s.table[k].lastSent == if k in s.changed then 0 else p.now
  }

  lemma StepStamps(p: Pass, s: State, step: Step, k: Key)
    requires Inv(p, s) && Enabled(p, s, step) && Stamped(p, s, k)
    ensures Stamped(p, Next(p, s, step), k)
  {
    hide Holds, Layout, TargetBlock, ConnOk, RowOk, ItemOk;
  }

  lemma NoneStamped(p: Pass, s: State, k: Key)
    requires Fresh(p, s)
    ensures Stamped(p, s, k)
  {}

  /**
   * Every block a pass is done with carries the pass's version, and the pass's time if it was
   * found unchanged; the time of a queued one is 0.
   */
  lemma {:induction false} VisitedRowsStamped(p: Pass, states: seq<State>, steps: seq<Step>, i: nat, k: Key)
    requires Trace(p, states, steps) && Fresh(p, states[0]) && i <= |steps|
    ensures Stamped(p, states[i], k)
  {
    hide Next, Enabled, Inv, Stamped, Fresh;
    if i > 0 {
      VisitedRowsStamped(p, states, steps, i - 1, k);
      TraceInv(p, states, steps, i - 1);
      StepStamps(p, states[i - 1], steps[i - 1], k);
    } else {
      NoneStamped(p, states[0], k);
    }
  }

  /** The step ends the pass's work on block k. */
  predicate Settles(s: State, step: Step, k: Key) {
    step == Skip(k) || step == Verify(k) || Records(s, step, k)
  }

  lemma StepVisits(p: Pass, s: State, step: Step, k: Key)
    requires Enabled(p, s, step) && (Settles(s, step, k) || k in s.visited)
    ensures k in Next(p, s, step).visited
  {}

  lemma {:induction false} VisitedStays(p: Pass, states: seq<State>, steps: seq<Step>, j: nat, i: nat, k: Key)
    requires Trace(p, states, steps) && j < i <= |steps|
    requires Settles(states[j], steps[j], k) || k in states[j].visited
    ensures k in states[i].visited
    decreases i
  {
    hide Next, Enabled, Settles;
    if j < i - 1 { VisitedStays(p, states, steps, j, i - 1, k); }
    StepVisits(p, states[i - 1], steps[i - 1], k);
  }

  /** A pass looks at each block at most once: a block it is done with is never begun, skipped or verified again. */
  lemma ScannedOnce(p: Pass, states: seq<State>, steps: seq<Step>, j: nat, i: nat, k: Key)
    requires Trace(p, states, steps) && Fresh(p, states[0]) && j < i < |steps| && Settles(states[j], steps[j], k)
    ensures !Settles(states[i], steps[i], k) && steps[i] != Begin(k)
  {
    VisitedStays(p, states, steps, j, i, k);
    TraceInv(p, states, steps, i);
    hide Layout, RowOk, ConnOk, ItemOk, Holds;
    assert Enabled(p, states[i], steps[i]);
    if !states[i].phase.Idle? { assert states[i].phase.key in Current(states[i]); }
  }
}
