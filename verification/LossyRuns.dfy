/** Passes that lose frames: exactly which rows are then true of the target, and for how long. */
module LossyRuns {
  import opened Bytes
  import opened Disk
  import opened Wrappers
  import opened IncSync
  import opened IncSyncRuns

  // ---------- one pass ----------

  /** The longest torn copy of block k over what the target held before the pass. */
  function Overlaid(p: Pass, s0: State, s: State, k: Key): seq<byte>
    requires k in p.source && TornTo(s, k) <= |p.source[k]|
  {
    p.source[k][..TornTo(s, k)] + TargetBlock(s0.target, k, |p.source[k]|)[TornTo(s, k)..]
  }

  /** What the target holds where block k belongs. */
  ghost predicate Landed(p: Pass, s0: State, s: State, k: Key)
    requires k in p.source
  {
    && TornTo(s, k) <= |p.source[k]|
    && TargetBlock(s.target, k, |p.source[k]|) == if k in s.delivered then p.source[k] else Overlaid(p, s0, s, k)
  }

  lemma PrefixLands(img: Image, f: Frame, n: nat)
    requires n <= |f.data|
    ensures TargetBlock(Apply(img, FrameWrite(f, n)), f.key, |f.data|) ==
            f.data[..n] + TargetBlock(img, f.key, |f.data|)[n..]
  {
    hide Apply;
    var w := FrameWrite(f, n);
    forall i | 0 <= i < |f.data|
      ensures TargetBlock(Apply(img, w), f.key, |f.data|)[i] ==
              (f.data[..n] + TargetBlock(img, f.key, |f.data|)[n..])[i]
    {
      AppliedAt(img, w, f.key.devno, f.key.offset + i);
    }
  }

  lemma OverlayTwice(data: seq<byte>, old': seq<byte>, t: nat, n: nat)
    requires |data| == |old'| && t <= |data| && n <= |data|
    ensures data[..n] + (data[..t] + old'[t..])[n..] == data[..Max(t, n)] + old'[Max(t, n)..]
  {}

  lemma DeliverLands(p: Pass, s0: State, s: State, c: nat, n: nat, k: Key)
    requires Inv(p, s) && Enabled(p, s, Deliver(c, n)) && k in p.source && Landed(p, s0, s, k)
    ensures Landed(p, s0, Next(p, s, Deliver(c, n)), k)
  {
    hide Apply, ReadBlock, Holds, Layout, TargetBlock, FrameWrite;
    var f, s' := s.conns[c].frames[0], Next(p, s, Deliver(c, n));
    assert s.conns[c] in s.conns && f in s.conns[c].frames && FrameOk(p, s, f);
    SourceFits(p, k);
    if k != f.key {
      OtherBlocksKept(p, s.target, f, n, k, |p.source[k]|);
    } else if k in s'.delivered {
      if n == |f.data| { DeliveredHolds(p, s.target, f); } else { HoldsKept(p, s.target, f, n, k); }
      HoldsMeans(p, s'.target, k);
    } else {
      PrefixLands(s.target, f, n);
      OverlayTwice(f.data, TargetBlock(s0.target, k, |f.data|), TornTo(s, k), n);
    }
  }

  lemma HoldsMeans(p: Pass, img: Image, k: Key)
    requires Holds(p, img, k)
    ensures k in p.source && TargetBlock(img, k, |p.source[k]|) == p.source[k]
  {}

  lemma {:induction false} TraceLands(p: Pass, states: seq<State>, steps: seq<Step>, i: nat, k: Key)
    requires Trace(p, states, steps) && Fresh(p, states[0]) && i <= |steps| && k in p.source
    ensures Landed(p, states[0], states[i], k)
  {
    if i > 0 {
      TraceLands(p, states, steps, i - 1, k);
      TraceInv(p, states, steps, i - 1);
      StepLands(p, states[0], states[i - 1], steps[i - 1], k);
    }
  }

  lemma StepLands(p: Pass, s0: State, s: State, step: Step, k: Key)
    requires Inv(p, s) && Enabled(p, s, step) && k in p.source && Landed(p, s0, s, k)
    ensures Landed(p, s0, Next(p, s, step), k)
  {
    hide Inv;
    if step.Deliver? { DeliverLands(p, s0, s, step.conn, step.n, k); }
  }

  /**
   * Exactly when the row of a queued block is true of the target, at any moment of any pass: when
   * a copy of it was delivered, or when the longest torn copy over the old octets (with no torn
   * copy: the old octets) happens to have the same hash.
   */
  lemma RowTrueIffDelivered(p: Pass, states: seq<State>, steps: seq<Step>, i: nat, k: Key)
    requires Trace(p, states, steps) && Fresh(p, states[0]) && i <= |steps|
    requires k in states[i].changed && k !in Current(states[i])
    ensures k in p.source && k in states[i].table && TornTo(states[i], k) <= |p.source[k]|
    ensures states[i].table[k].hash == p.hash(k, p.source[k]) && states[i].table[k].size == |p.source[k]|
    ensures RowMatches(p, states[i], k) <==>
            k in states[i].delivered || p.hash(k, Overlaid(p, states[0], states[i], k)) == p.hash(k, p.source[k])
  {
    hide Overlaid, Layout, TargetBlock;
    TraceInv(p, states, steps, i);
    assert RowOk(p, states[i], k);
    TraceLands(p, states, steps, i, k);
  }

  // ---------- any sequence of passes ----------

  ghost predicate Passes(runs: seq<PassRun>) {
    && (forall i :: 0 <= i < |runs| ==> Trace(runs[i].p, runs[i].states, runs[i].steps))
    && (forall i :: 0 <= i < |runs| - 1 ==> Follows(runs[i], runs[i + 1]))
    && (runs != [] ==> Fresh(runs[0].p, runs[0].states[0]))
  }

  lemma {:induction false} EveryPassFresh(runs: seq<PassRun>, j: nat)
    requires Passes(runs) && j < |runs|
    ensures Fresh(runs[j].p, runs[j].states[0])
  {
    if j > 0 {
      hide Layout, Quiet;
      EveryPassFresh(runs, j - 1);
      var r := runs[j - 1];
      assert Follows(r, runs[j]);
      TraceInv(r.p, r.states, r.steps, |r.steps|);
    }
  }

  /** The last pass, up to state i of pass j, in which block k was queued. */
  ghost function LastChange(runs: seq<PassRun>, j: nat, i: nat, k: Key): Option<nat>
    requires Passes(runs) && j < |runs| && i <= |runs[j].steps|
    decreases j
  {
    if k in runs[j].states[i].changed then Some(j)
    else if j == 0 then None
    else LastChange(runs, j - 1, |runs[j - 1].steps|, k)
  }

  /** Block k's row is true of the target: it was delivered in run r, or its hash cannot tell. */
  ghost predicate Arrived(r: PassRun, i: nat, k: Key)
    requires i < |r.states| && k in r.p.source && TornTo(r.states[i], k) <= |r.p.source[k]|
  {
    || k in r.states[i].delivered
    || r.p.hash(k, Overlaid(r.p, r.states[0], r.states[i], k)) == r.p.hash(k, r.p.source[k])
  }

  /**
   * Over any number of passes, with changing sources and any losses: a row that some pass recorded
   * is true of the target exactly if a copy arrived in the last pass that recorded it - later
   * passes neither repair nor spoil it - and a row no pass recorded is as true as it was.
   */
  lemma {:induction false} RowTrueIffArrived(runs: seq<PassRun>, j: nat, i: nat, k: Key)
    requires Passes(runs) && j < |runs| && i <= |runs[j].steps|
    requires k in runs[j].states[i].table && k !in Current(runs[j].states[i])
    ensures var now := RowMatches(runs[j].p, runs[j].states[i], k);
            match LastChange(runs, j, i, k)
            case None =>
              k in runs[0].states[0].table && (now <==> RowMatches(runs[0].p, runs[0].states[0], k))
            case Some(m) =>
              && m <= j && k in runs[m].p.source
              && var at := if m == j then i else |runs[m].steps|;
              && TornTo(runs[m].states[at], k) <= |runs[m].p.source[k]|
              && (now <==> Arrived(runs[m], at, k))
    decreases j
  {
    hide Overlaid, TargetBlock, Layout, Quiet;
    var r := runs[j];
    EveryPassFresh(runs, j);
    if k in r.states[i].changed {
      RowTrueIffDelivered(r.p, r.states, r.steps, i, k);
    } else {
      TraceKeeps(r.p, r.states, r.steps, i, k);
      if j > 0 {
        assert Follows(runs[j - 1], r);
        RowTrueIffArrived(runs, j - 1, |runs[j - 1].steps|, k);
      }
    }
  }

  // ---------- loss is not repaired by running again ----------

  /**
   * From any state: a block whose frame is dropped after queueing is called verified by the next
   * pass, which finds the stored hash equal to the source's, although the target differs.
   */
  lemma LossNotRepaired(p: Pass, s0: State, k: Key) returns (states: seq<State>, steps: seq<Step>, t: State)
    requires Fresh(p, s0) && k in p.source && !Unchanged(p, s0, k)
    requires p.hash(k, TargetBlock(s0.target, k, |p.source[k]|)) != p.hash(k, p.source[k])
    ensures Trace(p, states, steps) && states[0] == s0 && Quiet(states[|steps|])
    ensures t == states[|steps|].(visited := {}, changed := {}) && Fresh(p, t) && t.target == s0.target
    ensures Enabled(p, t, Verify(k))
    ensures var u := Next(p, t, Verify(k)); u.table[k].ack && !RowMatches(p, u, k)
  {
    hide TargetBlock;
    var d := p.source[k];
    var s1 := s0.(phase := Pushing(k), changed := {k});
    var s2 := s1.(phase := Pushed(k), queue := [Item(k, Some(d))]);
    var row := Row(|d|, p.hash(k, d), false, 0, p.version);
    var s3 := s2.(phase := Idle, visited := {k}, table := s0.table[k := row]);
    var s4 := s3.(queue := []);
    states, steps := [s0, s1, s2, s3, s4], [Begin(k), Push(0), Upsert, Drop];
    t := s4.(visited := {}, changed := {});
    assert Next(p, s0, Begin(k)) == s1;
    assert Next(p, s1, Push(0)) == s2;
    assert Next(p, s2, Upsert) == s3;
    assert Next(p, s3, Drop) == s4;
    SourceFits(p, k);
  }
}
