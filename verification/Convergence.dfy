/**
 * The convergence loop after a full sync: every round re-reads unacknowledged blocks from the live
 * disk, and should_finish decides whether to stop.  The live disk, the clock and the queue are the
 * environment; each round gets an arbitrary one.
 */
module Convergence {
  import opened IncSync

  const BATCH := 4096
  const COOLDOWN_MS := 121 * 1000
  const MAX_INCREMENTAL_ROUNDS := 60
  const CONVERGENCE_ZERO_ROUNDS := 3

  type Table = map<Key, Row>

  /** What became of a changed block that was re-encoded and offered to the queue. */
  datatype Fate = Queued(sentAt: int) | GaveUp | Interrupted

  /** What the round meets at one block. */
  datatype Seen =
    | Stopped                                  // shutdown requested
    | Backlog                                  // more than 9 entries queued: leave the rest
    | Unreadable                               // no reader, read error or no data
    | Live(hash: int, size: nat, fate: Fate)   // the live block; fate matters if it changed

  /** A row as the query returned it. */
  datatype Pick = Pick(key: Key, hash: int, lastSent: int)

  function Unacked(t: Table): set<Key> { set k | k in t && !t[k].ack }

  predicate Before(a: Row, ka: Key, b: Row, kb: Key) {
    a.lastSent < b.lastSent || (a.lastSent == b.lastSent && ka.offset <= kb.offset)
  }

  function Keys(batch: seq<Pick>): set<Key> { set i | 0 <= i < |batch| :: batch[i].key }

  /** The query: the unacknowledged rows first in (last_sent, offset) order, at most 4096, shuffled. */
  ghost predicate IsBatch(t: Table, batch: seq<Pick>) {
    && (forall i :: 0 <= i < |batch| ==>
          batch[i].key in Unacked(t) && t[batch[i].key].hash == batch[i].hash
          && t[batch[i].key].lastSent == batch[i].lastSent)
    && (forall i, j :: 0 <= i < j < |batch| ==> batch[i].key != batch[j].key)
    && |batch| == (if |Unacked(t)| < BATCH then |Unacked(t)| else BATCH)
    && (forall i, k :: 0 <= i < |batch| && k in Unacked(t) && k !in Keys(batch) ==>
          Before(t[batch[i].key], batch[i].key, t[k], k))
  }

  predicate Cooling(lastSent: int, now: int) { lastSent > 0 && now - lastSent < COOLDOWN_MS }

  /** Unchanged since it was sent: version 0 is a round during the full sync. */
  function Confirm(t: Table, k: Key, version: nat, now: int): Table
    requires k in t
  {
    t[k := t[k].(ack := true, lastSent := now, version := if version > 0 then version else t[k].version)]
  }

  function Resend(t: Table, k: Key, seen: Seen, version: nat): Table
    requires seen.Live? && seen.fate.Queued?
  {
    t[k := Row(seen.size, seen.hash, false, seen.fate.sentAt, version)]
  }

  datatype Outcome = Outcome(table: Table, resent: set<Key>)

  /** The rest of a round, from the first block of batch on. */
  function Round(t: Table, batch: seq<Pick>, seen: seq<Seen>, version: nat, now: int): Outcome
    requires |seen| == |batch|
    decreases |batch|
  {
    if batch == [] || seen[0].Stopped? then Outcome(t, {})
    else
      var b, x := batch[0], seen[0];
      if Cooling(b.lastSent, now) then Round(t, batch[1..], seen[1..], version, now)
      else if x.Backlog? then Outcome(t, {})
      else if x.Unreadable? || b.key !in t then Round(t, batch[1..], seen[1..], version, now)
      else if x.hash == b.hash then
        Round(Confirm(t, b.key, version, now), batch[1..], seen[1..], version, now)
      else
        var touched := t[b.key := t[b.key].(lastSent := now)];
        match x.fate
        case Interrupted => Outcome(touched, {})
        case GaveUp => Round(touched, batch[1..], seen[1..], version, now)
        case Queued(_) =>
          var o := Round(Resend(touched, b.key, x, version), batch[1..], seen[1..], version, now);
          o.(resent := o.resent + {b.key})
  }

  // ---------- what a round keeps ----------

  /** Acknowledged rows stay so; versions only grow, and only up to the current one. */
  ghost predicate Grew(t: Table, t': Table, version: nat) {
    && t'.Keys == t.Keys
    && (forall k :: k in t ==> (t[k].ack ==> t'[k].ack) && t[k].version <= t'[k].version)
    && (forall k :: k in t ==> t'[k].version == t[k].version || t'[k].version == version)
  }

  /** Every version in use is at most v. */
  ghost predicate VersionsUpTo(t: Table, v: nat) { forall k :: k in t ==> t[k].version <= v }

  lemma GrewTwice(a: Table, b: Table, c: Table, version: nat)
    requires Grew(a, b, version) && Grew(b, c, version)
    ensures Grew(a, c, version)
  {}

  predicate AllUnacked(t: Table, batch: seq<Pick>) {
    && (forall i :: 0 <= i < |batch| ==> batch[i].key in t && !t[batch[i].key].ack)
    && (forall i, j :: 0 <= i < j < |batch| ==> batch[i].key != batch[j].key)
  }

  /** A change at the first key leaves the rest of the batch unacknowledged. */
  lemma RestUnacked(t: Table, r: Row, batch: seq<Pick>)
    requires batch != [] && AllUnacked(t, batch)
    ensures AllUnacked(t[batch[0].key := r], batch[1..]) && AllUnacked(t, batch[1..])
  {}

  lemma {:induction false} RoundGrows(t: Table, batch: seq<Pick>, seen: seq<Seen>, version: nat, now: int)
    requires |seen| == |batch| && AllUnacked(t, batch) && VersionsUpTo(t, version)
    ensures Grew(t, Round(t, batch, seen, version, now).table, version)
    ensures VersionsUpTo(Round(t, batch, seen, version, now).table, version)
    decreases |batch|
  {
    if batch != [] && !seen[0].Stopped? {
      var b, x := batch[0], seen[0];
      var t1 := Touched(t, b, x, version, now);
      TouchedGrows(t, b, x, version, now);
      RestUnacked(t, t1[b.key], batch);
      hide Grew, VersionsUpTo, AllUnacked, Confirm, Resend, Cooling;
      RoundGrows(t1, batch[1..], seen[1..], version, now);
      GrewTwice(t, t1, Round(t1, batch[1..], seen[1..], version, now).table, version);
    } else {
      SameGrew(t, version);
    }
  }

  lemma SameGrew(t: Table, version: nat)
    ensures Grew(t, t, version)
  {}

  lemma TouchedGrows(t: Table, b: Pick, x: Seen, version: nat, now: int)
    requires b.key in t && !t[b.key].ack && VersionsUpTo(t, version)
    ensures var t1 := Touched(t, b, x, version, now);
            Grew(t, t1, version) && VersionsUpTo(t1, version) && t1 == t[b.key := t1[b.key]]
  {}

  /** The table after the first block, when the round goes on. */
  function Touched(t: Table, b: Pick, x: Seen, version: nat, now: int): (t': Table)
    requires b.key in t
    ensures b.key in t'
  {
    if Cooling(b.lastSent, now) || !x.Live? then t
    else if x.hash == b.hash then Confirm(t, b.key, version, now)
    else
      var touched := t[b.key := t[b.key].(lastSent := now)];
      if x.fate.Queued? then Resend(touched, b.key, x, version) else touched
  }

  /** An unacknowledged row that carries the round's version, and did not before, was re-sent. */
  lemma {:induction false} MarkedIsResent(t: Table, batch: seq<Pick>, seen: seq<Seen>, version: nat, now: int, k: Key)
    requires |seen| == |batch| && AllUnacked(t, batch) && k in t && version > 0
    requires var o := Round(t, batch, seen, version, now); k in o.table && !o.table[k].ack
    ensures var o := Round(t, batch, seen, version, now);
            o.table[k].version == t[k].version || k in o.resent
    ensures k in Round(t, batch, seen, version, now).resent ==>
              Round(t, batch, seen, version, now).table[k].version == version
    decreases |batch|
  {
    if batch != [] && !seen[0].Stopped? {
      var b, x := batch[0], seen[0];
      var t1 := Touched(t, b, x, version, now);
      RestUnacked(t, t1[b.key], batch);
      assert t[b.key := t1[b.key]] == t1;
      if k == b.key {
        NotInBatch(t1, batch[1..], seen[1..], version, now, k);
      }
      if Cooling(b.lastSent, now) || x.Unreadable? || (x.Live? && (x.hash == b.hash || !x.fate.Interrupted?)) {
        MarkedIsResent(t1, batch[1..], seen[1..], version, now, k);
      }
    }
  }

  /** A round leaves rows outside its batch alone. */
  lemma {:induction false} NotInBatch(t: Table, batch: seq<Pick>, seen: seq<Seen>, version: nat, now: int, k: Key)
    requires |seen| == |batch| && AllUnacked(t, batch) && k in t
    requires forall i :: 0 <= i < |batch| ==> batch[i].key != k
    ensures var o := Round(t, batch, seen, version, now); k in o.table && o.table[k] == t[k] && k !in o.resent
    decreases |batch|
  {
    if batch != [] && !seen[0].Stopped? {
      var t1 := Touched(t, batch[0], seen[0], version, now);
      RestUnacked(t, t1[batch[0].key], batch);
      assert t[batch[0].key := t1[batch[0].key]] == t1;
      NotInBatch(t1, batch[1..], seen[1..], version, now, k);
    }
  }

  // ---------- what a round does to each row ----------

  /** The round ends at this block. */
  predicate Stops(b: Pick, x: Seen, now: int) {
    !Cooling(b.lastSent, now) && (x.Backlog? || (x.Live? && x.hash != b.hash && x.fate.Interrupted?))
  }

  predicate Resends(b: Pick, x: Seen, now: int) {
    !Cooling(b.lastSent, now) && x.Live? && x.hash != b.hash && x.fate.Queued?
  }

  /** No earlier block ended the round, and no shutdown came. */
  predicate Reaches(batch: seq<Pick>, seen: seq<Seen>, now: int, i: nat)
    requires i < |batch| == |seen|
  {
    && (forall j :: 0 <= j <= i ==> !seen[j].Stopped?)
    && (forall j :: 0 <= j < i ==> !Stops(batch[j], seen[j], now))
  }

  lemma ReachesNext(batch: seq<Pick>, seen: seq<Seen>, now: int, i: nat)
    requires 0 < i < |batch| == |seen|
    ensures Reaches(batch, seen, now, i) <==>
            !seen[0].Stopped? && !Stops(batch[0], seen[0], now) && Reaches(batch[1..], seen[1..], now, i - 1)
  {
    hide Stops;
    var bs, xs := batch[1..], seen[1..];
    if Reaches(bs, xs, now, i - 1) && !seen[0].Stopped? && !Stops(batch[0], seen[0], now) {
      forall j | 0 <= j <= i ensures !seen[j].Stopped? { if j > 0 { assert !xs[j - 1].Stopped?; } }
      forall j | 0 <= j < i ensures !Stops(batch[j], seen[j], now) {
        if j > 0 { assert !Stops(bs[j - 1], xs[j - 1], now); }
      }
    }
  }

  /** A round is its first block, then the rest. */
  lemma RoundUnfolds(t: Table, batch: seq<Pick>, seen: seq<Seen>, version: nat, now: int)
    requires batch != [] && |seen| == |batch| && batch[0].key in t
    ensures var b, x, o := batch[0], seen[0], Round(t, batch, seen, version, now);
            && (x.Stopped? ==> o == Outcome(t, {}))
            && (!x.Stopped? ==>
                  var t1 := Touched(t, b, x, version, now);
                  var rest := Round(t1, batch[1..], seen[1..], version, now);
                  if Stops(b, x, now) then o == Outcome(t1, {})
                  else o == Outcome(rest.table, rest.resent + if Resends(b, x, now) then {b.key} else {}))
  {
    var b, x := batch[0], seen[0];
    var rest := Round(Touched(t, b, x, version, now), batch[1..], seen[1..], version, now);
    assert rest.resent + {} == rest.resent;
  }

  /**
   * The row of the i-th block after a round, for every environment.  It is untouched if the round
   * does not reach it, if it was sent less than 121 s ago or cannot be read; acknowledged, with the
   * time and the version (one above 0), if the live hash is the stored one; recorded anew and
   * unacknowledged if the changed block was queued; and otherwise changed in its time only.  It
   * counts as re-sent exactly in the third case.
   */
  lemma {:induction false} RoundOutcome(t: Table, batch: seq<Pick>, seen: seq<Seen>, version: nat, now: int, i: nat)
    requires |seen| == |batch| && AllUnacked(t, batch) && i < |batch|
    ensures var o, b, x := Round(t, batch, seen, version, now), batch[i], seen[i];
            var examined := Reaches(batch, seen, now, i) && !(b.lastSent > 0 && now - b.lastSent < 121000) && x.Live?;
            && b.key in t && b.key in o.table
            && (b.key in o.resent <==> examined && x.hash != b.hash && x.fate.Queued?)
            && (!examined ==> o.table[b.key] == t[b.key])
            && (examined && x.hash == b.hash ==>
                  o.table[b.key] ==
                  Row(t[b.key].size, t[b.key].hash, true, now, if version > 0 then version else t[b.key].version))
            && (examined && x.hash != b.hash && x.fate.Queued? ==>
                  o.table[b.key] == Row(x.size, x.hash, false, x.fate.sentAt, version))
            && (examined && x.hash != b.hash && !x.fate.Queued? ==>
                  o.table[b.key] ==
                  Row(t[b.key].size, t[b.key].hash, t[b.key].ack, now, t[b.key].version))
    decreases |batch|
  {
    var b0, x0 := batch[0], seen[0];
    var t1 := Touched(t, b0, x0, version, now);
    assert t1 == t[b0.key := t1[b0.key]];
    RestUnacked(t, t1[b0.key], batch);
    RoundUnfolds(t, batch, seen, version, now);
    if i == 0 {
      FirstOutcome(t, batch, seen, version, now);
    } else {
      LaterOutcome(t, t1, batch, seen, version, now, i);
      RoundOutcome(t1, batch[1..], seen[1..], version, now, i - 1);
    }
  }

  lemma FirstOutcome(t: Table, batch: seq<Pick>, seen: seq<Seen>, version: nat, now: int)
    requires batch != [] && |seen| == |batch| && AllUnacked(t, batch)
    ensures var o, b, x := Round(t, batch, seen, version, now), batch[0], seen[0];
            && b.key in o.table
            && (b.key in o.resent <==> !x.Stopped? && Resends(b, x, now))
            && o.table[b.key] == if x.Stopped? then t[b.key] else Touched(t, b, x, version, now)[b.key]
  {
    var b, x := batch[0], seen[0];
    var t1 := Touched(t, b, x, version, now);
    assert t1 == t[b.key := t1[b.key]];
    RestUnacked(t, t1[b.key], batch);
    RoundUnfolds(t, batch, seen, version, now);
    hide Round, Touched, Resends;
    NotInBatch(t1, batch[1..], seen[1..], version, now, b.key);
  }

  /** What happens at a later block is what happens in the rest of the round, if there is one. */
  lemma LaterOutcome(t: Table, t1: Table, batch: seq<Pick>, seen: seq<Seen>, version: nat, now: int, i: nat)
    requires |seen| == |batch| && AllUnacked(t, batch) && 0 < i < |batch|
    requires t1 == Touched(t, batch[0], seen[0], version, now) && AllUnacked(t1, batch[1..])
    ensures var o, k := Round(t, batch, seen, version, now), batch[i].key;
            var on := !seen[0].Stopped? && !Stops(batch[0], seen[0], now);
            var rest := Round(t1, batch[1..], seen[1..], version, now);
            && k in t1 && t1[k] == t[k] && k in o.table
            && (Reaches(batch, seen, now, i) <==> on && Reaches(batch[1..], seen[1..], now, i - 1))
            && (on ==> k in rest.table && o.table[k] == rest.table[k] && (k in o.resent <==> k in rest.resent))
            && (!on ==> o.table[k] == t[k] && k !in o.resent)
  {
    var k := batch[i].key;
    assert batch[0].key != k && batch[1..][i - 1].key == k;
    ReachesNext(batch, seen, now, i);
    RoundUnfolds(t, batch, seen, version, now);
    KeyStays(t1, batch[1..], seen[1..], version, now, k);
    hide Round, Reaches, Stops, Resends;
  }

  lemma {:induction false} KeyStays(t: Table, batch: seq<Pick>, seen: seq<Seen>, version: nat, now: int, k: Key)
    requires |seen| == |batch| && AllUnacked(t, batch) && k in t
    ensures k in Round(t, batch, seen, version, now).table
    decreases |batch|
  {
    if batch != [] {
      var t1 := Touched(t, batch[0], seen[0], version, now);
      assert t1 == t[batch[0].key := t1[batch[0].key]];
      RestUnacked(t, t1[batch[0].key], batch);
      RoundUnfolds(t, batch, seen, version, now);
      hide Round, Touched;
      KeyStays(t1, batch[1..], seen[1..], version, now, k);
    }
  }

  // ---------- should_finish ----------

  function Stale(t: Table, version: nat): set<Key> {
    set k | k in t && !t[k].ack && (version > 0 ==> t[k].version < version)
  }

  function Threshold(total: nat): nat { if total / 20 < 512 then 512 else total / 20 }

  datatype Verdict = Verdict(finish: bool, zeroRounds: nat)

  function ShouldFinish(t: Table, resent: nat, version: nat, round: nat, zeroRounds: nat): Verdict {
    var unacked := |Stale(t, version)|;
    if unacked == 0 then Verdict(true, zeroRounds)
    else
      var zero := if resent == 0 then zeroRounds + 1 else 0;
      Verdict((zero >= CONVERGENCE_ZERO_ROUNDS && unacked <= Threshold(|t|)) || round >= MAX_INCREMENTAL_ROUNDS, zero)
  }

  // ---------- the loop ----------

  datatype Loop = Loop(table: Table, version: nat, round: nat, zeroRounds: nat)

  /** One timer round: batch and what it meets, the clock, and whether the end could be signalled. */
  datatype Env = Env(batch: seq<Pick>, seen: seq<Seen>, now: int, endSent: bool)

  ghost predicate Possible(l: Loop, e: Env) { |e.seen| == |e.batch| && IsBatch(l.table, e.batch) }

  function RoundOf(l: Loop, e: Env): Outcome
    requires |e.seen| == |e.batch|
  {
    Round(l.table, e.batch, e.seen, l.version, e.now)
  }

  function VerdictOf(l: Loop, e: Env): Verdict
    requires |e.seen| == |e.batch|
  {
    var o := RoundOf(l, e);
    ShouldFinish(o.table, |o.resent|, l.version, l.round + 1, l.zeroRounds)
  }

  /** A finished loop whose end marker could not be sent goes round again under the same version. */
  function Tick(l: Loop, e: Env): Loop
    requires |e.seen| == |e.batch|
  {
    var v := VerdictOf(l, e);
    Loop(RoundOf(l, e).table, if v.finish then l.version else l.version + 1, l.round + 1, v.zeroRounds)
  }

  ghost predicate Trace(loops: seq<Loop>, envs: seq<Env>) {
    && |loops| == |envs| + 1
    && forall i :: 0 <= i < |envs| ==> Possible(loops[i], envs[i]) && loops[i + 1] == Tick(loops[i], envs[i])
  }

  /** The version a loop starts with: one above the highest recorded one, or 1. */
  ghost function NextVersion(recorded: set<nat>): (v: nat)
    ensures forall r :: r in recorded ==> r < v
    ensures v >= 1 && (v == 1 || v - 1 in recorded)
    decreases |recorded|
  {
    if recorded == {} then 1
    else
      var r :| r in recorded;
      var v := NextVersion(recorded - {r});
      assert forall q :: q in recorded ==> q == r || q in recorded - {r};
      if r + 1 > v then r + 1 else v
  }

  /** All rows were last touched under versions recorded before the loop. */
  ghost predicate Begins(l: Loop, recorded: set<nat>) {
    && l.version == NextVersion(recorded) && l.zeroRounds == 0
    && forall k :: k in l.table ==> l.table[k].version == 0 || l.table[k].version in recorded
  }

  ghost predicate Fresh(l: Loop) { l.version > 0 && forall k :: k in l.table ==> l.table[k].version < l.version }

  lemma BeginsFresh(l: Loop, recorded: set<nat>)
    requires Begins(l, recorded)
    ensures Fresh(l)
  {}

  // ---------- the version log ----------

  /** What is recorded once the loop has reached loops[n]: each version it has run under. */
  function Logged(recorded: set<nat>, loops: seq<Loop>, n: nat): set<nat>
    requires n < |loops|
  {
    (if n == 0 then recorded else Logged(recorded, loops, n - 1)) + {loops[n].version}
  }

  /** The log knows every version a row carries, and its highest is the current one. */
  ghost predicate LogCovers(l: Loop, log: set<nat>) {
    && l.version in log && (forall v :: v in log ==> v <= l.version)
    && forall k :: k in l.table ==> l.table[k].version == 0 || l.table[k].version in log
  }

  lemma TickCovered(l: Loop, e: Env, log: set<nat>)
    requires LogCovers(l, log) && Running(l) && Possible(l, e)
    ensures LogCovers(Tick(l, e), log + {Tick(l, e).version})
  {
    hide Tick, IsBatch, VerdictOf;
    TickGrows(l, e);
  }

  lemma {:induction false} LogAlwaysCovers(recorded: set<nat>, loops: seq<Loop>, envs: seq<Env>, n: nat)
    requires Trace(loops, envs) && Begins(loops[0], recorded) && n <= |envs|
    ensures LogCovers(loops[n], Logged(recorded, loops, n))
  {
    if n > 0 {
      hide LogCovers, Tick, IsBatch, NextVersion;
      LogAlwaysCovers(recorded, loops, envs, n - 1);
      BeginsFresh(loops[0], recorded);
      AlwaysRunning(loops, envs, n - 1);
      assert Possible(loops[n - 1], envs[n - 1]) && loops[n] == Tick(loops[n - 1], envs[n - 1]);
      TickCovered(loops[n - 1], envs[n - 1], Logged(recorded, loops, n - 1));
    }
  }

  /**
   * However long a loop ran, the next one starts as this one did: one version up, with every row
   * below it.
   */
  lemma NextLoopBegins(recorded: set<nat>, loops: seq<Loop>, envs: seq<Env>, next: Loop)
    requires Trace(loops, envs) && Begins(loops[0], recorded)
    requires var log := Logged(recorded, loops, |envs|);
             next.table == loops[|envs|].table && next.version == NextVersion(log) && next.zeroRounds == 0
    ensures Begins(next, Logged(recorded, loops, |envs|)) && Fresh(next)
    ensures next.version == loops[|envs|].version + 1
  {
    LogAlwaysCovers(recorded, loops, envs, |envs|);
    var log := Logged(recorded, loops, |envs|);
    hide Logged, NextVersion;
    assert loops[|envs|].version in log;
    BeginsFresh(next, log);
  }

  /** Versions stay within the current one at every moment, and below it while unfinished. */
  ghost predicate Running(l: Loop) { l.version > 0 && VersionsUpTo(l.table, l.version) }

  lemma BatchUnacked(t: Table, batch: seq<Pick>)
    requires IsBatch(t, batch)
    ensures AllUnacked(t, batch)
  {}

  lemma TickGrows(l: Loop, e: Env)
    requires Running(l) && Possible(l, e)
    ensures Running(Tick(l, e)) && Grew(l.table, Tick(l, e).table, l.version)
    ensures l.version <= Tick(l, e).version
    ensures !VerdictOf(l, e).finish ==> Fresh(Tick(l, e))
  {
    BatchUnacked(l.table, e.batch);
    RoundGrows(l.table, e.batch, e.seen, l.version, e.now);
    hide Round, ShouldFinish, IsBatch, Grew, AllUnacked;
  }

  /**
   * Over the whole loop, whatever the live disk does: the acknowledged rows only grow in number,
   * no row's version ever decreases, and none exceeds the current version.
   */
  lemma {:induction false} LoopGrows(loops: seq<Loop>, envs: seq<Env>, i: nat, j: nat, k: Key)
    requires Trace(loops, envs) && Running(loops[0]) && i <= j <= |envs| && k in loops[i].table
    ensures Running(loops[j]) && Running(loops[i]) && k in loops[j].table
    ensures loops[i].table[k].ack ==> loops[j].table[k].ack
    ensures loops[i].table[k].version <= loops[j].table[k].version <= loops[j].version
    decreases j
  {
    if j > 0 {
      if i == j {
        AlwaysRunning(loops, envs, j);
      } else {
        LoopGrows(loops, envs, i, j - 1, k);
        assert loops[j] == Tick(loops[j - 1], envs[j - 1]) && Possible(loops[j - 1], envs[j - 1]);
        TickGrows(loops[j - 1], envs[j - 1]);
        hide Tick, Possible;
      }
    }
  }

  lemma {:induction false} AlwaysRunning(loops: seq<Loop>, envs: seq<Env>, i: nat)
    requires Trace(loops, envs) && Running(loops[0]) && i <= |envs|
    ensures Running(loops[i])
  {
    if i > 0 {
      AlwaysRunning(loops, envs, i - 1);
      assert loops[i] == Tick(loops[i - 1], envs[i - 1]) && Possible(loops[i - 1], envs[i - 1]);
      TickGrows(loops[i - 1], envs[i - 1]);
    }
  }

  // ---------- termination ----------

  lemma {:induction false} RoundsCounted(loops: seq<Loop>, envs: seq<Env>, i: nat)
    requires Trace(loops, envs) && i <= |envs|
    ensures loops[i].round == loops[0].round + i
  {
    if i > 0 {
      RoundsCounted(loops, envs, i - 1);
      assert loops[i] == Tick(loops[i - 1], envs[i - 1]);
    }
  }

  /** How many of the first i rounds ended with a no. */
  ghost function Continued(loops: seq<Loop>, envs: seq<Env>, i: nat): nat
    requires Trace(loops, envs) && i <= |envs|
  {
    if i == 0 then 0
    else
      assert Possible(loops[i - 1], envs[i - 1]);
      Continued(loops, envs, i - 1) + if VerdictOf(loops[i - 1], envs[i - 1]).finish then 0 else 1
  }

  /** The version moves on by one after each no, and stays after a yes that could not be signalled. */
  lemma {:induction false} VersionsCounted(loops: seq<Loop>, envs: seq<Env>, i: nat)
    requires Trace(loops, envs) && i <= |envs|
    ensures loops[i].version == loops[0].version + Continued(loops, envs, i)
  {
    if i > 0 {
      VersionsCounted(loops, envs, i - 1);
      assert Possible(loops[i - 1], envs[i - 1]) && loops[i] == Tick(loops[i - 1], envs[i - 1]);
    }
  }

  /** should_finish says yes no later than round max(1, 60 - r0), whatever happens. */
  lemma FinishesInTime(loops: seq<Loop>, envs: seq<Env>)
    requires Trace(loops, envs)
    requires |envs| >= 1 && |envs| >= 60 - loops[0].round
    ensures exists i :: 0 <= i < |envs| && (i == 0 || i + loops[0].round < 60) && VerdictOf(loops[i], envs[i]).finish
  {
    var r0 := loops[0].round;
    var i: nat := if r0 >= 59 then 0 else 59 - r0;
    RoundsCounted(loops, envs, i);
    assert Possible(loops[i], envs[i]);
    assert VerdictOf(loops[i], envs[i]).finish;
  }

  // ---------- what finishing means ----------

  /** How many rounds at the end of the list re-sent nothing. */
  function Trailing(resent: seq<nat>): nat {
    if resent == [] || resent[|resent| - 1] != 0 then 0 else 1 + Trailing(resent[..|resent| - 1])
  }

  ghost function ResentCounts(loops: seq<Loop>, envs: seq<Env>, n: nat): (c: seq<nat>)
    requires Trace(loops, envs) && n <= |envs|
    ensures |c| == n
  {
    if n == 0 then []
    else
      assert Possible(loops[n - 1], envs[n - 1]);
      ResentCounts(loops, envs, n - 1) + [|RoundOf(loops[n - 1], envs[n - 1]).resent|]
  }

  ghost predicate Unfinished(loops: seq<Loop>, envs: seq<Env>, n: nat)
    requires Trace(loops, envs) && n <= |envs|
  {
    forall i :: 0 <= i < n ==> Possible(loops[i], envs[i]) && !VerdictOf(loops[i], envs[i]).finish
  }

  lemma {:induction false} ZeroRoundsCounted(loops: seq<Loop>, envs: seq<Env>, n: nat)
    requires Trace(loops, envs) && n <= |envs| && Unfinished(loops, envs, n) && loops[0].zeroRounds == 0
    ensures loops[n].zeroRounds == Trailing(ResentCounts(loops, envs, n))
  {
    if n > 0 {
      ZeroRoundsCounted(loops, envs, n - 1);
      assert Possible(loops[n - 1], envs[n - 1]) && !VerdictOf(loops[n - 1], envs[n - 1]).finish;
      var c := ResentCounts(loops, envs, n - 1);
      assert ResentCounts(loops, envs, n)[..n - 1] == c;
    }
  }

  /**
   * Exactly when the first yes comes, over every run: every row is acknowledged or was re-sent in
   * this very round; or the last three rounds at least re-sent nothing and the unacknowledged rows
   * of earlier versions are at most 512 or a twentieth of all; or it is round 60.
   */
  lemma FinishIff(loops: seq<Loop>, envs: seq<Env>, n: nat)
    requires Trace(loops, envs) && n < |envs| && Unfinished(loops, envs, n)
    requires loops[0].zeroRounds == 0 && Fresh(loops[0])
    ensures Possible(loops[n], envs[n])
    ensures var o, v := RoundOf(loops[n], envs[n]), loops[n].version;
            VerdictOf(loops[n], envs[n]).finish <==>
            || (forall k :: k in o.table ==> o.table[k].ack || k in o.resent)
            || (&& Trailing(ResentCounts(loops, envs, n + 1)) >= 3
                && var late := |set k | k in o.table && !o.table[k].ack && o.table[k].version < v|;
                   late <= 512 || late <= |o.table| / 20)
            || loops[0].round + n + 1 >= 60
  {
    assert Possible(loops[n], envs[n]);
    StaysFresh(loops, envs, n);
    ZeroRoundsCounted(loops, envs, n);
    RoundsCounted(loops, envs, n);
    var l, e, c := loops[n], envs[n], ResentCounts(loops, envs, n);
    assert ResentCounts(loops, envs, n + 1) == c + [|RoundOf(l, e).resent|];
    assert (c + [|RoundOf(l, e).resent|])[..n] == c;
    PerfectIff(l, e);
    hide Round, IsBatch;
    var o := RoundOf(l, e);
    assert Stale(o.table, l.version) == set k | k in o.table && !o.table[k].ack && o.table[k].version < l.version;
  }

  lemma {:induction false} StaysFresh(loops: seq<Loop>, envs: seq<Env>, n: nat)
    requires Trace(loops, envs) && n <= |envs| && Unfinished(loops, envs, n) && Fresh(loops[0])
    ensures Fresh(loops[n])
  {
    if n > 0 {
      StaysFresh(loops, envs, n - 1);
      assert Possible(loops[n - 1], envs[n - 1]) && !VerdictOf(loops[n - 1], envs[n - 1]).finish;
      TickGrows(loops[n - 1], envs[n - 1]);
    }
  }

  /** No stale row left: each is acknowledged, or carries the version it was re-sent under just now. */
  lemma PerfectIff(l: Loop, e: Env)
    requires Fresh(l) && Possible(l, e)
    ensures var o := RoundOf(l, e);
            |Stale(o.table, l.version)| == 0 <==> forall k :: k in o.table ==> o.table[k].ack || k in o.resent
  {
    var o := RoundOf(l, e);
    BatchUnacked(l.table, e.batch);
    RoundGrows(l.table, e.batch, e.seen, l.version, e.now);
    forall k | k in o.table
      ensures k in Stale(o.table, l.version) <==> !(o.table[k].ack || k in o.resent)
    {
      if !o.table[k].ack { MarkedIsResent(l.table, e.batch, e.seen, l.version, e.now, k); }
    }
    if |Stale(o.table, l.version)| != 0 {
      var k :| k in Stale(o.table, l.version);
    }
  }

  // ---------- progress on a quiet disk ----------

  /** Nothing changed since it was sent, everything can be read, nothing is cooling down. */
  predicate QuietEnv(e: Env) {
    forall i :: 0 <= i < |e.batch| && i < |e.seen| ==>
      e.seen[i].Live? && e.seen[i].hash == e.batch[i].hash && !Cooling(e.batch[i].lastSent, e.now)
  }

  lemma {:induction false} QuietRound(t: Table, batch: seq<Pick>, seen: seq<Seen>, version: nat, now: int)
    requires |seen| == |batch| && AllUnacked(t, batch)
    requires forall i :: 0 <= i < |batch| ==>
               seen[i].Live? && seen[i].hash == batch[i].hash && !Cooling(batch[i].lastSent, now)
    ensures var o := Round(t, batch, seen, version, now);
            o.resent == {} && Unacked(o.table) == Unacked(t) - Keys(batch)
    decreases |batch|
  {
    if batch == [] {
      assert Unacked(t) - Keys(batch) == Unacked(t);
    } else {
      var t1 := Confirm(t, batch[0].key, version, now);
      RestUnacked(t, t1[batch[0].key], batch);
      QuietRound(t1, batch[1..], seen[1..], version, now);
      assert Unacked(t1) == Unacked(t) - {batch[0].key};
      KeysSplit(batch);
    }
  }

  lemma KeysSplit(batch: seq<Pick>)
    requires batch != []
    ensures Keys(batch) == {batch[0].key} + Keys(batch[1..])
  {
    forall k | k in Keys(batch)
      ensures k in {batch[0].key} + Keys(batch[1..])
    {
      var i :| 0 <= i < |batch| && batch[i].key == k;
      if i > 0 { assert batch[1..][i - 1].key == k; }
    }
    forall k | k in Keys(batch[1..])
      ensures k in Keys(batch)
    {
      var i :| 0 <= i < |batch[1..]| && batch[1..][i].key == k;
      assert batch[i + 1].key == k;
    }
    assert batch[0].key in Keys(batch);
  }

  lemma {:induction false} DistinctKeys(batch: seq<Pick>)
    requires forall i, j :: 0 <= i < j < |batch| ==> batch[i].key != batch[j].key
    ensures |Keys(batch)| == |batch|
  {
    if batch != [] {
      KeysSplit(batch);
      DistinctKeys(batch[1..]);
      assert batch[0].key !in Keys(batch[1..]);
    }
  }

  /** The rows still unacknowledged after a quiet round are as they were. */
  lemma QuietTick(l: Loop, e: Env)
    requires Fresh(l) && Possible(l, e) && QuietEnv(e)
    ensures RoundOf(l, e).resent == {}
    ensures |Unacked(Tick(l, e).table)| == if |Unacked(l.table)| <= BATCH then 0 else |Unacked(l.table)| - BATCH
    ensures |Unacked(l.table)| <= BATCH ==> VerdictOf(l, e).finish
    ensures forall k :: k in Unacked(Tick(l, e).table) ==> k in Unacked(l.table) && Tick(l, e).table[k] == l.table[k]
  {
    BatchUnacked(l.table, e.batch);
    QuietRound(l.table, e.batch, e.seen, l.version, e.now);
    DistinctKeys(e.batch);
    var t' := RoundOf(l, e).table;
    assert Keys(e.batch) <= Unacked(l.table);
    if |Unacked(l.table)| <= BATCH {
      assert |Unacked(l.table) - Keys(e.batch)| == 0;
      assert Stale(t', l.version) <= Unacked(t');
    }
    forall k | k in Unacked(t')
      ensures k in Unacked(l.table) && t'[k] == l.table[k]
    {
      NotInBatch(l.table, e.batch, e.seen, l.version, e.now, k);
    }
  }

  /** Every unacknowledged row has the live block's hash and is not cooling down. */
  ghost predicate Settled(t: Table, live: Key -> int, now: int) {
    forall k :: k in Unacked(t) ==> t[k].hash == live(k) && !Cooling(t[k].lastSent, now)
  }

  /** Every block of the batch could be read, from this disk. */
  ghost predicate ReadsFrom(e: Env, live: Key -> int) {
    forall i :: 0 <= i < |e.batch| && i < |e.seen| ==>
      e.seen[i].Live? && e.seen[i].hash == live(e.batch[i].key)
  }

  lemma SettledIsQuiet(l: Loop, e: Env, live: Key -> int)
    requires Possible(l, e) && Settled(l.table, live, e.now) && ReadsFrom(e, live)
    ensures QuietEnv(e)
  {
    forall i | 0 <= i < |e.batch|
      ensures e.seen[i].Live? && e.seen[i].hash == e.batch[i].hash && !Cooling(e.batch[i].lastSent, e.now)
    {
      assert e.batch[i].key in Unacked(l.table);
    }
  }

  /**
   * If at the start every unacknowledged row has the hash of a disk that then no longer changes,
   * and none is cooling down, a loop with U unacknowledged rows re-sends nothing and finishes
   * within max(1, ceil(U / 4096)) rounds.
   */
  lemma {:induction false} QuietLoopFinishes(loops: seq<Loop>, envs: seq<Env>, live: Key -> int)
    requires Trace(loops, envs) && Fresh(loops[0])
    requires |envs| >= 1 && 4096 * |envs| >= |Unacked(loops[0].table)|
    requires Settled(loops[0].table, live, envs[0].now)
    requires forall i :: 0 <= i < |envs| ==> ReadsFrom(envs[i], live)
    requires forall i, j :: 0 <= i < j < |envs| ==> envs[i].now <= envs[j].now
    ensures exists i :: 0 <= i < |envs| && QuietUntil(loops, envs, i)
    decreases |envs|
  {
    hide IsBatch, VerdictOf, RoundOf, Settled, ReadsFrom, QuietEnv, Unacked;
    var l, e := loops[0], envs[0];
    assert Possible(l, e) && loops[1] == Tick(l, e) && ReadsFrom(e, live);
    SettledIsQuiet(l, e, live);
    QuietTick(l, e);
    if VerdictOf(l, e).finish {
      assert QuietUntil(loops, envs, 0);
    } else {
      TickGrows(l, e);
      var ls, es := loops[1..], envs[1..];
      TraceTail(loops, envs);
      StillSettled(l.table, ls[0].table, live, e.now, es[0].now);
      forall i | 0 <= i < |es| ensures ReadsFrom(es[i], live) { assert ReadsFrom(envs[i + 1], live); }
      QuietLoopFinishes(ls, es, live);
      var i :| 0 <= i < |es| && QuietUntil(ls, es, i);
      OneLater(loops, envs, i);
    }
  }

  /** Round i is the verdict's, and no round so far re-sent anything. */
  ghost predicate QuietUntil(loops: seq<Loop>, envs: seq<Env>, i: nat)
    requires Trace(loops, envs) && i < |envs|
  {
    && Possible(loops[i], envs[i]) && VerdictOf(loops[i], envs[i]).finish
    && forall j :: 0 <= j <= i ==> Possible(loops[j], envs[j]) && RoundOf(loops[j], envs[j]).resent == {}
  }

  lemma OneLater(loops: seq<Loop>, envs: seq<Env>, i: nat)
    requires Trace(loops, envs) && i + 1 < |envs| && RoundOf(loops[0], envs[0]).resent == {}
    requires Trace(loops[1..], envs[1..]) && QuietUntil(loops[1..], envs[1..], i)
    ensures QuietUntil(loops, envs, i + 1)
  {
    hide IsBatch, Tick, VerdictOf, RoundOf;
    var ls, es := loops[1..], envs[1..];
    forall j | 0 <= j <= i + 1
      ensures Possible(loops[j], envs[j]) && RoundOf(loops[j], envs[j]).resent == {}
    {
      if j > 0 { assert RoundOf(ls[j - 1], es[j - 1]).resent == {}; }
    }
  }

  lemma TraceTail(loops: seq<Loop>, envs: seq<Env>)
    requires Trace(loops, envs) && envs != []
    ensures Trace(loops[1..], envs[1..])
  {
    hide Tick, IsBatch;
    var ls, es := loops[1..], envs[1..];
    forall i | 0 <= i < |es|
      ensures Possible(ls[i], es[i]) && ls[i + 1] == Tick(ls[i], es[i])
    {
      assert Possible(loops[i + 1], envs[i + 1]) && loops[i + 2] == Tick(loops[i + 1], envs[i + 1]);
    }
  }

  lemma StillSettled(t: Table, t': Table, live: Key -> int, now: int, now': int)
    requires Settled(t, live, now) && now <= now'
    requires forall k :: k in Unacked(t') ==> k in Unacked(t) && t'[k] == t[k]
    ensures Settled(t', live, now')
  {}
}
