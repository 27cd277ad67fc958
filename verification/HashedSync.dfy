/** Incremental passes under the real block hash: which source changes reach the target. */
module HashedSync {
  import opened Bytes
  import opened BlockHash
  import opened Words
  import opened IncSync
  import opened IncSyncRuns
  import opened LossyRuns

  /** The seed is the low 32 bits of the block's disk offset. */
  function SeedOf(k: Key): u64 { k.offset % 0x1_0000_0000 }

  ghost predicate UsesBlockHash(p: Pass) {
    forall k: Key, d: seq<byte> :: p.hash(k, d) == Hash(d, SeedOf(k))
  }

  /**
   * The seed is the block's offset modulo 4 GB and nothing else: blocks any multiple of 4 GB apart,
   * on any disks, hash alike, and the shortest ones tell all other offsets apart.
   */
  lemma SeedsRepeat(p: Pass, a: Key, b: Key, d: seq<byte>)
    requires UsesBlockHash(p) && a.offset >= 0 && b.offset >= 0
    ensures (a.offset - b.offset) % 0x1_0000_0000 == 0 ==> p.hash(a, d) == p.hash(b, d)
    ensures |d| < 32 ==> (p.hash(a, d) == p.hash(b, d) <==> (a.offset - b.offset) % 0x1_0000_0000 == 0)
  {
    assert p.hash(a, d) == Hash(d, SeedOf(a)) && p.hash(b, d) == Hash(d, SeedOf(b));
    if |d| < 32 { ShortHash(d, d, SeedOf(a), SeedOf(b)); SmallWrap(SeedOf(a) - SeedOf(b)); }
    hide Hash;
    SameSeed(a, b);
  }

  lemma SameSeed(a: Key, b: Key)
    ensures (a.offset - b.offset) % 0x1_0000_0000 == 0 <==> SeedOf(a) == SeedOf(b)
  {}

  lemma SmallWrap(x: int)
    requires -0x1_0000_0000 < x < 0x1_0000_0000
    ensures Wrap(x) == 0 <==> x == 0
  {}

  /** The source differs from the target's copy of block k in octet q only. */
  ghost predicate OneOctetOff(p: Pass, s: State, k: Key, q: nat)
    requires k in p.source
  {
    var t := TargetBlock(s.target, k, |p.source[k]|);
    && q < |t| && t[q] != p.source[k][q]
    && forall i :: 0 <= i < |t| && i != q ==> t[i] == p.source[k][i]
  }

  /** After the last stripe, or only the top bit of the last octet of a word. */
  predicate Blind(len: nat, q: nat, was: byte, is': byte) {
    q >= 32 * Stripes(len) || (q % 8 == 7 && was % 128 == is' % 128)
  }

  /**
   * A change of one octet in a tracked block is sent by the next pass exactly if it lies where
   * the hash looks: otherwise the block is marked verified and never queued.
   */
  lemma ChangeSentIff(p: Pass, s: State, k: Key, q: nat)
    requires UsesBlockHash(p) && s.phase.Idle? && k !in s.visited && k in p.source
    requires k in s.table && RowMatches(p, s, k) && s.table[k].size == |p.source[k]|
    requires OneOctetOff(p, s, k, q)
    ensures var t := TargetBlock(s.target, k, |p.source[k]|);
            && (Enabled(p, s, Begin(k)) <==> !Blind(|t|, q, t[q], p.source[k][q]))
            && (Enabled(p, s, Verify(k)) <==> Blind(|t|, q, t[q], p.source[k][q]))
  {
    hide Hash, Stripes;
    var t := TargetBlock(s.target, k, |p.source[k]|);
    ByteCollision(t, p.source[k], SeedOf(k), q);
    assert p.hash(k, t) == Hash(t, SeedOf(k)) && p.hash(k, p.source[k]) == Hash(p.source[k], SeedOf(k));
  }

  /**
   * What "synced" leaves open: a block that a completed pass reports synced can still differ from
   * its source in one octet only where the hash is blind.
   */
  lemma SyncedUpToBlindSpots(p: Pass, s: State, k: Key, q: nat)
    requires UsesBlockHash(p) && Synced(p, s, k) && s.table[k].size == |p.source[k]|
    requires OneOctetOff(p, s, k, q)
    ensures var t := TargetBlock(s.target, k, |p.source[k]|); Blind(|t|, q, t[q], p.source[k][q])
  {
    hide Hash, Stripes;
    var t := TargetBlock(s.target, k, |p.source[k]|);
    ByteCollision(t, p.source[k], SeedOf(k), q);
    assert p.hash(k, t) == Hash(t, SeedOf(k)) && p.hash(k, p.source[k]) == Hash(p.source[k], SeedOf(k));
  }

  /**
   * Loss is not repaired by running again: whenever one octet of a tracked block changed outside
   * the blind spots, its frame may be dropped after queueing, and the next pass then calls the
   * block verified while the target still holds the old octet.
   */
  lemma DropThenVerified(p: Pass, s0: State, k: Key, q: nat) returns (states: seq<State>, steps: seq<Step>, t: State)
    requires UsesBlockHash(p) && Start(p, s0) && k in p.source
    requires k in s0.table && s0.table[k].size == |p.source[k]| && OneOctetOff(p, s0, k, q)
    requires var was := TargetBlock(s0.target, k, |p.source[k]|); !Blind(|was|, q, was[q], p.source[k][q])
    ensures Trace(p, states, steps) && states[0] == s0 && Quiet(states[|steps|])
    ensures t == states[|steps|].(visited := {}, changed := {}) && Fresh(p, t)
    ensures Enabled(p, t, Verify(k))
    ensures var u := Next(p, t, Verify(k));
            u.table[k].ack && !RowMatches(p, u, k) && OneOctetOff(p, u, k, q)
  {
    hide Hash, Stripes, TargetBlock, Layout;
    ChangeSentIff(p, s0, k, q);
    assert RowMatches(p, s0, k);
    states, steps, t := LossNotRepaired(p, s0, k);
  }

  /** There are such passes: a zeroed block of 64 octets whose first octet became 1. */
  lemma VisibleChange() returns (p: Pass, s0: State, k: Key)
    ensures UsesBlockHash(p) && Start(p, s0) && k in p.source && k in s0.table
    ensures s0.table[k].size == |p.source[k]| == 64 && OneOctetOff(p, s0, k, 0)
    ensures var was := TargetBlock(s0.target, k, 64); !Blind(|was|, 0, was[0], p.source[k][0])
  {
    hide Hash;
    k := Key(0, 0);
    var was := TargetBlock(map[], k, 64);
    p := Pass(map[k := 64], (k: Key, d: seq<byte>) => Hash(d, SeedOf(k)), map[k := was[0 := 1]], 2, 5);
    s0 := State(map[k := Row(64, Hash(was, SeedOf(k)), true, 0, 1)], [], [Conn([], [])], map[], Idle, {}, {}, {}, map[]);
  }
}
