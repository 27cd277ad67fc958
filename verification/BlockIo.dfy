/** Cutting a disk into blocks: how many there are, what each read returns, where they lie. */
module BlockIo {
  import opened Bytes
  import opened Protocol
  import opened IncSync

  /** Ceiling division; a block size of zero counts as no blocks. */
  function BlockCount(total: nat, blockSize: nat): nat {
    if blockSize == 0 then 0
    else total / blockSize + if total % blockSize != 0 then 1 else 0
  }

  function Min(a: nat, b: nat): nat { if a < b then a else b }

  /** The clamp wraps for an offset past the end; the read then finds nothing there anyway. */
  function ReadAt(disk: seq<byte>, offset: nat, size: nat): seq<byte> {
    var toRead := Min(size, (|disk| - offset) % 0x1_0000_0000_0000_0000);
    if offset >= |disk| then [] else disk[offset..Min(offset + toRead, |disk|)]
  }

  /** Blocks 0 to n-1, one after the other. */
  function ReadBlocks(disk: seq<byte>, n: nat): seq<byte> {
    if n == 0 then [] else ReadBlocks(disk, n - 1) + ReadAt(disk, (n - 1) * BLOCK_SIZE, BLOCK_SIZE)
  }

  lemma ReadInside(disk: seq<byte>, blk: nat)
    requires |disk| < 0x1_0000_0000_0000_0000
    ensures var o := blk * BLOCK_SIZE;
            ReadAt(disk, o, BLOCK_SIZE) == if o >= |disk| then [] else disk[o..Min(o + BLOCK_SIZE, |disk|)]
  {}

  lemma {:induction false} ReadPrefix(disk: seq<byte>, n: nat)
    requires |disk| < 0x1_0000_0000_0000_0000
    ensures ReadBlocks(disk, n) == disk[..Min(n * BLOCK_SIZE, |disk|)]
  {
    if n > 0 {
      ReadPrefix(disk, n - 1);
      ReadInside(disk, n - 1);
      var o := (n - 1) * BLOCK_SIZE;
      assert n * BLOCK_SIZE == o + BLOCK_SIZE;
      if o < |disk| {
        var end := Min(o + BLOCK_SIZE, |disk|);
        assert disk[..end] == disk[..o] + disk[o..end];
      }
    }
  }

  /**
   * Reading the counted blocks in order reproduces the disk, none of them is empty, and no
   * smaller number of blocks would do.
   */
  lemma BlocksCoverDisk(disk: seq<byte>)
    requires |disk| < 0x1_0000_0000_0000_0000
    ensures var n := BlockCount(|disk|, BLOCK_SIZE);
            && ReadBlocks(disk, n) == disk
            && (forall i: nat :: i < n ==> ReadAt(disk, i * BLOCK_SIZE, BLOCK_SIZE) != [])
            && (forall m: nat :: m < n ==> ReadBlocks(disk, m) != disk)
  {
    var n := BlockCount(|disk|, BLOCK_SIZE);
    ReadPrefix(disk, n);
    assert disk[..|disk|] == disk;
    forall i: nat | i < n
      ensures ReadAt(disk, i * BLOCK_SIZE, BLOCK_SIZE) != [] && ReadBlocks(disk, i) != disk
    {
      ReadInside(disk, i);
      ReadPrefix(disk, i);
    }
  }

  // ---------- where the blocks of several volumes lie ----------

  datatype Volume = Volume(devno: int, base: nat, blocks: nat)

  predicate IsBlockOf(v: Volume, k: Key) {
    && k.devno == v.devno && v.base <= k.offset < v.base + v.blocks * BLOCK_SIZE
    && (k.offset - v.base) % BLOCK_SIZE == 0
  }

  /** Volumes rounded up to whole blocks do not overlap. */
  predicate Separate(vols: seq<Volume>) {
    forall i, j :: 0 <= i < j < |vols| && vols[i].devno == vols[j].devno ==>
      || vols[i].base + vols[i].blocks * BLOCK_SIZE <= vols[j].base
      || vols[j].base + vols[j].blocks * BLOCK_SIZE <= vols[i].base
  }

  /** Then every block has its own megabyte of target, as an incremental pass needs. */
  lemma SeparateVolumesGiveLayout(vols: seq<Volume>, p: Pass)
    requires Separate(vols)
    requires forall k :: k in p.extent ==>
               p.extent[k] == BLOCK_SIZE && exists i :: 0 <= i < |vols| && IsBlockOf(vols[i], k)
    requires forall k :: k in p.source ==> k in p.extent && |p.source[k]| <= BLOCK_SIZE
    ensures Layout(p)
  {
    forall a, b | a in p.extent && b in p.extent && a != b && a.devno == b.devno
      ensures a.offset + BLOCK_SIZE <= b.offset || b.offset + BLOCK_SIZE <= a.offset
    {
      var i :| 0 <= i < |vols| && IsBlockOf(vols[i], a);
      var j :| 0 <= j < |vols| && IsBlockOf(vols[j], b);
      BlockInside(vols[i], a);
      BlockInside(vols[j], b);
      if i == j { SameGrid(a.offset - vols[i].base, b.offset - vols[i].base); }
    }
  }

  lemma BlockInside(v: Volume, k: Key)
    requires IsBlockOf(v, k)
    ensures k.offset + BLOCK_SIZE <= v.base + v.blocks * BLOCK_SIZE
  {}

  lemma SameGrid(x: nat, y: nat)
    requires x % BLOCK_SIZE == 0 && y % BLOCK_SIZE == 0 && x != y
    ensures x + BLOCK_SIZE <= y || y + BLOCK_SIZE <= x
  {}
}
