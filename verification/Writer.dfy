/** The growing buffer behind the encoder, updated in place. */
module Writer {
  import opened Bytes
  import opened MsgPack

  const INITIAL_CAP := 0x2000
  const SIZE_MAX_PLUS_1 := 0x1_0000_0000_0000_0000

  /**
   * The doubling loop, in size_t arithmetic.  Doubling 2^63 would wrap to zero and never end,
   * which the bound on the total need rules out.
   */
  method GrownCapacity(capacity: nat, written: nat, need: nat) returns (newCap: nat)
    requires written <= capacity < 0x8000_0000_0000_0000
    requires written + need <= 0x8000_0000_0000_0000
    ensures written + need <= newCap < SIZE_MAX_PLUS_1
    ensures newCap == 8192 || newCap <= 2 * capacity || newCap <= 2 * (written + need)
  {
    newCap := if capacity > 0 then capacity * 2 % SIZE_MAX_PLUS_1 else INITIAL_CAP;
    while written + need > newCap
      invariant 0 < newCap < SIZE_MAX_PLUS_1
      invariant newCap == INITIAL_CAP || newCap <= 2 * capacity || newCap <= 2 * (written + need)
      decreases SIZE_MAX_PLUS_1 - newCap
    {
      newCap := newCap * 2 % SIZE_MAX_PLUS_1;
      if newCap > 0x8000_0000_0000_0000 {
        newCap := written + need;
        break;
      }
    }
  }

  // ---------- when the doubling loop ends ----------

  /** The capacity after n doublings in size_t arithmetic. */
  function Doubled(c: nat, n: nat): nat
    decreases n
  {
    if n == 0 then c else Doubled(c * 2 % SIZE_MAX_PLUS_1, n - 1)
  }

  predicate PowerOfTwo(c: nat) { c == 1 || (c > 0 && c % 2 == 0 && PowerOfTwo(c / 2)) }

  /** Enough room, or the overflow test stops the loop. */
  predicate Enough(c: nat, total: nat) { c >= total || c > 0x8000_0000_0000_0000 }

  /** The loop entered with capacity c stops after n doublings; the overflow test follows a doubling. */
  predicate EndsAfter(c: nat, total: nat, n: nat) {
    if n == 0 then c >= total else Enough(Doubled(c, n), total)
  }

  lemma {:induction false} OddPartSurvives(c: nat, total: nat) returns (n: nat)
    requires 0 < c <= 0x8000_0000_0000_0000 && (!PowerOfTwo(c) || total <= 0x8000_0000_0000_0000)
    ensures Enough(Doubled(c, n), total)
    decreases 0x8000_0000_0000_0000 - c
  {
    if Enough(c, total) {
      n := 0;
    } else if c * 2 > 0x8000_0000_0000_0000 {
      if c == 0x8000_0000_0000_0000 { TopIsPowerOfTwo(); }
      n := 1;
      assert Doubled(c, 1) == Doubled(c * 2, 0);
    } else {
      var m := OddPartSurvives(c * 2, total);
      n := m + 1;
    }
  }

  lemma {:induction false} PowersWrapToZero(c: nat, total: nat, n: nat)
    requires (c == 0 || PowerOfTwo(c)) && c <= 0x8000_0000_0000_0000 < total
    ensures !Enough(Doubled(c, n), total)
    decreases n
  {
    if n > 0 {
      if c < 0x8000_0000_0000_0000 && c > 0 { DoubleOfPower(c); }
      PowersWrapToZero(c * 2 % SIZE_MAX_PLUS_1, total, n - 1);
    }
  }

  /** 2 c is a power of two no larger than 2^63 when c is one below 2^63. */
  lemma {:induction false} DoubleOfPower(c: nat)
    requires PowerOfTwo(c) && c < 0x8000_0000_0000_0000
    ensures PowerOfTwo(2 * c) && 2 * c <= 0x8000_0000_0000_0000
  {
    hide PowerOfTwo;
    Twice(c);
    TopIsPowerOfTwo();
    PowersBelow(c, 0x8000_0000_0000_0000);
  }

  lemma {:induction false} PowersBelow(c: nat, d: nat)
    requires PowerOfTwo(c) && PowerOfTwo(d) && c < d
    ensures 2 * c <= d
  {
    if c > 1 { PowersBelow(c / 2, d / 2); }
  }

  lemma One()
    ensures PowerOfTwo(1)
  {}

  lemma Twice(c: nat)
    requires PowerOfTwo(c)
    ensures PowerOfTwo(2 * c)
  {
    assert 2 * c / 2 == c;
  }

  lemma Times256(c: nat)
    requires PowerOfTwo(c)
    ensures PowerOfTwo(256 * c)
  {
    hide PowerOfTwo;
    Twice(c); Twice(2 * c); Twice(4 * c); Twice(8 * c);
    Twice(16 * c); Twice(32 * c); Twice(64 * c); Twice(128 * c);
  }

  lemma TopIsPowerOfTwo()
    ensures PowerOfTwo(0x8000_0000_0000_0000)
  {
    hide PowerOfTwo;
    One(); Twice(1); Twice(2); Twice(4); Twice(8); Twice(16); Twice(32); Twice(64);
    Times256(0x80); Times256(0x8000); Times256(0x80_0000); Times256(0x8000_0000);
    Times256(0x80_0000_0000); Times256(0x8000_0000_0000); Times256(0x80_0000_0000_0000);
  }

  lemma HalfOfPower(c: nat)
    ensures PowerOfTwo(2 * c) <==> PowerOfTwo(c)
  {
    assert 2 * c / 2 == c;
  }

  /** The top bit is shifted out by the first doubling. */
  lemma FirstDoubling(c: nat, n: nat)
    requires c < SIZE_MAX_PLUS_1 && n > 0
    ensures Doubled(c, n) == Doubled(2 * (c % 0x8000_0000_0000_0000), n - 1)
  {
    assert c * 2 % SIZE_MAX_PLUS_1 == 2 * (c % 0x8000_0000_0000_0000);
  }

  /**
   * Exactly when the doubling loop entered with any size_t value c ends: there is room already, or
   * below its top bit c is neither zero nor - for a need above 2^63 - a power of two.  From a power
   * of two, as every capacity grown from 8 KB is, a larger need wraps to zero and loops.
   */
  lemma GrowthEndsIff(c: nat, total: nat)
    requires c < SIZE_MAX_PLUS_1
    ensures var low := c % 0x8000_0000_0000_0000;
            (exists n: nat :: EndsAfter(c, total, n)) <==>
            c >= total || (low != 0 && (total <= 0x8000_0000_0000_0000 || !PowerOfTwo(low)))
  {
    hide PowerOfTwo, Doubled;
    var low := c % 0x8000_0000_0000_0000;
    HalfOfPower(low);
    if c >= total {
      assert EndsAfter(c, total, 0);
    } else if low != 0 && (total <= 0x8000_0000_0000_0000 || !PowerOfTwo(low)) {
      var n := SurvivesFrom(2 * low, total);
      FirstDoubling(c, n + 1);
      assert EndsAfter(c, total, n + 1);
    } else {
      forall n: nat
        ensures !EndsAfter(c, total, n)
      {
        if n > 0 { FirstDoubling(c, n); NeverEnough(low, total, n - 1); }
      }
    }
  }

  lemma SurvivesFrom(c: nat, total: nat) returns (n: nat)
    requires 0 < c < SIZE_MAX_PLUS_1 && (!PowerOfTwo(c) || total <= 0x8000_0000_0000_0000)
    ensures Enough(Doubled(c, n), total)
  {
    if c > 0x8000_0000_0000_0000 { n := 0; } else { n := OddPartSurvives(c, total); }
  }

  lemma NeverEnough(low: nat, total: nat, n: nat)
    requires low < 0x8000_0000_0000_0000 && total > 0
    requires low == 0 || (total > 0x8000_0000_0000_0000 && PowerOfTwo(low))
    ensures !Enough(Doubled(2 * low, n), total)
  {
    if low == 0 { ZeroStays(n); } else { DoubleOfPower(low); PowersWrapToZero(2 * low, total, n); }
  }

  lemma {:induction false} ZeroStays(n: nat)
    ensures Doubled(0, n) == 0
  {
    if n > 0 { ZeroStays(n - 1); }
  }

  class MsgpackWriter {
    var buf: array<byte>
    var written: nat
    /** The largest block realloc can deliver; an object never reaches 2^63 octets. */
    const memory: nat

    ghost predicate Valid()
      reads this
    {
      written <= buf.Length <= memory < 0x8000_0000_0000_0000
    }

    function Contents(): seq<byte>
      requires Valid()
      reads this, buf
    {
      buf[..written]
    }

    /** A failed first malloc leaves capacity zero. */
    constructor (memory: nat)
      requires memory < 0x8000_0000_0000_0000
      ensures Valid() && fresh(buf) && Contents() == [] && this.memory == memory
      ensures buf.Length == if 8192 <= memory then 8192 else 0
    {
      this.memory := memory;
      buf := new byte[if INITIAL_CAP <= memory then INITIAL_CAP else 0](_ => 0);
      written := 0;
    }

    method Ensure(need: nat) returns (ok: bool)
      requires Valid() && written + need <= 0x8000_0000_0000_0000
      modifies this`buf
      ensures Valid() && Contents() == old(Contents())
      ensures buf == old(buf) || fresh(buf)
      ensures ok ==> buf.Length - written >= need
      ensures 2 * (written + need) <= memory && INITIAL_CAP <= memory ==> ok
    {
      if buf.Length - written >= need { return true; }
      var newCap := GrownCapacity(buf.Length, written, need);
      if newCap > memory { return false; }
      var grown := new byte[newCap](_ => 0);
      forall i | 0 <= i < written { grown[i] := buf[i]; }
      buf := grown;
      return true;
    }

    method Append(data: seq<byte>) returns (ok: bool)
      requires Valid() && written + |data| <= 0x8000_0000_0000_0000
      modifies this`buf, this`written, buf
      ensures Valid() && (buf == old(buf) || fresh(buf))
      ensures Contents() == if ok then old(Contents()) + data else old(Contents())
      ensures 2 * (old(written) + |data|) <= memory && INITIAL_CAP <= memory ==> ok
    {
      ok := Ensure(|data|);
      if ok {
        ghost var before := buf[..written];
        forall i | 0 <= i < |data| { buf[written + i] := data[i]; }
        assert buf[..written] == before;
        written := written + |data|;
      }
    }

    /** A one-octet key and the octets of its value, as two appends. */
    method AppendEntry(key: byte, value: seq<byte>) returns (ok: bool)
      requires Valid() && written + 1 + |value| <= 0x8000_0000_0000_0000
      modifies this`buf, this`written, buf
      ensures Valid() && (buf == old(buf) || fresh(buf))
      ensures ok ==> Contents() == old(Contents()) + [key] + value
      ensures 2 * (old(written) + 1 + |value|) <= memory && INITIAL_CAP <= memory ==> ok
    {
      ok := Append([key]);
      if ok { ok := Append(value); }
    }

    /** Tag and length, then the data. */
    method WriteBin(data: seq<byte>) returns (ok: bool)
      requires Valid() && |data| < 0x1_0000_0000
      requires written + 5 + |data| <= 0x8000_0000_0000_0000
      modifies this`buf, this`written, buf
      ensures Valid() && (buf == old(buf) || fresh(buf))
      ensures ok ==> Contents() == old(Contents()) + BinHeader(|data|) + data
      ensures 2 * (old(written) + |BinHeader(|data|)| + |data|) <= memory && INITIAL_CAP <= memory ==> ok
    {
      ok := Append(BinHeader(|data|));
      if ok { ok := Append(data); }
    }

    /**
     * Overwrites whatever the buffer held.  On success it holds exactly the encoded block; it
     * succeeds whenever memory allows twice the message.
     */
    method EncodeBlock(b: Block) returns (ok: bool)
      requires Valid() && |b.data| < 0x1_0000_0000
      modifies this`buf, this`written, buf
      ensures Valid() && (buf == old(buf) || fresh(buf))
      ensures ok ==> Contents() == Encode(b)
      ensures 2 * |Encode(b)| <= memory && INITIAL_CAP <= memory ==> ok
    {
      written := 0;
      var devno, offset := EncodeInt32(b.devno), EncodeInt64(b.offset);
      assert |devno| + |offset| <= 14;
      hide EncodeInt32, EncodeInt64, BinHeader;
      ok := Append([FIXMAP_3]);
      if !ok { return; }
      ok := AppendEntry(0, devno);
      if !ok { return; }
      assert Contents() == [FIXMAP_3, 0] + devno;
      ok := AppendEntry(1, offset);
      if !ok { return; }
      ok := Append([2]);
      if !ok { return; }
      ok := WriteBin(b.data);
    }
  }
}
