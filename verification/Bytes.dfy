/** Octets and the big-endian integers built from them. */
module Bytes {

  type byte = x: int | 0 <= x < 256

  /** 256^k, the number of values k octets can hold. */
  function Radix(k: nat): (r: nat)
    ensures r > 0
  {
    if k == 0 then 1 else 256 * Radix(k - 1)
  }

  /** The low k octets of n, most significant first. */
  function ToBE(n: nat, k: nat): (s: seq<byte>)
    ensures |s| == k
  {
    if k == 0 then [] else ToBE(n / 256, k - 1) + [n % 256]
  }

  function FromBE(s: seq<byte>): nat {
    if s == [] then 0 else 256 * FromBE(s[..|s| - 1]) + s[|s| - 1]
  }

  lemma {:induction false} FromToBE(n: nat, k: nat)
    requires n < Radix(k)
    ensures FromBE(ToBE(n, k)) == n
  {
    if k > 0 {
      FromToBE(n / 256, k - 1);
      assert ToBE(n, k)[..k - 1] == ToBE(n / 256, k - 1);
    }
  }

  /** The most significant octet comes first. */
  lemma {:induction false} ToBEDigits(n: nat, k: nat, i: nat)
    requires i < k
    ensures ToBE(n, k)[i] == n / Radix(k - 1 - i) % 256
  {
    if i < k - 1 {
      ToBEDigits(n / 256, k - 1, i);
      DivTwice(n, Radix(k - 2 - i));
    }
  }

  lemma DivTwice(n: nat, r: nat)
    requires r > 0
    ensures n / 256 / r == n / (256 * r)
  {
    var q, a := n / 256, n % 256;
    var p, b := q / r, q % r;
    assert n == (256 * b + a) + (256 * r) * p;
    ModUnique(n, 256 * r, p, 256 * b + a);
    var p' := n / (256 * r);
    assert (256 * r) * (p - p') == 0;
    if p != p' { MultipleIsBig(256 * r, p - p'); }
  }

  lemma {:induction false} FromBEBound(s: seq<byte>)
    ensures FromBE(s) < Radix(|s|)
  {
    if s != [] {
      FromBEBound(s[..|s| - 1]);
    }
  }

  lemma Radices()
    ensures Radix(1) == 0x100 && Radix(2) == 0x1_0000
    ensures Radix(4) == 0x1_0000_0000 && Radix(8) == 0x1_0000_0000_0000_0000
  {
    assert Radix(3) == 0x100_0000;
    assert Radix(4) == 0x1_0000_0000;
    assert Radix(6) == 0x1_0000_0000_0000;
  }

  lemma ModUnique(x: int, m: int, q: int, r: int)
    requires 0 <= r < m && x == r + m * q
    ensures x % m == r
  {
    var q' := x / m;
    assert m * (q - q') == x % m - r;
    if q != q' {
      MultipleIsBig(m, q - q');
    }
  }

  lemma MultipleIsBig(m: nat, k: int)
    requires k != 0
    ensures m * k >= m || m * k + m <= 0
  {
    if k > 0 {
      AtLeastOnce(m, k);
    } else {
      AtLeastOnce(m, -k);
      assert m * k == -(m * -k);
    }
  }

  lemma AtLeastOnce(m: nat, k: nat)
    requires k > 0
    ensures m * k >= m
  {}
}
