/**
 * The 64-bit block hash.  Change detection is "same offset, same hash", so what
 * matters is exactly which changes of a block the hash cannot see.
 */
module BlockHash {
  import opened Bytes
  import opened Words

  /** Bitwise exclusive or. */
  function Xor(a: nat, b: nat): nat
    decreases a + b
  {
    if a == 0 && b == 0 then 0
    else 2 * Xor(a / 2, b / 2) + if a % 2 == b % 2 then 0 else 1
  }

  function Pow2(k: nat): (p: nat)
    ensures p > 0
  {
    if k == 0 then 1 else 2 * Pow2(k - 1)
  }

  lemma Pow2s()
    ensures Pow2(33) == 0x2_0000_0000
    ensures Pow2(64) == 0x1_0000_0000_0000_0000
  {
    assert Pow2(11) == 0x800;
    assert Pow2(22) == 0x40_0000;
    assert Pow2(33) == 0x2_0000_0000;
    assert Pow2(44) == 0x1000_0000_0000;
    assert Pow2(55) == 0x80_0000_0000_0000;
  }

  lemma {:induction false} XorBound(a: nat, b: nat, k: nat)
    requires a < Pow2(k) && b < Pow2(k)
    ensures Xor(a, b) < Pow2(k)
  {
    if k > 0 && (a > 0 || b > 0) {
      XorBound(a / 2, b / 2, k - 1);
    }
  }

  lemma XorDigits(a: nat, b: nat)
    ensures Xor(a, b) / 2 == Xor(a / 2, b / 2) && Xor(a, b) % 2 == if a % 2 == b % 2 then 0 else 1
  {}

  lemma {:induction false} XorCommutes(a: nat, b: nat)
    ensures Xor(a, b) == Xor(b, a)
    decreases a + b
  {
    if a > 0 || b > 0 { XorCommutes(a / 2, b / 2); }
  }

  lemma {:induction false} XorInvolution(a: nat, b: nat)
    ensures Xor(Xor(a, b), b) == a
    decreases a + b
  {
    if a > 0 || b > 0 {
      XorInvolution(a / 2, b / 2);
      var x := Xor(a, b);
      XorDigits(a, b);
      XorDigits(x, b);
      hide Xor;
      assert Xor(x, b) / 2 == a / 2 && Xor(x, b) % 2 == a % 2;
    }
  }

  lemma {:induction false} XorLow(hi: nat, lo: nat, x: nat, k: nat)
    requires lo < Pow2(k) && x < Pow2(k)
    ensures Xor(hi * Pow2(k) + lo, x) == hi * Pow2(k) + Xor(lo, x)
  {
    if k == 0 {
      XorZero(hi);
    } else {
      var a := hi * Pow2(k) + lo;
      assert a == 2 * (hi * Pow2(k - 1)) + lo;
      assert a / 2 == hi * Pow2(k - 1) + lo / 2 && a % 2 == lo % 2;
      XorLow(hi, lo / 2, x / 2, k - 1);
    }
  }

  lemma {:induction false} XorZero(a: nat)
    ensures Xor(a, 0) == a
  {
    if a > 0 { XorZero(a / 2); }
  }

  function Xor64(a: u64, b: u64): u64 {
    Pow2s(); XorBound(a, b, 64);
    Xor(a, b)
  }

  /** h ^ (h >> 33) */
  function Xorshift33(h: u64): u64 { Xor64(h, h / 0x2_0000_0000) }

  /** (h << 31) | (h >> 33); the two halves share no bit. */
  function Rotl31(h: u64): u64 { Wrap(h * 0x8000_0000) + h / 0x2_0000_0000 }

  // Products with HASH_MUL, HASH_ROT and the two fmix64 multipliers.
  function MulMul(h: u64): u64 { Wrap(h * 0xc2b4d1b3d54d51c2) }
  function MulRot(h: u64): u64 { Wrap(h * 0x9e3779b586c04815) }
  function MulF1(h: u64): u64 { Wrap(h * 0xff51afd7ed558ccd) }
  function MulF2(h: u64): u64 { Wrap(h * 0xc4ceb9fe1a85ec53) }

  lemma WrapUnique(x: int, k: int, h: u64)
    requires x == h + 0x1_0000_0000_0000_0000 * k
    ensures Wrap(x) == h
  {}

  /** An odd multiplier c with c * d = 1 + t * 2^64 is undone by d. */
  lemma MulInverse(h: u64, c: int, d: int, t: int)
    requires c * d == 1 + t * 0x1_0000_0000_0000_0000
    ensures Wrap(Wrap(h * c) * d) == h
  {
    var q := h * c / 0x1_0000_0000_0000_0000;
    calc {
      Wrap(h * c) * d;
      (h * c - q * 0x1_0000_0000_0000_0000) * d;
      h * c * d - q * 0x1_0000_0000_0000_0000 * d;
      { assert h * c * d == h * (c * d); }
      h * (1 + t * 0x1_0000_0000_0000_0000) - q * 0x1_0000_0000_0000_0000 * d;
      h + 0x1_0000_0000_0000_0000 * (h * t - q * d);
    }
    WrapUnique(Wrap(h * c) * d, h * t - q * d, h);
  }

  lemma MulRotInverse(h: u64)
    ensures Wrap(MulRot(h) * 0xbd9325dff2ad473d) == h
  {
    MulInverse(h, 0x9e3779b586c04815, 0xbd9325dff2ad473d, 0x7529e61e549e1fcd);
  }

  lemma MulF1Inverse(h: u64)
    ensures Wrap(MulF1(h) * 0x4f74430c22a54005) == h
  {
    MulInverse(h, 0xff51afd7ed558ccd, 0x4f74430c22a54005, 0x4f3e2925cb7c5b4e);
  }

  lemma MulF2Inverse(h: u64)
    ensures Wrap(MulF2(h) * 0x9cb4b2f8129337db) == h
  {
    MulInverse(h, 0xc4ceb9fe1a85ec53, 0x9cb4b2f8129337db, 0x7878e44812b2d581);
  }

  lemma RotateInverse(h: u64)
    ensures Wrap(Rotl31(h) * 0x2_0000_0000) + Rotl31(h) / 0x8000_0000 == h
  {
    var hi, lo := h / 0x2_0000_0000, h % 0x2_0000_0000;
    WrapUnique(h * 0x8000_0000, hi, lo * 0x8000_0000);
    assert Rotl31(h) == lo * 0x8000_0000 + hi;
    WrapUnique(Rotl31(h) * 0x2_0000_0000, lo, hi * 0x2_0000_0000);
  }

  /** HASH_MUL is twice an odd number: the product keeps exactly the low 63 bits of the word. */
  lemma MulMulHalf(w: u64)
    ensures MulMul(w) == Wrap(2 * (w % 0x8000_0000_0000_0000) * 0x615a68d9eaa6a8e1)
    ensures Wrap(MulMul(w) * 0xee2223920cc49b21) == 2 * (w % 0x8000_0000_0000_0000)
  {
    var lo, top := w % 0x8000_0000_0000_0000, w / 0x8000_0000_0000_0000;
    assert w * 0xc2b4d1b3d54d51c2 == 2 * lo * 0x615a68d9eaa6a8e1 + 0x1_0000_0000_0000_0000 * (top * 0x615a68d9eaa6a8e1);
    var p := Wrap(2 * lo * 0x615a68d9eaa6a8e1);
    WrapUnique(w * 0xc2b4d1b3d54d51c2, top * 0x615a68d9eaa6a8e1 + 2 * lo * 0x615a68d9eaa6a8e1 / 0x1_0000_0000_0000_0000, p);
    MulInverse(2 * lo, 0x615a68d9eaa6a8e1, 0xee2223920cc49b21, 0x5a8f09036bd8b3a1);
  }

  lemma XorshiftInverse(h: u64)
    ensures Xorshift33(Xorshift33(h)) == h
  {
    Pow2s();
    hide Xor, Pow2;
    var hi, lo := h / 0x2_0000_0000, h % 0x2_0000_0000;
    XorLow(hi, lo, hi, 33);
    XorBound(lo, hi, 33);
    XorLow(hi, Xor(lo, hi), hi, 33);
    XorInvolution(lo, hi);
  }

  // ---------- the hash ----------

  function Fmix64(h: u64): u64 {
    Xorshift33(MulF2(Xorshift33(MulF1(Xorshift33(h)))))
  }

  function FromLE(s: seq<byte>): (n: nat)
    ensures n < Radix(|s|)
  {
    if s == [] then 0 else s[0] + 256 * FromLE(s[1..])
  }

  /** The i-th uint64_t of the data, on a little-endian machine. */
  function Load(data: seq<byte>, i: nat): u64
    requires 8 * i + 8 <= |data|
  {
    Radices();
    FromLE(data[8 * i..8 * i + 8])
  }

  /** How many whole 32-byte stripes the main loop consumes. */
  function Stripes(len: nat): (n: nat)
    ensures 32 * n <= len
    ensures len > 0 && len % 8 == 0 ==> 32 * n < len && (len >= 32 ==> 32 * n + 32 <= len)
  {
    if len < 32 then 0 else (len / 8 - if len % 8 == 0 then 4 else 0) / 4
  }

  function LaneStep(acc: u64, w: u64): u64 {
    MulRot(Rotl31(Wrap(acc + MulMul(w))))
  }

  /** Lane j after n stripes, started from init. */
  function Lane(init: u64, data: seq<byte>, j: nat, n: nat): u64
    requires j < 4 && 32 * n <= |data|
  {
    if n == 0 then init else LaneStep(Lane(init, data, j, n - 1), Load(data, 4 * (n - 1) + j))
  }

  /** HASH_INIT_A, HASH_INIT_B, HASH_INIT_C and zero, each added to the seed. */
  function LaneInit(seed: u64, j: nat): u64 {
    Wrap(seed + if j == 0 then 0x60ea27eeadc0b5d6 else if j == 1 then 0x61c8864e7a143579
                else if j == 2 then 0xc2b2ae3d27d4eb4f else 0)
  }

  const HASH_XOR_CONST: u64 := 0x85ebca77c2b2ae63

  function Mix(result: u64, lane: u64): u64 {
    Wrap(MulRot(Xor64(result, Fmix64(lane))) + HASH_XOR_CONST)
  }

  function Finish(a: u64, b: u64, c: u64, d: u64): u64 {
    Mix(Mix(Mix(Mix(HASH_XOR_CONST, a), b), c), d)
  }

  /** The value returned for four final lanes and a length of at least 32. */
  function Seal(a: u64, b: u64, c: u64, d: u64, len: nat): u64 {
    Wrap(Finish(a, b, c, d) + len)
  }

  function Hash(data: seq<byte>, seed: u64): u64 {
    if |data| < 32 then Wrap(|data| + 0x27d4eb2f165667c5 + seed)
    else
      var n := Stripes(|data|);
      Seal(Lane(LaneInit(seed, 0), data, 0, n), Lane(LaneInit(seed, 1), data, 1, n),
           Lane(LaneInit(seed, 2), data, 2, n), Lane(LaneInit(seed, 3), data, 3, n), |data|)
  }

  /** One turn of the main loop: four words, one per lane. */
  method AbsorbStripe(data: array<byte>, p: nat, a: u64, b: u64, c: u64, d: u64)
    returns (a': u64, b': u64, c': u64, d': u64)
    requires 8 * p + 32 <= data.Length
    ensures a' == LaneStep(a, Load(data[..], p)) && b' == LaneStep(b, Load(data[..], p + 1))
    ensures c' == LaneStep(c, Load(data[..], p + 2)) && d' == LaneStep(d, Load(data[..], p + 3))
  {
    a' := LaneStep(a, Load(data[..], p));
    b' := LaneStep(b, Load(data[..], p + 1));
    c' := LaneStep(c, Load(data[..], p + 2));
    d' := LaneStep(d, Load(data[..], p + 3));
  }

  /** The main loop; every word it reads lies inside the input. */
  method AbsorbAll(data: array<byte>, seed: u64) returns (a: u64, b: u64, c: u64, d: u64)
    requires data.Length >= 32
    ensures a == Lane(LaneInit(seed, 0), data[..], 0, Stripes(data.Length))
    ensures b == Lane(LaneInit(seed, 1), data[..], 1, Stripes(data.Length))
    ensures c == Lane(LaneInit(seed, 2), data[..], 2, Stripes(data.Length))
    ensures d == Lane(LaneInit(seed, 3), data[..], 3, Stripes(data.Length))
  {
    hide MulRot, MulMul, Rotl31, Wrap, LaneStep, Load;
    var len, p := data.Length, 0;
    var end := len / 8 - (if len % 8 == 0 then 4 else 0);
    a, b, c, d := LaneInit(seed, 0), LaneInit(seed, 1), LaneInit(seed, 2), LaneInit(seed, 3);
    ghost var n := 0;
    while p + 3 < end
      invariant p == 4 * n && n <= Stripes(len)
      invariant a == Lane(LaneInit(seed, 0), data[..], 0, n)
      invariant b == Lane(LaneInit(seed, 1), data[..], 1, n)
      invariant c == Lane(LaneInit(seed, 2), data[..], 2, n)
      invariant d == Lane(LaneInit(seed, 3), data[..], 3, n)
    {
      a, b, c, d := AbsorbStripe(data, p, a, b, c, d);
      p, n := p + 4, n + 1;
    }
  }

  method HashBlock(data: array<byte>, seed: u64) returns (result: u64)
    ensures result == Hash(data[..], seed)
  {
    if data.Length < 32 {
      result := Wrap(data.Length + 0x27d4eb2f165667c5 + seed);
    } else {
      var a, b, c, d := AbsorbAll(data, seed);
      result := Seal(a, b, c, d, data.Length);
    }
  }

  // ---------- every mixing step is a bijection ----------

  lemma MulRotInjective(u: u64, v: u64)
    ensures MulRot(u) == MulRot(v) <==> u == v
  {
    MulRotInverse(u); MulRotInverse(v);
  }

  lemma AddInjective(u: u64, v: u64, k: u64)
    ensures Wrap(u + k) == Wrap(v + k) <==> u == v
  {}

  lemma XorInjective(u: u64, v: u64, k: u64)
    ensures Xor64(u, k) == Xor64(v, k) <==> u == v
    ensures Xor64(k, u) == Xor64(k, v) <==> u == v
  {
    XorInvolution(u, k); XorInvolution(v, k);
    XorCommutes(u, k); XorCommutes(v, k);
  }

  lemma FmixInjective(g: u64, h: u64)
    ensures Fmix64(g) == Fmix64(h) <==> g == h
  {
    var g1, h1 := Xorshift33(g), Xorshift33(h);
    var g2, h2 := Xorshift33(MulF1(g1)), Xorshift33(MulF1(h1));
    XorshiftInverse(g); XorshiftInverse(h);
    MulF1Inverse(g1); MulF1Inverse(h1);
    XorshiftInverse(MulF1(g1)); XorshiftInverse(MulF1(h1));
    MulF2Inverse(g2); MulF2Inverse(h2);
    XorshiftInverse(MulF2(g2)); XorshiftInverse(MulF2(h2));
  }

  lemma MixInjective(r: u64, s: u64, g: u64, h: u64)
    ensures Mix(r, g) == Mix(s, g) <==> r == s
    ensures Mix(r, g) == Mix(r, h) <==> g == h
  {
    hide Fmix64, MulRot, Xor64, Wrap;
    var fg, fh := Fmix64(g), Fmix64(h);
    FmixInjective(g, h);
    XorInjective(r, s, fg); XorInjective(fg, fh, r);
    MulRotInjective(Xor64(r, fg), Xor64(s, fg));
    MulRotInjective(Xor64(r, fg), Xor64(r, fh));
    AddInjective(MulRot(Xor64(r, fg)), MulRot(Xor64(s, fg)), HASH_XOR_CONST);
    AddInjective(MulRot(Xor64(r, fg)), MulRot(Xor64(r, fh)), HASH_XOR_CONST);
  }

  predicate SameLow63(w: u64, v: u64) {
    w % 0x8000_0000_0000_0000 == v % 0x8000_0000_0000_0000
  }

  /** A word enters its lane through its low 63 bits and nothing else. */
  lemma LowBitsEnter(w: u64, v: u64)
    ensures MulMul(w) == MulMul(v) <==> SameLow63(w, v)
  {
    hide MulMul;
    MulMulHalf(w); MulMulHalf(v);
  }

  lemma RotateInjective(u: u64, v: u64)
    ensures Rotl31(u) == Rotl31(v) <==> u == v
  {
    hide Rotl31;
    RotateInverse(u); RotateInverse(v);
  }

  lemma LaneStepInjective(a: u64, b: u64, w: u64, v: u64)
    ensures LaneStep(a, w) == LaneStep(b, w) <==> a == b
    ensures LaneStep(a, w) == LaneStep(a, v) <==> SameLow63(w, v)
  {
    LowBitsEnter(w, v);
    hide MulMul, MulRot, Rotl31, Wrap;
    var p, q := MulMul(w), MulMul(v);
    AddInjective(a, b, p); AddInjective(p, q, a);
    RotateInjective(Wrap(a + p), Wrap(b + p)); RotateInjective(Wrap(a + p), Wrap(a + q));
    MulRotInjective(Rotl31(Wrap(a + p)), Rotl31(Wrap(b + p)));
    MulRotInjective(Rotl31(Wrap(a + p)), Rotl31(Wrap(a + q)));
  }

  // ---------- what the hash can and cannot see ----------

  lemma {:induction false} LaneSame(init: u64, x: seq<byte>, y: seq<byte>, j: nat, n: nat)
    requires j < 4 && 32 * n <= |x| && 32 * n <= |y|
    requires forall m :: 0 <= m < n ==> SameLow63(Load(x, 4 * m + j), Load(y, 4 * m + j))
    ensures Lane(init, x, j, n) == Lane(init, y, j, n)
  {
    hide LaneStep, Load, SameLow63;
    if n > 0 {
      LaneSame(init, x, y, j, n - 1);
      var w, v := Load(x, 4 * (n - 1) + j), Load(y, 4 * (n - 1) + j);
      LaneStepInjective(Lane(init, x, j, n - 1), Lane(init, y, j, n - 1), w, v);
    }
  }

  lemma {:induction false} LaneDiffers(init: u64, x: seq<byte>, y: seq<byte>, j: nat, n: nat, k: nat)
    requires j < 4 && k < n && 32 * n <= |x| == |y|
    requires forall m :: 0 <= m < n ==>
               (SameLow63(Load(x, 4 * m + j), Load(y, 4 * m + j)) <==> m != k)
    ensures Lane(init, x, j, n) != Lane(init, y, j, n)
  {
    hide LaneStep, Load, SameLow63;
    var w, v := Load(x, 4 * (n - 1) + j), Load(y, 4 * (n - 1) + j);
    var a, b := Lane(init, x, j, n - 1), Lane(init, y, j, n - 1);
    if k == n - 1 {
      LaneSame(init, x, y, j, n - 1);
    } else {
      LaneDiffers(init, x, y, j, n - 1, k);
    }
    LaneStepInjective(a, b, w, v);
    LaneStepInjective(b, b, w, v);
  }

  /** If a single lane differs, the sealed results differ. */
  lemma SealInjective(a: u64, b: u64, c: u64, d: u64, a': u64, b': u64, c': u64, d': u64, len: nat)
    requires || (a != a' && b == b' && c == c' && d == d')
             || (a == a' && b != b' && c == c' && d == d')
             || (a == a' && b == b' && c != c' && d == d')
             || (a == a' && b == b' && c == c' && d != d')
    ensures Seal(a, b, c, d, len) != Seal(a', b', c', d', len)
  {
    hide Mix;
    var r1, s1 := Mix(HASH_XOR_CONST, a), Mix(HASH_XOR_CONST, a');
    var r2, s2 := Mix(r1, b), Mix(s1, b');
    var r3, s3 := Mix(r2, c), Mix(s2, c');
    MixInjective(HASH_XOR_CONST, HASH_XOR_CONST, a, a');
    MixInjective(r1, s1, b, b');
    MixInjective(r2, s2, c, c');
    MixInjective(r3, s3, d, d');
    SumInjective(Mix(r3, d), Mix(s3, d'), len);
  }

  lemma SumInjective(u: u64, v: u64, len: nat)
    ensures Wrap(u + len) == Wrap(v + len) <==> u == v
  {}

  /** The words of the prefix the main loop consumes. */
  function ConsumedWords(len: nat): nat { 4 * Stripes(len) }

  /**
   * The hash sees the length, the seed and the low 63 bits of each consumed word, and
   * nothing else: the top bit of every word and all bytes after the last stripe are free.
   */
  lemma HashSeesLowBitsOnly(x: seq<byte>, y: seq<byte>, seed: u64)
    requires |x| == |y|
    requires forall i :: 0 <= i < ConsumedWords(|x|) ==> SameLow63(Load(x, i), Load(y, i))
    ensures Hash(x, seed) == Hash(y, seed)
  {
    hide Load, SameLow63, Lane, Seal, LaneInit, Stripes;
    if |x| >= 32 {
      var n := Stripes(|x|);
      LaneSame(LaneInit(seed, 0), x, y, 0, n);
      LaneSame(LaneInit(seed, 1), x, y, 1, n);
      LaneSame(LaneInit(seed, 2), x, y, 2, n);
      LaneSame(LaneInit(seed, 3), x, y, 3, n);
    }
  }

  /**
   * Exactly when a change of one consumed word is invisible: the two words agree modulo 2^63.
   */
  lemma WordCollision(x: seq<byte>, y: seq<byte>, seed: u64, k: nat)
    requires |x| == |y| && k < ConsumedWords(|x|)
    requires forall i :: 0 <= i < ConsumedWords(|x|) && i != k ==> Load(x, i) == Load(y, i)
    ensures Hash(x, seed) == Hash(y, seed) <==> SameLow63(Load(x, k), Load(y, k))
  {
    if SameLow63(Load(x, k), Load(y, k)) {
      HashSeesLowBitsOnly(x, y, seed);
    } else {
      WordChangeSeen(x, y, seed, k);
    }
  }

  lemma WordChangeSeen(x: seq<byte>, y: seq<byte>, seed: u64, k: nat)
    requires |x| == |y| && k < ConsumedWords(|x|)
    requires forall i :: 0 <= i < ConsumedWords(|x|) && i != k ==> Load(x, i) == Load(y, i)
    requires !SameLow63(Load(x, k), Load(y, k))
    ensures Hash(x, seed) != Hash(y, seed)
  {
    hide Load, Lane, Seal, LaneInit, LaneStep, SameLow63;
    var n, j := Stripes(|x|), k % 4;
    ghost var a := seq(4, i requires 0 <= i < 4 => Lane(LaneInit(seed, i), x, i, n));
    ghost var b := seq(4, i requires 0 <= i < 4 => Lane(LaneInit(seed, i), y, i, n));
    forall i | 0 <= i < 4
      ensures a[i] == b[i] <==> i != j
    {
      forall m | 0 <= m < n
        ensures SameLow63(Load(x, 4 * m + i), Load(y, 4 * m + i)) <==> 4 * m + i != k
      {
        if 4 * m + i != k { SameIsSame(Load(x, 4 * m + i)); }
      }
      if i == j {
        LaneDiffers(LaneInit(seed, i), x, y, i, n, k / 4);
      } else {
        LaneSame(LaneInit(seed, i), x, y, i, n);
      }
    }
    SealInjective(a[0], a[1], a[2], a[3], b[0], b[1], b[2], b[3], |x|);
  }

  lemma SameIsSame(w: u64)
    ensures SameLow63(w, w)
  {}

  // ---------- length and seed ----------

  lemma SealShift(a: u64, b: u64, c: u64, d: u64, m: nat, n: nat)
    ensures Wrap(Seal(a, b, c, d, m) - Seal(a, b, c, d, n)) == Wrap(m - n)
  {
    hide Finish;
  }

  /**
   * From 32 octets on, inputs whose consumed words agree differ in hash by exactly their
   * difference in length, so inputs of different lengths then never collide.
   */
  lemma LengthShiftsHash(x: seq<byte>, y: seq<byte>, seed: u64)
    requires |x| >= 32 && |y| >= 32 && Stripes(|x|) == Stripes(|y|)
    requires forall i :: 0 <= i < ConsumedWords(|x|) ==> SameLow63(Load(x, i), Load(y, i))
    ensures Wrap(Hash(x, seed) - Hash(y, seed)) == Wrap(|x| - |y|)
    ensures Hash(x, seed) == Hash(y, seed) <==> |x| == |y|
  {
    hide Load, SameLow63, Lane, Seal, LaneInit, Stripes;
    var n := Stripes(|x|);
    LaneSame(LaneInit(seed, 0), x, y, 0, n);
    LaneSame(LaneInit(seed, 1), x, y, 1, n);
    LaneSame(LaneInit(seed, 2), x, y, 2, n);
    LaneSame(LaneInit(seed, 3), x, y, 3, n);
    SealShift(Lane(LaneInit(seed, 0), x, 0, n), Lane(LaneInit(seed, 1), x, 1, n),
              Lane(LaneInit(seed, 2), x, 2, n), Lane(LaneInit(seed, 3), x, 3, n), |x|, |y|);
    StripesNear(|x|, |y|);
  }

  lemma StripesNear(m: nat, n: nat)
    requires m >= 32 && n >= 32 && Stripes(m) == Stripes(n)
    ensures Wrap(m - n) == 0 <==> m == n
  {}

  /** Below 32 octets the hash is HASH_INIT_SHORT moved on by length and seed, whatever the data. */
  lemma ShortHash(x: seq<byte>, y: seq<byte>, seed: u64, seed': u64)
    requires |x| < 32 && |y| < 32
    ensures Wrap(Hash(x, seed) - Hash(y, seed')) == Wrap(|x| - |y| + seed - seed')
    ensures Hash([], 0) == 0x27d4eb2f165667c5
  {
    hide Wrap, Seal, Stripes, Lane, LaneInit;
    WrapUnique(0x27d4eb2f165667c5, 0, 0x27d4eb2f165667c5);
    WrapSub(|x| + 0x27d4eb2f165667c5 + seed, |y| + 0x27d4eb2f165667c5 + seed');
  }

  lemma WrapSub(a: int, b: int)
    ensures Wrap(Wrap(a) - Wrap(b)) == Wrap(a - b)
  {}

  /** Every lane carries the seed: another seed gives another lane, after any number of stripes. */
  lemma {:induction false} LaneSeesSeed(seed: u64, seed': u64, data: seq<byte>, j: nat, n: nat)
    requires j < 4 && 32 * n <= |data|
    ensures Lane(LaneInit(seed, j), data, j, n) == Lane(LaneInit(seed', j), data, j, n) <==> seed == seed'
  {
    hide LaneStep, Load;
    if n > 0 {
      LaneSeesSeed(seed, seed', data, j, n - 1);
      var w := Load(data, 4 * (n - 1) + j);
      LaneStepInjective(Lane(LaneInit(seed, j), data, j, n - 1), Lane(LaneInit(seed', j), data, j, n - 1), w, w);
    }
  }

  // ---------- the hash undone, step by step ----------

  /** The final mix backwards, with the inverses of its multipliers. */
  function UnFmix(h: u64): u64 {
    Xorshift33(Wrap(Xorshift33(Wrap(Xorshift33(h) * 0x9cb4b2f8129337db)) * 0x4f74430c22a54005))
  }

  lemma FmixUndone(h: u64)
    ensures UnFmix(Fmix64(h)) == h
  {
    hide Xorshift33, MulF1, MulF2, Wrap;
    var h1 := Xorshift33(h);
    var h2 := Xorshift33(MulF1(h1));
    XorshiftInverse(MulF2(h2));
    MulF2Inverse(h2);
    XorshiftInverse(MulF1(h1));
    MulF1Inverse(h1);
    XorshiftInverse(h);
  }

  function UnMix(out: u64, lane: u64): u64 {
    Xor64(Wrap(Wrap(out - 0x85ebca77c2b2ae63) * 0xbd9325dff2ad473d), Fmix64(lane))
  }

  lemma SumBack(u: u64, k: nat)
    ensures Wrap(Wrap(u + k) - k) == u
  {}

  lemma MixUndone(result: u64, lane: u64)
    ensures UnMix(Mix(result, lane), lane) == result
  {
    hide MulRot, Wrap, Fmix64, Xor;
    SumBack(MulRot(Xor64(result, Fmix64(lane))), 0x85ebca77c2b2ae63);
    MulRotInverse(Xor64(result, Fmix64(lane)));
    XorInvolution(result, Fmix64(lane));
  }

  /** Taking off the length and the four lanes, last one first, leaves HASH_XOR_CONST. */
  lemma SealUndone(a: u64, b: u64, c: u64, d: u64, len: nat)
    ensures UnMix(UnMix(UnMix(UnMix(Wrap(Seal(a, b, c, d, len) - len), d), c), b), a) == 0x85ebca77c2b2ae63
  {
    hide Mix, UnMix, Wrap;
    SumBack(Finish(a, b, c, d), len);
    var r1 := Mix(HASH_XOR_CONST, a);
    var r2 := Mix(r1, b);
    MixUndone(HASH_XOR_CONST, a);
    MixUndone(r1, b);
    MixUndone(r2, c);
    MixUndone(Mix(r2, c), d);
  }

  function UnRotate(h: u64): int { Wrap(h * 0x2_0000_0000) + h / 0x8000_0000 }

  function UnLaneStep(acc: u64, w: u64): u64 {
    Wrap(UnRotate(Wrap(acc * 0xbd9325dff2ad473d)) - w * 0xc2b4d1b3d54d51c2)
  }

  lemma LaneStepUndone(acc: u64, w: u64)
    ensures UnLaneStep(LaneStep(acc, w), w) == acc
  {
    hide Wrap, MulRot, Rotl31;
    var sum := Wrap(acc + MulMul(w));
    SumUndone(acc, w * 0xc2b4d1b3d54d51c2);
    MulRotInverse(Rotl31(sum));
    RotateInverse(sum);
  }

  lemma SumUndone(acc: u64, k: nat)
    ensures Wrap(Wrap(acc + Wrap(k)) - k) == acc
  {}

  /** The value a lane started from, given its value after n stripes. */
  function UnLane(last: u64, data: seq<byte>, j: nat, n: nat): u64
    requires j < 4 && 32 * n <= |data|
    decreases n
  {
    if n == 0 then last else UnLane(UnLaneStep(last, Load(data, 4 * (n - 1) + j)), data, j, n - 1)
  }

  lemma {:induction false} LaneUndone(init: u64, data: seq<byte>, j: nat, n: nat)
    requires j < 4 && 32 * n <= |data|
    ensures UnLane(Lane(init, data, j, n), data, j, n) == init
  {
    hide LaneStep, UnLaneStep, Load;
    if n > 0 {
      LaneStepUndone(Lane(init, data, j, n - 1), Load(data, 4 * (n - 1) + j));
      LaneUndone(init, data, j, n - 1);
    }
  }

  /** Each lane, wound back over the words it took, gives the seed plus its own constant. */
  lemma SeedRecovered(seed: u64, data: seq<byte>, j: nat)
    requires j < 4
    ensures var n := Stripes(|data|);
            UnLane(Lane(LaneInit(seed, j), data, j, n), data, j, n) ==
            Wrap(seed + [0x60ea27eeadc0b5d6, 0x61c8864e7a143579, 0xc2b2ae3d27d4eb4f, 0][j])
  {
    hide Lane, UnLane;
    LaneUndone(LaneInit(seed, j), data, j, Stripes(|data|));
  }

  // ---------- the same, byte by byte ----------

  lemma {:induction false} LowBitsOfBytes(s: seq<byte>, t: seq<byte>)
    requires |s| == |t| >= 1
    ensures var half := 128 * Radix(|s| - 1);
            var last := |s| - 1;
            FromLE(s) % half == FromLE(t) % half <==> s[..last] == t[..last] && s[last] % 128 == t[last] % 128
  {
    var last := |s| - 1;
    if last > 0 {
      LowBitsOfBytes(s[1..], t[1..]);
      var half := 128 * Radix(last - 1);
      ScaledMod(s[0], FromLE(s[1..]), half);
      ScaledMod(t[0], FromLE(t[1..]), half);
      assert s[..last] == [s[0]] + s[1..][..last - 1];
      assert t[..last] == [t[0]] + t[1..][..last - 1];
    }
  }

  lemma ScaledMod(d: byte, n: nat, half: nat)
    requires half > 0
    ensures (d + 256 * n) % (256 * half) == d + 256 * (n % half)
  {
    var q, r := n / half, n % half;
    assert d + 256 * n == d + 256 * r + (256 * half) * q;
    ModUnique(d + 256 * n, 256 * half, q, d + 256 * r);
  }

  /**
   * Exactly when a change of a single byte is invisible: it lies after the last stripe, or it
   * flips nothing but the top bit of the last byte of a word.
   */
  lemma ByteCollision(x: seq<byte>, y: seq<byte>, seed: u64, p: nat)
    requires |x| == |y| && p < |x| && x[p] != y[p]
    requires forall i :: 0 <= i < |x| && i != p ==> x[i] == y[i]
    ensures Hash(x, seed) == Hash(y, seed) <==>
            p >= 32 * Stripes(|x|) || (p % 8 == 7 && x[p] % 128 == y[p] % 128)
  {
    hide Hash;
    var k := p / 8;
    forall i | 0 <= i < ConsumedWords(|x|) && i != k
      ensures Load(x, i) == Load(y, i)
    {
      assert x[8 * i..8 * i + 8] == y[8 * i..8 * i + 8];
    }
    if p < 32 * Stripes(|x|) {
      WordCollision(x, y, seed, k);
      LowByteOfWord(x, y, k, p - 8 * k);
    } else {
      HashSeesLowBitsOnly(x, y, seed);
    }
  }

  lemma LowByteOfWord(x: seq<byte>, y: seq<byte>, k: nat, r: nat)
    requires |x| == |y| && 8 * k + 8 <= |x| && r < 8 && x[8 * k + r] != y[8 * k + r]
    requires forall i :: 0 <= i < |x| && i != 8 * k + r ==> x[i] == y[i]
    ensures SameLow63(Load(x, k), Load(y, k)) <==> r == 7 && x[8 * k + 7] % 128 == y[8 * k + 7] % 128
  {
    var s, t := x[8 * k..8 * k + 8], y[8 * k..8 * k + 8];
    LowBitsOfBytes(s, t);
    HalfWord();
    assert s[r] != t[r];
    if r == 7 { assert s[..7] == t[..7]; } else { assert s[..7][r] != t[..7][r]; }
  }

  lemma HalfWord()
    ensures 128 * Radix(7) == 0x8000_0000_0000_0000
  {
    Radices();
    assert Radix(8) == 256 * Radix(7);
  }

  /** In a full 1 MB block the last 32 bytes never influence the hash. */
  lemma TailBlindSpot(x: seq<byte>, y: seq<byte>, seed: u64)
    requires |x| == |y| == 0x10_0000
    requires x[..0x10_0000 - 32] == y[..0x10_0000 - 32]
    ensures Hash(x, seed) == Hash(y, seed)
  {
    hide Hash, FromLE;
    forall i | 0 <= i < ConsumedWords(|x|)
      ensures SameLow63(Load(x, i), Load(y, i))
    {
      SameSlice(x, y, 0x10_0000 - 32, 8 * i, 8 * i + 8);
    }
    HashSeesLowBitsOnly(x, y, seed);
  }

  lemma SameSlice(x: seq<byte>, y: seq<byte>, cut: nat, a: nat, b: nat)
    requires cut <= |x| == |y| && x[..cut] == y[..cut] && a <= b <= cut
    ensures x[a..b] == y[a..b]
  {
    forall k | a <= k < b
      ensures x[k] == y[k]
    {
      assert x[..cut][k] == y[..cut][k];
    }
  }
}
