// Strings of bits: the numbers they spell in either order, the bits of a byte
// string, and reading from a position (section 3.1.1 of RFC 1951).

module Bytes {
  type Byte = n: nat | n < 256
}

module Bits {
  import opened Bytes

  function Pow2(n: nat): (p: nat)
    ensures p >= 1
  {
    if n == 0 then 1 else 2 * Pow2(n - 1)
  }

  /** The number that a string of bits spells, most significant bit first. */
  function Num(bits: seq<bool>): nat {
    if bits == [] then 0 else 2 * Num(bits[..|bits| - 1]) + if bits[|bits| - 1] then 1 else 0
  }

  /** The `n` bits that spell `v`, most significant first. */
  function Msb(v: nat, n: nat): (bits: seq<bool>)
    ensures |bits| == n
  {
    if n == 0 then [] else Msb(v / 2, n - 1) + [v % 2 == 1]
  }

  lemma {:induction false} NumMsb(v: nat, n: nat)
    requires v < Pow2(n)
    ensures Num(Msb(v, n)) == v
    decreases n
  {
    if n > 0 {
      NumMsb(v / 2, n - 1);
      assert Msb(v, n)[..n - 1] == Msb(v / 2, n - 1);
    }
  }

  lemma {:induction false} MsbNum(bits: seq<bool>)
    ensures Num(bits) < Pow2(|bits|) && Msb(Num(bits), |bits|) == bits
    decreases |bits|
  {
    if bits != [] {
      MsbNum(bits[..|bits| - 1]);
      assert bits == bits[..|bits| - 1] + [bits[|bits| - 1]];
    }
  }

  // --- least significant bit first -------------------------------------------------

  function Lsb(bits: seq<bool>): nat {
    if bits == [] then 0 else Lsb(bits[..|bits| - 1]) + if bits[|bits| - 1] then Pow2(|bits| - 1) else 0
  }

  function LsbBits(v: nat, n: nat): (bits: seq<bool>)
    requires v < Pow2(n)
    ensures |bits| == n
  {
    if n == 0 then []
    else if v >= Pow2(n - 1) then LsbBits(v - Pow2(n - 1), n - 1) + [true]
    else LsbBits(v, n - 1) + [false]
  }

  lemma LsbSnoc(a: seq<bool>, x: bool)
    ensures Lsb(a + [x]) == Lsb(a) + if x then Pow2(|a|) else 0
    ensures Lsb([]) == 0
  {
    assert (a + [x])[..|a|] == a;
  }

  lemma {:induction false} LsbOf(v: nat, n: nat)
    requires v < Pow2(n)
    ensures Lsb(LsbBits(v, n)) == v
    decreases n
  {
    hide Lsb;
    if n == 0 {
      LsbSnoc([], false);
    } else {
      var w := if v >= Pow2(n - 1) then v - Pow2(n - 1) else v;
      LsbOf(w, n - 1);
      LsbSnoc(LsbBits(w, n - 1), v >= Pow2(n - 1));
    }
  }

  lemma {:induction false} OfLsb(bits: seq<bool>)
    ensures Lsb(bits) < Pow2(|bits|) && LsbBits(Lsb(bits), |bits|) == bits
    decreases |bits|
  {
    if bits != [] {
      OfLsb(bits[..|bits| - 1]);
      assert bits == bits[..|bits| - 1] + [bits[|bits| - 1]];
    }
  }

  // --- bytes ---------------------------------------------------------------------------

  /** Bit `i` of `b`, counted from the least significant. */
  function Bit(b: nat, i: nat): bool {
    if i == 0 then b % 2 == 1 else Bit(b / 2, i - 1)
  }

  /** The bits of a byte string, each byte least significant bit first. */
  function BitsOf(data: seq<Byte>): (bits: seq<bool>)
    ensures |bits| == 8 * |data|
    ensures forall k :: 0 <= k < |bits| ==> bits[k] == Bit(data[k / 8], k % 8)
  {
    seq(8 * |data|, k requires 0 <= k < 8 * |data| => Bit(data[k / 8], k % 8))
  }

  /** A number is known by its bits. */
  lemma {:induction false} SameBits(a: nat, b: nat, n: nat)
    requires a < Pow2(n) && b < Pow2(n) && forall i :: 0 <= i < n ==> Bit(a, i) == Bit(b, i)
    ensures a == b
    decreases n
  {
    if n > 0 {
      assert Bit(a, 0) == Bit(b, 0);
      forall i | 0 <= i < n - 1
        ensures Bit(a / 2, i) == Bit(b / 2, i)
      {
        assert Bit(a, i + 1) == Bit(b, i + 1);
      }
      SameBits(a / 2, b / 2, n - 1);
    }
  }

  lemma EightBits()
    ensures Pow2(8) == 256
  {
    assert Pow2(4) == 16;
  }

  lemma ByteBits(a: seq<Byte>, b: seq<Byte>)
    requires BitsOf(a) == BitsOf(b)
    ensures a == b
  {
    hide Bit;
    assert |BitsOf(a)| == |BitsOf(b)|;
    forall k | 0 <= k < |a|
      ensures a[k] == b[k]
    {
      forall i | 0 <= i < 8
        ensures Bit(a[k], i) == Bit(b[k], i)
      {
        assert (8 * k + i) / 8 == k && (8 * k + i) % 8 == i;
        assert BitsOf(a)[8 * k + i] == BitsOf(b)[8 * k + i];
      }
      EightBits();
      SameBits(a[k], b[k], 8);
    }
  }

  lemma SliceBits(data: seq<Byte>, i: nat, j: nat)
    requires i <= j <= |data|
    ensures BitsOf(data[i..j]) == BitsOf(data)[8 * i..8 * j]
  {
    hide Bit;
    forall k | 0 <= k < 8 * (j - i)
      ensures BitsOf(data[i..j])[k] == BitsOf(data)[8 * i + k]
    {
      assert (8 * i + k) / 8 == i + k / 8 && (8 * i + k) % 8 == k % 8;
    }
  }

  // --- reading --------------------------------------------------------------------------

  /** `s` stands at `pos`. */
  predicate At(bits: seq<bool>, pos: nat, s: seq<bool>) {
    pos + |s| <= |bits| && bits[pos..pos + |s|] == s
  }

  lemma AtSplit(bits: seq<bool>, pos: nat, a: seq<bool>, b: seq<bool>)
    ensures At(bits, pos, a + b) <==> At(bits, pos, a) && At(bits, pos + |a|, b)
  {
    if At(bits, pos, a + b) {
      assert bits[pos..pos + |a + b|][..|a|] == a;
      assert bits[pos..pos + |a + b|][|a|..] == b;
    }
  }
}
