// Adler-32 with the modulo deferred, and zlib streams (RFC 1950;
// crates/posh-term/src/inflate.rs).

module Zlib {
  import opened Wrappers
  import opened Bytes
  import opened Bits
  import opened Inflate
  import opened DeflateStream
  import opened DeflateSound

  // --- the checksum -----------------------------------------------------------------

  const MOD := 65521
  const NMAX := 5552

  type U32 = n: nat | n < 0x1_0000_0000

  /** One plus the bytes, modulo 65521 (section 8.2 of RFC 1950). */
  function SumA(data: seq<Byte>): (a: nat)
    ensures a < MOD
  {
    if data == [] then 1 else (SumA(data[..|data| - 1]) + data[|data| - 1]) % MOD
  }

  /** The running sum of the sums, modulo 65521. */
  function SumB(data: seq<Byte>): (b: nat)
    ensures b < MOD
  {
    if data == [] then 0 else (SumB(data[..|data| - 1]) + SumA(data)) % MOD
  }

  function Adler(data: seq<Byte>): (r: U32) {
    SumB(data) * 0x1_0000 + SumA(data)
  }

  function ByteSum(data: seq<Byte>): nat {
    if data == [] then 0 else data[0] as nat + ByteSum(data[1..])
  }

  /** Every byte as often as there are bytes from it on. */
  function WeightedSum(data: seq<Byte>): nat {
    if data == [] then 0 else |data| * data[0] as nat + WeightedSum(data[1..])
  }

  lemma {:induction false} SumsSnoc(data: seq<Byte>, b: Byte)
    ensures ByteSum(data + [b]) == ByteSum(data) + b
    ensures WeightedSum(data + [b]) == WeightedSum(data) + ByteSum(data) + b
    decreases |data|
  {
    if data == [] {
      assert data + [b] == [b] && [b][1..] == [];
    } else {
      SumsSnoc(data[1..], b);
      assert (data + [b])[1..] == data[1..] + [b];
      assert (|data| + 1) * data[0] as nat == |data| * data[0] as nat + data[0];
    }
  }

  lemma {:induction false} SumsAre(data: seq<Byte>)
    ensures SumA(data) == (1 + ByteSum(data)) % MOD && SumB(data) == (|data| + WeightedSum(data)) % MOD
    decreases |data|
  {
    hide ByteSum, WeightedSum, SumA, SumB;
    SumsNone();
    NoSums();
    if data != [] {
      var n := |data| - 1;
      SumsAre(data[..n]);
      SumsNext(data, n);
      assert data[..n + 1] == data && data[..n] + [data[n]] == data;
      SumsSnoc(data[..n], data[n]);
      ModSums(SumA(data[..n]), 1 + ByteSum(data[..n]), data[n], SumB(data[..n]), n + WeightedSum(data[..n]));
    }
  }

  lemma ModSums(a: nat, x: nat, d: nat, b: nat, y: nat)
    requires a == x % MOD && b == y % MOD
    ensures (a + d) % MOD == (x + d) % MOD
    ensures (b + (a + d) % MOD) % MOD == (y + (x + d)) % MOD
  {
    ModAdd(x, d);
    ModAdd(y, (a + d) % MOD);
    ModAdd(x + d, y);
  }

  /** The two halves of the checksum: one plus the bytes, and their number plus each
      byte weighted by its place from the end, modulo 65521. */
  lemma AdlerHalves(data: seq<Byte>)
    ensures Adler(data) % 0x1_0000 == (1 + ByteSum(data)) % 65521
    ensures Adler(data) / 0x1_0000 == (|data| + WeightedSum(data)) % 65521
  {
    hide ByteSum, WeightedSum, SumA, SumB;
    SumsAre(data);
  }

  lemma NoSums()
    ensures ByteSum([]) == 0 && WeightedSum([]) == 0
  {
  }

  /** The most that `b` can be after `k` bytes of a chunk. */
  function Peak(k: nat): nat {
    if k == 0 then MOD - 1 else Peak(k - 1) + (MOD - 1) + 255 * k
  }

  lemma {:induction false} PeakIs(k: nat)
    ensures 2 * Peak(k) == 2 * (MOD - 1) * (k + 1) + 255 * (k * (k + 1))
    decreases k
  {
    if k > 0 {
      PeakIs(k - 1);
      assert k * (k + 1) == (k - 1) * k + 2 * k;
    }
  }

  lemma {:induction false} PeakGrows(j: nat, k: nat)
    requires j <= k
    ensures Peak(j) <= Peak(k)
    decreases k
  {
    if j < k {
      PeakGrows(j, k - 1);
    }
  }

  /** 5552 bytes are the most whose sums fit in 32 bits. */
  lemma ChunkFits(k: nat)
    requires k <= NMAX
    ensures MOD - 1 + 255 * k < 0x1_0000_0000 && Peak(k) < 0x1_0000_0000
    ensures Peak(NMAX + 1) >= 0x1_0000_0000
  {
    PeakIs(NMAX);
    PeakIs(NMAX + 1);
    PeakGrows(k, NMAX);
  }

  lemma SumsNext(data: seq<Byte>, i: nat)
    requires i < |data|
    ensures SumA(data[..i + 1]) == (SumA(data[..i]) + data[i]) % MOD
    ensures SumB(data[..i + 1]) == (SumB(data[..i]) + SumA(data[..i + 1])) % MOD
  {
    assert data[..i + 1][..i] == data[..i];
  }

  /** The sums so far, from the last modulo at `from`. */
  predicate Running(data: seq<Byte>, from: nat, i: nat, a: nat, b: nat)
    requires from <= i <= |data|
  {
    && a % MOD == SumA(data[..i]) && b % MOD == SumB(data[..i])
    && a <= MOD - 1 + 255 * (i - from) && b <= Peak(i - from)
  }

  lemma StepSums(data: seq<Byte>, from: nat, i: nat, a: nat, b: nat)
    requires from <= i < |data| && i - from < NMAX && Running(data, from, i, a, b)
    ensures var x := a + data[i];
            Running(data, from, i + 1, x, b + x) && x < 0x1_0000_0000 && b + x < 0x1_0000_0000
  {
    hide SumA, SumB, Peak;
    ChunkFits(i + 1 - from);
    PeakNext(i - from);
    SumsNext(data, i);
    ModAdd(a, data[i]);
    ModAdd(b, a + data[i]);
    ModAdd(a + data[i], b % MOD);
  }

  lemma ModAdd(a: nat, x: nat)
    ensures (a + x) % MOD == (a % MOD + x) % MOD
  {
  }

  lemma StartSums(data: seq<Byte>, i: nat, a: nat, b: nat)
    requires i <= |data| && a == SumA(data[..i]) && b == SumB(data[..i])
    ensures Running(data, i, i, a, b)
  {
  }

  lemma ReducedSums(data: seq<Byte>, from: nat, i: nat, a: nat, b: nat)
    requires from <= i <= |data| && Running(data, from, i, a, b)
    ensures a % MOD == SumA(data[..i]) && b % MOD == SumB(data[..i])
  {
  }

  /** The checksum, taking the modulo once a chunk; no sum leaves 32 bits. */
  method Adler32(data: seq<Byte>) returns (r: U32)
    ensures r == Adler(data)
  {
    hide SumA, SumB, Running;
    var a: U32, b: U32 := 1, 0;
    var i := 0;
    SumsNone();
    assert data[..0] == [];
    while i < |data|
      invariant i <= |data| && a == SumA(data[..i]) && b == SumB(data[..i])
    {
      var end := if i + NMAX < |data| then i + NMAX else |data|;
      ghost var from := i;
      StartSums(data, i, a, b);
      while i < end
        invariant from <= i <= end && Running(data, from, i, a, b)
      {
        StepSums(data, from, i, a, b);
        a := a + data[i];
        b := b + a;
        i := i + 1;
      }
      ReducedSums(data, from, i, a, b);
      a := a % MOD;
      b := b % MOD;
    }
    assert data[..i] == data;
    return b * 0x1_0000 + a;
  }

  lemma SumsNone()
    ensures SumA([]) == 1 && SumB([]) == 0 && Peak(0) == MOD - 1
  {
  }

  lemma PeakNext(k: nat)
    ensures Peak(k + 1) == Peak(k) + (MOD - 1) + 255 * (k + 1)
    ensures Peak(0) == MOD - 1 && Peak(k) >= MOD - 1
    decreases k
  {
    if k > 0 {
      PeakNext(k - 1);
    }
  }

  // --- the container -------------------------------------------------------------------

  function BigEndian(a: Byte, b: Byte, c: Byte, d: Byte): U32 {
    ((a * 256 + b) * 256 + c) * 256 + d
  }

  function BigEndianBytes(v: U32): (r: seq<Byte>)
    ensures |r| == 4 && BigEndian(r[0], r[1], r[2], r[3]) == v
  {
    var a := v / 256;
    var b := a / 256;
    [b / 256, b % 256, a % 256, v % 256]
  }

  /** Compression method 8, a good check value, no preset dictionary. */
  predicate GoodHeader(cmf: Byte, flg: Byte) {
    cmf % 16 == 8 && (cmf * 256 + flg) % 31 == 0 && !Bit(flg, 5)
  }

  /** The header: deflate, no preset dictionary, a multiple of 31; and the trailer's
      four bytes, most significant first. */
  lemma HeaderMeans(cmf: Byte, flg: Byte, a: Byte, b: Byte, c: Byte, d: Byte)
    ensures GoodHeader(cmf, flg) <==> cmf % 16 == 8 && (flg / 32) % 2 == 0 && (256 * cmf as nat + flg) % 31 == 0
    ensures BigEndian(a, b, c, d) == 0x100_0000 * a as nat + 0x1_0000 * b as nat + 0x100 * c as nat + d as nat
  {
    var v: nat := flg;
    assert Bit(v, 5) == Bit(v / 2, 4) == Bit(v / 4, 3) == Bit(v / 8, 2) == Bit(v / 16, 1) == Bit(v / 32, 0);
  }

  ghost function Unzlib(data: seq<Byte>, limit: nat): Inflated<seq<Byte>> {
    if |data| < 2 then Err(Truncated)
    else if !GoodHeader(data[0], data[1]) then Err(BadHeader)
    else
      match Stream(data[2..], 0, [], limit)
      case Bad(e) => Err(e)
      case Got(out, p) =>
        var rest, used := data[2..], (p + 7) / 8;
        if used + 4 > |rest| then Err(Truncated)
        else if Adler(out) != BigEndian(rest[used], rest[used + 1], rest[used + 2], rest[used + 3]) then Err(BadChecksum)
        else Ok(out)
  }

  /** Decompress a zlib stream and check its trailer. */
  method ZlibDecompress(data: seq<Byte>, limit: nat) returns (res: Inflated<seq<Byte>>)
    ensures res == Unzlib(data, limit)
  {
    hide Stream, Adler, Bit, BigEndian;
    if |data| < 2 {
      return Err(Truncated);
    }
    var header: int := data[0] as int * 256 + data[1];
    if data[0] % 16 != 8 || header % 31 != 0 || Bit(data[1], 5) {
      return Err(BadHeader);
    }
    var rest := data[2..];
    var inflated := Inflate.Inflate(rest, limit);
    if inflated.Err? {
      return Err(inflated.error);
    }
    var (out, used) := inflated.value;
    if used + 4 > |rest| {
      return Err(Truncated);
    }
    var sum := Adler32(out);
    if sum != BigEndian(rest[used], rest[used + 1], rest[used + 2], rest[used + 3]) {
      return Err(BadChecksum);
    }
    return Ok(out);
  }

  /** A zlib stream made from blocks, its checksum behind them, decompresses to
      what it was made from; any other checksum is refused. */
  lemma ZlibDecodes(cmf: Byte, flg: Byte, body: seq<Byte>, sum: U32, tail: seq<Byte>, cs: seq<Chunk>, limit: nat)
    requires GoodHeader(cmf, flg) && ChunksOk(cs, 0, [])
    requires ChunksBits(cs, 0, []) <= BitsOf(body) && |body| == (|ChunksBits(cs, 0, [])| + 7) / 8
    ensures var out := ChunksOut(cs, 0, []);
            Unzlib([cmf, flg] + (body + (BigEndianBytes(sum) + tail)), limit) ==
            if |out| > limit then Err(TooLarge) else if sum == Adler(out) then Ok(out) else Err(BadChecksum)
  {
    hide Stream, Adler, BitsOf, GoodHeader, ChunksOk, ChunksBits, ChunksOut;
    var rest := body + (BigEndianBytes(sum) + tail);
    var data := [cmf, flg] + rest;
    assert data[2..] == rest;
    BodyBits(body, BigEndianBytes(sum) + tail, ChunksBits(cs, 0, []));
    StreamDecodes(rest, 0, [], limit, cs);
    assert rest[|body|..][..4] == BigEndianBytes(sum);
    assert forall k :: 0 <= k < 4 ==> rest[|body| + k] == BigEndianBytes(sum)[k];
  }

  /** The four bytes at `at` spell `sum`, most significant first. */
  predicate Trailed(rest: seq<Byte>, at: nat, sum: U32) {
    at + 4 <= |rest| && BigEndian(rest[at], rest[at + 1], rest[at + 2], rest[at + 3]) == sum
  }

  /** A good header, blocks made from `out`, and behind their last byte the
      checksum of `out`. */
  ghost predicate ZlibOf(data: seq<Byte>, out: seq<Byte>) {
    && |data| >= 2 && GoodHeader(data[0], data[1])
    && exists used: nat :: Encodes(data[2..], out, used) && Trailed(data[2..], (used + 7) / 8, Adler(out))
  }

  /** Decompression accepts exactly the zlib streams within the limit, and gives
      what each was made from. */
  lemma ZlibExactly(data: seq<Byte>, out: seq<Byte>, limit: nat)
    ensures Unzlib(data, limit) == Ok(out) <==> ZlibOf(data, out) && |out| <= limit
  {
    hide Stream, Adler, Encodes, GoodHeader;
    if |data| >= 2 {
      var rest := data[2..];
      if Unzlib(data, limit) == Ok(out) {
        InflatesExactly(rest, out, Stream(rest, 0, [], limit).pos, limit);
        assert Trailed(rest, (Stream(rest, 0, [], limit).pos + 7) / 8, Adler(out));
      }
      if ZlibOf(data, out) && |out| <= limit {
        var used: nat :| Encodes(rest, out, used) && Trailed(rest, (used + 7) / 8, Adler(out));
        InflatesExactly(rest, out, used, limit);
      }
    }
  }

  lemma BodyBits(body: seq<Byte>, rest: seq<Byte>, s: seq<bool>)
    requires s <= BitsOf(body)
    ensures At(BitsOf(body + rest), 0, s)
  {
    assert (body + rest)[0..|body|] == body;
    SliceBits(body + rest, 0, |body|);
  }
}
