// DEFLATE decompression (crates/posh-term/src/inflate.rs): what each reader
// returns, as functions of the bits, and the reader itself.

module Inflate {
  import opened Wrappers
  import opened Bytes
  import opened Bits
  import opened Huffman

  datatype Error =
    | Truncated | BadHeader | BadBlockType | BadStoredLength | BadHuffman
    | BadSymbol | BadDistance | BadChecksum | TooLarge

  type Inflated<T> = Result<T, Error>

  /** What a read finds and where it stops. */
  datatype Read<T> = Got(value: T, pos: nat) | Bad(error: Error)

  // --- bits and codes -------------------------------------------------------------

  function ReadBits(bits: seq<bool>, pos: nat, n: nat): (r: Read<nat>)
    ensures r.Got? ==> r.pos == pos + n <= |bits| && r.value < Pow2(n)
    ensures r.Got? <==> pos + n <= |bits|
  {
    if pos + n <= |bits| then
      OfLsb(bits[pos..pos + n]);
      Got(Lsb(bits[pos..pos + n]), pos + n)
    else Bad(Truncated)
  }

  /** The code of `sym` stands at `pos`. */
  predicate CodeAt(lengths: seq<nat>, bits: seq<bool>, pos: nat, sym: nat) {
    sym < |lengths| && lengths[sym] != 0 && At(bits, pos, Code(lengths, sym))
  }

  /** At most one code stands there. */
  lemma OneCode(lengths: seq<nat>, bits: seq<bool>, pos: nat, s: nat, t: nat)
    requires Accepted(lengths) && CodeAt(lengths, bits, pos, s) && CodeAt(lengths, bits, pos, t)
    ensures s == t
  {
    if s != t {
      var a, b := Code(lengths, s), Code(lengths, t);
      assert bits[pos..pos + |a|] == a && bits[pos..pos + |b|] == b;
      assert a <= b || b <= a;
      PrefixFree(lengths, s, t);
      PrefixFree(lengths, t, s);
    }
  }

  /** The symbol whose code stands at `pos`; none is an error, told apart by
      whether the longest code still fits in the input. */
  ghost function ReadCode(lengths: seq<nat>, bits: seq<bool>, pos: nat): (r: Read<nat>)
    ensures r.Got? ==> CodeAt(lengths, bits, pos, r.value) && r.pos == pos + lengths[r.value] && pos < r.pos <= |bits|
  {
    if exists s: nat :: CodeAt(lengths, bits, pos, s) then
      var s: nat :| CodeAt(lengths, bits, pos, s);
      Got(s, pos + lengths[s])
    else if pos + MAX_LEN <= |bits| then Bad(BadSymbol)
    else Bad(Truncated)
  }

  /** Reading finds a code exactly where one stands. */
  lemma ReadCodeIs(lengths: seq<nat>, bits: seq<bool>, pos: nat, sym: nat)
    requires Accepted(lengths)
    ensures CodeAt(lengths, bits, pos, sym) <==>
            sym < |lengths| && ReadCode(lengths, bits, pos) == Got(sym, pos + lengths[sym])
  {
    hide Code, Kraft;
    if CodeAt(lengths, bits, pos, sym) {
      OneCode(lengths, bits, pos, sym, ReadCode(lengths, bits, pos).value);
    }
  }

  /** The first `n` bits at `pos` spell a number past every code so far. */
  predicate PastCodes(lengths: seq<nat>, bits: seq<bool>, pos: nat, n: nat)
    requires pos + n <= |bits|
  {
    forall l :: 0 <= l <= n ==> Num(bits[pos..pos + l]) >= Used(lengths, l)
  }

  lemma NumSnoc(bits: seq<bool>, pos: nat, n: nat)
    requires pos + n < |bits|
    ensures Num(bits[pos..pos + n + 1]) == 2 * Num(bits[pos..pos + n]) + if bits[pos + n] then 1 else 0
  {
    assert bits[pos..pos + n + 1][..n] == bits[pos..pos + n];
  }

  /** No code stands where the bits are past every code that could fit. */
  lemma NoCode(lengths: seq<nat>, bits: seq<bool>, pos: nat, n: nat)
    requires Accepted(lengths) && pos + n <= |bits| && PastCodes(lengths, bits, pos, n)
    requires n == MAX_LEN || pos + n == |bits|
    ensures ReadCode(lengths, bits, pos) == Bad(if pos + MAX_LEN <= |bits| then BadSymbol else Truncated)
  {
    hide Code, Used;
    forall s: nat | CodeAt(lengths, bits, pos, s)
      ensures false
    {
      assert bits[pos..pos + lengths[s]] == Code(lengths, s);
      CodeNum(lengths, s);
    }
  }

  /** A code is complete when the number falls among the codes of its length. */
  lemma CodeFound(lengths: seq<nat>, h: Table, bits: seq<bool>, pos: nat, n: nat)
    requires Accepted(lengths) && Built(h, lengths) && 1 <= n && pos + n <= |bits|
    requires First(lengths, n) <= Num(bits[pos..pos + n]) < Used(lengths, n)
    ensures var i := Offset(lengths, n) + Num(bits[pos..pos + n]) - First(lengths, n);
            i < |h.symbols| && ReadCode(lengths, bits, pos) == Got(h.symbols[i], pos + n)
  {
    hide Code, Used, First, Offset, Num, Rank, Count, Coded, Kraft, ReadCode;
    var s := IsCode(lengths, bits[pos..pos + n]);
    ReadCodeIs(lengths, bits, pos, s);
  }

  // --- one compressed block ---------------------------------------------------------

  const LENGTH_BASE: seq<nat> := [
    3, 4, 5, 6, 7, 8, 9, 10, 11, 13, 15, 17, 19, 23, 27, 31, 35, 43, 51, 59, 67, 83, 99, 115, 131,
    163, 195, 227, 258]
  const LENGTH_EXTRA: seq<nat> := [
    0, 0, 0, 0, 0, 0, 0, 0, 1, 1, 1, 1, 2, 2, 2, 2, 3, 3, 3, 3, 4, 4, 4, 4, 5, 5, 5, 5, 0]
  const DIST_BASE: seq<nat> := [
    1, 2, 3, 4, 5, 7, 9, 13, 17, 25, 33, 49, 65, 97, 129, 193, 257, 385, 513, 769, 1025, 1537,
    2049, 3073, 4097, 6145, 8193, 12289, 16385, 24577]
  const DIST_EXTRA: seq<nat> := [
    0, 0, 0, 0, 1, 1, 2, 2, 3, 3, 4, 4, 5, 5, 6, 6, 7, 7, 8, 8, 9, 9, 10, 10, 11, 11, 12, 12, 13, 13]

  const END_OF_BLOCK := 256

  function LenBase(sym: nat): nat
    requires END_OF_BLOCK < sym <= 285
  {
    LENGTH_BASE[sym - 257]
  }

  function LenExtra(sym: nat): nat
    requires END_OF_BLOCK < sym <= 285
  {
    LENGTH_EXTRA[sym - 257]
  }

  function DistBase(sym: nat): (d: nat)
    requires sym < 30
    ensures d >= 1
  {
    DIST_BASE[sym]
  }

  function DistExtra(sym: nat): nat
    requires sym < 30
  {
    DIST_EXTRA[sym]
  }

  /** `n` bytes copied from `d` back, one at a time, so ranges may overlap. */
  function Copied(out: seq<Byte>, d: nat, n: nat): (r: seq<Byte>)
    requires 1 <= d <= |out|
    ensures |r| == |out| + n && r[..|out|] == out
  {
    if n == 0 then out
    else var prev := Copied(out, d, n - 1); prev + [prev[|prev| - d]]
  }

  /** The length and distance that follow a length symbol. */
  ghost function ReadMatch(dist: seq<nat>, bits: seq<bool>, pos: nat, sym: nat): (r: Read<(nat, nat)>)
    requires END_OF_BLOCK < sym <= 285
    ensures r.Got? ==> pos <= r.pos <= |bits| && r.value.1 >= 1
  {
    match ReadBits(bits, pos, LenExtra(sym))
    case Bad(e) => Bad(e)
    case Got(le, p1) =>
      match ReadCode(dist, bits, p1)
      case Bad(e) => Bad(e)
      case Got(dsym, p2) =>
        if dsym >= 30 then Bad(BadSymbol) else
          match ReadBits(bits, p2, DistExtra(dsym))
          case Bad(e) => Bad(e)
          case Got(de, p3) => Got((LenBase(sym) + le, DistBase(dsym) + de), p3)
  }

  /** The output of a compressed block read from `pos`. */
  ghost function Block(lit: seq<nat>, dist: seq<nat>, bits: seq<bool>, pos: nat, out: seq<Byte>, limit: nat): (r: Read<seq<Byte>>)
    ensures r.Got? ==> pos < r.pos <= |bits| && out <= r.value && |r.value| <= Larger(|out|, limit)
    decreases |bits| - pos
  {
    match ReadCode(lit, bits, pos)
    case Bad(e) => Bad(e)
    case Got(sym, p) =>
      if sym < 256 then
        if |out| >= limit then Bad(TooLarge) else Block(lit, dist, bits, p, out + [sym], limit)
      else if sym == END_OF_BLOCK then Got(out, p)
      else if sym <= 285 then
        match ReadMatch(dist, bits, p, sym)
        case Bad(e) => Bad(e)
        case Got((len, d), q) =>
          if d > |out| then Bad(BadDistance)
          else if |out| + len > limit then Bad(TooLarge)
          else Block(lit, dist, bits, q, Copied(out, d, len), limit)
      else Bad(BadSymbol)
  }

  // --- the tables of a dynamic block ---------------------------------------------------

  const CLEN_ORDER: seq<nat> := [16, 17, 18, 0, 8, 7, 9, 6, 10, 5, 11, 4, 12, 3, 13, 2, 14, 1, 15]

  function Repeated(v: nat, n: nat): (r: seq<nat>)
    ensures |r| == n && forall i :: 0 <= i < n ==> r[i] == v
  {
    seq(n, i => v)
  }

  /** The code-length-code lengths, three bits each, in their own order. */
  function ReadClen(bits: seq<bool>, pos: nat, n: nat, k: nat, clen: seq<nat>): (r: Read<seq<nat>>)
    requires k <= n <= 19 && |clen| == 19
    ensures r.Got? ==> r.pos == pos + 3 * (n - k) <= |bits| && |r.value| == 19
    decreases n - k
  {
    if k == n then if pos <= |bits| then Got(clen, pos) else Bad(Truncated) else
      match ReadBits(bits, pos, 3)
      case Bad(e) => Bad(e)
      case Got(v, p) => ReadClen(bits, p, n, k + 1, clen[CLEN_ORDER[k] := v])
  }

  /** How many lengths a repeat symbol stands for: 3 to 6 copies of the last one,
      or 3 to 10 or 11 to 138 zeros. */
  function RunBits(sym: nat): nat { if sym == 16 then 2 else if sym == 17 then 3 else 7 }

  function RunBase(sym: nat): nat { if sym == 18 then 11 else 3 }

  /** A run of lengths behind a repeat symbol. */
  function ReadRun(bits: seq<bool>, pos: nat, sym: nat, n: nat, got: seq<nat>): (r: Read<seq<nat>>)
    ensures r.Got? ==> pos <= r.pos <= |bits| && |got| < |r.value| <= n && got <= r.value
  {
    if sym == 16 && got == [] then Bad(BadHuffman) else
      match ReadBits(bits, pos, RunBits(sym))
      case Bad(e) => Bad(e)
      case Got(v, q) =>
        if |got| + RunBase(sym) + v > n then Bad(BadHuffman)
        else Got(got + Repeated(if sym == 16 then got[|got| - 1] else 0, RunBase(sym) + v), q)
  }

  /** Code lengths read from `pos` until there are `n`. */
  ghost function ReadLengths(clen: seq<nat>, bits: seq<bool>, pos: nat, n: nat, got: seq<nat>): (r: Read<seq<nat>>)
    requires |got| <= n
    ensures r.Got? ==> pos <= r.pos && (|got| < n ==> r.pos <= |bits|) && |r.value| == n && got <= r.value
    decreases n - |got|
  {
    if |got| == n then Got(got, pos) else
      match ReadCode(clen, bits, pos)
      case Bad(e) => Bad(e)
      case Got(sym, p) =>
        if sym <= 15 then ReadLengths(clen, bits, p, n, got + [sym])
        else if sym <= 18 then
          match ReadRun(bits, p, sym, n, got)
          case Bad(e) => Bad(e)
          case Got(more, q) => ReadLengths(clen, bits, q, n, more)
        else Bad(BadHuffman)
  }

  /** The lengths of both codes of a dynamic block. */
  ghost function ReadTables(bits: seq<bool>, pos: nat): (r: Read<(seq<nat>, seq<nat>)>)
    ensures r.Got? ==> pos < r.pos <= |bits| && Accepted(r.value.0) && Accepted(r.value.1)
  {
    match ReadBits(bits, pos, 5)
    case Bad(e) => Bad(e)
    case Got(hlit, p1) =>
      match ReadBits(bits, p1, 5)
      case Bad(e) => Bad(e)
      case Got(hdist, p2) =>
        match ReadBits(bits, p2, 4)
        case Bad(e) => Bad(e)
        case Got(hclen, p3) =>
          FourBits();
          match ReadClen(bits, p3, hclen + 4, 0, Repeated(0, 19))
          case Bad(e) => Bad(e)
          case Got(clen, p4) => if !Accepted(clen) then Bad(BadHuffman) else ReadCodes(bits, p4, clen, hlit + 257, hdist + 1)
  }

  lemma FourBits()
    ensures Pow2(4) == 16
  {
    assert Pow2(2) == 4;
  }

  /** The lengths of both codes, behind the code-length code. */
  ghost function ReadCodes(bits: seq<bool>, pos: nat, clen: seq<nat>, nlit: nat, ndist: nat): (r: Read<(seq<nat>, seq<nat>)>)
    requires nlit >= 257 && pos <= |bits|
    ensures r.Got? ==> pos <= r.pos <= |bits| && Accepted(r.value.0) && Accepted(r.value.1)
  {
    match ReadLengths(clen, bits, pos, nlit + ndist, [])
    case Bad(e) => Bad(e)
    case Got(ls, q) =>
      if ls[END_OF_BLOCK] == 0 || !Accepted(ls[..nlit]) || !Accepted(ls[nlit..]) then Bad(BadHuffman)
      else Got((ls[..nlit], ls[nlit..]), q)
  }

  // --- the stream --------------------------------------------------------------------

  /** The fixed codes (section 3.2.6 of RFC 1951). */
  function FixedLit(): seq<nat> {
    Repeated(8, 144) + Repeated(9, 112) + Repeated(7, 24) + Repeated(8, 8)
  }

  function FixedDist(): seq<nat> {
    Repeated(5, 30)
  }

  lemma {:induction false} KraftRun(lengths: seq<nat>, v: nat, n: nat)
    requires 1 <= v <= MAX_LEN
    ensures Kraft(lengths + Repeated(v, n)) == Kraft(lengths) + n * Pow2(MAX_LEN - v)
    decreases n
  {
    hide Kraft, Pow2, Repeated;
    if n == 0 {
      assert lengths + Repeated(v, 0) == lengths;
    } else {
      KraftRun(lengths, v, n - 1);
      assert lengths + Repeated(v, n) == lengths + Repeated(v, n - 1) + [v];
      KraftSnoc(lengths + Repeated(v, n - 1), v);
      assert n * Pow2(MAX_LEN - v) == (n - 1) * Pow2(MAX_LEN - v) + Pow2(MAX_LEN - v);
    }
  }

  lemma KraftSnoc(lengths: seq<nat>, v: nat)
    requires 1 <= v <= MAX_LEN
    ensures Kraft(lengths + [v]) == Kraft(lengths) + Pow2(MAX_LEN - v)
  {
    assert (lengths + [v])[..|lengths|] == lengths;
  }

  lemma FixedKraft()
    ensures Kraft(FixedLit()) == 144 * Pow2(7) + 112 * Pow2(6) + 24 * Pow2(8) + 8 * Pow2(7)
    ensures Kraft(FixedDist()) == 30 * Pow2(10)
  {
    hide Kraft, Repeated;
    KraftNone();
    KraftRun([], 8, 144);
    assert [] + Repeated(8, 144) == Repeated(8, 144);
    KraftRun(Repeated(8, 144), 9, 112);
    KraftRun(Repeated(8, 144) + Repeated(9, 112), 7, 24);
    KraftRun(Repeated(8, 144) + Repeated(9, 112) + Repeated(7, 24), 8, 8);
    KraftRun([], 5, 30);
    assert [] + Repeated(5, 30) == Repeated(5, 30);
  }

  lemma KraftNone()
    ensures Kraft([]) == 0
  {
  }

  /** The fixed codes are codes: the literal one is complete. */
  lemma FixedAccepted()
    ensures Accepted(FixedLit()) && Kraft(FixedLit()) == Pow2(MAX_LEN)
    ensures |FixedLit()| == 288 && FixedLit()[END_OF_BLOCK] == 7
    ensures Accepted(FixedDist()) && |FixedDist()| == 30
  {
    hide Kraft;
    FixedKraft();
    Powers();
  }

  lemma Powers()
    ensures Pow2(6) == 64 && Pow2(7) == 128 && Pow2(8) == 256 && Pow2(10) == 1024 && Pow2(15) == 32768
  {
    FourBits();
    assert Pow2(6) == 64;
    assert Pow2(8) == 256;
    assert Pow2(10) == 1024;
    assert Pow2(12) == 4096;
    assert Pow2(14) == 16384;
  }

  function Aligned(pos: nat): nat {
    (pos + 7) / 8 * 8
  }

  /** A stored block: aligned, its length twice, then its bytes. */
  function Stored(data: seq<Byte>, pos: nat, out: seq<Byte>, limit: nat): (r: Read<seq<Byte>>)
    ensures r.Got? ==> pos < r.pos <= 8 * |data| && out <= r.value && |r.value| <= Larger(|out|, limit)
  {
    match ReadBits(BitsOf(data), Aligned(pos), 16)
    case Bad(e) => Bad(e)
    case Got(len, p1) =>
      match ReadBits(BitsOf(data), p1, 16)
      case Bad(e) => Bad(e)
      case Got(nlen, p2) => if !Complements(len, nlen, 16) then Bad(BadStoredLength) else StoredBytes(data, p2 / 8, len, out, limit)
  }

  function StoredBytes(data: seq<Byte>, start: nat, len: nat, out: seq<Byte>, limit: nat): (r: Read<seq<Byte>>)
    ensures r.Got? ==> 8 * start <= r.pos <= 8 * |data| && out <= r.value && |r.value| <= Larger(|out|, limit)
  {
    if |out| + len > limit then Bad(TooLarge)
    else if start + len > |data| then Bad(Truncated)
    else Got(out + data[start..start + len], 8 * (start + len))
  }

  /** The low `n` bits all differ. */
  predicate Complements(a: nat, b: nat, n: nat) {
    forall i :: 0 <= i < n ==> Bit(a, i) == !Bit(b, i)
  }

  /** Numbers of `n` bits are one's complements when they add up to all ones. */
  lemma {:induction false} ComplementSum(a: nat, b: nat, n: nat)
    requires a < Pow2(n) && b < Pow2(n)
    ensures Complements(a, b, n) <==> a + b == Pow2(n) - 1
    decreases n
  {
    if n > 0 {
      ComplementSum(a / 2, b / 2, n - 1);
      ComplementsHalf(a, b, n);
    }
  }

  lemma ComplementsHalf(a: nat, b: nat, n: nat)
    requires n > 0
    ensures Complements(a, b, n) <==> Complements(a / 2, b / 2, n - 1) && a % 2 + b % 2 == 1
  {
    if Complements(a, b, n) {
      assert Bit(a, 0) == !Bit(b, 0);
      forall i | 0 <= i < n - 1
        ensures Bit(a / 2, i) == !Bit(b / 2, i)
      {
        assert Bit(a, i + 1) == !Bit(b, i + 1);
      }
    }
    if Complements(a / 2, b / 2, n - 1) && a % 2 + b % 2 == 1 {
      forall i | 0 <= i < n
        ensures Bit(a, i) == !Bit(b, i)
      {
        assert i > 0 ==> Bit(a / 2, i - 1) == !Bit(b / 2, i - 1);
      }
    }
  }

  ghost function BlockOf(kind: nat, data: seq<Byte>, pos: nat, out: seq<Byte>, limit: nat): (r: Read<seq<Byte>>)
    ensures r.Got? ==> pos < r.pos <= 8 * |data| && out <= r.value && |r.value| <= Larger(|out|, limit)
  {
    match kind
    case 0 => Stored(data, pos, out, limit)
    case 1 => Block(FixedLit(), FixedDist(), BitsOf(data), pos, out, limit)
    case 2 =>
      (match ReadTables(BitsOf(data), pos)
       case Bad(e) => Bad(e)
       case Got((lit, dist), q) => Block(lit, dist, BitsOf(data), q, out, limit))
    case _ => Bad(BadBlockType)
  }

  /** The blocks from `pos` to the final one. */
  ghost function Stream(data: seq<Byte>, pos: nat, out: seq<Byte>, limit: nat): (r: Read<seq<Byte>>)
    ensures r.Got? ==> pos < r.pos <= 8 * |data| && out <= r.value && |r.value| <= Larger(|out|, limit)
    decreases 8 * |data| - pos
  {
    match ReadBits(BitsOf(data), pos, 1)
    case Bad(e) => Bad(e)
    case Got(last, p1) =>
      match ReadBits(BitsOf(data), p1, 2)
      case Bad(e) => Bad(e)
      case Got(kind, p2) =>
        match BlockOf(kind, data, p2, out, limit)
        case Bad(e) => Bad(e)
        case Got(o, q) => if last == 1 then Got(o, q) else Stream(data, q, o, limit)
  }

  // --- the reader -------------------------------------------------------------------

  predicate Agrees<T(==)>(r: Inflated<T>, pos: nat, spec: Read<T>) {
    match spec
    case Got(v, p) => r == Ok(v) && pos == p
    case Bad(e) => r == Err(e)
  }

  lemma TakeOne(bits: seq<bool>, pos: nat, i: nat)
    requires pos + i < |bits|
    ensures Lsb(bits[pos..pos + i + 1]) == Lsb(bits[pos..pos + i]) + if bits[pos + i] then Pow2(i) else 0
  {
    LsbSnoc(bits[pos..pos + i], bits[pos + i]);
    assert bits[pos..pos + i + 1] == bits[pos..pos + i] + [bits[pos + i]];
  }

  class BitReader {
    const data: seq<Byte>
    var pos: nat

    ghost predicate Valid()
      reads this
    {
      pos <= 8 * |data|
    }

    constructor (data: seq<Byte>)
      ensures Valid() && pos == 0 && this.data == data
    {
      this.data := data;
      pos := 0;
    }

    /** The next `n` bits as a number. */
    method Take(n: nat) returns (r: Inflated<nat>)
      requires Valid()
      modifies this
      ensures Valid() && pos >= old(pos) && Agrees(r, pos, ReadBits(BitsOf(data), old(pos), n))
    {
      hide Lsb, Bit;
      ghost var bits, p := BitsOf(data), pos;
      LsbSnoc([], false);
      assert bits[p..p + 0] == [];
      var out, i, scale := 0, 0, 1;
      while i < n
        invariant i <= n && pos == p + i <= |bits|
        invariant out == Lsb(bits[p..p + i]) && scale == Pow2(i)
      {
        if pos / 8 >= |data| {
          return Err(Truncated);
        }
        TakeOne(bits, p, i);
        assert bits[pos] == Bit(data[pos / 8], pos % 8);
        out := out + if Bit(data[pos / 8], pos % 8) then scale else 0;
        pos := pos + 1;
        i, scale := i + 1, 2 * scale;
      }
      return Ok(out);
    }

    /** Walk a canonical code one bit at a time. */
    method Decode(h: Table, ghost lengths: seq<nat>) returns (r: Inflated<nat>)
      requires Valid() && Accepted(lengths) && Built(h, lengths)
      modifies this
      ensures Valid() && pos >= old(pos) && Agrees(r, pos, ReadCode(lengths, BitsOf(data), old(pos)))
      ensures r.Ok? ==> r.value < |lengths| && pos > old(pos)
    {
      hide Num, First, Codes, Offset, BitsOf, ReadCode, Accepted, Lsb;
      ghost var bits, p := BitsOf(data), pos;
      NothingRead(lengths, bits, p);
      var code, first, index, len := 0, 0, 0, 1;
      while len <= MAX_LEN
        invariant 1 <= len <= MAX_LEN + 1 && pos == p + len - 1 <= |bits| && |bits| == 8 * |data|
        invariant PastCodes(lengths, bits, p, len - 1)
        invariant code == 2 * Num(bits[p..p + len - 1])
        invariant first == First(lengths, len) && index == Offset(lengths, len)
      {
        var bit := Take(1);
        if bit.Err? {
          NoCode(lengths, bits, p, len - 1);
          return Err(bit.error);
        }
        OneBit(bits, p + len - 1);
        NumSnoc(bits, p, len - 1);
        StepLength(lengths, bits, p, len);
        code := code + bit.value;
        var count := h.counts[len];
        if code < first + count {
          CodeFound(lengths, h, bits, p, len);
          return Ok(h.symbols[index + code - first]);
        }
        StepPast(lengths, bits, p, len);
        index := index + count;
        first := 2 * (first + count);
        code := 2 * code;
        len := len + 1;
      }
      NoCode(lengths, bits, p, MAX_LEN);
      return Err(BadSymbol);
    }
  }

  lemma NothingRead(lengths: seq<nat>, bits: seq<bool>, pos: nat)
    requires pos <= |bits|
    ensures PastCodes(lengths, bits, pos, 0) && Num(bits[pos..pos + 0]) == 0
    ensures First(lengths, 1) == 0 && Offset(lengths, 1) == 0
  {
  }

  lemma OneBit(bits: seq<bool>, pos: nat)
    requires pos < |bits|
    ensures ReadBits(bits, pos, 1) == Got(if bits[pos] then 1 else 0, pos + 1)
  {
    TakeOne(bits, pos, 0);
  }

  lemma StepLength(lengths: seq<nat>, bits: seq<bool>, pos: nat, len: nat)
    requires 1 <= len && pos + len <= |bits| && PastCodes(lengths, bits, pos, len - 1)
    ensures Num(bits[pos..pos + len]) >= First(lengths, len)
    ensures Offset(lengths, len + 1) == Offset(lengths, len) + Codes(lengths, len)
    ensures First(lengths, len + 1) == 2 * (First(lengths, len) + Codes(lengths, len))
    ensures Used(lengths, len) == First(lengths, len) + Codes(lengths, len)
  {
    NumSnoc(bits, pos, len - 1);
    assert Num(bits[pos..pos + (len - 1)]) >= Used(lengths, len - 1);
  }

  lemma StepPast(lengths: seq<nat>, bits: seq<bool>, pos: nat, len: nat)
    requires 1 <= len && pos + len <= |bits| && PastCodes(lengths, bits, pos, len - 1)
    requires Num(bits[pos..pos + len]) >= Used(lengths, len)
    ensures PastCodes(lengths, bits, pos, len)
  {
  }

  // --- the decompressor ---------------------------------------------------------------

  /** `n` bytes from `d` back, byte by byte. */
  method CopyBack(out0: seq<Byte>, d: nat, n: nat) returns (out: seq<Byte>)
    requires 1 <= d <= |out0|
    ensures out == Copied(out0, d, n)
  {
    out := out0;
    var i := 0;
    while i < n
      invariant i <= n && out == Copied(out0, d, i)
    {
      out := out + [out[|out| - d]];
      i := i + 1;
    }
  }

  /** The length and distance that follow a length symbol. */
  method TakeMatch(r: BitReader, sym: nat, dist: Table, ghost dl: seq<nat>) returns (res: Inflated<(nat, nat)>)
    requires END_OF_BLOCK < sym <= 285
    requires r.Valid() && Accepted(dl) && Built(dist, dl)
    modifies r
    ensures r.Valid() && r.pos >= old(r.pos) && Agrees(res, r.pos, ReadMatch(dl, BitsOf(r.data), old(r.pos), sym))
  {
    hide ReadBits, ReadCode, BitsOf, Accepted, Built, LenBase, LenExtra, DistBase, DistExtra;
    var le := r.Take(LenExtra(sym));
    if le.Err? {
      return Err(le.error);
    }
    var dsym := r.Decode(dist, dl);
    if dsym.Err? {
      return Err(dsym.error);
    }
    if dsym.value >= 30 {
      return Err(BadSymbol);
    }
    var de := r.Take(DistExtra(dsym.value));
    if de.Err? {
      return Err(de.error);
    }
    return Ok((LenBase(sym) + le.value, DistBase(dsym.value) + de.value));
  }

  /** Decompress one compressed block. Every round takes at least one bit, so it
      ends. */
  method InflateCompressed(r: BitReader, out0: seq<Byte>, limit: nat, lit: Table, dist: Table,
                           ghost ll: seq<nat>, ghost dl: seq<nat>) returns (res: Inflated<seq<Byte>>)
    requires r.Valid() && Accepted(ll) && Built(lit, ll) && Accepted(dl) && Built(dist, dl)
    modifies r
    ensures r.Valid() && r.pos >= old(r.pos)
    ensures Agrees(res, r.pos, Block(ll, dl, BitsOf(r.data), old(r.pos), out0, limit))
  {
    hide ReadCode, ReadMatch, BitsOf, Accepted, Built, Copied;
    var out := out0;
    ghost var bits := BitsOf(r.data);
    ghost var goal := Block(ll, dl, bits, r.pos, out, limit);
    while true
      invariant r.Valid() && r.pos >= old(r.pos) && Block(ll, dl, bits, r.pos, out, limit) == goal
      decreases 8 * |r.data| - r.pos
    {
      var sym := r.Decode(lit, ll);
      if sym.Err? {
        return Err(sym.error);
      }
      if sym.value < 256 {
        if |out| >= limit {
          return Err(TooLarge);
        }
        out := out + [sym.value];
      } else if sym.value == END_OF_BLOCK {
        return Ok(out);
      } else if sym.value <= 285 {
        var m := TakeMatch(r, sym.value, dist, dl);
        if m.Err? {
          return Err(m.error);
        }
        var (len, d) := m.value;
        if d > |out| {
          return Err(BadDistance);
        }
        if |out| + len > limit {
          return Err(TooLarge);
        }
        out := CopyBack(out, d, len);
      } else {
        return Err(BadSymbol);
      }
    }
  }

  /** The code-length-code lengths. */
  method TakeClen(r: BitReader, hclen: nat) returns (res: Inflated<seq<nat>>)
    requires r.Valid() && hclen <= 19
    modifies r
    ensures r.Valid() && r.pos >= old(r.pos)
    ensures Agrees(res, r.pos, ReadClen(BitsOf(r.data), old(r.pos), hclen, 0, Repeated(0, 19)))
  {
    hide ReadBits, BitsOf;
    var lengths: seq<nat> := Repeated(0, 19);
    ghost var goal := ReadClen(BitsOf(r.data), r.pos, hclen, 0, lengths);
    var k := 0;
    while k < hclen
      invariant k <= hclen && r.Valid() && r.pos >= old(r.pos) && |lengths| == 19
      invariant ReadClen(BitsOf(r.data), r.pos, hclen, k, lengths) == goal
    {
      var v := r.Take(3);
      if v.Err? {
        return Err(v.error);
      }
      lengths := lengths[CLEN_ORDER[k] := v.value];
      k := k + 1;
    }
    return Ok(lengths);
  }

  /** Copy the last length `k` times, while there is room. */
  method RepeatLast(lengths: array<nat>, i: nat, k: nat) returns (ok: bool)
    requires 1 <= i <= lengths.Length
    modifies lengths
    ensures ok <==> i + k <= lengths.Length
    ensures ok ==> lengths[..] == old(lengths[..i]) + Repeated(old(lengths[i - 1]), k) + old(lengths[i + k..])
  {
    var prev, j := lengths[i - 1], 0;
    while j < k
      invariant j <= k && i + j <= lengths.Length
      invariant lengths[..] == old(lengths[..i]) + Repeated(prev, j) + old(lengths[i + j..])
    {
      if i + j >= lengths.Length {
        return false;
      }
      ghost var was := lengths[..];
      lengths[i + j] := prev;
      assert lengths[..] == was[i + j := prev];
      assert Repeated(prev, j + 1) == Repeated(prev, j) + [prev];
      j := j + 1;
    }
    return true;
  }

  /** A run of lengths behind a repeat symbol, and where it ends. */
  method TakeRun(r: BitReader, sym: nat, lengths: array<nat>, i: nat) returns (res: Inflated<nat>)
    requires r.Valid() && 16 <= sym <= 18 && i < lengths.Length
    requires forall k :: i <= k < lengths.Length ==> lengths[k] == 0
    modifies r, lengths
    ensures r.Valid() && r.pos >= old(r.pos)
    ensures match ReadRun(BitsOf(r.data), old(r.pos), sym, lengths.Length, old(lengths[..i]))
            case Bad(e) => res == Err(e)
            case Got(more, p) => res == Ok(|more|) && r.pos == p && lengths[..|more|] == more
    ensures res.Ok? ==> forall k :: res.value <= k < lengths.Length ==> lengths[k] == 0
  {
    hide ReadBits, BitsOf;
    if sym == 16 && i == 0 {
      return Err(BadHuffman);
    }
    ghost var got := lengths[..i];
    var v := r.Take(RunBits(sym));
    if v.Err? {
      return Err(v.error);
    }
    var k := RunBase(sym) + v.value;
    if sym == 16 {
      var ok := RepeatLast(lengths, i, k);
      if !ok {
        return Err(BadHuffman);
      }
    } else if i + k > lengths.Length {
      return Err(BadHuffman);
    }
    assert lengths[..i + k] == got + Repeated(if sym == 16 then got[i - 1] else 0, k);
    return Ok(i + k);
  }

  /** The `n` code lengths behind the code-length code. */
  method TakeLengths(r: BitReader, clen: Table, ghost cl: seq<nat>, n: nat) returns (res: Inflated<seq<nat>>)
    requires r.Valid() && Accepted(cl) && Built(clen, cl)
    modifies r
    ensures r.Valid() && r.pos >= old(r.pos)
    ensures Agrees(res, r.pos, ReadLengths(cl, BitsOf(r.data), old(r.pos), n, []))
  {
    hide ReadBits, ReadCode, BitsOf, Accepted, Built, ReadRun;
    var lengths, i := new nat[n](k => 0), 0;
    ghost var goal := ReadLengths(cl, BitsOf(r.data), r.pos, n, []);
    while i < n
      invariant i <= n && r.Valid() && r.pos >= old(r.pos) && fresh(lengths)
      invariant forall k :: i <= k < n ==> lengths[k] == 0
      invariant ReadLengths(cl, BitsOf(r.data), r.pos, n, lengths[..i]) == goal
      decreases n - i
    {
      ghost var got := lengths[..i];
      var sym := r.Decode(clen, cl);
      if sym.Err? {
        return Err(sym.error);
      }
      if sym.value <= 15 {
        lengths[i] := sym.value;
        i := i + 1;
        assert lengths[..i] == got + [sym.value];
      } else if sym.value <= 18 {
        var run := TakeRun(r, sym.value, lengths, i);
        if run.Err? {
          return Err(run.error);
        }
        i := run.value;
      } else {
        return Err(BadHuffman);
      }
    }
    assert lengths[..n] == lengths[..];
    return Ok(lengths[..]);
  }

  /** Both tables of a dynamic block. */
  method DynamicTables(r: BitReader)
    returns (res: Inflated<(Table, Table)>, ghost ll: seq<nat>, ghost dl: seq<nat>)
    requires r.Valid()
    modifies r
    ensures r.Valid() && r.pos >= old(r.pos)
    ensures match ReadTables(BitsOf(r.data), old(r.pos))
            case Bad(e) => res == Err(e)
            case Got(v, p) => res.Ok? && r.pos == p && v == (ll, dl) && Built(res.value.0, ll) && Built(res.value.1, dl)
  {
    hide ReadBits, BitsOf, Accepted, Built, ReadClen, ReadCodes;
    ll, dl := [], [];
    var hlit := r.Take(5);
    if hlit.Err? {
      return Err(hlit.error), ll, dl;
    }
    var hdist := r.Take(5);
    if hdist.Err? {
      return Err(hdist.error), ll, dl;
    }
    var hclen := r.Take(4);
    if hclen.Err? {
      return Err(hclen.error), ll, dl;
    }
    FourBits();
    var clen := TakeClen(r, hclen.value + 4);
    if clen.Err? {
      return Err(clen.error), ll, dl;
    }
    var table := Huffman.New(clen.value);
    if table.None? {
      return Err(BadHuffman), ll, dl;
    }
    res, ll, dl := TakeCodes(r, table.value, clen.value, hlit.value + 257, hdist.value + 1);
  }

  method TakeCodes(r: BitReader, clen: Table, ghost cl: seq<nat>, nlit: nat, ndist: nat)
    returns (res: Inflated<(Table, Table)>, ghost ll: seq<nat>, ghost dl: seq<nat>)
    requires r.Valid() && Accepted(cl) && Built(clen, cl) && nlit >= 257
    modifies r
    ensures r.Valid() && r.pos >= old(r.pos)
    ensures match ReadCodes(BitsOf(r.data), old(r.pos), cl, nlit, ndist)
            case Bad(e) => res == Err(e)
            case Got(v, p) => res.Ok? && r.pos == p && v == (ll, dl) && Built(res.value.0, ll) && Built(res.value.1, dl)
  {
    hide BitsOf, Accepted, Built, ReadLengths;
    ll, dl := [], [];
    var lengths := TakeLengths(r, clen, cl, nlit + ndist);
    if lengths.Err? {
      return Err(lengths.error), ll, dl;
    }
    if lengths.value[END_OF_BLOCK] == 0 {
      return Err(BadHuffman), ll, dl;
    }
    var lit := Huffman.New(lengths.value[..nlit]);
    if lit.None? {
      return Err(BadHuffman), ll, dl;
    }
    var dist := Huffman.New(lengths.value[nlit..]);
    if dist.None? {
      return Err(BadHuffman), ll, dl;
    }
    return Ok((lit.value, dist.value)), lengths.value[..nlit], lengths.value[nlit..];
  }

  /** A stored block. */
  method TakeStored(r: BitReader, out: seq<Byte>, limit: nat) returns (res: Inflated<seq<Byte>>)
    requires r.Valid()
    modifies r
    ensures r.Valid() && r.pos >= old(r.pos) && Agrees(res, r.pos, Stored(r.data, old(r.pos), out, limit))
  {
    hide ReadBits, BitsOf, Complements, Pow2;
    r.pos := (r.pos + 7) / 8 * 8;
    var len := r.Take(16);
    if len.Err? {
      return Err(len.error);
    }
    var nlen := r.Take(16);
    if nlen.Err? {
      return Err(nlen.error);
    }
    ComplementSum(len.value, nlen.value, 16);
    Sixteen();
    if len.value + nlen.value != 0xFFFF {
      return Err(BadStoredLength);
    }
    if |out| + len.value > limit {
      return Err(TooLarge);
    }
    var start := r.pos / 8;
    if start + len.value > |r.data| {
      return Err(Truncated);
    }
    r.pos := r.pos + 8 * len.value;
    return Ok(out + r.data[start..start + len.value]);
  }

  lemma Sixteen()
    ensures Pow2(16) == 0x1_0000
  {
    Powers();
  }

  /** One block of the stream. */
  method TakeBlock(r: BitReader, kind: nat, out: seq<Byte>, limit: nat) returns (res: Inflated<seq<Byte>>)
    requires r.Valid()
    modifies r
    ensures r.Valid() && r.pos >= old(r.pos) && Agrees(res, r.pos, BlockOf(kind, r.data, old(r.pos), out, limit))
  {
    hide BitsOf, Accepted, Built, Block, Stored, ReadTables, FixedLit, FixedDist;
    match kind {
      case 0 =>
        res := TakeStored(r, out, limit);
      case 1 =>
        FixedAccepted();
        var lit := Huffman.New(FixedLit());
        var dist := Huffman.New(FixedDist());
        res := InflateCompressed(r, out, limit, lit.value, dist.value, FixedLit(), FixedDist());
      case 2 =>
        var tables, ll, dl := DynamicTables(r);
        if tables.Err? {
          return Err(tables.error);
        }
        res := InflateCompressed(r, out, limit, tables.value.0, tables.value.1, ll, dl);
      case _ =>
        res := Err(BadBlockType);
    }
  }

  /** Decompress a raw stream: the output, and how many bytes it took. */
  method Inflate(data: seq<Byte>, limit: nat) returns (res: Inflated<(seq<Byte>, nat)>)
    ensures match Stream(data, 0, [], limit)
            case Bad(e) => res == Err(e)
            case Got(out, p) => res == Ok((out, (p + 7) / 8))
  {
    hide BitsOf, ReadBits, BlockOf;
    var r := new BitReader(data);
    var out: seq<Byte> := [];
    ghost var goal := Stream(data, 0, [], limit);
    while true
      invariant r.Valid() && r.data == data && fresh(r) && Stream(data, r.pos, out, limit) == goal
      decreases 8 * |data| - r.pos
    {
      var last := r.Take(1);
      if last.Err? {
        return Err(last.error);
      }
      var kind := r.Take(2);
      if kind.Err? {
        return Err(kind.error);
      }
      var block := TakeBlock(r, kind.value, out, limit);
      if block.Err? {
        return Err(block.error);
      }
      out := block.value;
      if last.value == 1 {
        return Ok((out, (r.pos + 7) / 8));
      }
    }
  }
}
