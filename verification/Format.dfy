// The numbers of the DEFLATE format, each said once more in the format's own terms:
// its tables, its codes, its bit order and the layout of its blocks (section 3.2 of
// RFC 1951); and streams given as literals and (length, distance) pairs.

module Format {
  import opened Wrappers
  import opened Bytes
  import opened Bits
  import opened Huffman
  import opened Inflate
  import opened Deflate
  import opened DeflateStream

  // --- bit order ---------------------------------------------------------------------

  function On(b: bool, n: nat): nat { if b then n else 0 }

  /** The number that bits spell, the first one being worth 1, the next 2, and so on. */
  function ValueOf(bits: seq<bool>): nat {
    if bits == [] then 0 else On(bits[0], 1) + 2 * ValueOf(bits[1..])
  }

  lemma {:induction false} BitsValue(v: nat, bits: seq<bool>)
    requires v < Pow2(|bits|) && forall k :: 0 <= k < |bits| ==> bits[k] == Bit(v, k)
    ensures ValueOf(bits) == v
    decreases |bits|
  {
    if bits != [] {
      forall k | 0 <= k < |bits| - 1
        ensures bits[1..][k] == Bit(v / 2, k)
      {
        assert bits[k + 1] == Bit(v, k + 1);
      }
      BitsValue(v / 2, bits[1..]);
      assert bits[0] == Bit(v, 0);
    }
  }

  /** Bytes are read from their least significant bit up. */
  lemma ByteBits(data: seq<Byte>, i: nat)
    requires i < |data|
    ensures ValueOf(BitsOf(data)[8 * i..8 * i + 8]) == data[i]
  {
    hide Pow2;
    EightBits();
    var bits := BitsOf(data)[8 * i..8 * i + 8];
    forall k | 0 <= k < 8
      ensures bits[k] == Bit(data[i], k)
    {
      assert BitsOf(data)[8 * i + k] == Bit(data[(8 * i + k) / 8], (8 * i + k) % 8);
    }
    BitsValue(data[i], bits);
  }

  lemma {:induction false} ValueSnoc(a: seq<bool>, x: bool)
    ensures ValueOf(a + [x]) == ValueOf(a) + On(x, Pow2(|a|))
    decreases |a|
  {
    if a == [] {
      assert a + [x] == [x] && [x][1..] == [];
    } else {
      ValueSnoc(a[1..], x);
      assert (a + [x])[1..] == a[1..] + [x];
    }
  }

  /** Numbers are written from their least significant bit up. */
  lemma {:induction false} NumberBits(v: nat, n: nat)
    requires v < Pow2(n)
    ensures ValueOf(LsbBits(v, n)) == v
    decreases n
  {
    hide ValueOf;
    if n == 0 {
      NoBits();
    } else {
      var top := v >= Pow2(n - 1);
      var w := if top then v - Pow2(n - 1) else v;
      NumberBits(w, n - 1);
      ValueSnoc(LsbBits(w, n - 1), top);
    }
  }

  lemma NoBits()
    ensures ValueOf([]) == 0
  {
  }

  /** Codes are read as numbers from their most significant bit on. */
  lemma CodeNumber(a: seq<bool>, x: bool)
    ensures Num(a + [x]) == 2 * Num(a) + On(x, 1) && Num([]) == 0
  {
    assert (a + [x])[..|a|] == a;
  }

  // --- the canonical code -------------------------------------------------------------

  lemma {:induction false} CountNone(lengths: seq<nat>, l: nat)
    requires forall i :: 0 <= i < |lengths| ==> lengths[i] != l
    ensures Count(lengths, l) == 0
    decreases |lengths|
  {
    if lengths != [] {
      CountNone(lengths[..|lengths| - 1], l);
    }
  }

  lemma {:induction false} CountBoth(a: seq<nat>, b: seq<nat>, l: nat)
    ensures Count(a + b, l) == Count(a, l) + Count(b, l)
    decreases |b|
  {
    if b == [] {
      assert a + b == a;
    } else {
      CountBoth(a, b[..|b| - 1], l);
      assert (a + b)[..|a + b| - 1] == a + b[..|b| - 1];
    }
  }

  lemma CountOne(x: nat, l: nat)
    ensures Count([x], l) == if x == l then 1 else 0
  {
    assert [x][..0] == [];
  }

  /** No codes of the lengths between leave the first code just shifted. */
  lemma {:induction false} FirstJump(lengths: seq<nat>, l: nat, m: nat)
    requires l < m && forall k :: l < k < m ==> Codes(lengths, k) == 0
    ensures First(lengths, m) == Pow2(m - l) * Used(lengths, l)
    decreases m - l
  {
    hide Count;
    if l + 1 < m {
      FirstJump(lengths, l, m - 1);
      assert Pow2(m - l) == 2 * Pow2(m - 1 - l);
      assert First(lengths, m) == 2 * (Pow2(m - 1 - l) * Used(lengths, l));
    } else {
      assert Pow2(1) == 2;
    }
  }

  /** Symbol `u` has a code that comes after that of `s` and before that of `t`:
      shorter codes first, and among equally long ones smaller symbols first. */
  predicate Between(lengths: seq<nat>, s: nat, u: nat, t: nat)
    requires s < |lengths| && t < |lengths|
  {
    && u < |lengths| && lengths[u] != 0
    && (lengths[s] < lengths[u] || (lengths[s] == lengths[u] && s < u))
    && (lengths[u] < lengths[t] || (lengths[u] == lengths[t] && u < t))
  }

  ghost predicate Adjacent(lengths: seq<nat>, s: nat, t: nat)
    requires s < |lengths| && t < |lengths|
  {
    && lengths[s] != 0 && lengths[t] != 0
    && (lengths[s] < lengths[t] || (lengths[s] == lengths[t] && s < t))
    && forall u: nat :: !Between(lengths, s, u, t)
  }

  /** The code after a code is the next number, with zeros behind it if it is longer;
      no code is left out. */
  lemma CodeNext(lengths: seq<nat>, s: nat, t: nat)
    requires Accepted(lengths) && s < |lengths| && t < |lengths| && Adjacent(lengths, s, t)
    ensures Num(Code(lengths, t)) == Pow2(lengths[t] - lengths[s]) * (Num(Code(lengths, s)) + 1)
  {
    hide Num, Code, First, Count;
    var l, m := lengths[s], lengths[t];
    CodeValue(lengths, s);
    CodeValue(lengths, t);
    assert lengths == lengths[..s] + ([l] + lengths[s + 1..]);
    if l == m {
      assert lengths[..t] == lengths[..s] + ([l] + lengths[s + 1..t]);
      CountBoth(lengths[..s], [l] + lengths[s + 1..t], l);
      CountBoth([l], lengths[s + 1..t], l);
      CountOne(l, l);
      NoneAmong(lengths, s + 1, t, l, s, t);
      assert Pow2(0) == 1;
    } else {
      CountBoth(lengths[..s], [l] + lengths[s + 1..], l);
      CountBoth([l], lengths[s + 1..], l);
      CountOne(l, l);
      NoneAmong(lengths, s + 1, |lengths|, l, s, t);
      NoneAmong(lengths, 0, t, m, s, t);
      assert lengths[s + 1..|lengths|] == lengths[s + 1..] && lengths[0..t] == lengths[..t];
      forall k | l < k < m
        ensures Codes(lengths, k) == 0
      {
        NoneAmong(lengths, 0, |lengths|, k, s, t);
        assert lengths[0..|lengths|] == lengths;
      }
      FirstJump(lengths, l, m);
    }
  }

  lemma NoneAmong(lengths: seq<nat>, i: nat, j: nat, l: nat, s: nat, t: nat)
    requires i <= j <= |lengths| && s < |lengths| && t < |lengths| && Adjacent(lengths, s, t) && l != 0
    requires forall u: nat :: i <= u < j && lengths[u] == l ==> Between(lengths, s, u, t)
    ensures Count(lengths[i..j], l) == 0
  {
    forall k | 0 <= k < j - i
      ensures lengths[i..j][k] != l
    {
      assert !Between(lengths, s, i + k, t);
    }
    CountNone(lengths[i..j], l);
  }

  lemma CodeValue(lengths: seq<nat>, s: nat)
    requires Accepted(lengths) && s < |lengths| && lengths[s] != 0
    ensures Num(Code(lengths, s)) == First(lengths, lengths[s]) + Count(lengths[..s], lengths[s])
  {
    hide Num, Code, First, Count, Accepted;
    CodeNum(lengths, s);
  }

  /** Which lengths are accepted: at most 15, and codes for no more than all of the
      32768 strings of 15 bits. */
  lemma AcceptedIs(lengths: seq<nat>, l: nat)
    ensures Accepted(lengths) <==> Kraft(lengths) <= 0x8000 && forall i :: 0 <= i < |lengths| ==> lengths[i] <= 15
    ensures Kraft([]) == 0
    ensures Kraft(lengths + [l]) == Kraft(lengths) + if 1 <= l <= 15 then Pow2(15 - l) else 0
  {
    SmallPowers();
    assert Pow2(10) == 1024 && Pow2(15) == 0x8000;
    assert (lengths + [l])[..|lengths|] == lengths;
  }

  /** The first code is all zeros. */
  lemma CodeFirst(lengths: seq<nat>, t: nat)
    requires Accepted(lengths) && t < |lengths| && lengths[t] != 0
    requires forall u: nat :: u < |lengths| && lengths[u] != 0 ==> lengths[t] < lengths[u] || (lengths[t] == lengths[u] && t <= u)
    ensures Num(Code(lengths, t)) == 0
  {
    hide Num, Code, Count;
    CodeValue(lengths, t);
    CountNone(lengths[..t], lengths[t]);
    forall k | 0 < k < lengths[t]
      ensures Codes(lengths, k) == 0
    {
      CountNone(lengths, k);
    }
    FirstJump(lengths, 0, lengths[t]);
    assert Used(lengths, 0) == 0;
  }

  // --- the tables ------------------------------------------------------------------------

  /** Length symbols: the lengths from 3 to 257 in runs without a gap, from the ninth
      symbol on each run twice as long as the one four symbols before, and 258 alone. */
  lemma LengthTable(s: nat)
    requires 257 <= s <= 285
    ensures LenBase(257) == 3 && LenBase(285) == 258 && LenBase(284) + Pow2(LenExtra(284)) == 259
    ensures s < 284 ==> LenBase(s + 1) == LenBase(s) + Pow2(LenExtra(s))
    ensures LenExtra(s) == if s < 265 || s == 285 then 0 else (s - 261) / 4
  {
    hide Pow2, LenBase;
    LengthExtras(s);
    if s < 284 {
      LengthRuns(s, LenExtra(s));
    }
    LengthExtras(284);
    LengthEnds();
  }

  lemma LengthExtras(s: nat)
    requires 257 <= s <= 285
    ensures LenExtra(s) == if s < 265 || s == 285 then 0 else (s - 261) / 4
  {
  }

  lemma LengthRuns(s: nat, e: nat)
    requires 257 <= s < 284 && e == if s < 265 then 0 else (s - 261) / 4
    ensures LenBase(s + 1) == LenBase(s) + Pow2(e)
  {
    hide Pow2;
    SmallPowers();
  }

  lemma LengthEnds()
    ensures LenBase(257) == 3 && LenBase(285) == 258 && LenBase(284) == 227 && Pow2(5) == 32
  {
    SmallPowers();
  }

  /** Distance symbols: the distances from 1 to 32768 in runs without a gap, from the
      fifth symbol on each run twice as long as the one two symbols before. */
  lemma DistanceTable(s: nat)
    requires s < 30
    ensures DistBase(0) == 1 && DistBase(29) + Pow2(DistExtra(29)) == 0x8001
    ensures s < 29 ==> DistBase(s + 1) == DistBase(s) + Pow2(DistExtra(s))
    ensures DistExtra(s) == if s < 4 then 0 else (s - 2) / 2
  {
    hide Pow2, DistBase;
    DistanceExtras(s);
    DistanceExtras(29);
    if s < 29 {
      DistanceRuns(s, DistExtra(s));
    }
    DistanceEnds();
  }

  lemma DistanceExtras(s: nat)
    requires s < 30
    ensures DistExtra(s) == if s < 4 then 0 else (s - 2) / 2
  {
  }

  lemma DistanceRuns(s: nat, e: nat)
    requires s < 29 && e == if s < 4 then 0 else (s - 2) / 2
    ensures DistBase(s + 1) == DistBase(s) + Pow2(e)
  {
    hide Pow2;
    SmallPowers();
  }

  lemma DistanceEnds()
    ensures DistBase(0) == 1 && DistBase(29) == 24577 && Pow2(13) == 8192
  {
    SmallPowers();
  }

  lemma SmallPowers()
    ensures Pow2(0) == 1 && Pow2(1) == 2 && Pow2(2) == 4 && Pow2(3) == 8 && Pow2(4) == 16 && Pow2(5) == 32
    ensures Pow2(6) == 64 && Pow2(7) == 128 && Pow2(8) == 256 && Pow2(9) == 512 && Pow2(10) == 1024
    ensures Pow2(11) == 2048 && Pow2(12) == 4096 && Pow2(13) == 8192
  {
    assert Pow2(4) == 2 * Pow2(3) == 4 * Pow2(2);
    assert Pow2(8) == 2 * Pow2(7) == 4 * Pow2(6) == 8 * Pow2(5);
    assert Pow2(12) == 2 * Pow2(11) == 4 * Pow2(10) == 8 * Pow2(9);
  }

  /** Repeat symbols: 16 repeats the last length 3 to 6 times, 17 and 18 are 3 to 10
      and 11 to 138 zeros. */
  lemma RunTable()
    ensures RunBase(16) == 3 && RunBase(16) + Pow2(RunBits(16)) - 1 == 6
    ensures RunBase(17) == 3 && RunBase(17) + Pow2(RunBits(17)) - 1 == 10
    ensures RunBase(18) == 11 && RunBase(18) + Pow2(RunBits(18)) - 1 == 138
  {
    SmallPowers();
  }

  /** The slots of the code-length code: the repeat symbols, zero, and then outward
      from 8, upper before lower. */
  lemma SlotOrder(k: nat)
    ensures |CLEN_ORDER| == 19 && CLEN_ORDER[..4] == [16, 17, 18, 0] && CLEN_ORDER[4] == 8
    ensures 1 <= k <= 7 ==> CLEN_ORDER[3 + 2 * k] == 8 - k && CLEN_ORDER[4 + 2 * k] == 8 + k
  {
  }

  /** The fixed codes. */
  lemma FixedLengths(s: nat)
    ensures |FixedLit()| == 288 && |FixedDist()| == 30
    ensures s < 144 ==> FixedLit()[s] == 8
    ensures 144 <= s < 256 ==> FixedLit()[s] == 9
    ensures 256 <= s < 280 ==> FixedLit()[s] == 7
    ensures 280 <= s < 288 ==> FixedLit()[s] == 8
    ensures s < 30 ==> FixedDist()[s] == 5
  {
  }

  // --- the layout -----------------------------------------------------------------------

  /** Before a block: is it the last, and 0 for stored, 1 for fixed, 2 for dynamic. */
  lemma BlockIntro(last: bool, c: Chunk)
    ensures Intro(last, c) == [last] + if c.Raw? then [false, false] else if c.Fixed? then [true, false] else [false, true]
  {
    SmallPowers();
    assert LsbBits(1, 2) == LsbBits(1, 1) + [false];
    assert LsbBits(2, 2) == LsbBits(0, 1) + [true];
    assert LsbBits(0, 2) == LsbBits(0, 1) + [false];
    assert LsbBits(0, 1) == LsbBits(0, 0) + [false] && LsbBits(1, 1) == LsbBits(0, 0) + [true];
  }

  /** A stored block begins on a byte: its length, the complement of that, its bytes. */
  lemma StoredLayout(c: Chunk, pos: nat, out: seq<Byte>)
    requires c.Raw? && ChunkOk(c, pos, out)
    ensures var b, p := ChunkBits(c, pos, out), |c.pad|;
            && p < 8 && (pos + p) % 8 == 0 && |c.bytes| <= 0xFFFF && |b| == p + 32 + 8 * |c.bytes|
            && ValueOf(b[p..p + 16]) == |c.bytes|
            && ValueOf(b[p + 16..p + 32]) == 0xFFFF - |c.bytes|
            && b[p + 32..] == BitsOf(c.bytes)
            && ChunkOut(c, pos, out) == out + c.bytes
  {
    hide LsbBits, BitsOf;
    Powers16();
    var n, b, p := |c.bytes|, ChunkBits(c, pos, out), |c.pad|;
    NumberBits(n, 16);
    NumberBits(0xFFFF - n, 16);
    assert b[p..p + 16] == LsbBits(n, 16);
    assert b[p + 16..p + 32] == LsbBits(0xFFFF - n, 16);
  }

  /** A dynamic block begins with three counts, above 257, 1 and 4. */
  lemma HeaderLayout(h: Header)
    requires HeaderOk(h)
    ensures var b := HeaderBits(h);
            && |b| >= 14 && ValueOf(b[..5]) == h.nlit - 257 && ValueOf(b[5..10]) == h.ndist - 1
            && ValueOf(b[10..14]) == h.nclen - 4
            && b[14..] == ClenBits(h.clen, h.nclen, 0) + ItemsBits(h.clen, [], h.items)
  {
    hide LsbBits, ClenBits, ItemsBits, UnpackedAll;
    FieldBounds(h);
    NumberBits(h.nlit - 257, 5);
    NumberBits(h.ndist - 1, 5);
    NumberBits(h.nclen - 4, 4);
    var b := HeaderBits(h);
    assert b[..5] == LsbBits(h.nlit - 257, 5);
    assert b[5..10] == LsbBits(h.ndist - 1, 5);
    assert b[10..14] == LsbBits(h.nclen - 4, 4);
  }

  /** Then three bits for each slot that is sent. */
  lemma {:induction false} SlotLayout(clen: seq<nat>, n: nat, k: nat, i: nat)
    requires ClenOk(clen, n) && k <= i < n
    ensures var b := ClenBits(clen, n, k);
            3 * (i - k) + 3 <= |b| && ValueOf(b[3 * (i - k)..3 * (i - k) + 3]) == clen[CLEN_ORDER[i]]
    decreases n - k
  {
    hide LsbBits, ClenOk, ValueOf;
    SlotFits(clen, n, k);
    var v, rest := clen[CLEN_ORDER[k]], ClenBits(clen, n, k + 1);
    if i == k {
      NumberBits(v, 3);
      assert (LsbBits(v, 3) + rest)[0..3] == LsbBits(v, 3);
    } else {
      SlotLayout(clen, n, k + 1, i);
      Behind(LsbBits(v, 3), rest, 3 * (i - k - 1), 3);
    }
  }

  lemma SlotFits(clen: seq<nat>, n: nat, k: nat)
    requires ClenOk(clen, n) && k < n
    ensures |clen| == 19 && n <= 19 && CLEN_ORDER[k] < 19 && clen[CLEN_ORDER[k]] < Pow2(3)
  {
    hide Filled, Pow2;
  }

  lemma Behind(a: seq<bool>, b: seq<bool>, j: nat, n: nat)
    requires j + n <= |b|
    ensures (a + b)[|a| + j..|a| + j + n] == b[j..j + n]
  {
  }

  /** There is no fourth type of block. */
  lemma RefusedKind(kind: nat, data: seq<Byte>, pos: nat, out: seq<Byte>, limit: nat)
    requires kind > 2
    ensures BlockOf(kind, data, pos, out, limit) == Bad(BadBlockType)
  {
    hide Block, ReadTables, Stored;
  }

  /** A stored length and its complement that disagree are refused. */
  lemma RefusedLength(data: seq<Byte>, pos: nat, out: seq<Byte>, limit: nat)
    requires (pos + 7) / 8 * 8 + 32 <= 8 * |data|
    requires var p, bits := (pos + 7) / 8 * 8, BitsOf(data);
             ValueOf(bits[p..p + 16]) + ValueOf(bits[p + 16..p + 32]) != 0xFFFF
    ensures BlockOf(0, data, pos, out, limit) == Bad(BadStoredLength)
  {
    hide BitsOf, Block, ReadTables, ReadBits, Complements, ValueOf, Pow2;
    var p, bits := (pos + 7) / 8 * 8, BitsOf(data);
    Powers16();
    NumberRead(bits, p, 16);
    NumberRead(bits, p + 16, 16);
    ComplementSum(ValueOf(bits[p..p + 16]), ValueOf(bits[p + 16..p + 32]), 16);
  }

  /** Reading a number gives what the bits spell. */
  lemma NumberRead(bits: seq<bool>, pos: nat, n: nat)
    requires pos + n <= |bits|
    ensures ReadBits(bits, pos, n) == Got(ValueOf(bits[pos..pos + n]), pos + n) && ValueOf(bits[pos..pos + n]) < Pow2(n)
  {
    hide Lsb, LsbBits, Pow2, ReadBits;
    var s := bits[pos..pos + n];
    OfLsb(s);
    NumberBits(Lsb(s), n);
    ReadBitsIs(bits, pos, Lsb(s), n);
  }

  // --- literals and pairs ----------------------------------------------------------------

  /** A byte, or so many bytes from so far back. */
  datatype Piece = Byte1(b: Byte) | Copy(length: nat, distance: nat)

  predicate PieceOk(p: Piece) {
    p.Copy? ==> 3 <= p.length <= 258 && 1 <= p.distance <= 0x8000
  }

  /** The pieces do not reach before the start of the output. */
  predicate Within(out: seq<Byte>, ps: seq<Piece>)
    decreases |ps|
  {
    ps == [] || (PieceOk(ps[0]) && (ps[0].Copy? ==> ps[0].distance <= |out|) && Within(Append(out, ps[0]), ps[1..]))
  }

  function Append(out: seq<Byte>, p: Piece): (r: seq<Byte>)
    requires p.Copy? ==> 1 <= p.distance <= |out|
    ensures |r| == |out| + if p.Copy? then p.length else 1
    ensures out <= r
  {
    match p
    case Byte1(b) => out + [b]
    case Copy(n, d) => Copied(out, d, n)
  }

  /** What the pieces stand for. */
  function Meaning(out: seq<Byte>, ps: seq<Piece>): (r: seq<Byte>)
    requires Within(out, ps)
    ensures |r| >= |out|
    decreases |ps|
  {
    if ps == [] then out else Meaning(Append(out, ps[0]), ps[1..])
  }

  /** The piece that a token of the format stands for. */
  function PieceOf(t: Token): Piece
    requires t.Match? ==> 257 <= t.lsym <= 285 && t.dsym < 30
  {
    match t
    case Literal(b) => Byte1(b)
    case Match(_, _, _, _) => Copy(MatchLength(t), Distance(t))
  }

  predicate Spells(t: Token, p: Piece) {
    && (t.Match? ==> && 257 <= t.lsym <= 285 && t.dsym < 30
                     && t.lextra < Pow2(LenExtra(t.lsym)) && t.dextra < Pow2(DistExtra(t.dsym)))
    && PieceOf(t) == p
  }

  /** The run of lengths that holds `n`, sought from symbol `s` down. */
  function LengthSymbol(n: nat, s: nat): (r: nat)
    requires 257 <= s <= 284 && 3 <= n < LenBase(s) + Pow2(LenExtra(s))
    ensures 257 <= r <= 284 && LenBase(r) <= n < LenBase(r) + Pow2(LenExtra(r))
    decreases s
  {
    hide Pow2, LenBase, LenExtra;
    LengthTable(s);
    if LenBase(s) <= n then s else
      LengthTable(s - 1);
      LengthSymbol(n, s - 1)
  }

  function DistanceSymbol(d: nat, s: nat): (r: nat)
    requires s < 30 && 1 <= d < DistBase(s) + Pow2(DistExtra(s))
    ensures r < 30 && DistBase(r) <= d < DistBase(r) + Pow2(DistExtra(r))
    decreases s
  {
    hide Pow2, DistBase, DistExtra;
    DistanceTable(s);
    if DistBase(s) <= d then s else
      DistanceTable(s - 1);
      DistanceSymbol(d, s - 1)
  }

  /** The token of a piece; 258 has a symbol of its own. */
  function TokenOf(p: Piece): (t: Token)
    requires PieceOk(p)
    ensures Spells(t, p)
  {
    hide Pow2, LenBase, LenExtra, DistBase, DistExtra;
    match p
    case Byte1(b) => Literal(b)
    case Copy(n, d) =>
      LengthTable(284);
      LengthTable(285);
      DistanceTable(29);
      Pow2Zero();
      var ds := DistanceSymbol(d, 29);
      var ls := if n == 258 then 285 else LengthSymbol(n, 284);
      Match(ls, n - LenBase(ls), ds, d - DistBase(ds))
  }

  lemma Pow2Zero()
    ensures Pow2(0) == 1
  {
  }

  /** Every token of the format copies between 3 and 258 bytes from at most 32768
      back, and every such pair has a token. */
  lemma TokensArePieces(t: Token, p: Piece)
    ensures (t.Match? ==> && 257 <= t.lsym <= 285 && t.dsym < 30
                          && t.lextra < Pow2(LenExtra(t.lsym)) && t.dextra < Pow2(DistExtra(t.dsym))) ==>
              PieceOk(PieceOf(t))
    ensures PieceOk(p) ==> Spells(TokenOf(p), p)
  {
    hide Pow2, LenBase, LenExtra, DistBase, DistExtra;
    if t.Match? && 257 <= t.lsym <= 285 && t.dsym < 30 && t.lextra < Pow2(LenExtra(t.lsym)) && t.dextra < Pow2(DistExtra(t.dsym)) {
      LengthBounds(t.lsym);
      DistanceBounds(t.dsym);
    }
  }

  lemma {:induction false} LengthBounds(s: nat)
    requires 257 <= s <= 285
    ensures 3 <= LenBase(s) && LenBase(s) + Pow2(LenExtra(s)) <= 259
  {
    hide Pow2, LenBase, LenExtra;
    LengthTable(s);
    if s == 285 {
      Pow2Zero();
    } else {
      LengthUp(s, 284);
      LengthUp(257, s);
    }
  }

  lemma {:induction false} LengthUp(s: nat, m: nat)
    requires 257 <= s <= m <= 284
    ensures LenBase(s) + Pow2(LenExtra(s)) <= LenBase(m) + Pow2(LenExtra(m)) && LenBase(s) <= LenBase(m)
    decreases m - s
  {
    hide Pow2, LenBase, LenExtra;
    LengthTable(257);
    if s < m {
      LengthUp(s, m - 1);
      LengthTable(m - 1);
    }
  }

  lemma {:induction false} DistanceBounds(s: nat)
    requires s < 30
    ensures DistBase(s) >= 1 && DistBase(s) + Pow2(DistExtra(s)) <= 0x8001
    decreases 30 - s
  {
    hide Pow2, DistBase, DistExtra;
    DistanceTable(s);
    if s < 29 {
      DistanceBounds(s + 1);
    }
  }

  function TokensOf(ps: seq<Piece>): (ts: seq<Token>)
    requires forall i :: 0 <= i < |ps| ==> PieceOk(ps[i])
    ensures |ts| == |ps| && forall i :: 0 <= i < |ps| ==> ts[i] == TokenOf(ps[i])
  {
    seq(|ps|, i requires 0 <= i < |ps| => TokenOf(ps[i]))
  }

  lemma {:induction false} WithinOk(out: seq<Byte>, ps: seq<Piece>)
    requires Within(out, ps)
    ensures forall i :: 0 <= i < |ps| ==> PieceOk(ps[i])
    decreases |ps|
  {
    if ps != [] {
      WithinOk(Append(out, ps[0]), ps[1..]);
    }
  }

  /** The expansion of the tokens is what the pieces mean. */
  lemma {:induction false} PiecesExpand(out: seq<Byte>, ps: seq<Piece>)
    requires Within(out, ps) && forall i :: 0 <= i < |ps| ==> PieceOk(ps[i])
    ensures Expandable(out, TokensOf(ps)) && Expand(out, TokensOf(ps)) == Meaning(out, ps)
    decreases |ps|
  {
    hide TokenOf, Copied, LenBase, DistBase, LenExtra, DistExtra, Pow2;
    if ps != [] {
      assert Spells(TokenOf(ps[0]), ps[0]);
      assert ExpandOne(out, TokenOf(ps[0])) == Append(out, ps[0]);
      PiecesExpand(Append(out, ps[0]), ps[1..]);
      assert TokensOf(ps)[1..] == TokensOf(ps[1..]);
    }
  }

  /** Any list of literals and pairs whose symbols have codes, encoded bit by bit,
      decompresses to its meaning, or is refused because that is over the limit. */
  lemma PiecesDecode(ll: seq<nat>, dl: seq<nat>, bits: seq<bool>, pos: nat, out: seq<Byte>, limit: nat, ps: seq<Piece>)
    requires Accepted(ll) && Accepted(dl) && Within(out, ps) && |out| <= limit
    requires forall i :: 0 <= i < |ps| ==> PieceOk(ps[i])
    requires TokensOk(ll, dl, TokensOf(ps)) && At(bits, pos, BlockBits(ll, dl, TokensOf(ps)))
    ensures Block(ll, dl, bits, pos, out, limit) ==
            if |Meaning(out, ps)| <= limit then Got(Meaning(out, ps), pos + |BlockBits(ll, dl, TokensOf(ps))|) else Bad(TooLarge)
  {
    hide Accepted, TokensOk, At, Block, TokenOf, Expand, Meaning, Within;
    PiecesExpand(out, ps);
    BlockDecodes(ll, dl, bits, pos, out, limit, TokensOf(ps));
  }

  /** With the fixed codes that is every list of literals and pairs. */
  lemma FixedHasAll(ps: seq<Piece>)
    requires forall i :: 0 <= i < |ps| ==> PieceOk(ps[i])
    ensures Accepted(FixedLit()) && Accepted(FixedDist()) && TokensOk(FixedLit(), FixedDist(), TokensOf(ps))
  {
    hide TokenOf, Pow2, LenExtra, DistExtra, LenBase, DistBase, FixedLit, FixedDist, Kraft;
    FixedAccepted();
    FixedLengths(END_OF_BLOCK);
    forall i | 0 <= i < |ps|
      ensures TokenOk(FixedLit(), FixedDist(), TokensOf(ps)[i])
    {
      var t := TokenOf(ps[i]);
      assert Spells(t, ps[i]);
      match t
      case Literal(b) => FixedLengths(b);
      case Match(ls, _, ds, _) =>
        FixedLengths(ls);
        FixedLengths(ds);
    }
  }

  /** One final block of literals and pairs with the fixed codes is a whole stream, and
      decompresses to its meaning. */
  lemma PiecesStream(data: seq<Byte>, limit: nat, ps: seq<Piece>)
    requires Within([], ps) && forall i :: 0 <= i < |ps| ==> PieceOk(ps[i])
    requires TokensOk(FixedLit(), FixedDist(), TokensOf(ps))
    requires At(BitsOf(data), 0, [true, true, false] + BlockBits(FixedLit(), FixedDist(), TokensOf(ps)))
    ensures Stream(data, 0, [], limit) ==
            if |Meaning([], ps)| <= limit
            then Got(Meaning([], ps), 3 + |BlockBits(FixedLit(), FixedDist(), TokensOf(ps))|) else Bad(TooLarge)
  {
    hide Accepted, TokensOk, At, Block, TokenOf, Expand, Meaning, Within, BlockBits, Stream, Intro, FixedLit, FixedDist, Expandable;
    var c := Fixed(TokensOf(ps));
    PiecesExpand([], ps);
    BlockIntro(true, c);
    assert ChunksOk([c], 0, []);
    assert ChunksBits([c], 0, []) == Intro(true, c) + (BlockBits(FixedLit(), FixedDist(), TokensOf(ps)) + []);
    assert BlockBits(FixedLit(), FixedDist(), TokensOf(ps)) + [] == BlockBits(FixedLit(), FixedDist(), TokensOf(ps));
    assert [true] + [true, false] == [true, true, false];
    StreamDecodes(data, 0, [], limit, [c]);
  }
}
