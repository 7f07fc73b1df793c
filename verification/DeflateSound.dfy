// The other direction of DEFLATE: whatever `inflate` accepts is a list of
// blocks, encoded bit by bit as RFC 1951 says, and what it returns is what that
// list was made from.

module DeflateSound {
  import opened Wrappers
  import opened Bytes
  import opened Bits
  import opened Huffman
  import opened Inflate
  import opened Deflate
  import opened DeflateStream

  // --- code lengths -------------------------------------------------------------------

  /** The item that a successful read of code lengths takes first. */
  lemma ItemFound(cl: seq<nat>, bits: seq<bool>, pos: nat, n: nat, got: seq<nat>) returns (i: Item)
    requires Accepted(cl) && |got| < n && ReadLengths(cl, bits, pos, n, got).Got?
    ensures ItemOk(cl, got, i) && At(bits, pos, ItemBits(cl, got, i)) && |Unpacked(cl, got, i)| <= n
  {
    hide ReadLengths, Code, Accepted, At, Pow2, RunBits, RunBase;
    LengthsNext(cl, bits, pos, n, got);
    var sym := ReadCode(cl, bits, pos).value;
    if sym <= MAX_LEN {
      i := Plain(sym);
    } else {
      var p := ReadCode(cl, bits, pos).pos;
      var v := ReadBits(bits, p, RunBits(sym));
      i := Run(sym, v.value);
      ReadBitsIs(bits, p, v.value, RunBits(sym));
      AtSplit(bits, pos, Code(cl, sym), LsbBits(v.value, RunBits(sym)));
    }
  }

  lemma LengthsNext(cl: seq<nat>, bits: seq<bool>, pos: nat, n: nat, got: seq<nat>)
    requires |got| < n && ReadLengths(cl, bits, pos, n, got).Got?
    ensures ReadCode(cl, bits, pos).Got?
    ensures var sym, p := ReadCode(cl, bits, pos).value, ReadCode(cl, bits, pos).pos;
            sym <= 18 && (sym > MAX_LEN ==> ReadRun(bits, p, sym, n, got).Got?)
  {
    hide ReadCode, ReadRun;
  }

  /** Code lengths that were read are packed in the bits they took. */
  lemma {:induction false} LengthsEncode(cl: seq<nat>, bits: seq<bool>, pos: nat, n: nat, got: seq<nat>) returns (items: seq<Item>)
    requires Accepted(cl) && |got| <= n && pos <= |bits| && ReadLengths(cl, bits, pos, n, got).Got?
    ensures ItemsOk(cl, got, items) && At(bits, pos, ItemsBits(cl, got, items))
    ensures ReadLengths(cl, bits, pos, n, got) ==
            Got(UnpackedAll(cl, got, items), pos + |ItemsBits(cl, got, items)|)
    decreases n - |got|
  {
    hide ReadLengths, At, Accepted, ItemOk, ItemBits, Unpacked;
    if |got| == n {
      items := [];
      LengthsDone(cl, bits, pos, got);
      AtNothing(bits, pos);
    } else {
      var i := ItemFound(cl, bits, pos, n, got);
      StepItem(cl, bits, pos, n, got, i);
      var a, more := ItemBits(cl, got, i), Unpacked(cl, got, i);
      AtFits(bits, pos, a);
      var rest := LengthsEncode(cl, bits, pos + |a|, n, more);
      items := [i] + rest;
      assert items[1..] == rest;
      AtSplit(bits, pos, a, ItemsBits(cl, more, rest));
    }
  }

  lemma AtNothing(bits: seq<bool>, pos: nat)
    requires pos <= |bits|
    ensures At(bits, pos, [])
  {
  }

  // --- the code-length code ---------------------------------------------------------------

  predicate Small(clen: seq<nat>) {
    |clen| == 19 && forall s :: 0 <= s < 19 ==> clen[s] < Pow2(3)
  }

  /** Only the first `k` slots, in the order of the header, are set. */
  predicate SetTo(clen: seq<nat>, k: nat) {
    |clen| == 19 && Filled(clen, k) == clen
  }

  lemma SetNext(clen: seq<nat>, k: nat, v: nat)
    requires SetTo(clen, k) && k < 19
    ensures SetTo(clen[CLEN_ORDER[k] := v], k + 1)
  {
    Places(k);
    var next := clen[CLEN_ORDER[k] := v];
    forall s | 0 <= s < 19
      ensures Filled(next, k + 1)[s] == next[s]
    {
      Slots(s);
      assert Filled(clen, k)[s] == clen[s];
    }
  }

  /** What a later slot adds leaves the earlier ones alone. */
  lemma SetBack(clen: seq<nat>, last: seq<nat>, k: nat, v: nat)
    requires SetTo(clen, k) && |last| == 19 && k < 19 && Filled(last, k + 1) == clen[CLEN_ORDER[k] := v]
    ensures last[CLEN_ORDER[k]] == v && Filled(last, k) == clen
  {
    Places(k);
    var next := clen[CLEN_ORDER[k] := v];
    assert Filled(last, k + 1)[CLEN_ORDER[k]] == next[CLEN_ORDER[k]];
    forall s | 0 <= s < 19
      ensures Filled(last, k)[s] == clen[s]
    {
      Slots(s);
      assert Filled(last, k + 1)[s] == next[s];
      assert Filled(clen, k)[s] == clen[s];
    }
  }

  lemma SmallNext(clen: seq<nat>, k: nat, v: nat)
    requires Small(clen) && k < 19 && v < Pow2(3)
    ensures Small(clen[CLEN_ORDER[k] := v])
  {
  }

  lemma ClenNext(bits: seq<bool>, pos: nat, n: nat, k: nat, clen: seq<nat>)
    requires k < n <= 19 && |clen| == 19 && ReadClen(bits, pos, n, k, clen).Got?
    ensures ReadBits(bits, pos, 3).Got? && ReadBits(bits, pos, 3).pos == pos + 3 && ReadBits(bits, pos, 3).value < Pow2(3)
    ensures ReadClen(bits, pos, n, k, clen) ==
            ReadClen(bits, pos + 3, n, k + 1, clen[CLEN_ORDER[k] := ReadBits(bits, pos, 3).value])
  {
  }

  lemma ClenBitsNext(clen: seq<nat>, n: nat, k: nat)
    requires ClenOk(clen, n) && k <= n
    ensures ClenBits(clen, n, k) == if k == n then [] else LsbBits(clen[CLEN_ORDER[k]], 3) + ClenBits(clen, n, k + 1)
  {
    hide LsbBits;
  }

  lemma {:induction false} ClenEncode(bits: seq<bool>, pos: nat, n: nat, k: nat, clen: seq<nat>) returns (last: seq<nat>)
    requires k <= n && 4 <= n <= 19 && SetTo(clen, k) && Small(clen) && ReadClen(bits, pos, n, k, clen).Got?
    ensures ClenOk(last, n) && Filled(last, k) == clen && At(bits, pos, ClenBits(last, n, k))
    ensures ReadClen(bits, pos, n, k, clen) == Got(last, pos + |ClenBits(last, n, k)|)
    decreases n - k
  {
    hide At, ReadBits, Filled, LsbBits, ReadClen, Pow2, SetTo, Small, ClenOk, ClenBits;
    SetSize(clen, k);
    if k == n {
      last := clen;
      ClenDone(bits, pos, n, clen);
      AtNothing(bits, pos);
      ClenBitsNext(last, n, k);
    } else {
      ClenNext(bits, pos, n, k, clen);
      var v := ReadBits(bits, pos, 3).value;
      SmallNext(clen, k, v);
      ReadBitsIs(bits, pos, v, 3);
      SetNext(clen, k, v);
      last := ClenEncode(bits, pos + 3, n, k + 1, clen[CLEN_ORDER[k] := v]);
      ClenSize(last, n);
      SetBack(clen, last, k, v);
      ClenBitsNext(last, n, k);
      AtSplit(bits, pos, LsbBits(v, 3), ClenBits(last, n, k + 1));
    }
  }

  lemma SetSize(clen: seq<nat>, k: nat)
    requires SetTo(clen, k)
    ensures |clen| == 19
    ensures Small(clen) && 4 <= k <= 19 ==> ClenOk(clen, k)
    ensures Filled(clen, k) == clen
  {
  }

  lemma ClenSize(clen: seq<nat>, n: nat)
    requires ClenOk(clen, n)
    ensures |clen| == 19
  {
  }

  lemma ClenDone(bits: seq<bool>, pos: nat, n: nat, clen: seq<nat>)
    requires n <= 19 && |clen| == 19 && ReadClen(bits, pos, n, n, clen).Got?
    ensures pos <= |bits| && ReadClen(bits, pos, n, n, clen) == Got(clen, pos)
  {
  }

  lemma NothingSet()
    ensures SetTo(Repeated(0, 19), 0) && Small(Repeated(0, 19))
  {
  }

  // --- the header of a dynamic block ---------------------------------------------------------

  /** The fields of a header that was read, in order. */
  lemma TablesParts(bits: seq<bool>, pos: nat)
    requires ReadTables(bits, pos).Got?
    ensures ReadBits(bits, pos, 5).Got? && ReadBits(bits, pos + 5, 5).Got? && ReadBits(bits, pos + 10, 4).Got?
    ensures ReadBits(bits, pos + 10, 4).value + 4 <= 19
    ensures var nclen := ReadBits(bits, pos + 10, 4).value + 4;
            && ReadClen(bits, pos + 14, nclen, 0, Repeated(0, 19)).Got?
            && var clen := ReadClen(bits, pos + 14, nclen, 0, Repeated(0, 19));
               && Accepted(clen.value) && clen.pos <= |bits|
               && ReadCodes(bits, clen.pos, clen.value, ReadBits(bits, pos, 5).value + 257,
                            ReadBits(bits, pos + 5, 5).value + 1).Got?
  {
    hide ReadClen, ReadCodes, Accepted;
    FourBits();
  }

  lemma CodesParts(bits: seq<bool>, pos: nat, clen: seq<nat>, nlit: nat, ndist: nat)
    requires nlit >= 257 && pos <= |bits| && ReadCodes(bits, pos, clen, nlit, ndist).Got?
    ensures ReadLengths(clen, bits, pos, nlit + ndist, []).Got?
    ensures var ls := ReadLengths(clen, bits, pos, nlit + ndist, []).value;
            ls[END_OF_BLOCK] != 0 && Accepted(ls[..nlit]) && Accepted(ls[nlit..])
  {
    hide ReadLengths, Accepted;
  }

  /** A dynamic header that was read stands there, and gives the tables read. */
  lemma HeaderEncodes(bits: seq<bool>, pos: nat) returns (h: Header)
    requires ReadTables(bits, pos).Got?
    ensures HeaderOk(h) && At(bits, pos, HeaderBits(h))
    ensures ReadTables(bits, pos) == Got((LitLengths(h), DistLengths(h)), pos + |HeaderBits(h)|)
  {
    hide ReadTables, ReadCodes, ReadLengths, ReadClen, At, ReadBits, LsbBits, Accepted, UnpackedAll, ItemsBits, ItemsOk,
      ClenBits, Filled, ClenOk, Repeated, SetTo, Small, Pow2;
    TablesParts(bits, pos);
    var a, b, c := ReadBits(bits, pos, 5).value, ReadBits(bits, pos + 5, 5).value, ReadBits(bits, pos + 10, 4).value;
    NothingSet();
    var clen := ClenEncode(bits, pos + 14, c + 4, 0, Repeated(0, 19));
    var p := pos + 14 + |ClenBits(clen, c + 4, 0)|;
    CodesParts(bits, p, clen, a + 257, b + 1);
    var items := LengthsEncode(clen, bits, p, a + 257 + b + 1, []);
    h := Header(a + 257, b + 1, c + 4, clen, items);
    FiveBits();
    HeaderStands(h, bits, pos);
    HeaderDecodes(h, bits, pos);
  }

  lemma FiveBits()
    ensures Pow2(5) == 32
  {
    FourBits();
  }

  lemma HeaderStands(h: Header, bits: seq<bool>, pos: nat)
    requires HeaderOk(h)
    requires ReadBits(bits, pos, 5) == Got(h.nlit - 257, pos + 5) && ReadBits(bits, pos + 5, 5) == Got(h.ndist - 1, pos + 10)
    requires ReadBits(bits, pos + 10, 4) == Got(h.nclen - 4, pos + 14)
    requires At(bits, pos + 14, ClenBits(h.clen, h.nclen, 0))
    requires At(bits, pos + 14 + |ClenBits(h.clen, h.nclen, 0)|, ItemsBits(h.clen, [], h.items))
    ensures At(bits, pos, HeaderBits(h))
  {
    hide At, ReadBits, LsbBits, ItemsBits, ClenBits, ClenOk, ItemsOk, UnpackedAll, Accepted, Pow2;
    FieldBounds(h);
    var a, b, c := LsbBits(h.nlit - 257, 5), LsbBits(h.ndist - 1, 5), LsbBits(h.nclen - 4, 4);
    var d, e := ClenBits(h.clen, h.nclen, 0), ItemsBits(h.clen, [], h.items);
    ReadBitsIs(bits, pos, h.nlit - 257, 5);
    ReadBitsIs(bits, pos + 5, h.ndist - 1, 5);
    ReadBitsIs(bits, pos + 10, h.nclen - 4, 4);
    AtSplit(bits, pos + 14, d, e);
    AtSplit(bits, pos + 10, c, d + e);
    AtSplit(bits, pos + 5, b, c + (d + e));
    AtSplit(bits, pos, a, b + (c + (d + e)));
  }

  // --- blocks ---------------------------------------------------------------------------------

  /** A stored block that was read stands there. */
  lemma RawFound(data: seq<Byte>, pos: nat, out: seq<Byte>, limit: nat) returns (c: Chunk)
    requires Stored(data, pos, out, limit).Got?
    ensures c.Raw? && ChunkOk(c, pos, out) && At(BitsOf(data), pos, ChunkBits(c, pos, out))
  {
    hide At, ReadBits, LsbBits, BitsOf, Complements;
    var bits, p := BitsOf(data), Aligned(pos);
    StoredParts(data, pos, out, limit);
    var n := ReadBits(bits, p, 16).value;
    var start := p / 8 + 4;
    var bytes := data[start..start + n];
    Powers16();
    c := Raw(bits[pos..p], bytes);
    ReadBitsIs(bits, p, n, 16);
    ReadBitsIs(bits, p + 16, 0xFFFF - n, 16);
    BytesStand(data, start, n);
    SliceStands(bits, pos, p);
    AtSplit(bits, p + 16, LsbBits(0xFFFF - n, 16), BitsOf(bytes));
    AtSplit(bits, p, LsbBits(n, 16), LsbBits(0xFFFF - n, 16) + BitsOf(bytes));
    AtSplit(bits, pos, c.pad, LsbBits(n, 16) + (LsbBits(0xFFFF - n, 16) + BitsOf(bytes)));
  }

  lemma StoredParts(data: seq<Byte>, pos: nat, out: seq<Byte>, limit: nat)
    requires Stored(data, pos, out, limit).Got?
    ensures var bits, p := BitsOf(data), Aligned(pos);
            && pos <= p && p % 8 == 0 && p + 32 <= |bits|
            && ReadBits(bits, p, 16).Got?
            && ReadBits(bits, p + 16, 16) == Got(0xFFFF - ReadBits(bits, p, 16).value, p + 32)
            && ReadBits(bits, p, 16).value < Pow2(16)
            && p / 8 + 4 + ReadBits(bits, p, 16).value <= |data|
  {
    hide BitsOf, Complements, Lsb;
    var bits, p := BitsOf(data), Aligned(pos);
    Powers16();
    ComplementSum(ReadBits(bits, p, 16).value, ReadBits(bits, p + 16, 16).value, 16);
  }

  lemma BytesStand(data: seq<Byte>, start: nat, n: nat)
    requires start + n <= |data|
    ensures At(BitsOf(data), 8 * start, BitsOf(data[start..start + n]))
  {
    hide Bit;
    SliceBits(data, start, start + n);
  }

  lemma SliceStands(bits: seq<bool>, i: nat, j: nat)
    requires i <= j <= |bits|
    ensures At(bits, i, bits[i..j])
  {
  }

  /** A block that was read, of any kind, stands there. */
  lemma ChunkEncodes(kind: nat, data: seq<Byte>, pos: nat, out: seq<Byte>, limit: nat) returns (c: Chunk)
    requires BlockOf(kind, data, pos, out, limit).Got? && |out| <= limit
    ensures Kind(c) == kind && ChunkOk(c, pos, out) && At(BitsOf(data), pos, ChunkBits(c, pos, out))
  {
    hide At, Block, Stored, BitsOf, HeaderBits, HeaderOk, BlockBits, Expand, Expandable, TokensOk, ReadTables, FixedLit,
      FixedDist, LitLengths, DistLengths, Accepted;
    if kind == 0 {
      c := RawFound(data, pos, out, limit);
    } else if kind == 1 {
      FixedAccepted();
      var ts := BlockEncodes(FixedLit(), FixedDist(), BitsOf(data), pos, out, limit);
      c := Fixed(ts);
    } else {
      var h := HeaderEncodes(BitsOf(data), pos);
      HeaderCodes(h);
      var ts := BlockEncodes(LitLengths(h), DistLengths(h), BitsOf(data), pos + |HeaderBits(h)|, out, limit);
      c := Dynamic(h, ts);
      AtSplit(BitsOf(data), pos, HeaderBits(h), BlockBits(LitLengths(h), DistLengths(h), ts));
    }
  }

  // --- streams ----------------------------------------------------------------------------------

  lemma StreamParts(data: seq<Byte>, pos: nat, out: seq<Byte>, limit: nat)
    requires Stream(data, pos, out, limit).Got?
    ensures ReadBits(BitsOf(data), pos, 1).Got? && ReadBits(BitsOf(data), pos + 1, 2).Got?
    ensures var last, kind := ReadBits(BitsOf(data), pos, 1).value, ReadBits(BitsOf(data), pos + 1, 2).value;
            && last <= 1 && BlockOf(kind, data, pos + 3, out, limit).Got?
            && var b := BlockOf(kind, data, pos + 3, out, limit);
               Stream(data, pos, out, limit) == if last == 1 then b else Stream(data, b.pos, b.value, limit)
  {
    hide BlockOf, BitsOf;
    assert Pow2(1) == 2;
  }

  lemma BitStands(bits: seq<bool>, pos: nat, b: bool)
    requires ReadBits(bits, pos, 1) == Got(if b then 1 else 0, pos + 1)
    ensures At(bits, pos, [b])
  {
    assert pos < |bits|;
    OneBit(bits, pos);
    hide ReadBits;
    assert bits[pos] == b;
    assert bits[pos..pos + 1] == [bits[pos]];
  }

  lemma IntroStands(bits: seq<bool>, pos: nat, last: bool, c: Chunk)
    requires ReadBits(bits, pos, 1) == Got(if last then 1 else 0, pos + 1)
    requires ReadBits(bits, pos + 1, 2) == Got(Kind(c), pos + 3)
    ensures At(bits, pos, Intro(last, c))
  {
    hide LsbBits, Lsb, ReadBits, Pow2;
    KindFits(c);
    ReadBitsIs(bits, pos + 1, Kind(c), 2);
    BitStands(bits, pos, last);
    AtSplit(bits, pos, [last], LsbBits(Kind(c), 2));
  }

  /** Whatever a stream decompresses to was made from blocks whose encoding is
      exactly the bits it took. */
  lemma {:induction false} StreamEncodes(data: seq<Byte>, pos: nat, out: seq<Byte>, limit: nat) returns (cs: seq<Chunk>)
    requires Stream(data, pos, out, limit).Got? && |out| <= limit
    ensures ChunksOk(cs, pos, out) && At(BitsOf(data), pos, ChunksBits(cs, pos, out))
    ensures Stream(data, pos, out, limit) == Got(ChunksOut(cs, pos, out), pos + |ChunksBits(cs, pos, out)|)
    decreases 8 * |data| - pos
  {
    hide At, BitsOf, BlockOf, ReadBits, ChunkOk, ChunkBits, ChunkOut, Intro, Stream;
    StreamParts(data, pos, out, limit);
    var bits := BitsOf(data);
    var last, kind := ReadBits(bits, pos, 1).value == 1, ReadBits(bits, pos + 1, 2).value;
    var c := ChunkEncodes(kind, data, pos + 3, out, limit);
    ChunkDecodes(data, pos + 3, out, limit, c);
    var b, o := ChunkBits(c, pos + 3, out), ChunkOut(c, pos + 3, out);
    IntroStands(bits, pos, last, c);
    if last {
      cs := [c];
      AtSplit(bits, pos, Intro(true, c), b + []);
      assert b + [] == b;
    } else {
      var rest := StreamEncodes(data, pos + 3 + |b|, o, limit);
      cs := [c] + rest;
      assert cs[1..] == rest;
      AtSplit(bits, pos + 3, b, ChunksBits(rest, pos + 3 + |b|, o));
      AtSplit(bits, pos, Intro(false, c), b + ChunksBits(rest, pos + 3 + |b|, o));
    }
  }

  /** `data` begins with blocks made from `out`, `used` bits of them. */
  ghost predicate Encodes(data: seq<Byte>, out: seq<Byte>, used: nat) {
    exists cs: seq<Chunk> ::
      ChunksOk(cs, 0, []) && At(BitsOf(data), 0, ChunksBits(cs, 0, []))
      && out == ChunksOut(cs, 0, []) && used == |ChunksBits(cs, 0, [])|
  }

  /** Decompression gives exactly what the stream encodes, and gives it exactly
      when that is within the limit. */
  lemma InflatesExactly(data: seq<Byte>, out: seq<Byte>, used: nat, limit: nat)
    ensures Stream(data, 0, [], limit) == Got(out, used) <==> Encodes(data, out, used) && |out| <= limit
  {
    hide At, BitsOf, Stream, ChunksOk, ChunksBits, ChunksOut;
    if Stream(data, 0, [], limit) == Got(out, used) {
      var cs := StreamEncodes(data, 0, [], limit);
      StreamDecodes(data, 0, [], limit, cs);
    }
    if Encodes(data, out, used) && |out| <= limit {
      var cs :| ChunksOk(cs, 0, []) && At(BitsOf(data), 0, ChunksBits(cs, 0, []))
                && out == ChunksOut(cs, 0, []) && used == |ChunksBits(cs, 0, [])|;
      StreamDecodes(data, 0, [], limit, cs);
    }
  }
}
