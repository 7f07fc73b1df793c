// Whole DEFLATE streams: the headers of dynamic blocks, stored blocks, and the
// proof that `inflate` returns what a stream of blocks was made from, together
// with the exact number of bytes it took.

module DeflateStream {
  import opened Wrappers
  import opened Bytes
  import opened Bits
  import opened Huffman
  import opened Inflate
  import opened Deflate

  // --- code lengths -------------------------------------------------------------------

  /** A code length, or a run of them behind symbol 16, 17 or 18. */
  datatype Item = Plain(length: nat) | Run(sym: nat, extra: nat)

  predicate ItemOk(cl: seq<nat>, got: seq<nat>, i: Item) {
    match i
    case Plain(l) => l <= MAX_LEN && HasCode(cl, l)
    case Run(sym, extra) =>
      16 <= sym <= 18 && HasCode(cl, sym) && extra < Pow2(RunBits(sym)) && (sym == 16 ==> got != [])
  }

  function ItemBits(cl: seq<nat>, got: seq<nat>, i: Item): seq<bool>
    requires ItemOk(cl, got, i)
  {
    match i
    case Plain(l) => Code(cl, l)
    case Run(sym, extra) => Code(cl, sym) + LsbBits(extra, RunBits(sym))
  }

  function Unpacked(cl: seq<nat>, got: seq<nat>, i: Item): (r: seq<nat>)
    requires ItemOk(cl, got, i)
    ensures got <= r && |r| > |got|
  {
    match i
    case Plain(l) => got + [l]
    case Run(sym, extra) => got + Repeated(if sym == 16 then got[|got| - 1] else 0, RunBase(sym) + extra)
  }

  predicate ItemsOk(cl: seq<nat>, got: seq<nat>, items: seq<Item>)
    decreases |items|
  {
    items == [] || (ItemOk(cl, got, items[0]) && ItemsOk(cl, Unpacked(cl, got, items[0]), items[1..]))
  }

  function ItemsBits(cl: seq<nat>, got: seq<nat>, items: seq<Item>): seq<bool>
    requires ItemsOk(cl, got, items)
    decreases |items|
  {
    if items == [] then []
    else ItemBits(cl, got, items[0]) + ItemsBits(cl, Unpacked(cl, got, items[0]), items[1..])
  }

  function UnpackedAll(cl: seq<nat>, got: seq<nat>, items: seq<Item>): (r: seq<nat>)
    requires ItemsOk(cl, got, items)
    ensures got <= r && (items != [] ==> |r| > |got|)
    decreases |items|
  {
    if items == [] then got else UnpackedAll(cl, Unpacked(cl, got, items[0]), items[1..])
  }

  lemma StepItem(cl: seq<nat>, bits: seq<bool>, pos: nat, n: nat, got: seq<nat>, i: Item)
    requires Accepted(cl) && ItemOk(cl, got, i) && At(bits, pos, ItemBits(cl, got, i)) && |Unpacked(cl, got, i)| <= n
    ensures ReadLengths(cl, bits, pos, n, got) ==
            ReadLengths(cl, bits, pos + |ItemBits(cl, got, i)|, n, Unpacked(cl, got, i))
  {
    hide ReadLengths, At, Code, Accepted, ReadBits, ReadCode, LsbBits;
    match i
    case Plain(l) => StepPlain(cl, bits, pos, n, got, l);
    case Run(sym, extra) => StepRun(cl, bits, pos, n, got, sym, extra);
  }

  lemma StepPlain(cl: seq<nat>, bits: seq<bool>, pos: nat, n: nat, got: seq<nat>, l: nat)
    requires Accepted(cl) && ItemOk(cl, got, Plain(l)) && At(bits, pos, Code(cl, l)) && |got| < n
    ensures ReadLengths(cl, bits, pos, n, got) == ReadLengths(cl, bits, pos + |Code(cl, l)|, n, got + [l])
  {
    hide ReadBits, ReadCode, At, Code, Accepted, Repeated, RunBits, RunBase;
    CodeStands(cl, bits, pos, l);
  }

  lemma StepRun(cl: seq<nat>, bits: seq<bool>, pos: nat, n: nat, got: seq<nat>, sym: nat, extra: nat)
    requires Accepted(cl) && ItemOk(cl, got, Run(sym, extra)) && |Unpacked(cl, got, Run(sym, extra))| <= n
    requires At(bits, pos, Code(cl, sym) + LsbBits(extra, RunBits(sym)))
    ensures ReadLengths(cl, bits, pos, n, got) ==
            ReadLengths(cl, bits, pos + |Code(cl, sym)| + RunBits(sym), n, Unpacked(cl, got, Run(sym, extra)))
  {
    hide ReadBits, ReadCode, ReadRun, At, Code, Accepted, Repeated, LsbBits, RunBits, RunBase, Pow2, ReadLengths;
    var p := pos + |Code(cl, sym)|;
    AtSplit(bits, pos, Code(cl, sym), LsbBits(extra, RunBits(sym)));
    CodeStands(cl, bits, pos, sym);
    ReadBitsIs(bits, p, extra, RunBits(sym));
    RunRead(bits, p, n, got, sym, extra);
    RunNext(cl, bits, pos, n, got, sym, p);
  }

  lemma RunRead(bits: seq<bool>, p: nat, n: nat, got: seq<nat>, sym: nat, extra: nat)
    requires 16 <= sym <= 18 && (sym == 16 ==> got != []) && |got| + RunBase(sym) + extra <= n
    requires ReadBits(bits, p, RunBits(sym)) == Got(extra, p + RunBits(sym))
    ensures ReadRun(bits, p, sym, n, got) ==
            Got(got + Repeated(if sym == 16 then got[|got| - 1] else 0, RunBase(sym) + extra), p + RunBits(sym))
  {
    hide ReadBits, Repeated, RunBase, RunBits;
  }

  lemma RunNext(cl: seq<nat>, bits: seq<bool>, pos: nat, n: nat, got: seq<nat>, sym: nat, p: nat)
    requires |got| < n && 16 <= sym <= 18 && ReadCode(cl, bits, pos) == Got(sym, p)
    requires ReadRun(bits, p, sym, n, got).Got?
    ensures var r := ReadRun(bits, p, sym, n, got);
            ReadLengths(cl, bits, pos, n, got) == ReadLengths(cl, bits, r.pos, n, r.value)
  {
    hide ReadCode, ReadRun;
  }

  lemma LengthsDone(cl: seq<nat>, bits: seq<bool>, pos: nat, got: seq<nat>)
    ensures ReadLengths(cl, bits, pos, |got|, got) == Got(got, pos)
  {
  }

  /** Packed code lengths unpack to themselves. */
  lemma {:induction false} LengthsDecode(cl: seq<nat>, bits: seq<bool>, pos: nat, n: nat, got: seq<nat>, items: seq<Item>)
    requires Accepted(cl) && ItemsOk(cl, got, items) && At(bits, pos, ItemsBits(cl, got, items))
    requires |UnpackedAll(cl, got, items)| == n
    ensures ReadLengths(cl, bits, pos, n, got) ==
            Got(UnpackedAll(cl, got, items), pos + |ItemsBits(cl, got, items)|)
    decreases |items|
  {
    hide At, Accepted, ItemOk, ItemBits, Unpacked, ReadLengths;
    if items == [] {
      LengthsDone(cl, bits, pos, got);
    } else {
      var a, more := ItemBits(cl, got, items[0]), Unpacked(cl, got, items[0]);
      AtSplit(bits, pos, a, ItemsBits(cl, more, items[1..]));
      StepItem(cl, bits, pos, n, got, items[0]);
      LengthsDecode(cl, bits, pos + |a|, n, more, items[1..]);
    }
  }

  // --- the code-length code ---------------------------------------------------------------

  /** Where each slot comes in `CLEN_ORDER`. */
  const CLEN_PLACE: seq<nat> := [3, 17, 15, 13, 11, 9, 7, 5, 4, 6, 8, 10, 12, 14, 16, 18, 0, 1, 2]

  /** The first `k` lengths of the header filled in, the others zero. */
  function Filled(clen: seq<nat>, k: nat): (r: seq<nat>)
    requires |clen| == 19
    ensures |r| == 19
    ensures forall s :: 0 <= s < 19 ==> r[s] == if CLEN_PLACE[s] < k then clen[s] else 0
  {
    seq(19, s requires 0 <= s < 19 => if CLEN_PLACE[s] < k then clen[s] else 0)
  }

  predicate ClenOk(clen: seq<nat>, n: nat) {
    && |clen| == 19 && 4 <= n <= 19 && Filled(clen, n) == clen
    && (forall s :: 0 <= s < 19 ==> clen[s] < Pow2(3))
  }

  function ClenBits(clen: seq<nat>, n: nat, k: nat): seq<bool>
    requires ClenOk(clen, n) && k <= n
    decreases n - k
  {
    if k == n then [] else LsbBits(clen[CLEN_ORDER[k]], 3) + ClenBits(clen, n, k + 1)
  }

  lemma FillOne(clen: seq<nat>, k: nat)
    requires |clen| == 19 && k < 19
    ensures Filled(clen, k)[CLEN_ORDER[k] := clen[CLEN_ORDER[k]]] == Filled(clen, k + 1)
    ensures Filled(clen, 0) == Repeated(0, 19)
  {
    Places(k);
    forall s | 0 <= s < 19
      ensures CLEN_PLACE[s] == k <==> CLEN_ORDER[k] == s
    {
      Slots(s);
    }
  }

  lemma Places(k: nat)
    requires k < 19
    ensures CLEN_PLACE[CLEN_ORDER[k]] == k
  {
  }

  lemma Slots(s: nat)
    requires s < 19
    ensures CLEN_PLACE[s] < 19 && CLEN_ORDER[CLEN_PLACE[s]] == s
  {
  }

  lemma {:induction false} ClenDecode(clen: seq<nat>, bits: seq<bool>, pos: nat, n: nat, k: nat)
    requires ClenOk(clen, n) && k <= n && pos <= |bits| && At(bits, pos, ClenBits(clen, n, k))
    ensures ReadClen(bits, pos, n, k, Filled(clen, k)) == Got(clen, pos + |ClenBits(clen, n, k)|)
    decreases n - k
  {
    hide At, ReadBits, Filled, LsbBits;
    if k < n {
      var v := clen[CLEN_ORDER[k]];
      AtSplit(bits, pos, LsbBits(v, 3), ClenBits(clen, n, k + 1));
      ReadBitsIs(bits, pos, v, 3);
      FillOne(clen, k);
      ClenDecode(clen, bits, pos + 3, n, k + 1);
    }
  }

  // --- the header of a dynamic block ---------------------------------------------------------

  datatype Header = Header(nlit: nat, ndist: nat, nclen: nat, clen: seq<nat>, items: seq<Item>)

  predicate HeaderOk(h: Header) {
    && 257 <= h.nlit < 257 + 32 && 1 <= h.ndist <= 32 && ClenOk(h.clen, h.nclen) && Accepted(h.clen)
    && ItemsOk(h.clen, [], h.items)
    && var ls := UnpackedAll(h.clen, [], h.items);
       |ls| == h.nlit + h.ndist && ls[END_OF_BLOCK] != 0 && Accepted(ls[..h.nlit]) && Accepted(ls[h.nlit..])
  }

  function LitLengths(h: Header): seq<nat>
    requires HeaderOk(h)
  {
    UnpackedAll(h.clen, [], h.items)[..h.nlit]
  }

  function DistLengths(h: Header): seq<nat>
    requires HeaderOk(h)
  {
    UnpackedAll(h.clen, [], h.items)[h.nlit..]
  }

  lemma FieldBounds(h: Header)
    requires HeaderOk(h)
    ensures h.nlit - 257 < Pow2(5) && h.ndist - 1 < Pow2(5) && 0 <= h.nclen - 4 < Pow2(4)
  {
    FourBits();
    assert Pow2(5) == 32;
  }

  function HeaderBits(h: Header): seq<bool>
    requires HeaderOk(h)
  {
    FieldBounds(h);
    LsbBits(h.nlit - 257, 5) + (LsbBits(h.ndist - 1, 5) + (LsbBits(h.nclen - 4, 4)
    + (ClenBits(h.clen, h.nclen, 0) + ItemsBits(h.clen, [], h.items))))
  }

  /** The tables of a dynamic block are read back from its header. */
  lemma HeaderDecodes(h: Header, bits: seq<bool>, pos: nat)
    requires HeaderOk(h) && At(bits, pos, HeaderBits(h))
    ensures ReadTables(bits, pos) == Got((LitLengths(h), DistLengths(h)), pos + |HeaderBits(h)|)
  {
    hide At, ReadBits, ReadCodes, ReadClen, LsbBits, Accepted, UnpackedAll, ItemsBits, ItemsOk, ClenBits, Filled;
    FieldBounds(h);
    var a, b, c := LsbBits(h.nlit - 257, 5), LsbBits(h.ndist - 1, 5), LsbBits(h.nclen - 4, 4);
    var d, e := ClenBits(h.clen, h.nclen, 0), ItemsBits(h.clen, [], h.items);
    AtSplit(bits, pos, a, b + (c + (d + e)));
    AtSplit(bits, pos + 5, b, c + (d + e));
    AtSplit(bits, pos + 10, c, d + e);
    AtSplit(bits, pos + 14, d, e);
    ReadBitsIs(bits, pos, h.nlit - 257, 5);
    ReadBitsIs(bits, pos + 5, h.ndist - 1, 5);
    ReadBitsIs(bits, pos + 10, h.nclen - 4, 4);
    FillOne(h.clen, 0);
    ClenDecode(h.clen, bits, pos + 14, h.nclen, 0);
    CodesDecode(h, bits, pos + 14 + |d|);
  }

  lemma CodesDecode(h: Header, bits: seq<bool>, pos: nat)
    requires HeaderOk(h) && pos <= |bits| && At(bits, pos, ItemsBits(h.clen, [], h.items))
    ensures ReadCodes(bits, pos, h.clen, h.nlit, h.ndist) ==
            Got((LitLengths(h), DistLengths(h)), pos + |ItemsBits(h.clen, [], h.items)|)
  {
    hide At, ReadLengths, Accepted, UnpackedAll, ItemsBits, ItemsOk, ClenOk;
    LengthsDecode(h.clen, bits, pos, h.nlit + h.ndist, [], h.items);
  }

  // --- whole streams --------------------------------------------------------------------------

  /** A block of the stream; `pad` fills a stored block's byte up. */
  datatype Chunk =
    | Raw(pad: seq<bool>, bytes: seq<Byte>)
    | Fixed(tokens: seq<Token>)
    | Dynamic(header: Header, tokens: seq<Token>)

  function Kind(c: Chunk): nat {
    match c
    case Raw(_, _) => 0
    case Fixed(_) => 1
    case Dynamic(_, _) => 2
  }

  predicate ChunkOk(c: Chunk, pos: nat, out: seq<Byte>) {
    match c
    case Raw(pad, bytes) => pos + |pad| == Aligned(pos) && |bytes| < Pow2(16)
    case Fixed(ts) => TokensOk(FixedLit(), FixedDist(), ts) && Expandable(out, ts)
    case Dynamic(h, ts) => HeaderOk(h) && TokensOk(LitLengths(h), DistLengths(h), ts) && Expandable(out, ts)
  }

  function ChunkBits(c: Chunk, pos: nat, out: seq<Byte>): seq<bool>
    requires ChunkOk(c, pos, out)
  {
    match c
    case Raw(pad, bytes) =>
      Powers16();
      pad + (LsbBits(|bytes|, 16) + (LsbBits(0xFFFF - |bytes|, 16) + BitsOf(bytes)))
    case Fixed(ts) => BlockBits(FixedLit(), FixedDist(), ts)
    case Dynamic(h, ts) => HeaderBits(h) + BlockBits(LitLengths(h), DistLengths(h), ts)
  }

  function ChunkOut(c: Chunk, pos: nat, out: seq<Byte>): (r: seq<Byte>)
    requires ChunkOk(c, pos, out)
    ensures |r| >= |out|
  {
    match c
    case Raw(_, bytes) => out + bytes
    case Fixed(ts) => Expand(out, ts)
    case Dynamic(_, ts) => Expand(out, ts)
  }

  lemma Powers16()
    ensures Pow2(16) == 0x1_0000
  {
    Sixteen();
  }

  /** A stored block decompresses to its bytes. */
  lemma RawDecodes(data: seq<Byte>, pos: nat, out: seq<Byte>, limit: nat, c: Chunk)
    requires c.Raw? && ChunkOk(c, pos, out) && At(BitsOf(data), pos, ChunkBits(c, pos, out)) && |out| <= limit
    ensures Stored(data, pos, out, limit) ==
            if |out + c.bytes| <= limit then Got(out + c.bytes, pos + |ChunkBits(c, pos, out)|) else Bad(TooLarge)
  {
    hide At, ReadBits, LsbBits, BitsOf, Complements;
    Powers16();
    var bits, n, p := BitsOf(data), |c.bytes|, Aligned(pos);
    var a, b, d := LsbBits(n, 16), LsbBits(0xFFFF - n, 16), BitsOf(c.bytes);
    AtSplit(bits, pos, c.pad, a + (b + d));
    AtSplit(bits, p, a, b + d);
    AtSplit(bits, p + 16, b, d);
    ReadBitsIs(bits, p, n, 16);
    ReadBitsIs(bits, p + 16, 0xFFFF - n, 16);
    ComplementSum(n, 0xFFFF - n, 16);
    RawBytes(data, p / 8 + 4, c.bytes);
  }

  lemma RawBytes(data: seq<Byte>, start: nat, bytes: seq<Byte>)
    requires At(BitsOf(data), 8 * start, BitsOf(bytes))
    ensures start + |bytes| <= |data| && data[start..start + |bytes|] == bytes
  {
    hide Bit;
    assert 8 * start + 8 * |bytes| <= 8 * |data|;
    SliceBits(data, start, start + |bytes|);
    ByteBits(data[start..start + |bytes|], bytes);
  }

  /** One block, of any kind, decompresses to what it was made from. */
  lemma ChunkDecodes(data: seq<Byte>, pos: nat, out: seq<Byte>, limit: nat, c: Chunk)
    requires ChunkOk(c, pos, out) && At(BitsOf(data), pos, ChunkBits(c, pos, out)) && |out| <= limit
    ensures BlockOf(Kind(c), data, pos, out, limit) ==
            if |ChunkOut(c, pos, out)| <= limit then Got(ChunkOut(c, pos, out), pos + |ChunkBits(c, pos, out)|)
            else Bad(TooLarge)
  {
    hide At, Block, Stored, BitsOf, HeaderBits, HeaderOk, BlockBits, Expand, TokensOk, ReadTables, FixedLit, FixedDist,
      LitLengths, DistLengths, Accepted, ReadBits, LsbBits;
    match c
    case Raw(_, _) =>
      RawDecodes(data, pos, out, limit, c);
    case Fixed(ts) =>
      FixedAccepted();
      BlockDecodes(FixedLit(), FixedDist(), BitsOf(data), pos, out, limit, ts);
    case Dynamic(h, ts) =>
      DynamicDecodes(data, pos, out, limit, h, ts);
  }

  lemma DynamicDecodes(data: seq<Byte>, pos: nat, out: seq<Byte>, limit: nat, h: Header, ts: seq<Token>)
    requires ChunkOk(Dynamic(h, ts), pos, out) && |out| <= limit
    requires At(BitsOf(data), pos, ChunkBits(Dynamic(h, ts), pos, out))
    ensures var c := Dynamic(h, ts);
            BlockOf(2, data, pos, out, limit) ==
            if |ChunkOut(c, pos, out)| <= limit then Got(ChunkOut(c, pos, out), pos + |ChunkBits(c, pos, out)|)
            else Bad(TooLarge)
  {
    hide At, Block, Stored, BitsOf, HeaderBits, HeaderOk, BlockBits, Expand, TokensOk, ReadTables, FixedLit, FixedDist,
      LitLengths, DistLengths, Accepted;
    AtSplit(BitsOf(data), pos, HeaderBits(h), BlockBits(LitLengths(h), DistLengths(h), ts));
    HeaderDecodes(h, BitsOf(data), pos);
    HeaderCodes(h);
    BlockDecodes(LitLengths(h), DistLengths(h), BitsOf(data), pos + |HeaderBits(h)|, out, limit, ts);
  }

  lemma HeaderCodes(h: Header)
    requires HeaderOk(h)
    ensures Accepted(LitLengths(h)) && Accepted(DistLengths(h))
  {
  }

  /** The three bits before a block. */
  function Intro(last: bool, c: Chunk): (r: seq<bool>)
    ensures |r| == 3
  {
    KindFits(c);
    [last] + LsbBits(Kind(c), 2)
  }

  lemma KindFits(c: Chunk)
    ensures Kind(c) < Pow2(2)
  {
  }

  /** Blocks one after another from bit `pos` of the stream. */
  predicate ChunksOk(cs: seq<Chunk>, pos: nat, out: seq<Byte>)
    decreases |cs|
  {
    cs != [] && ChunkOk(cs[0], pos + 3, out) &&
    (|cs| > 1 ==> ChunksOk(cs[1..], pos + 3 + |ChunkBits(cs[0], pos + 3, out)|, ChunkOut(cs[0], pos + 3, out)))
  }

  function ChunksBits(cs: seq<Chunk>, pos: nat, out: seq<Byte>): seq<bool>
    requires ChunksOk(cs, pos, out)
    decreases |cs|
  {
    hide ChunkBits, ChunkOut, ChunkOk, Intro;
    var b := ChunkBits(cs[0], pos + 3, out);
    Intro(|cs| == 1, cs[0]) +
    (b + if |cs| == 1 then [] else ChunksBits(cs[1..], pos + 3 + |b|, ChunkOut(cs[0], pos + 3, out)))
  }

  function ChunksOut(cs: seq<Chunk>, pos: nat, out: seq<Byte>): (r: seq<Byte>)
    requires ChunksOk(cs, pos, out)
    ensures |r| >= |out|
    decreases |cs|
  {
    hide ChunkBits, ChunkOut, ChunkOk;
    var o := ChunkOut(cs[0], pos + 3, out);
    if |cs| == 1 then o else ChunksOut(cs[1..], pos + 3 + |ChunkBits(cs[0], pos + 3, out)|, o)
  }

  lemma IntroRead(bits: seq<bool>, pos: nat, last: bool, c: Chunk)
    requires At(bits, pos, Intro(last, c))
    ensures ReadBits(bits, pos, 1) == Got(if last then 1 else 0, pos + 1)
    ensures ReadBits(bits, pos + 1, 2) == Got(Kind(c), pos + 3)
  {
    hide At, LsbBits, ReadBits;
    KindFits(c);
    AtSplit(bits, pos, [last], LsbBits(Kind(c), 2));
    ReadBitsIs(bits, pos + 1, Kind(c), 2);
    OneBitAt(bits, pos, last);
  }

  lemma OneBitAt(bits: seq<bool>, pos: nat, b: bool)
    requires At(bits, pos, [b])
    ensures ReadBits(bits, pos, 1) == Got(if b then 1 else 0, pos + 1)
  {
    assert bits[pos] == bits[pos..pos + 1][0] == b;
    OneBit(bits, pos);
  }

  /** Every stream of blocks decompresses to what it was made from, or is refused
      because that is over the limit; nothing after it is looked at. */
  lemma {:induction false} StreamDecodes(data: seq<Byte>, pos: nat, out: seq<Byte>, limit: nat, cs: seq<Chunk>)
    requires ChunksOk(cs, pos, out) && At(BitsOf(data), pos, ChunksBits(cs, pos, out)) && |out| <= limit
    ensures Stream(data, pos, out, limit) ==
            if |ChunksOut(cs, pos, out)| <= limit then Got(ChunksOut(cs, pos, out), pos + |ChunksBits(cs, pos, out)|)
            else Bad(TooLarge)
    decreases |cs|
  {
    hide At, BitsOf, BlockOf, ReadBits, ChunkOk, ChunkBits, ChunkOut, Intro;
    var c, one := cs[0], |cs| == 1;
    var b, o := ChunkBits(c, pos + 3, out), ChunkOut(c, pos + 3, out);
    var rest := if one then [] else ChunksBits(cs[1..], pos + 3 + |b|, o);
    AtSplit(BitsOf(data), pos, Intro(one, c), b + rest);
    AtSplit(BitsOf(data), pos + 3, b, rest);
    IntroRead(BitsOf(data), pos, one, c);
    ChunkDecodes(data, pos + 3, out, limit, c);
    if !one && |o| <= limit {
      StreamDecodes(data, pos + 3 + |b|, o, limit, cs[1..]);
    }
  }
}
