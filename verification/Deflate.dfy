// The compressor's side of DEFLATE (sections 3.2.3 to 3.2.7 of RFC 1951), and
// the proof that `inflate` undoes it: a compressed block decompresses to a
// result exactly when it encodes a list of tokens that expands to it.

module Deflate {
  import opened Wrappers
  import opened Bytes
  import opened Bits
  import opened Huffman
  import opened Inflate

  // --- copies -----------------------------------------------------------------------

  /** `c` goes on from `out`, every new byte the one `d` before it. */
  predicate Periodic(c: seq<Byte>, out: seq<Byte>, d: nat)
    requires 1 <= d <= |out|
  {
    out <= c && forall i :: |out| <= i < |c| ==> c[i] == c[i - d]
  }

  /** A copy, overlapping or not, is the periodic extension of the last `d` bytes
      and nothing else. */
  lemma {:induction false} CopiedIsPeriodic(out: seq<Byte>, d: nat, n: nat, c: seq<Byte>)
    requires 1 <= d <= |out| && |c| == |out| + n
    ensures c == Copied(out, d, n) <==> Periodic(c, out, d)
    decreases n
  {
    hide Copied, Periodic;
    if n == 0 {
      assert c[..|out|] == c;
      CopiedNone(out, c, d);
    } else {
      var p := Copied(out, d, n - 1);
      CopiedIsPeriodic(out, d, n - 1, c[..|c| - 1]);
      CopiedLast(out, d, n);
      assert c == c[..|c| - 1] + [c[|c| - 1]];
      PeriodicSnoc(c, out, d);
    }
  }

  lemma CopiedNone(out: seq<Byte>, c: seq<Byte>, d: nat)
    requires 1 <= d <= |out| == |c|
    ensures Copied(out, d, 0) == out && (Periodic(c, out, d) <==> c == out)
  {
    if out <= c {
      assert c[..|out|] == c;
    }
  }

  lemma CopiedLast(out: seq<Byte>, d: nat, n: nat)
    requires 1 <= d <= |out| && n >= 1
    ensures var p := Copied(out, d, n - 1);
            |p| >= d && Copied(out, d, n) == p + [p[|p| - d]]
  {
  }

  lemma PeriodicSnoc(c: seq<Byte>, out: seq<Byte>, d: nat)
    requires 1 <= d <= |out| < |c|
    ensures Periodic(c, out, d) <==> Periodic(c[..|c| - 1], out, d) && c[|c| - 1] == c[|c| - 1 - d]
  {
    var p := c[..|c| - 1];
    assert out <= c <==> out <= p by {
      assert p[..|out|] == c[..|out|];
    }
    if Periodic(p, out, d) && c[|c| - 1] == c[|c| - 1 - d] {
      forall i | |out| <= i < |c|
        ensures c[i] == c[i - d]
      {
        assert i < |p| ==> p[i] == p[i - d];
      }
    }
  }

  // --- tokens ------------------------------------------------------------------------

  /** A literal byte, or a match given by its symbols and extra bits. */
  datatype Token = Literal(b: Byte) | Match(lsym: nat, lextra: nat, dsym: nat, dextra: nat)

  predicate HasCode(lengths: seq<nat>, sym: nat) {
    sym < |lengths| && lengths[sym] != 0
  }

  predicate TokenOk(ll: seq<nat>, dl: seq<nat>, t: Token) {
    match t
    case Literal(b) => HasCode(ll, b)
    case Match(ls, le, ds, de) =>
      && END_OF_BLOCK < ls <= 285 && HasCode(ll, ls) && le < Pow2(LenExtra(ls))
      && ds < 30 && HasCode(dl, ds) && de < Pow2(DistExtra(ds))
  }

  function MatchBits(dl: seq<nat>, t: Token): seq<bool>
    requires t.Match? && END_OF_BLOCK < t.lsym <= 285 && t.lextra < Pow2(LenExtra(t.lsym))
    requires t.dsym < 30 && HasCode(dl, t.dsym) && t.dextra < Pow2(DistExtra(t.dsym))
  {
    LsbBits(t.lextra, LenExtra(t.lsym)) + (Code(dl, t.dsym) + LsbBits(t.dextra, DistExtra(t.dsym)))
  }

  function TokenBits(ll: seq<nat>, dl: seq<nat>, t: Token): seq<bool>
    requires TokenOk(ll, dl, t)
  {
    match t
    case Literal(b) => Code(ll, b)
    case Match(ls, _, _, _) => Code(ll, ls) + MatchBits(dl, t)
  }

  predicate TokensOk(ll: seq<nat>, dl: seq<nat>, ts: seq<Token>) {
    HasCode(ll, END_OF_BLOCK) && forall i :: 0 <= i < |ts| ==> TokenOk(ll, dl, ts[i])
  }

  /** The bits of a block: its tokens, then the end-of-block code. */
  function BlockBits(ll: seq<nat>, dl: seq<nat>, ts: seq<Token>): seq<bool>
    requires TokensOk(ll, dl, ts)
  {
    if ts == [] then Code(ll, END_OF_BLOCK) else TokenBits(ll, dl, ts[0]) + BlockBits(ll, dl, ts[1..])
  }

  function MatchLength(t: Token): nat
    requires t.Match? && END_OF_BLOCK < t.lsym <= 285
  {
    LenBase(t.lsym) + t.lextra
  }

  function Distance(t: Token): (d: nat)
    requires t.Match? && t.dsym < 30
    ensures d >= 1
  {
    DistBase(t.dsym) + t.dextra
  }

  /** The token does not reach before the start of the output. */
  predicate Reaches(out: seq<Byte>, t: Token) {
    t.Match? ==> END_OF_BLOCK < t.lsym <= 285 && t.dsym < 30 && Distance(t) <= |out|
  }

  function ExpandOne(out: seq<Byte>, t: Token): (r: seq<Byte>)
    requires Reaches(out, t)
    ensures |r| >= |out|
  {
    match t
    case Literal(b) => out + [b]
    case Match(_, _, _, _) => Copied(out, Distance(t), MatchLength(t))
  }

  predicate Expandable(out: seq<Byte>, ts: seq<Token>)
    decreases |ts|
  {
    ts == [] || (Reaches(out, ts[0]) && Expandable(ExpandOne(out, ts[0]), ts[1..]))
  }

  /** The expansion of the tokens (Lempel and Ziv's, 1977). */
  function Expand(out: seq<Byte>, ts: seq<Token>): (r: seq<Byte>)
    requires Expandable(out, ts)
    ensures |r| >= |out|
    decreases |ts|
  {
    if ts == [] then out else Expand(ExpandOne(out, ts[0]), ts[1..])
  }

  // --- reading one token ----------------------------------------------------------------

  /** Reading a number finds it exactly where it stands. */
  lemma ReadBitsIs(bits: seq<bool>, pos: nat, v: nat, n: nat)
    requires v < Pow2(n)
    ensures At(bits, pos, LsbBits(v, n)) <==> ReadBits(bits, pos, n) == Got(v, pos + n)
  {
    hide Lsb, LsbBits, Pow2;
    LsbOf(v, n);
    if pos + n <= |bits| {
      OfLsb(bits[pos..pos + n]);
    }
  }

  /** Reading a match finds the one that stands there. */
  lemma ReadMatchIs(dl: seq<nat>, bits: seq<bool>, pos: nat, t: Token)
    requires Accepted(dl)
    requires t.Match? && END_OF_BLOCK < t.lsym <= 285 && t.lextra < Pow2(LenExtra(t.lsym))
    requires t.dsym < 30 && HasCode(dl, t.dsym) && t.dextra < Pow2(DistExtra(t.dsym))
    requires At(bits, pos, MatchBits(dl, t))
    ensures ReadMatch(dl, bits, pos, t.lsym) == Got((MatchLength(t), Distance(t)), pos + |MatchBits(dl, t)|)
  {
    hide ReadBits, ReadCode, At, Code, LenBase, LenExtra, DistBase, DistExtra, Accepted;
    var a, b, c := LsbBits(t.lextra, LenExtra(t.lsym)), Code(dl, t.dsym), LsbBits(t.dextra, DistExtra(t.dsym));
    AtSplit(bits, pos, a, b + c);
    AtSplit(bits, pos + |a|, b, c);
    ReadBitsIs(bits, pos, t.lextra, LenExtra(t.lsym));
    ReadCodeIs(dl, bits, pos + |a|, t.dsym);
    ReadBitsIs(bits, pos + |a| + |b|, t.dextra, DistExtra(t.dsym));
  }

  /** A match that was read stands there. */
  lemma MatchFound(dl: seq<nat>, bits: seq<bool>, pos: nat, sym: nat) returns (t: Token)
    requires Accepted(dl) && END_OF_BLOCK < sym <= 285 && ReadMatch(dl, bits, pos, sym).Got?
    ensures t.Match? && t.lsym == sym && t.lextra < Pow2(LenExtra(t.lsym))
    ensures t.dsym < 30 && HasCode(dl, t.dsym) && t.dextra < Pow2(DistExtra(t.dsym))
    ensures At(bits, pos, MatchBits(dl, t))
  {
    hide Code, LenBase, LenExtra, DistBase, DistExtra, Accepted, At;
    var le := ReadBits(bits, pos, LenExtra(sym));
    var ds := ReadCode(dl, bits, le.pos);
    var de := ReadBits(bits, ds.pos, DistExtra(ds.value));
    t := Match(sym, le.value, ds.value, de.value);
    var a, b, c := LsbBits(t.lextra, LenExtra(sym)), Code(dl, t.dsym), LsbBits(t.dextra, DistExtra(t.dsym));
    ReadBitsIs(bits, pos, t.lextra, LenExtra(sym));
    ReadBitsIs(bits, ds.pos, t.dextra, DistExtra(t.dsym));
    AtSplit(bits, pos + |a|, b, c);
    AtSplit(bits, pos, a, b + c);
  }

  // --- a block ------------------------------------------------------------------------------

  /** What a block read does with the token that stands at `pos`. */
  lemma StepToken(ll: seq<nat>, dl: seq<nat>, bits: seq<bool>, pos: nat, out: seq<Byte>, limit: nat, t: Token)
    requires Accepted(ll) && Accepted(dl) && TokenOk(ll, dl, t) && At(bits, pos, TokenBits(ll, dl, t)) && |out| <= limit
    requires Reaches(out, t)
    ensures Block(ll, dl, bits, pos, out, limit) ==
            if |ExpandOne(out, t)| > limit then Bad(TooLarge)
            else Block(ll, dl, bits, pos + |TokenBits(ll, dl, t)|, ExpandOne(out, t), limit)
  {
    hide ReadMatch, ReadCode, At, Code, LenBase, LenExtra, DistBase, DistExtra, Accepted, MatchBits, Copied;
    match t
    case Literal(b) =>
      CodeStands(ll, bits, pos, b);
    case Match(ls, _, _, _) =>
      AtSplit(bits, pos, Code(ll, ls), MatchBits(dl, t));
      CodeStands(ll, bits, pos, ls);
      ReadMatchIs(dl, bits, pos + |Code(ll, ls)|, t);
  }

  lemma CodeStands(lengths: seq<nat>, bits: seq<bool>, pos: nat, sym: nat)
    requires Accepted(lengths) && HasCode(lengths, sym) && At(bits, pos, Code(lengths, sym))
    ensures ReadCode(lengths, bits, pos) == Got(sym, pos + |Code(lengths, sym)|)
  {
    hide Code, ReadCode, Accepted, At;
    ReadCodeIs(lengths, bits, pos, sym);
  }

  /** Any list of literals and valid matches, encoded bit by bit, decompresses to
      its expansion, or is refused because that is over the limit. */
  lemma {:induction false} BlockDecodes(ll: seq<nat>, dl: seq<nat>, bits: seq<bool>, pos: nat, out: seq<Byte>, limit: nat, ts: seq<Token>)
    requires Accepted(ll) && Accepted(dl) && TokensOk(ll, dl, ts) && At(bits, pos, BlockBits(ll, dl, ts))
    requires |out| <= limit && Expandable(out, ts)
    ensures Block(ll, dl, bits, pos, out, limit) ==
            if |Expand(out, ts)| <= limit then Got(Expand(out, ts), pos + |BlockBits(ll, dl, ts)|) else Bad(TooLarge)
    decreases |ts|
  {
    hide At, Code, Accepted, Block, ExpandOne, TokenBits, Reaches;
    if ts == [] {
      CodeStands(ll, bits, pos, END_OF_BLOCK);
      BlockEnds(ll, dl, bits, pos, out, limit);
    } else {
      var t := ts[0];
      AtSplit(bits, pos, TokenBits(ll, dl, t), BlockBits(ll, dl, ts[1..]));
      StepToken(ll, dl, bits, pos, out, limit, t);
      if |ExpandOne(out, t)| <= limit {
        BlockDecodes(ll, dl, bits, pos + |TokenBits(ll, dl, t)|, ExpandOne(out, t), limit, ts[1..]);
      }
    }
  }

  lemma BlockEnds(ll: seq<nat>, dl: seq<nat>, bits: seq<bool>, pos: nat, out: seq<Byte>, limit: nat)
    requires ReadCode(ll, bits, pos).Got? && ReadCode(ll, bits, pos).value == END_OF_BLOCK
    ensures Block(ll, dl, bits, pos, out, limit) == Got(out, ReadCode(ll, bits, pos).pos)
  {
  }

  /** The token that a successful block read takes first, if any. */
  lemma TokenFound(ll: seq<nat>, dl: seq<nat>, bits: seq<bool>, pos: nat, out: seq<Byte>, limit: nat) returns (t: Token)
    requires Accepted(ll) && Accepted(dl) && |out| <= limit && Block(ll, dl, bits, pos, out, limit).Got?
    requires ReadCode(ll, bits, pos).Got? && ReadCode(ll, bits, pos).value != END_OF_BLOCK
    ensures TokenOk(ll, dl, t) && At(bits, pos, TokenBits(ll, dl, t)) && Reaches(out, t)
    ensures |ExpandOne(out, t)| <= limit
  {
    hide ReadMatch, Code, LenBase, LenExtra, DistBase, DistExtra, Accepted, MatchBits, Copied, At;
    var sym := ReadCode(ll, bits, pos).value;
    if sym < 256 {
      t := Literal(sym);
    } else {
      var p := ReadCode(ll, bits, pos).pos;
      t := MatchFound(dl, bits, p, sym);
      ReadMatchIs(dl, bits, p, t);
      AtSplit(bits, pos, Code(ll, sym), MatchBits(dl, t));
    }
  }

  /** Whatever a block decompresses to is the expansion of tokens whose encoding
      is exactly the bits it took. */
  lemma {:induction false} BlockEncodes(ll: seq<nat>, dl: seq<nat>, bits: seq<bool>, pos: nat, out: seq<Byte>, limit: nat) returns (ts: seq<Token>)
    requires Accepted(ll) && Accepted(dl) && |out| <= limit && Block(ll, dl, bits, pos, out, limit).Got?
    ensures TokensOk(ll, dl, ts) && At(bits, pos, BlockBits(ll, dl, ts)) && Expandable(out, ts)
    ensures Block(ll, dl, bits, pos, out, limit) == Got(Expand(out, ts), pos + |BlockBits(ll, dl, ts)|)
    ensures |Expand(out, ts)| <= limit
    decreases |bits| - pos
  {
    hide At, Code, Accepted, ExpandOne, TokenBits, Reaches, ReadMatch, Copied;
    if ReadCode(ll, bits, pos).value == END_OF_BLOCK {
      ts := [];
    } else {
      var t := TokenFound(ll, dl, bits, pos, out, limit);
      StepToken(ll, dl, bits, pos, out, limit, t);
      TokenSize(ll, dl, t);
      AtFits(bits, pos, TokenBits(ll, dl, t));
      var rest := BlockEncodes(ll, dl, bits, pos + |TokenBits(ll, dl, t)|, ExpandOne(out, t), limit);
      ts := [t] + rest;
      assert ts[1..] == rest;
      AtSplit(bits, pos, TokenBits(ll, dl, t), BlockBits(ll, dl, rest));
    }
  }

  lemma AtFits(bits: seq<bool>, pos: nat, s: seq<bool>)
    requires At(bits, pos, s)
    ensures pos + |s| <= |bits|
  {
  }

  /** Every token takes at least one bit. */
  lemma TokenSize(ll: seq<nat>, dl: seq<nat>, t: Token)
    requires TokenOk(ll, dl, t)
    ensures |TokenBits(ll, dl, t)| >= 1
  {
  }
}
