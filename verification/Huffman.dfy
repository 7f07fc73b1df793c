// Canonical Huffman codes as `Huffman::new` in crates/posh-term/src/inflate.rs
// builds them (section 3.2.2 of RFC 1951): which lengths make a code, that the
// codes are prefix-free, and that the tables list them in order.

module Huffman {
  import opened Wrappers
  import opened Bits

  const MAX_LEN := 15

  // --- the canonical code ---------------------------------------------------------

  function Count(lengths: seq<nat>, l: nat): (n: nat)
    ensures n <= |lengths|
  {
    if lengths == [] then 0
    else Count(lengths[..|lengths| - 1], l) + if lengths[|lengths| - 1] == l then 1 else 0
  }

  /** Codes of length `l`; length 0 means no code. */
  function Codes(lengths: seq<nat>, l: nat): nat {
    if l == 0 then 0 else Count(lengths, l)
  }

  /** The first code of length `l`. */
  function First(lengths: seq<nat>, l: nat): nat {
    if l == 0 then 0 else 2 * (First(lengths, l - 1) + Codes(lengths, l - 1))
  }

  /** Codes of lengths up to `l`, as a share of the `2^l` strings. */
  function Used(lengths: seq<nat>, l: nat): nat {
    First(lengths, l) + Codes(lengths, l)
  }

  /** Symbols before `sym` that have a code of the same length. */
  function Rank(lengths: seq<nat>, sym: nat): nat
    requires sym < |lengths|
  {
    Count(lengths[..sym], lengths[sym])
  }

  function Code(lengths: seq<nat>, sym: nat): (bits: seq<bool>)
    requires sym < |lengths|
    ensures |bits| == lengths[sym]
  {
    Msb(First(lengths, lengths[sym]) + Rank(lengths, sym), lengths[sym])
  }

  /** The Kraft sum, in units of the longest code. */
  function Kraft(lengths: seq<nat>): nat {
    if lengths == [] then 0 else
      var l := lengths[|lengths| - 1];
      Kraft(lengths[..|lengths| - 1]) + if 1 <= l <= MAX_LEN then Pow2(MAX_LEN - l) else 0
  }

  predicate Short(lengths: seq<nat>) {
    forall i :: 0 <= i < |lengths| ==> lengths[i] <= MAX_LEN
  }

  /** Lengths that a code can have: none too long, and the Kraft inequality. */
  predicate Accepted(lengths: seq<nat>) {
    Short(lengths) && Kraft(lengths) <= Pow2(MAX_LEN)
  }

  // --- counting ----------------------------------------------------------------------

  lemma CountSnoc(lengths: seq<nat>, i: nat, l: nat)
    requires i < |lengths|
    ensures Count(lengths[..i + 1], l) == Count(lengths[..i], l) + if lengths[i] == l then 1 else 0
  {
    assert lengths[..i + 1][..i] == lengths[..i];
  }

  lemma {:induction false} CountPrefix(lengths: seq<nat>, i: nat, j: nat, l: nat)
    requires i <= j <= |lengths|
    ensures Count(lengths[..i], l) <= Count(lengths[..j], l)
    decreases j
  {
    if i < j {
      CountPrefix(lengths, i, j - 1, l);
      CountSnoc(lengths, j - 1, l);
    }
  }

  /** A symbol's rank is below the number of codes of its length. */
  lemma RankBound(lengths: seq<nat>, sym: nat)
    requires sym < |lengths|
    ensures Rank(lengths, sym) < Count(lengths, lengths[sym])
  {
    CountSnoc(lengths, sym, lengths[sym]);
    CountPrefix(lengths, sym + 1, |lengths|, lengths[sym]);
    assert lengths[..|lengths|] == lengths;
  }

  /** Symbols of one length have different ranks. */
  lemma RankOrder(lengths: seq<nat>, s: nat, t: nat)
    requires s < t < |lengths| && lengths[s] == lengths[t]
    ensures Rank(lengths, s) < Rank(lengths, t)
  {
    CountSnoc(lengths, s, lengths[s]);
    CountPrefix(lengths, s + 1, t, lengths[s]);
  }

  /** Every rank below the count belongs to a symbol. */
  lemma {:induction false} RankTaken(lengths: seq<nat>, l: nat, r: nat) returns (sym: nat)
    requires r < Count(lengths, l)
    ensures sym < |lengths| && lengths[sym] == l && Rank(lengths, sym) == r
    decreases |lengths|
  {
    var n := |lengths| - 1;
    var init := lengths[..n];
    if r < Count(init, l) {
      sym := RankTaken(init, l, r);
      assert init[..sym] == lengths[..sym];
    } else {
      sym := n;
    }
  }

  // --- which lengths are accepted -----------------------------------------------------

  lemma {:induction false} UsedSnoc(lengths: seq<nat>, k: nat, l: nat)
    ensures Used(lengths + [k], l) == Used(lengths, l) + if 1 <= k <= l then Pow2(l - k) else 0
    decreases l
  {
    assert (lengths + [k])[..|lengths|] == lengths;
    if l > 0 {
      UsedSnoc(lengths, k, l - 1);
    }
  }

  lemma {:induction false} UsedNone(l: nat)
    ensures Used([], l) == 0
    decreases l
  {
    if l > 0 {
      UsedNone(l - 1);
    }
  }

  lemma {:induction false} UsedIsKraft(lengths: seq<nat>)
    ensures Used(lengths, MAX_LEN) == Kraft(lengths)
    decreases |lengths|
  {
    if lengths == [] {
      UsedNone(MAX_LEN);
    } else {
      var n := |lengths| - 1;
      UsedIsKraft(lengths[..n]);
      UsedSnoc(lengths[..n], lengths[n], MAX_LEN);
      assert lengths[..n] + [lengths[n]] == lengths;
    }
  }

  /** Over-subscribed at one length is over-subscribed at every longer one. */
  lemma {:induction false} UsedGrows(lengths: seq<nat>, l: nat, m: nat)
    requires l <= m && Used(lengths, m) <= Pow2(m)
    ensures Used(lengths, l) <= Pow2(l)
    decreases m
  {
    if l < m {
      UsedGrows(lengths, l, m - 1);
    }
  }

  /** No length is over-subscribed. */
  predicate Fits(lengths: seq<nat>) {
    forall l :: 0 <= l <= MAX_LEN ==> Used(lengths, l) <= Pow2(l)
  }

  lemma FitsIsKraft(lengths: seq<nat>)
    ensures Fits(lengths) <==> Kraft(lengths) <= Pow2(MAX_LEN)
  {
    UsedIsKraft(lengths);
    if Kraft(lengths) <= Pow2(MAX_LEN) {
      forall l | 0 <= l <= MAX_LEN
        ensures Used(lengths, l) <= Pow2(l)
      {
        UsedGrows(lengths, l, MAX_LEN);
      }
    }
  }

  // --- prefix freedom --------------------------------------------------------------------

  /** The code of a symbol spells its place among the codes of its length. */
  lemma {:induction false} CodeNum(lengths: seq<nat>, sym: nat)
    requires Accepted(lengths) && sym < |lengths| && lengths[sym] != 0
    ensures Num(Code(lengths, sym)) == First(lengths, lengths[sym]) + Rank(lengths, sym)
    ensures First(lengths, lengths[sym]) <= Num(Code(lengths, sym)) < Used(lengths, lengths[sym])
  {
    RankBound(lengths, sym);
    FitsIsKraft(lengths);
    NumMsb(First(lengths, lengths[sym]) + Rank(lengths, sym), lengths[sym]);
  }

  /** Below the codes of one length means below those of every longer one. */
  lemma {:induction false} StaysBelow(lengths: seq<nat>, bits: seq<bool>, l: nat)
    requires l < |bits| && Num(bits[..l]) < Used(lengths, l)
    ensures Num(bits) < First(lengths, |bits|)
    decreases |bits|
  {
    var n := |bits| - 1;
    if l < n {
      assert bits[..n][..l] == bits[..l];
      StaysBelow(lengths, bits[..n], l);
    }
  }

  /** No code is a prefix of another symbol's code. */
  lemma PrefixFree(lengths: seq<nat>, s: nat, t: nat)
    requires Accepted(lengths) && s < |lengths| && t < |lengths| && s != t
    requires lengths[s] != 0 && lengths[t] != 0
    ensures !(Code(lengths, s) <= Code(lengths, t))
  {
    CodeNum(lengths, s);
    CodeNum(lengths, t);
    var a, b := Code(lengths, s), Code(lengths, t);
    if a <= b {
      if |a| < |b| {
        assert b[..|a|] == a;
        StaysBelow(lengths, b, |a|);
      } else {
        assert a == b;
        RankOrder(lengths, if s < t then s else t, if s < t then t else s);
      }
    }
  }

  /** A string that spells a number among the codes of its length is a code. */
  lemma IsCode(lengths: seq<nat>, bits: seq<bool>) returns (sym: nat)
    requires Accepted(lengths) && bits != [] && First(lengths, |bits|) <= Num(bits) < Used(lengths, |bits|)
    ensures sym < |lengths| && lengths[sym] == |bits| && Code(lengths, sym) == bits
    ensures Rank(lengths, sym) == Num(bits) - First(lengths, |bits|)
  {
    hide Accepted, Count, First, Num, Msb;
    sym := RankTaken(lengths, |bits|, Num(bits) - First(lengths, |bits|));
    MsbNum(bits);
  }

  // --- the tables -------------------------------------------------------------------------

  /** `counts[l]` codes of length `l`; symbols in order of (length, symbol). */
  datatype Table = Table(counts: seq<nat>, symbols: seq<nat>)

  function Offset(lengths: seq<nat>, l: nat): nat {
    if l <= 1 then 0 else Offset(lengths, l - 1) + Codes(lengths, l - 1)
  }

  function Coded(lengths: seq<nat>): nat {
    if lengths == [] then 0 else Coded(lengths[..|lengths| - 1]) + if lengths[|lengths| - 1] != 0 then 1 else 0
  }

  function Position(lengths: seq<nat>, sym: nat): nat
    requires sym < |lengths|
  {
    Offset(lengths, lengths[sym]) + Rank(lengths, sym)
  }

  predicate Built(h: Table, lengths: seq<nat>) {
    && |h.counts| == MAX_LEN + 1 && |h.symbols| == Coded(lengths)
    && (forall l :: 0 <= l <= MAX_LEN ==> h.counts[l] == Codes(lengths, l))
    && Placed(lengths, h.symbols, |lengths|)
  }

  lemma {:induction false} OffsetSnoc(lengths: seq<nat>, k: nat, l: nat)
    ensures Offset(lengths + [k], l) == Offset(lengths, l) + if 1 <= k < l then 1 else 0
    decreases l
  {
    assert (lengths + [k])[..|lengths|] == lengths;
    if l > 1 {
      OffsetSnoc(lengths, k, l - 1);
    }
  }

  lemma {:induction false} OffsetNone(l: nat)
    ensures Offset([], l) == 0
  {
    if l > 1 {
      OffsetNone(l - 1);
    }
  }

  lemma {:induction false} OffsetCoded(lengths: seq<nat>)
    requires Short(lengths)
    ensures Offset(lengths, MAX_LEN + 1) == Coded(lengths)
    decreases |lengths|
  {
    if lengths == [] {
      OffsetNone(MAX_LEN + 1);
    } else {
      var n := |lengths| - 1;
      OffsetCoded(lengths[..n]);
      OffsetSnoc(lengths[..n], lengths[n], MAX_LEN + 1);
      assert lengths[..n] + [lengths[n]] == lengths;
    }
  }

  lemma {:induction false} OffsetOrder(lengths: seq<nat>, l: nat, m: nat)
    requires 1 <= l < m
    ensures Offset(lengths, l) + Codes(lengths, l) <= Offset(lengths, m)
    decreases m
  {
    if l + 1 < m {
      OffsetOrder(lengths, l, m - 1);
    }
  }

  /** Every coded symbol has a place of its own in the table. */
  lemma PositionBound(lengths: seq<nat>, s: nat)
    requires Short(lengths) && s < |lengths| && lengths[s] != 0
    ensures Position(lengths, s) < Coded(lengths)
  {
    RankBound(lengths, s);
    OffsetCoded(lengths);
    OffsetOrder(lengths, lengths[s], MAX_LEN + 1);
  }

  lemma PositionsApart(lengths: seq<nat>, s: nat, t: nat)
    requires s < |lengths| && t < |lengths| && s != t && lengths[s] != 0 && lengths[t] != 0
    ensures Position(lengths, s) != Position(lengths, t)
  {
    RankBound(lengths, s);
    RankBound(lengths, t);
    if lengths[s] == lengths[t] {
      RankOrder(lengths, if s < t then s else t, if s < t then t else s);
    } else if lengths[s] < lengths[t] {
      OffsetOrder(lengths, lengths[s], lengths[t]);
    } else {
      OffsetOrder(lengths, lengths[t], lengths[s]);
    }
  }

  /** How many lengths there are of each kind, or nothing if one is too long. */
  method CountLengths(lengths: seq<nat>) returns (r: Option<seq<nat>>)
    ensures r.Some? <==> Short(lengths)
    ensures r.Some? ==> |r.value| == MAX_LEN + 1 && forall l :: 0 <= l <= MAX_LEN ==> r.value[l] == Codes(lengths, l)
  {
    var counts := new nat[MAX_LEN + 1](i => 0);
    var i := 0;
    while i < |lengths|
      invariant i <= |lengths| && Short(lengths[..i])
      invariant forall l :: 0 <= l <= MAX_LEN ==> counts[l] == Count(lengths[..i], l)
    {
      if lengths[i] > MAX_LEN {
        return None;
      }
      forall l | 0 <= l <= MAX_LEN
        ensures Count(lengths[..i + 1], l) == Count(lengths[..i], l) + if lengths[i] == l then 1 else 0
      {
        CountSnoc(lengths, i, l);
      }
      counts[lengths[i]] := counts[lengths[i]] + 1;
      i := i + 1;
    }
    assert lengths[..i] == lengths;
    counts[0] := 0;
    return Some(counts[..]);
  }

  /** Does no length have more codes than are left? */
  method Subscribed(counts: seq<nat>, ghost lengths: seq<nat>) returns (ok: bool)
    requires |counts| == MAX_LEN + 1 && forall l :: 0 <= l <= MAX_LEN ==> counts[l] == Codes(lengths, l)
    ensures ok <==> Kraft(lengths) <= Pow2(MAX_LEN)
  {
    hide Kraft, Used, Codes, Fits, Pow2;
    UsedStart(lengths);
    var left: int, len := 1, 1;
    while len <= MAX_LEN
      invariant 1 <= len <= MAX_LEN + 1
      invariant left == Pow2(len - 1) - Used(lengths, len - 1) >= 0
    {
      UsedStep(lengths, len);
      left := 2 * left - counts[len];
      if left < 0 {
        Oversubscribed(lengths, len);
        return false;
      }
      len := len + 1;
    }
    UsedIsKraft(lengths);
    return true;
  }

  lemma UsedStart(lengths: seq<nat>)
    ensures Used(lengths, 0) == 0 && Pow2(0) == 1
  {
  }

  lemma UsedStep(lengths: seq<nat>, l: nat)
    requires l >= 1
    ensures Used(lengths, l) == 2 * Used(lengths, l - 1) + Codes(lengths, l) && Pow2(l) == 2 * Pow2(l - 1)
  {
  }

  lemma {:induction false} Oversubscribed(lengths: seq<nat>, l: nat)
    requires l <= MAX_LEN && Used(lengths, l) > Pow2(l)
    ensures Kraft(lengths) > Pow2(MAX_LEN)
  {
    FitsIsKraft(lengths);
  }

  /** Where the symbols of each length start in the table. */
  method Offsets(counts: seq<nat>, ghost lengths: seq<nat>) returns (offsets: array<nat>)
    requires |counts| == MAX_LEN + 1 && forall l :: 0 <= l <= MAX_LEN ==> counts[l] == Codes(lengths, l)
    ensures fresh(offsets) && offsets.Length == MAX_LEN + 1
    ensures forall l :: 0 <= l <= MAX_LEN ==> offsets[l] == Offset(lengths, l)
  {
    hide Count, Codes;
    offsets := new nat[MAX_LEN + 1](i => 0);
    var len := 1;
    while len < MAX_LEN
      invariant 1 <= len <= MAX_LEN
      invariant forall l :: 0 <= l <= len ==> offsets[l] == Offset(lengths, l)
    {
      offsets[len + 1] := offsets[len] + counts[len];
      len := len + 1;
    }
  }

  /** The tables of a code, for exactly the lengths that can have one. */
  method New(lengths: seq<nat>) returns (r: Option<Table>)
    ensures r.Some? <==> Accepted(lengths)
    ensures r.Some? ==> Built(r.value, lengths)
  {
    var c := CountLengths(lengths);
    if c.None? {
      return None;
    }
    var ok := Subscribed(c.value, lengths);
    if !ok {
      return None;
    }
    var symbols := Sorted(lengths, c.value);
    return Some(Table(c.value, symbols));
  }

  /** The symbols before `n` are in their places. */
  predicate Placed(lengths: seq<nat>, symbols: seq<nat>, n: nat)
    requires n <= |lengths|
  {
    forall s :: 0 <= s < n && lengths[s] != 0 ==>
      Position(lengths, s) < |symbols| && symbols[Position(lengths, s)] == s
  }

  lemma PlaceOne(lengths: seq<nat>, symbols: seq<nat>, n: nat)
    requires Short(lengths) && n < |lengths| && Placed(lengths, symbols, n) && |symbols| == Coded(lengths)
    ensures lengths[n] == 0 ==> Placed(lengths, symbols, n + 1)
    ensures lengths[n] != 0 ==>
      Position(lengths, n) < |symbols| && Placed(lengths, symbols[Position(lengths, n) := n], n + 1)
  {
    if lengths[n] != 0 {
      PositionBound(lengths, n);
      forall s | 0 <= s < n && lengths[s] != 0
        ensures Position(lengths, s) != Position(lengths, n)
      {
        PositionsApart(lengths, s, n);
      }
    }
  }

  /** The symbols in order of (length, symbol). */
  method Sorted(lengths: seq<nat>, counts: seq<nat>) returns (symbols: seq<nat>)
    requires Short(lengths)
    requires |counts| == MAX_LEN + 1 && forall l :: 0 <= l <= MAX_LEN ==> counts[l] == Codes(lengths, l)
    ensures |symbols| == Coded(lengths) && Placed(lengths, symbols, |lengths|)
  {
    hide Placed, Count, Offset, Coded;
    var offsets := Offsets(counts, lengths);
    symbols := seq(Coded(lengths), i => 0);
    var sym := 0;
    NothingPlaced(lengths, symbols);
    while sym < |lengths|
      invariant sym <= |lengths| && |symbols| == Coded(lengths) && Placed(lengths, symbols, sym)
      invariant forall l :: 1 <= l <= MAX_LEN ==> offsets[l] == Offset(lengths, l) + Count(lengths[..sym], l)
    {
      var l := lengths[sym];
      forall k | 1 <= k <= MAX_LEN
        ensures Count(lengths[..sym + 1], k) == Count(lengths[..sym], k) + if l == k then 1 else 0
      {
        CountSnoc(lengths, sym, k);
      }
      PlaceOne(lengths, symbols, sym);
      if l != 0 {
        symbols := symbols[offsets[l] := sym];
        offsets[l] := offsets[l] + 1;
      }
      sym := sym + 1;
    }
  }

  lemma NothingPlaced(lengths: seq<nat>, symbols: seq<nat>)
    ensures Placed(lengths, symbols, 0)
    ensures Count(lengths[..0], 0) == 0 && forall l :: Count(lengths[..0], l) == 0
  {
  }
}
