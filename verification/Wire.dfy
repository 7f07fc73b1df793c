// Server frames on the wire (crates/posh-proto/src/frame.rs and caps.rs): the
// prefix/suffix diff, the capability table, the frame codec and the agent
// stream's chunks, each with its inverse.

module Wire {
  import opened Wrappers
  import opened Bytes

  type Decoded<T> = Result<T, WireError>

  datatype WireError = TooShort | TableTruncated | TooManyRows | RowTruncated | UnknownBody | AgentTruncated

  // --- numbers -----------------------------------------------------------------------

  function Pow256(n: nat): (p: nat)
    ensures p >= 1
  {
    if n == 0 then 1 else 256 * Pow256(n - 1)
  }

  /** The low `n` bytes of `v`, least significant first: `to_le_bytes` after a
      truncating cast. */
  function Le(v: nat, n: nat): (s: seq<Byte>)
    ensures |s| == n
  {
    if n == 0 then [] else [v % 256] + Le(v / 256, n - 1)
  }

  function FromLe(s: seq<Byte>): nat {
    if s == [] then 0 else s[0] + 256 * FromLe(s[1..])
  }

  lemma {:induction false} LeTruncates(v: nat, n: nat)
    ensures FromLe(Le(v, n)) <= v
    ensures FromLe(Le(v, n)) == v <==> v < Pow256(n)
    decreases n
  {
    if n > 0 {
      assert Le(v, n)[1..] == Le(v / 256, n - 1);
      LeTruncates(v / 256, n - 1);
    }
  }

  lemma Widths()
    ensures Pow256(1) == 0x100 && Pow256(2) == 0x1_0000 && Pow256(4) == 0x1_0000_0000
    ensures Pow256(8) == 0x1_0000_0000_0000_0000
  {
    assert Pow256(3) == 0x100_0000;
    assert Pow256(6) == 0x1_0000_0000_0000;
  }

  // --- the diff -------------------------------------------------------------------------

  /** `old[..prefix] + middle + old[|old| - suffix..]`, if the base is that long. */
  function ApplyDiff(base: seq<Byte>, diff: seq<Byte>): Option<seq<Byte>> {
    if |diff| < 8 then None else
      var prefix, suffix := FromLe(diff[0..4]), FromLe(diff[4..8]);
      if prefix + suffix > |base| then None
      else Some(base[..prefix] + diff[8..] + base[|base| - suffix..])
  }

  /** `prefix` and `suffix` bytes are shared, without overlap, and no longer ones
      are. */
  predicate Shared(old_: seq<Byte>, new_: seq<Byte>, prefix: nat, suffix: nat) {
    && prefix + suffix <= |old_| && prefix + suffix <= |new_|
    && old_[..prefix] == new_[..prefix]
    && old_[|old_| - suffix..] == new_[|new_| - suffix..]
    && (prefix < |old_| && prefix < |new_| ==> old_[prefix] != new_[prefix])
    && (prefix + suffix < |old_| && prefix + suffix < |new_| ==>
          old_[|old_| - 1 - suffix] != new_[|new_| - 1 - suffix])
  }

  function DiffOf(new_: seq<Byte>, prefix: nat, suffix: nat): seq<Byte>
    requires prefix + suffix <= |new_|
  {
    Le(prefix, 4) + Le(suffix, 4) + new_[prefix..|new_| - suffix]
  }

  /** `out` names the longest shared prefix, then the longest shared suffix of the
      rest, and carries what is between. */
  ghost predicate IsDiff(old_: seq<Byte>, new_: seq<Byte>, out: seq<Byte>) {
    exists prefix: nat, suffix: nat :: Shared(old_, new_, prefix, suffix) && out == DiffOf(new_, prefix, suffix)
  }

  /** The diff of two byte strings; if either is under 4 GiB it applies. */
  method MakeDiff(old_: seq<Byte>, new_: seq<Byte>) returns (out: seq<Byte>)
    ensures IsDiff(old_, new_, out)
    ensures |old_| < 0x1_0000_0000 || |new_| < 0x1_0000_0000 ==> ApplyDiff(old_, out) == Some(new_)
  {
    hide Le, ApplyDiff;
    var p, maxPrefix := 0, if |old_| < |new_| then |old_| else |new_|;
    while p < maxPrefix && old_[p] == new_[p]
      invariant p <= maxPrefix && old_[..p] == new_[..p]
    {
      p := p + 1;
    }
    var s, maxSuffix := 0, maxPrefix - p;
    while s < maxSuffix && old_[|old_| - 1 - s] == new_[|new_| - 1 - s]
      invariant s <= maxSuffix && old_[|old_| - s..] == new_[|new_| - s..]
    {
      assert old_[|old_| - (s + 1)..] == [old_[|old_| - 1 - s]] + old_[|old_| - s..];
      assert new_[|new_| - (s + 1)..] == [new_[|new_| - 1 - s]] + new_[|new_| - s..];
      s := s + 1;
    }
    out := Le(p, 4) + Le(s, 4) + new_[p..|new_| - s];
    assert Shared(old_, new_, p, s) && out == DiffOf(new_, p, s);
    DiffRoundTrip(old_, new_, p, s);
  }

  /** A diff made against a base applies to that base and gives the new bytes,
      if and only if both shared lengths fit their 32-bit fields; byte strings
      under 4 GiB always do. */
  lemma DiffRoundTrip(old_: seq<Byte>, new_: seq<Byte>, prefix: nat, suffix: nat)
    requires Shared(old_, new_, prefix, suffix)
    ensures ApplyDiff(old_, DiffOf(new_, prefix, suffix)) == Some(new_) <==>
            prefix < 0x1_0000_0000 && suffix < 0x1_0000_0000
    ensures |old_| < 0x1_0000_0000 || |new_| < 0x1_0000_0000 ==>
            ApplyDiff(old_, DiffOf(new_, prefix, suffix)) == Some(new_)
  {
    hide Le, FromLe, Pow256, ApplyDiff, DiffOf;
    var p, s := FromLe(Le(prefix, 4)), FromLe(Le(suffix, 4));
    Widths();
    LeTruncates(prefix, 4);
    LeTruncates(suffix, 4);
    DiffApplied(old_, new_, prefix, suffix);
    if p == prefix && s == suffix {
      assert new_ == new_[..prefix] + new_[prefix..|new_| - suffix] + new_[|new_| - suffix..];
    }
  }

  /** What applying a diff does: the shared lengths are read back truncated. */
  lemma DiffApplied(old_: seq<Byte>, new_: seq<Byte>, prefix: nat, suffix: nat)
    requires Shared(old_, new_, prefix, suffix)
    ensures var p, s := FromLe(Le(prefix, 4)), FromLe(Le(suffix, 4));
            var r := ApplyDiff(old_, DiffOf(new_, prefix, suffix));
            && (p == prefix && s == suffix ==>
                  r == Some(old_[..prefix] + new_[prefix..|new_| - suffix] + old_[|old_| - suffix..]))
            && (r.Some? ==> |r.value| == p + (|new_| - prefix - suffix) + s)
  {
    hide Le, FromLe;
    var diff := DiffOf(new_, prefix, suffix);
    assert diff[0..4] == Le(prefix, 4) && diff[4..8] == Le(suffix, 4);
    assert diff[8..] == new_[prefix..|new_| - suffix];
  }

  // --- the capability table -----------------------------------------------------------------

  datatype Cap = Cap(id: Byte, payload: seq<Byte>)

  predicate CapsOk(caps: seq<Cap>) {
    |caps| <= 255 && forall i :: 0 <= i < |caps| ==> |caps[i].payload| <= 255
  }

  function EncodeCap(c: Cap): seq<Byte> {
    [c.id, |c.payload| % 256] + c.payload
  }

  function EncodeCaps(caps: seq<Cap>): seq<Byte> {
    if caps == [] then [] else EncodeCap(caps[0]) + EncodeCaps(caps[1..])
  }

  function EncodeTable(caps: seq<Cap>): seq<Byte> {
    [|caps| % 256] + EncodeCaps(caps)
  }

  /** `n` entries from offset `at`, and the offset behind them. */
  function DecodeCaps(data: seq<Byte>, at: nat, n: nat): Decoded<(seq<Cap>, nat)>
    decreases n
  {
    if n == 0 then Ok(([], at))
    else if at + 2 > |data| then Err(TableTruncated)
    else
      var end := at + 2 + data[at + 1];
      if end > |data| then Err(TableTruncated) else
        match DecodeCaps(data, end, n - 1)
        case Err(e) => Err(e)
        case Ok((caps, p)) => Ok(([Cap(data[at], data[at + 2..end])] + caps, p))
  }

  function DecodeTable(data: seq<Byte>): Decoded<(seq<Cap>, nat)> {
    if data == [] then Err(TableTruncated) else DecodeCaps(data, 1, data[0])
  }

  /** `s` stands at `at`. */
  predicate Stands(data: seq<Byte>, at: nat, s: seq<Byte>) {
    at + |s| <= |data| && data[at..at + |s|] == s
  }

  lemma StandsSplit(data: seq<Byte>, at: nat, a: seq<Byte>, b: seq<Byte>)
    ensures Stands(data, at, a + b) <==> Stands(data, at, a) && Stands(data, at + |a|, b)
  {
    if Stands(data, at, a + b) {
      assert data[at..at + |a + b|][..|a|] == a;
      assert data[at..at + |a + b|][|a|..] == b;
    }
  }

  lemma CapStands(data: seq<Byte>, at: nat, c: Cap)
    requires Stands(data, at, EncodeCap(c)) && |c.payload| <= 255
    ensures |EncodeCap(c)| == 2 + |c.payload| && at + 2 + |c.payload| <= |data|
    ensures data[at] == c.id && data[at + 1] == |c.payload| && data[at + 2..at + 2 + |c.payload|] == c.payload
  {
    StandsSplit(data, at, [c.id, |c.payload| % 256], c.payload);
    assert data[at] == data[at..at + 2][0] && data[at + 1] == data[at..at + 2][1];
  }

  lemma {:induction false} CapsDecode(data: seq<Byte>, at: nat, caps: seq<Cap>)
    requires Stands(data, at, EncodeCaps(caps)) && at <= |data|
    requires forall i :: 0 <= i < |caps| ==> |caps[i].payload| <= 255
    ensures DecodeCaps(data, at, |caps|) == Ok((caps, at + |EncodeCaps(caps)|))
    decreases |caps|
  {
    if caps != [] {
      hide Stands, EncodeCap;
      var c := caps[0];
      StandsSplit(data, at, EncodeCap(c), EncodeCaps(caps[1..]));
      CapStands(data, at, c);
      CapsDecode(data, at + |EncodeCap(c)|, caps[1..]);
      assert [c] + caps[1..] == caps;
    }
  }

  /** Every table within its two length bytes is read back, and nothing behind it
      is touched. */
  lemma TableRoundTrip(caps: seq<Cap>, rest: seq<Byte>)
    requires CapsOk(caps)
    ensures DecodeTable(EncodeTable(caps) + rest) == Ok((caps, |EncodeTable(caps)|))
  {
    hide EncodeCaps, DecodeCaps;
    var data := EncodeTable(caps) + rest;
    assert data[1..1 + |EncodeCaps(caps)|] == EncodeCaps(caps);
    CapsDecode(data, 1, caps);
  }

  method EncodeTableBytes(caps: seq<Cap>) returns (out: seq<Byte>)
    ensures out == EncodeTable(caps)
  {
    out := [|caps| % 256];
    var i := 0;
    assert caps[0..] == caps;
    while i < |caps|
      invariant i <= |caps| && out + EncodeCaps(caps[i..]) == EncodeTable(caps)
    {
      assert caps[i..][1..] == caps[i + 1..];
      assert out + (EncodeCap(caps[i]) + EncodeCaps(caps[i + 1..])) == out + EncodeCap(caps[i]) + EncodeCaps(caps[i + 1..]);
      out := out + EncodeCap(caps[i]);
      i := i + 1;
    }
  }

  method DecodeTableBytes(data: seq<Byte>) returns (r: Decoded<(seq<Cap>, nat)>)
    ensures r == DecodeTable(data)
  {
    if data == [] {
      return Err(TableTruncated);
    }
    var caps: seq<Cap>, at, i := [], 1, 0;
    assert forall more: seq<Cap> :: caps + more == more;
    while i < data[0]
      invariant i <= data[0] && at >= 1
      invariant DecodeTable(data) ==
        match DecodeCaps(data, at, data[0] - i)
        case Err(e) => Err(e)
        case Ok((more, p)) => Ok((caps + more, p))
    {
      if at + 2 > |data| {
        return Err(TableTruncated);
      }
      var end := at + 2 + data[at + 1];
      if end > |data| {
        return Err(TableTruncated);
      }
      ghost var c := Cap(data[at], data[at + 2..end]);
      assert forall more: seq<Cap> :: caps + ([c] + more) == caps + [c] + more;
      caps := caps + [Cap(data[at], data[at + 2..end])];
      at, i := end, i + 1;
    }
    assert caps + [] == caps;
    return Ok((caps, at));
  }
}
