// The server frame codec (crates/posh-proto/src/frame.rs) and the agent
// stream's chunks (caps.rs).

module Frames {
  import opened Wrappers
  import opened Bytes
  import opened Wire

  const EXTENSION := 2
  const MAX_SCROLLBACK_ROWS := 0x10_0000

  const BODY_FULL: Byte := 0
  const BODY_DIFF: Byte := 1
  const BODY_EMPTY: Byte := 2
  const BODY_SCROLLBACK: Byte := 3
  const BODY_MORPH: Byte := 4
  const BODY_DIFF_SUM: Byte := 5
  const BODY_MORPH_SUM: Byte := 6
  const BODY_SCROLLBACK2: Byte := 7

  datatype Body =
    | Full(bytes: seq<Byte>)
    | Diff(base: nat, baseSum: Option<nat>, diff: seq<Byte>)
    | Empty
    | Morph(base: nat, baseSum: Option<nat>, escapes: seq<Byte>)
    | Scrollback(base: nat, rows: seq<seq<Byte>>)
    | Scrollback2(epoch: Byte, rowOffset: nat, rows: seq<seq<Byte>>)

  datatype Frame = Frame(flags: Byte, caps: seq<Cap>, frameNum: nat, inputAck: nat, echoAck: nat, body: Body)

  // --- encoding ----------------------------------------------------------------------

  function EncodeRows(rows: seq<seq<Byte>>): seq<Byte> {
    if rows == [] then [] else Le(|rows[0]|, 2) + rows[0] + EncodeRows(rows[1..])
  }

  function EncodeSum(sum: Option<nat>): seq<Byte> {
    if sum.Some? then Le(sum.value, 4) else []
  }

  function EncodeBody(b: Body): (s: seq<Byte>)
    ensures s != []
  {
    match b
    case Full(bytes) => [BODY_FULL] + bytes
    case Diff(base, sum, diff) => [if sum.Some? then BODY_DIFF_SUM else BODY_DIFF] + (Le(base, 8) + (EncodeSum(sum) + diff))
    case Morph(base, sum, esc) => [if sum.Some? then BODY_MORPH_SUM else BODY_MORPH] + (Le(base, 8) + (EncodeSum(sum) + esc))
    case Empty => [BODY_EMPTY]
    case Scrollback(base, rows) => [BODY_SCROLLBACK] + (Le(base, 8) + (Le(|rows|, 4) + EncodeRows(rows)))
    case Scrollback2(epoch, off, rows) => [BODY_SCROLLBACK2] + ([epoch] + (Le(off, 8) + (Le(|rows|, 4) + EncodeRows(rows))))
  }

  predicate Extended(flags: Byte) { flags / EXTENSION % 2 == 1 }

  function EncodeFlags(f: Frame): Byte
    requires !Extended(f.flags)
  {
    if f.caps == [] then f.flags else f.flags as int + EXTENSION
  }

  function EncodeHead(f: Frame): seq<Byte>
    requires !Extended(f.flags)
  {
    [EncodeFlags(f)] + if f.caps == [] then [] else EncodeTable(f.caps)
  }

  function Encode(f: Frame): seq<Byte>
    requires !Extended(f.flags)
  {
    EncodeHead(f) + (Le(f.frameNum, 8) + (Le(f.inputAck, 8) + (Le(f.echoAck, 8) + EncodeBody(f.body))))
  }

  // --- decoding ----------------------------------------------------------------------------

  function Num(data: seq<Byte>, at: nat, n: nat): nat
    requires at + n <= |data|
  {
    FromLe(data[at..at + n])
  }

  /** `n` rows from offset `p`. */
  function DecodeRows(data: seq<Byte>, p: nat, n: nat): Decoded<seq<seq<Byte>>>
    decreases n
  {
    if n == 0 then Ok([])
    else if p + 2 > |data| then Err(RowTruncated)
    else
      var end := p + 2 + Num(data, p, 2);
      if end > |data| then Err(RowTruncated) else
        match DecodeRows(data, end, n - 1)
        case Err(e) => Err(e)
        case Ok(rows) => Ok([data[p + 2..end]] + rows)
  }

  /** Rows behind their count at `at`; a count that the rest cannot back is
      refused before any row is read. */
  function DecodeCounted(data: seq<Byte>, at: nat): Decoded<seq<seq<Byte>>>
    requires at + 4 <= |data|
  {
    var n := Num(data, at, 4);
    if n > MAX_SCROLLBACK_ROWS || n * 2 > |data| - (at + 4) then Err(TooManyRows) else DecodeRows(data, at + 4, n)
  }

  function DecodeBody(data: seq<Byte>, at: nat): Decoded<Body>
    requires at < |data|
  {
    var kind := data[at];
    if kind == BODY_FULL then Ok(Full(data[at + 1..]))
    else if kind == BODY_DIFF || kind == BODY_MORPH then
      if |data| < at + 9 then Err(TooShort)
      else if kind == BODY_DIFF then Ok(Diff(Num(data, at + 1, 8), None, data[at + 9..]))
      else Ok(Morph(Num(data, at + 1, 8), None, data[at + 9..]))
    else if kind == BODY_DIFF_SUM || kind == BODY_MORPH_SUM then
      if |data| < at + 13 then Err(TooShort)
      else if kind == BODY_DIFF_SUM then Ok(Diff(Num(data, at + 1, 8), Some(Num(data, at + 9, 4)), data[at + 13..]))
      else Ok(Morph(Num(data, at + 1, 8), Some(Num(data, at + 9, 4)), data[at + 13..]))
    else if kind == BODY_EMPTY then Ok(Empty)
    else if kind == BODY_SCROLLBACK then
      if |data| < at + 13 then Err(TooShort) else
        match DecodeCounted(data, at + 9)
        case Err(e) => Err(e)
        case Ok(rows) => Ok(Scrollback(Num(data, at + 1, 8), rows))
    else if kind == BODY_SCROLLBACK2 then
      if |data| < at + 14 then Err(TooShort) else
        match DecodeCounted(data, at + 10)
        case Err(e) => Err(e)
        case Ok(rows) => Ok(Scrollback2(data[at + 1], Num(data, at + 2, 8), rows))
    else Err(UnknownBody)
  }

  /** The runtime flags, the table, and where the fixed fields start. */
  function DecodeHead(data: seq<Byte>): Decoded<(Byte, seq<Cap>, nat)> {
    if data == [] then Err(TooShort)
    else if !Extended(data[0]) then Ok((data[0], [], 1))
    else
      match DecodeTable(data[1..])
      case Err(e) => Err(e)
      case Ok((caps, used)) => Ok((data[0] - EXTENSION, caps, 1 + used))
  }

  function Decode(data: seq<Byte>): Decoded<Frame> {
    match DecodeHead(data)
    case Err(e) => Err(e)
    case Ok((flags, caps, at)) =>
      if |data| < at + 25 then Err(TooShort) else
        match DecodeBody(data, at + 24)
        case Err(e) => Err(e)
        case Ok(body) => Ok(Frame(flags, caps, Num(data, at, 8), Num(data, at + 8, 8), Num(data, at + 16, 8), body))
  }

  // --- the round trip --------------------------------------------------------------------------

  const U32 := 0x1_0000_0000
  const U64 := 0x1_0000_0000_0000_0000

  function RowsIn(b: Body): seq<seq<Byte>> {
    match b
    case Scrollback(_, rows) => rows
    case Scrollback2(_, _, rows) => rows
    case _ => []
  }

  predicate SumOk(sum: Option<nat>) { sum.Some? ==> sum.value < U32 }

  /** Every number fits the field its type gives it. */
  predicate BodyTyped(b: Body) {
    match b
    case Full(_) => true
    case Diff(base, sum, _) => base < U64 && SumOk(sum)
    case Morph(base, sum, _) => base < U64 && SumOk(sum)
    case Empty => true
    case Scrollback(base, _) => base < U64
    case Scrollback2(_, off, _) => off < U64
  }

  /** What the decoder reads back: its cap on the rows, and a length that the 16 bits
      in front of a row can hold. */
  predicate Readable(rows: seq<seq<Byte>>) {
    |rows| <= MAX_SCROLLBACK_ROWS && forall i :: 0 <= i < |rows| ==> |rows[i]| < 0x1_0000
  }

  predicate FrameTyped(f: Frame) {
    && !Extended(f.flags) && CapsOk(f.caps)
    && f.frameNum < U64 && f.inputAck < U64 && f.echoAck < U64
    && BodyTyped(f.body)
  }

  lemma NumStands(data: seq<Byte>, at: nat, v: nat, n: nat)
    requires v < Pow256(n) && Stands(data, at, Le(v, n))
    ensures at + n <= |data| && Num(data, at, n) == v
  {
    LeTruncates(v, n);
  }

  lemma ByteStands(data: seq<Byte>, at: nat, b: Byte)
    requires Stands(data, at, [b])
    ensures at < |data| && data[at] == b
  {
    assert data[at] == data[at..at + 1][0];
  }

  lemma StandsTail(data: seq<Byte>, at: nat, s: seq<Byte>)
    requires Stands(data, at, s) && at + |s| == |data|
    ensures data[at..] == s
  {
  }

  lemma {:induction false} RowsDecode(data: seq<Byte>, p: nat, rows: seq<seq<Byte>>)
    requires Stands(data, p, EncodeRows(rows))
    requires forall i :: 0 <= i < |rows| ==> |rows[i]| < 0x1_0000
    ensures DecodeRows(data, p, |rows|) == Ok(rows) && |EncodeRows(rows)| >= 2 * |rows|
    decreases |rows|
  {
    hide Stands, Le, FromLe, Num;
    if rows != [] {
      var r, rest := rows[0], EncodeRows(rows[1..]);
      Widths();
      StandsSplit(data, p, Le(|r|, 2) + r, rest);
      StandsSplit(data, p, Le(|r|, 2), r);
      NumStands(data, p, |r|, 2);
      StandsIs(data, p + 2, r);
      RowsDecode(data, p + 2 + |r|, rows[1..]);
      assert [r] + rows[1..] == rows;
    }
  }

  lemma StandsIs(data: seq<Byte>, at: nat, s: seq<Byte>)
    requires Stands(data, at, s)
    ensures at + |s| <= |data| && data[at..at + |s|] == s
  {
  }

  lemma {:induction false} FromLeBound(s: seq<Byte>)
    ensures FromLe(s) < Pow256(|s|)
    decreases |s|
  {
    if s != [] {
      FromLeBound(s[1..]);
    }
  }

  /** Whatever the data, rows that are read are as many as asked for, each with a
      length of 16 bits. */
  lemma {:induction false} RowsRead(data: seq<Byte>, p: nat, n: nat)
    ensures var r := DecodeRows(data, p, n);
            r.Ok? ==> |r.value| == n && forall i :: 0 <= i < n ==> |r.value[i]| < 0x1_0000
    decreases n
  {
    hide FromLe;
    if n > 0 && p + 2 <= |data| {
      Widths();
      FromLeBound(data[p..p + 2]);
      RowsRead(data, p + 2 + Num(data, p, 2), n - 1);
    }
  }

  /** Counted rows are read back if and only if there are no more than the cap and
      each has a length of 16 bits. Too many, if their count at least has its 32
      bits, are refused. */
  lemma CountedDecodes(data: seq<Byte>, at: nat, rows: seq<seq<Byte>>)
    requires Stands(data, at, Le(|rows|, 4) + EncodeRows(rows))
    ensures at + 4 <= |data|
    ensures DecodeCounted(data, at) == Ok(rows) <==> Readable(rows)
    ensures MAX_SCROLLBACK_ROWS < |rows| < U32 ==> DecodeCounted(data, at) == Err(TooManyRows)
  {
    hide Stands, Le, FromLe, Num, EncodeRows, DecodeRows;
    Widths();
    StandsSplit(data, at, Le(|rows|, 4), EncodeRows(rows));
    StandsIs(data, at, Le(|rows|, 4));
    StandsIs(data, at + 4, EncodeRows(rows));
    if |rows| < U32 {
      NumStands(data, at, |rows|, 4);
    }
    if Readable(rows) {
      RowsDecode(data, at + 4, rows);
    } else {
      RowsRead(data, at + 4, Num(data, at, 4));
    }
  }

  /** A body standing at the end of the data. */
  predicate BodyAt(data: seq<Byte>, at: nat, b: Body) {
    Stands(data, at, EncodeBody(b)) && at + |EncodeBody(b)| == |data|
  }

  lemma SumDecodes(data: seq<Byte>, at: nat, base: nat, sum: Option<nat>, rest: seq<Byte>)
    requires base < U64 && SumOk(sum)
    requires Stands(data, at, Le(base, 8) + (EncodeSum(sum) + rest)) && at + 8 + |EncodeSum(sum)| + |rest| == |data|
    ensures at + 8 <= |data| && Num(data, at, 8) == base
    ensures sum.None? ==> data[at + 8..] == rest
    ensures sum.Some? ==> at + 12 <= |data| && Num(data, at + 8, 4) == sum.value && data[at + 12..] == rest
  {
    hide Stands, Le, FromLe, Num;
    Widths();
    StandsSplit(data, at, Le(base, 8), EncodeSum(sum) + rest);
    StandsSplit(data, at + 8, EncodeSum(sum), rest);
    NumStands(data, at, base, 8);
    StandsTail(data, at + 8 + |EncodeSum(sum)|, rest);
    if sum.Some? {
      NumStands(data, at + 8, sum.value, 4);
    }
  }

  /** A body is read back if and only if its rows are. */
  lemma BodyRoundTrip(data: seq<Byte>, at: nat, b: Body)
    requires BodyTyped(b) && BodyAt(data, at, b)
    ensures at < |data|
    ensures DecodeBody(data, at) == Ok(b) <==> Readable(RowsIn(b))
    ensures MAX_SCROLLBACK_ROWS < |RowsIn(b)| < U32 ==> DecodeBody(data, at) == Err(TooManyRows)
  {
    hide Stands, Le, FromLe, Num, DecodeCounted, EncodeRows;
    Widths();
    var s := EncodeBody(b);
    assert s == [s[0]] + s[1..];
    StandsSplit(data, at, [s[0]], s[1..]);
    ByteStands(data, at, s[0]);
    match b
    case Full(bytes) =>
      StandsTail(data, at + 1, s[1..]);
    case Diff(base, sum, diff) =>
      assert s[1..] == Le(base, 8) + (EncodeSum(sum) + diff);
      SumDecodes(data, at + 1, base, sum, diff);
    case Morph(base, sum, esc) =>
      assert s[1..] == Le(base, 8) + (EncodeSum(sum) + esc);
      SumDecodes(data, at + 1, base, sum, esc);
    case Empty =>
    case Scrollback(base, rows) =>
      assert s[1..] == Le(base, 8) + (Le(|rows|, 4) + EncodeRows(rows));
      StandsSplit(data, at + 1, Le(base, 8), Le(|rows|, 4) + EncodeRows(rows));
      NumStands(data, at + 1, base, 8);
      CountedDecodes(data, at + 9, rows);
    case Scrollback2(epoch, off, rows) =>
      assert s[1..] == [epoch] + (Le(off, 8) + (Le(|rows|, 4) + EncodeRows(rows)));
      StandsSplit(data, at + 1, [epoch], Le(off, 8) + (Le(|rows|, 4) + EncodeRows(rows)));
      ByteStands(data, at + 1, epoch);
      StandsSplit(data, at + 2, Le(off, 8), Le(|rows|, 4) + EncodeRows(rows));
      NumStands(data, at + 2, off, 8);
      CountedDecodes(data, at + 10, rows);
  }

  /** The flags and the table are read back, and the fixed fields found. */
  lemma HeadRoundTrip(f: Frame, rest: seq<Byte>)
    requires !Extended(f.flags) && CapsOk(f.caps)
    ensures DecodeHead(EncodeHead(f) + rest) == Ok((f.flags, f.caps, |EncodeHead(f)|))
  {
    hide EncodeTable, DecodeTable;
    var data := EncodeHead(f) + rest;
    if f.caps != [] {
      TableRoundTrip(f.caps, rest);
      assert data[1..] == EncodeTable(f.caps) + rest;
    }
  }

  /** The fixed fields are read back, and the body is decoded where it stands. */
  lemma BodyReached(f: Frame)
    requires FrameTyped(f)
    ensures var data, at := Encode(f), |EncodeHead(f)| + 24;
            && BodyAt(data, at, f.body) && at < |data|
            && Decode(data) ==
               match DecodeBody(data, at)
               case Err(e) => Err(e)
               case Ok(body) => Ok(f.(body := body))
  {
    hide Stands, Le, FromLe, Num, EncodeHead, DecodeHead, EncodeBody, DecodeBody, BodyTyped, CapsOk;
    Widths();
    var data, at := Encode(f), |EncodeHead(f)|;
    var d := EncodeBody(f.body);
    var c := Le(f.echoAck, 8) + d;
    var b := Le(f.inputAck, 8) + c;
    var a := Le(f.frameNum, 8) + b;
    HeadRoundTrip(f, a);
    Whole(EncodeHead(f), a);
    StandsSplit(data, at, Le(f.frameNum, 8), b);
    StandsSplit(data, at + 8, Le(f.inputAck, 8), c);
    StandsSplit(data, at + 16, Le(f.echoAck, 8), d);
    NumStands(data, at, f.frameNum, 8);
    NumStands(data, at + 8, f.inputAck, 8);
    NumStands(data, at + 16, f.echoAck, 8);
  }

  /** A frame, of any body kind and with any capability table, is read back from its
      encoding if and only if it has no more scrollback rows than the decoder's cap
      and none of 64 KiB or more, whose length the encoder truncates. */
  lemma FrameRoundTrip(f: Frame)
    requires FrameTyped(f)
    ensures Decode(Encode(f)) == Ok(f) <==> Readable(RowsIn(f.body))
    ensures MAX_SCROLLBACK_ROWS < |RowsIn(f.body)| < U32 ==> Decode(Encode(f)) == Err(TooManyRows)
  {
    hide Encode, EncodeHead, Decode, EncodeBody, DecodeBody, BodyAt, BodyTyped, CapsOk, Readable, RowsIn;
    BodyReached(f);
    BodyRoundTrip(Encode(f), |EncodeHead(f)| + 24, f.body);
  }

  lemma Whole(a: seq<Byte>, b: seq<Byte>)
    ensures Stands(a + b, |a|, b)
  {
  }

  // --- the codec as loops -------------------------------------------------------------------

  method AppendRows(start: seq<Byte>, rows: seq<seq<Byte>>) returns (out: seq<Byte>)
    ensures out == start + EncodeRows(rows)
  {
    hide Le;
    out := start;
    var i := 0;
    assert rows[0..] == rows;
    while i < |rows|
      invariant i <= |rows| && out + EncodeRows(rows[i..]) == start + EncodeRows(rows)
    {
      assert rows[i..][1..] == rows[i + 1..];
      assert out + (Le(|rows[i]|, 2) + rows[i] + EncodeRows(rows[i + 1..])) ==
             (out + Le(|rows[i]|, 2) + rows[i]) + EncodeRows(rows[i + 1..]);
      out := out + Le(|rows[i]|, 2) + rows[i];
      i := i + 1;
    }
  }

  method EncodeFrame(f: Frame) returns (out: seq<Byte>)
    requires !Extended(f.flags)
    ensures out == Encode(f)
  {
    hide Le, EncodeTable, EncodeBody, EncodeFlags;
    out := [EncodeFlags(f)];
    if f.caps != [] {
      var table := EncodeTableBytes(f.caps);
      out := out + table;
    }
    out := out + Le(f.frameNum, 8);
    out := out + Le(f.inputAck, 8);
    out := out + Le(f.echoAck, 8);
    out := AppendBody(out, f.body);
  }

  /** A base, perhaps its checksum, and the bytes that change it. */
  method AppendChange(start: seq<Byte>, base: nat, sum: Option<nat>, bytes: seq<Byte>) returns (out: seq<Byte>)
    ensures out == start + (Le(base, 8) + (EncodeSum(sum) + bytes))
  {
    hide Le;
    out := start + Le(base, 8);
    if sum.Some? {
      out := out + Le(sum.value, 4);
    }
    out := out + bytes;
  }

  method AppendCounted(start: seq<Byte>, base: nat, rows: seq<seq<Byte>>) returns (out: seq<Byte>)
    ensures out == start + (Le(base, 8) + (Le(|rows|, 4) + EncodeRows(rows)))
  {
    hide Le, EncodeRows;
    out := AppendRows(start + Le(base, 8) + Le(|rows|, 4), rows);
  }

  lemma Assoc(a: seq<Byte>, b: seq<Byte>, c: seq<Byte>)
    ensures (a + b) + c == a + (b + c)
  {
  }

  method AppendBody(start: seq<Byte>, body: Body) returns (out: seq<Byte>)
    ensures out == start + EncodeBody(body)
  {
    hide Le, EncodeRows, EncodeSum;
    match body {
      case Full(bytes) =>
        out := start + [BODY_FULL] + bytes;
        Assoc(start, [BODY_FULL], bytes);
      case Diff(base, sum, diff) =>
        var kind := [if sum.Some? then BODY_DIFF_SUM else BODY_DIFF];
        out := AppendChange(start + kind, base, sum, diff);
        Assoc(start, kind, Le(base, 8) + (EncodeSum(sum) + diff));
      case Morph(base, sum, esc) =>
        var kind := [if sum.Some? then BODY_MORPH_SUM else BODY_MORPH];
        out := AppendChange(start + kind, base, sum, esc);
        Assoc(start, kind, Le(base, 8) + (EncodeSum(sum) + esc));
      case Empty => out := start + [BODY_EMPTY];
      case Scrollback(base, rows) =>
        out := AppendCounted(start + [BODY_SCROLLBACK], base, rows);
        Assoc(start, [BODY_SCROLLBACK], Le(base, 8) + (Le(|rows|, 4) + EncodeRows(rows)));
      case Scrollback2(epoch, off, rows) =>
        ghost var counted := Le(off, 8) + (Le(|rows|, 4) + EncodeRows(rows));
        out := AppendCounted(start + [BODY_SCROLLBACK2] + [epoch], off, rows);
        Assoc(start + [BODY_SCROLLBACK2], [epoch], counted);
        Assoc(start, [BODY_SCROLLBACK2], [epoch] + counted);
    }
  }

  /** Rows behind their count; never reads past the data, whatever it says. */
  method TakeRows(data: seq<Byte>, at: nat) returns (r: Decoded<seq<seq<Byte>>>)
    requires at + 4 <= |data|
    ensures r == DecodeCounted(data, at)
  {
    hide Num;
    var appended := Num(data, at, 4);
    if appended > MAX_SCROLLBACK_ROWS || appended * 2 > |data| - (at + 4) {
      return Err(TooManyRows);
    }
    var rows: seq<seq<Byte>>, p, i := [], at + 4, 0;
    assert forall more: seq<seq<Byte>> :: rows + more == more;
    while i < appended
      invariant 0 <= i <= appended && p >= 0
      invariant DecodeRows(data, at + 4, appended) ==
        match DecodeRows(data, p, appended - i)
        case Err(e) => Err(e)
        case Ok(more) => Ok(rows + more)
    {
      if p + 2 > |data| {
        return Err(RowTruncated);
      }
      var end := p + 2 + Num(data, p, 2);
      if end > |data| {
        return Err(RowTruncated);
      }
      ghost var row := data[p + 2..end];
      assert forall more: seq<seq<Byte>> :: rows + ([row] + more) == rows + [row] + more;
      rows := rows + [data[p + 2..end]];
      p, i := end, i + 1;
    }
    assert rows + [] == rows;
    return Ok(rows);
  }

  method DecodeFrame(data: seq<Byte>) returns (r: Decoded<Frame>)
    ensures r == Decode(data)
  {
    hide Num, DecodeTable, DecodeCounted;
    if data == [] {
      return Err(TooShort);
    }
    var flags, caps, at := data[0], [], 1;
    if Extended(flags) {
      var table := DecodeTableBytes(data[1..]);
      if table.Err? {
        return Err(table.error);
      }
      flags, caps, at := flags - EXTENSION, table.value.0, 1 + table.value.1;
    }
    if |data| < at + 25 {
      return Err(TooShort);
    }
    var body := TakeBody(data, at + 24);
    if body.Err? {
      return Err(body.error);
    }
    return Ok(Frame(flags, caps, Num(data, at, 8), Num(data, at + 8, 8), Num(data, at + 16, 8), body.value));
  }

  method TakeBody(data: seq<Byte>, at: nat) returns (r: Decoded<Body>)
    requires at < |data|
    ensures r == DecodeBody(data, at)
  {
    hide Num, DecodeCounted;
    var kind := data[at];
    if kind == BODY_FULL {
      return Ok(Full(data[at + 1..]));
    } else if kind == BODY_DIFF || kind == BODY_MORPH {
      if |data| < at + 9 {
        return Err(TooShort);
      }
      var base := Num(data, at + 1, 8);
      return Ok(if kind == BODY_DIFF then Diff(base, None, data[at + 9..]) else Morph(base, None, data[at + 9..]));
    } else if kind == BODY_DIFF_SUM || kind == BODY_MORPH_SUM {
      if |data| < at + 13 {
        return Err(TooShort);
      }
      var base, sum := Num(data, at + 1, 8), Some(Num(data, at + 9, 4));
      return Ok(if kind == BODY_DIFF_SUM then Diff(base, sum, data[at + 13..]) else Morph(base, sum, data[at + 13..]));
    } else if kind == BODY_EMPTY {
      return Ok(Empty);
    } else if kind == BODY_SCROLLBACK {
      if |data| < at + 13 {
        return Err(TooShort);
      }
      var rows := TakeRows(data, at + 9);
      return if rows.Err? then Err(rows.error) else Ok(Scrollback(Num(data, at + 1, 8), rows.value));
    } else if kind == BODY_SCROLLBACK2 {
      if |data| < at + 14 {
        return Err(TooShort);
      }
      var rows := TakeRows(data, at + 10);
      return if rows.Err? then Err(rows.error) else Ok(Scrollback2(data[at + 1], Num(data, at + 2, 8), rows.value));
    }
    return Err(UnknownBody);
  }

  // --- the agent stream --------------------------------------------------------------------------

  const CAP_AGENT_DATA: Byte := 7
  const AGENT_OFFSET_LEN := 8
  const AGENT_DATA_MAX := 247
  const MAX_AGENT_CAPS := 239

  /** The low `n` bytes of `v`, most significant first. */
  function Be(v: nat, n: nat): (s: seq<Byte>)
    ensures |s| == n
  {
    if n == 0 then [] else Be(v / 256, n - 1) + [v % 256]
  }

  function FromBe(s: seq<Byte>): nat {
    if s == [] then 0 else 256 * FromBe(s[..|s| - 1]) + s[|s| - 1]
  }

  lemma {:induction false} BeRoundTrip(v: nat, n: nat)
    requires v < Pow256(n)
    ensures FromBe(Be(v, n)) == v
    decreases n
  {
    if n > 0 {
      BeRoundTrip(v / 256, n - 1);
      assert Be(v, n)[..n - 1] == Be(v / 256, n - 1);
    }
  }

  /** At most `n` chunks of the stream from offset `base`. */
  function AgentCaps(base: nat, data: seq<Byte>, n: nat): seq<Cap>
    decreases n
  {
    if n == 0 || data == [] then [] else
      var k := Lesser(|data|, AGENT_DATA_MAX);
      [Cap(CAP_AGENT_DATA, Be(base, 8) + data[..k])] + AgentCaps(base + k, data[k..], n - 1)
  }

  function DecodeAgent(payload: seq<Byte>): Decoded<(nat, seq<Byte>)> {
    if |payload| < AGENT_OFFSET_LEN then Err(AgentTruncated)
    else Ok((FromBe(payload[..AGENT_OFFSET_LEN]), payload[AGENT_OFFSET_LEN..]))
  }

  /** The bytes of the chunks in order, if each starts where the last ended. */
  function Reassembled(caps: seq<Cap>, base: nat): Decoded<seq<Byte>>
    decreases |caps|
  {
    if caps == [] then Ok([]) else
      match DecodeAgent(caps[0].payload)
      case Err(e) => Err(e)
      case Ok((at, bytes)) =>
        if at != base then Err(AgentTruncated) else
          match Reassembled(caps[1..], base + |bytes|)
          case Err(e) => Err(e)
          case Ok(rest) => Ok(bytes + rest)
  }

  lemma {:induction false} AgentCapsOk(base: nat, data: seq<Byte>, n: nat)
    requires n <= MAX_AGENT_CAPS
    ensures CapsOk(AgentCaps(base, data, n)) && |AgentCaps(base, data, n)| <= n
    decreases n
  {
    hide Be;
    if n > 0 && data != [] {
      var k := Lesser(|data|, AGENT_DATA_MAX);
      AgentCapsOk(base + k, data[k..], n - 1);
    }
  }

  lemma ReassembledNext(c: Cap, rest: seq<Cap>, base: nat, bytes: seq<Byte>)
    requires DecodeAgent(c.payload) == Ok((base, bytes)) && Reassembled(rest, base + |bytes|).Ok?
    ensures Reassembled([c] + rest, base) == Ok(bytes + Reassembled(rest, base + |bytes|).value)
  {
    hide DecodeAgent;
    assert ([c] + rest)[1..] == rest;
  }

  /** The chunks fit the table, and put back together are the stream, or the
      59033-byte prefix of it that one message may carry. */
  lemma {:induction false} AgentRoundTrip(base: nat, data: seq<Byte>, n: nat)
    requires base + |data| < U64 && n <= MAX_AGENT_CAPS
    ensures CapsOk(AgentCaps(base, data, n)) && |AgentCaps(base, data, n)| <= n
    ensures Reassembled(AgentCaps(base, data, n), base) == Ok(data[..Lesser(|data|, n * AGENT_DATA_MAX)])
    decreases n
  {
    hide Be, DecodeAgent, Reassembled, CapsOk;
    AgentCapsOk(base, data, n);
    if n > 0 && data != [] {
      var k := Lesser(|data|, AGENT_DATA_MAX);
      AgentRoundTrip(base + k, data[k..], n - 1);
      ChunkDecodes(base, data[..k]);
      ReassembledNext(Cap(CAP_AGENT_DATA, Be(base, 8) + data[..k]), AgentCaps(base + k, data[k..], n - 1), base, data[..k]);
      var rest := Lesser(|data| - k, (n - 1) * AGENT_DATA_MAX);
      assert data[..k] + data[k..][..rest] == data[..Lesser(|data|, n * AGENT_DATA_MAX)];
    } else {
      assert data[..0] == [];
      ReassembledNone(base);
    }
  }

  lemma ReassembledNone(base: nat)
    ensures Reassembled([], base) == Ok([])
  {
  }

  lemma ChunkDecodes(base: nat, bytes: seq<Byte>)
    requires base < U64
    ensures DecodeAgent(Be(base, 8) + bytes) == Ok((base, bytes))
  {
    Widths();
    BeRoundTrip(base, 8);
    var p := Be(base, 8) + bytes;
    assert p[..8] == Be(base, 8) && p[8..] == bytes;
  }

  method EncodeAgentData(base: nat, data: seq<Byte>) returns (out: seq<Cap>)
    ensures out == AgentCaps(base, data, MAX_AGENT_CAPS)
  {
    hide Be, AgentCaps;
    out := [];
    var offset, rest, left := base, data, MAX_AGENT_CAPS;
    while left > 0 && rest != []
      invariant 0 <= left <= MAX_AGENT_CAPS
      invariant out + AgentCaps(offset, rest, left) == AgentCaps(base, data, MAX_AGENT_CAPS)
    {
      AgentNext(out, offset, rest, left);
      var k := Lesser(|rest|, AGENT_DATA_MAX);
      out := out + [Cap(CAP_AGENT_DATA, Be(offset, 8) + rest[..k])];
      offset, rest, left := offset + k, rest[k..], left - 1;
    }
    AgentNone(offset, rest, left);
  }

  lemma AgentNext(out: seq<Cap>, base: nat, data: seq<Byte>, n: nat)
    requires n > 0 && data != []
    ensures var k := Lesser(|data|, AGENT_DATA_MAX);
            out + AgentCaps(base, data, n) ==
            out + [Cap(CAP_AGENT_DATA, Be(base, 8) + data[..k])] + AgentCaps(base + k, data[k..], n - 1)
  {
    hide Be;
  }

  lemma AgentNone(base: nat, data: seq<Byte>, n: nat)
    requires n == 0 || data == []
    ensures AgentCaps(base, data, n) == []
  {
  }
}
