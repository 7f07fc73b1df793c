// Where every byte of a frame, a diff, a table and an agent chunk stands
// (crates/posh-proto/src/frame.rs and caps.rs), in the numbers of the format.

module Layout {
  import opened Wrappers
  import opened Bytes
  import opened Wire
  import opened Frames

  // --- numbers --------------------------------------------------------------------

  /** Byte `k` of `v`, counted from the least significant. */
  function ByteOf(v: nat, k: nat): Byte {
    v / Pow256(k) % 256
  }

  lemma {:induction false} ByteNext(v: nat, k: nat)
    ensures ByteOf(v, 0) == v % 256 && ByteOf(v, k + 1) == ByteOf(v / 256, k)
  {
    DivDiv(v, Pow256(k));
  }

  lemma DivDiv(v: nat, p: nat)
    requires p >= 1
    ensures v / (256 * p) == v / 256 / p
  {
    var q := v / 256 / p;
    var r, s := v / 256 - q * p, v % 256;
    assert v == 256 * (q * p + r) + s == (256 * p) * q + (256 * r + s);
    assert 0 <= 256 * r + s < 256 * p;
    Quotient(v, 256 * p, q, 256 * r + s);
  }

  lemma Quotient(v: nat, d: nat, q: nat, r: nat)
    requires d > 0 && v == d * q + r && r < d
    ensures v / d == q
  {
    var k := v / d;
    if k < q {
      Steps(d, k, q);
    } else if k > q {
      Steps(d, q, k);
    }
  }

  lemma Steps(d: nat, a: nat, b: nat)
    requires a < b
    ensures d * a + d <= d * b
  {
    var m := b - a - 1;
    assert d * b == d * (a + 1 + m) == d * a + d + d * m;
  }

  /** Numbers in a frame have their least significant byte first, ... */
  lemma {:induction false} LeByte(v: nat, n: nat, k: nat)
    requires k < n
    ensures Le(v, n)[k] == ByteOf(v, k)
    decreases n
  {
    ByteNext(v, if k == 0 then 0 else k - 1);
    if k > 0 {
      LeByte(v / 256, n - 1, k - 1);
    }
  }

  /** ... and the offset of an agent chunk its most significant. */
  lemma {:induction false} BeByte(v: nat, n: nat, k: nat)
    requires k < n
    ensures Be(v, n)[n - 1 - k] == ByteOf(v, k)
    decreases n
  {
    ByteNext(v, if k == 0 then 0 else k - 1);
    if k > 0 {
      BeByte(v / 256, n - 1, k - 1);
    }
  }

  /** The number in four bytes. */
  function Four(s: seq<Byte>, i: nat): nat
    requires i + 4 <= |s|
  {
    s[i] as nat + 0x100 * (s[i + 1] as nat) + 0x1_0000 * (s[i + 2] as nat) + 0x100_0000 * (s[i + 3] as nat)
  }

  lemma FourBytes(s: seq<Byte>, i: nat)
    requires i + 4 <= |s|
    ensures FromLe(s[i..i + 4]) == Four(s, i)
  {
    var t := s[i..i + 4];
    assert t[1..][1..] == t[2..] && t[2..][1..] == [t[3]] && [t[3]][1..] == [];
    assert FromLe([t[3]]) == t[3] && FromLe(t[2..]) == t[2] as nat + 0x100 * FromLe([t[3]]);
  }

  /** At `at` stands `v` in `n` bytes. */
  predicate Holds(s: seq<Byte>, at: nat, v: nat, n: nat) {
    at + n <= |s| && forall k :: 0 <= k < n ==> s[at + k] == ByteOf(v, k)
  }

  lemma LeHolds(a: seq<Byte>, v: nat, n: nat, b: seq<Byte>)
    ensures Holds(a + Le(v, n) + b, |a|, v, n)
  {
    var s := a + Le(v, n) + b;
    forall k | 0 <= k < n
      ensures s[|a| + k] == ByteOf(v, k)
    {
      LeByte(v, n, k);
      assert s[|a| + k] == Le(v, n)[k];
    }
  }

  // --- the diff ---------------------------------------------------------------------

  /** Both lengths, four bytes each, then what is between the shared ends. */
  lemma DiffLayout(new_: seq<Byte>, prefix: nat, suffix: nat)
    requires prefix + suffix <= |new_|
    ensures var d := DiffOf(new_, prefix, suffix);
            && Holds(d, 0, prefix, 4) && Holds(d, 4, suffix, 4)
            && d[8..] == new_[prefix..|new_| - suffix]
  {
    hide Le;
    var m := new_[prefix..|new_| - suffix];
    LeHolds([], prefix, 4, Le(suffix, 4) + m);
    LeHolds(Le(prefix, 4), suffix, 4, m);
    assert [] + Le(prefix, 4) + (Le(suffix, 4) + m) == DiffOf(new_, prefix, suffix);
  }

  /** What any diff does to any base: `p` bytes from its start, the bytes of the diff
      from the ninth on, and `s` bytes from its end; shorter than eight bytes, or for a
      shorter base, it does not apply. */
  lemma DiffApplies(base: seq<Byte>, d: seq<Byte>)
    ensures |d| < 8 ==> ApplyDiff(base, d) == None
    ensures |d| >= 8 ==>
              var p, s := Four(d, 0), Four(d, 4);
              ApplyDiff(base, d) ==
              if p + s > |base| then None else Some(base[..p] + d[8..] + base[|base| - s..])
  {
    hide FromLe;
    if |d| >= 8 {
      FourBytes(d, 0);
      FourBytes(d, 4);
    }
  }

  // --- the table ----------------------------------------------------------------------

  /** One more entry: the count in front, and behind all others its id, the length of
      its payload and the payload. */
  lemma {:induction false} TableLayout(caps: seq<Cap>, c: Cap)
    requires CapsOk(caps + [c])
    ensures EncodeTable([]) == [0]
    ensures EncodeTable(caps + [c]) == [|caps| + 1] + EncodeTable(caps)[1..] + [c.id, |c.payload|] + c.payload
  {
    assert (caps + [c])[|caps|] == c;
    CapsSnoc(caps, c);
  }

  lemma {:induction false} CapsSnoc(caps: seq<Cap>, c: Cap)
    ensures EncodeCaps(caps + [c]) == EncodeCaps(caps) + EncodeCap(c)
    decreases |caps|
  {
    hide EncodeCap;
    if caps == [] {
      assert [c][1..] == [];
      assert caps + [c] == [c];
    } else {
      CapsSnoc(caps[1..], c);
      assert (caps + [c])[1..] == caps[1..] + [c];
    }
  }

  // --- the frame -----------------------------------------------------------------------

  /** The byte that names the kind of a body. */
  function Tag(b: Body): Byte {
    match b
    case Full(_) => 0
    case Diff(_, sum, _) => if sum.Some? then 5 else 1
    case Empty => 2
    case Scrollback(_, _) => 3
    case Morph(_, sum, _) => if sum.Some? then 6 else 4
    case Scrollback2(_, _, _) => 7
  }

  /** The flags, whose second bit says that a table follows; the table; three numbers
      of eight bytes; the body. */
  lemma FrameLayout(f: Frame)
    requires !Extended(f.flags)
    ensures var s := Encode(f);
            var at := if f.caps == [] then 1 else 1 + |EncodeTable(f.caps)|;
            && |s| > at + 24
            && (f.flags / 2 % 2 == 0 && s[0] == if f.caps == [] then f.flags else f.flags as int + 2)
            && (f.caps != [] ==> s[1..at] == EncodeTable(f.caps))
            && Holds(s, at, f.frameNum, 8) && Holds(s, at + 8, f.inputAck, 8) && Holds(s, at + 16, f.echoAck, 8)
            && s[at + 24..] == EncodeBody(f.body) && s[at + 24] == Tag(f.body)
  {
    hide Le, EncodeTable, Holds, EncodeBody;
    var h, n, i, e, b := EncodeHead(f), Le(f.frameNum, 8), Le(f.inputAck, 8), Le(f.echoAck, 8), EncodeBody(f.body);
    LeHolds(h, f.frameNum, 8, i + e + b);
    LeHolds(h + n, f.inputAck, 8, e + b);
    LeHolds(h + n + i, f.echoAck, 8, b);
    FrameParts(h, n, i, e, b);
    TagFirst(f.body);
    assert Encode(f)[|h| + 24] == b[0];
  }

  lemma FrameParts(h: seq<Byte>, n: seq<Byte>, i: seq<Byte>, e: seq<Byte>, b: seq<Byte>)
    requires |n| == |i| == |e| == 8
    ensures var s := h + (n + (i + (e + b)));
            && s == h + n + (i + e + b) && s == (h + n) + i + (e + b) && s == (h + n + i) + e + b
            && s[|h| + 24..] == b
  {
  }

  lemma TagFirst(b: Body)
    ensures EncodeBody(b)[0] == Tag(b)
  {
  }

  /** A body that changes a base: its number, perhaps the checksum, and the change. */
  lemma ChangeLayout(base: nat, sum: Option<nat>, bytes: seq<Byte>)
    ensures var d, m := EncodeBody(Diff(base, sum, bytes)), EncodeBody(Morph(base, sum, bytes));
            var at := if sum.Some? then 13 else 9;
            && d[1..] == m[1..] && |d| == |m| == at + |bytes|
            && Holds(d, 1, base, 8) && (sum.Some? ==> Holds(d, 9, sum.value, 4)) && d[at..] == bytes
            && EncodeBody(Full(bytes))[1..] == bytes && EncodeBody(Empty)[1..] == []
  {
    hide Le, Holds;
    var d := EncodeBody(Diff(base, sum, bytes));
    LeHolds([d[0]], base, 8, EncodeSum(sum) + bytes);
    assert d == [d[0]] + Le(base, 8) + (EncodeSum(sum) + bytes);
    if sum.Some? {
      LeHolds([d[0]] + Le(base, 8), sum.value, 4, bytes);
      assert d == ([d[0]] + Le(base, 8)) + Le(sum.value, 4) + bytes;
    }
  }

  /** Rows: their number in four bytes, and each behind its length in two. */
  lemma RowsLayout(base: nat, epoch: Byte, rows: seq<seq<Byte>>)
    ensures var a, b := EncodeBody(Scrollback(base, rows)), EncodeBody(Scrollback2(epoch, base, rows));
            && |a| >= 13 && Holds(a, 1, base, 8) && Holds(a, 9, |rows|, 4) && a[13..] == EncodeRows(rows)
            && |b| >= 14 && b[1] == epoch && b[2..] == a[1..]
  {
    hide Le, Holds, EncodeRows;
    var a, b := EncodeBody(Scrollback(base, rows)), EncodeBody(Scrollback2(epoch, base, rows));
    var n, r := Le(|rows|, 4), EncodeRows(rows);
    assert a == [a[0]] + Le(base, 8) + (n + r) && a == ([a[0]] + Le(base, 8)) + n + r;
    LeHolds([a[0]], base, 8, n + r);
    LeHolds([a[0]] + Le(base, 8), |rows|, 4, r);
    assert b == [b[0], epoch] + (Le(base, 8) + (n + r));
  }

  lemma {:induction false} RowLayout(rows: seq<seq<Byte>>, row: seq<Byte>)
    ensures EncodeRows([]) == []
    ensures var was, s := EncodeRows(rows), EncodeRows(rows + [row]);
            |was| <= |s| && s[..|was|] == was && Holds(s, |was|, |row|, 2) && s[|was| + 2..] == row
  {
    hide Le, Holds;
    RowsSnoc(rows, row);
    LeHolds(EncodeRows(rows), |row|, 2, row);
  }

  lemma {:induction false} RowsSnoc(rows: seq<seq<Byte>>, row: seq<Byte>)
    ensures EncodeRows(rows + [row]) == EncodeRows(rows) + Le(|row|, 2) + row
    decreases |rows|
  {
    hide Le;
    if rows == [] {
      assert [row][1..] == [];
      assert rows + [row] == [row];
    } else {
      RowsSnoc(rows[1..], row);
      assert (rows + [row])[1..] == rows[1..] + [row];
    }
  }

  /** What the decoder takes of rows: up to 2^20 of them, each under 64 KiB. */
  lemma RowCap(rows: seq<seq<Byte>>)
    ensures Readable(rows) <==> |rows| <= 1048576 && forall i :: 0 <= i < |rows| ==> |rows[i]| < 65536
  {
  }

  // --- what is accepted ---------------------------------------------------------------------

  lemma LowByte(b: Byte, v: nat)
    ensures (b + 256 * v) % 256 == b && (b + 256 * v) / 256 == v
  {
  }

  lemma {:induction false} LeFrom(s: seq<Byte>)
    ensures Le(FromLe(s), |s|) == s
    decreases |s|
  {
    if s != [] {
      var v := FromLe(s[1..]);
      LeFrom(s[1..]);
      assert FromLe(s) == s[0] + 256 * v;
      LowByte(s[0], v);
      assert s == [s[0]] + s[1..];
    }
  }

  lemma NumIs(data: seq<Byte>, at: nat, n: nat)
    requires at + n <= |data|
    ensures Stands(data, at, Le(Num(data, at, n), n))
  {
    LeFrom(data[at..at + n]);
  }

  lemma {:induction false} CapsAccepted(data: seq<Byte>, at: nat, n: nat)
    requires at <= |data| && DecodeCaps(data, at, n).Ok?
    ensures var (caps, p) := DecodeCaps(data, at, n).value;
            && |caps| == n && (forall i :: 0 <= i < n ==> |caps[i].payload| <= 255)
            && Stands(data, at, EncodeCaps(caps)) && p == at + |EncodeCaps(caps)|
    decreases n
  {
    if n > 0 {
      var end := at + 2 + data[at + 1];
      var c, caps := Cap(data[at], data[at + 2..end]), DecodeCaps(data, at, n).value.0;
      CapsAccepted(data, end, n - 1);
      assert caps[0] == c && caps[1..] == DecodeCaps(data, end, n - 1).value.0;
      assert data[at..end] == EncodeCap(c);
      hide EncodeCap, EncodeCaps;
      StandsSplit(data, at, EncodeCap(c), EncodeCaps(caps[1..]));
      CapsFirst(caps);
    }
  }

  lemma CapsFirst(caps: seq<Cap>)
    requires caps != []
    ensures EncodeCaps(caps) == EncodeCap(caps[0]) + EncodeCaps(caps[1..])
  {
  }

  /** A table that decodes is the encoding of what it decodes to. */
  lemma TableAccepted(data: seq<Byte>)
    requires DecodeTable(data).Ok?
    ensures var (caps, p) := DecodeTable(data).value;
            CapsOk(caps) && EncodeTable(caps) <= data && p == |EncodeTable(caps)|
  {
    CapsAccepted(data, 1, data[0]);
    var caps := DecodeTable(data).value.0;
    var t := EncodeCaps(caps);
    assert data[..1 + |t|] == [data[0]] + data[1..1 + |t|];
  }

  lemma {:induction false} RowsAccepted(data: seq<Byte>, p: nat, n: nat)
    requires p <= |data| && DecodeRows(data, p, n).Ok?
    ensures var rows := DecodeRows(data, p, n).value;
            |rows| == n && Stands(data, p, EncodeRows(rows))
    decreases n
  {
    hide FromLe, Le;
    if n > 0 {
      var end := p + 2 + Num(data, p, 2);
      var row, rows := data[p + 2..end], DecodeRows(data, p, n).value;
      NumIs(data, p, 2);
      RowsAccepted(data, end, n - 1);
      assert rows[0] == row && rows[1..] == DecodeRows(data, end, n - 1).value;
      StandsSplit(data, p, Le(|row|, 2), row);
      StandsSplit(data, p, Le(|row|, 2) + row, EncodeRows(rows[1..]));
    }
  }

  lemma Joins(data: seq<Byte>, at: nat, a: seq<Byte>, b: seq<Byte>)
    requires Stands(data, at, a) && Stands(data, at + |a|, b)
    ensures Stands(data, at, a + b)
  {
    StandsSplit(data, at, a, b);
  }

  lemma CountedAccepted(data: seq<Byte>, at: nat, base: nat)
    requires 8 <= at && at + 4 <= |data| && DecodeCounted(data, at).Ok? && base == Num(data, at - 8, 8)
    ensures var rows := DecodeCounted(data, at).value;
            Stands(data, at - 8, Le(base, 8) + (Le(|rows|, 4) + EncodeRows(rows)))
  {
    hide Stands, Le, FromLe, EncodeRows, Num;
    var rows := DecodeCounted(data, at).value;
    RowsAccepted(data, at + 4, Num(data, at, 4));
    NumIs(data, at, 4);
    NumIs(data, at - 8, 8);
    Joins(data, at, Le(|rows|, 4), EncodeRows(rows));
    Joins(data, at - 8, Le(base, 8), Le(|rows|, 4) + EncodeRows(rows));
  }

  lemma RestStands(data: seq<Byte>, at: nat)
    requires at <= |data|
    ensures Stands(data, at, data[at..])
  {
  }

  lemma ChangeAccepted(data: seq<Byte>, at: nat, sum: bool)
    requires at + (if sum then 12 else 8) <= |data|
    ensures var s := if sum then Some(Num(data, at + 8, 4)) else None;
            Stands(data, at, Le(Num(data, at, 8), 8) + (EncodeSum(s) + data[at + if sum then 12 else 8..]))
  {
    hide Stands, Le, FromLe, Num;
    NumIs(data, at, 8);
    if sum {
      NumIs(data, at + 8, 4);
      RestStands(data, at + 12);
      Joins(data, at + 8, Le(Num(data, at + 8, 4), 4), data[at + 12..]);
    } else {
      RestStands(data, at + 8);
      assert [] + data[at + 8..] == data[at + 8..];
    }
    Joins(data, at, Le(Num(data, at, 8), 8), EncodeSum(if sum then Some(Num(data, at + 8, 4)) else None) + data[at + if sum then 12 else 8..]);
  }

  lemma OneStands(data: seq<Byte>, at: nat)
    requires at < |data|
    ensures Stands(data, at, [data[at]])
  {
  }

  lemma BodyAccepted(data: seq<Byte>, at: nat)
    requires at < |data| && DecodeBody(data, at).Ok?
    ensures var b := DecodeBody(data, at).value;
            Stands(data, at, EncodeBody(b)) && data[at] == Tag(b)
  {
    hide Stands, Le, FromLe, Num, DecodeCounted, EncodeRows, EncodeSum;
    var kind, b := data[at], DecodeBody(data, at).value;
    OneStands(data, at);
    match b
    case Full(bytes) =>
      RestStands(data, at + 1);
      Joins(data, at, [kind], bytes);
    case Empty =>
    case Diff(base, sum, bytes) =>
      ChangeAccepted(data, at + 1, kind == 5);
      Joins(data, at, [kind], Le(base, 8) + (EncodeSum(sum) + bytes));
    case Morph(base, sum, bytes) =>
      ChangeAccepted(data, at + 1, kind == 6);
      Joins(data, at, [kind], Le(base, 8) + (EncodeSum(sum) + bytes));
    case Scrollback(base, rows) =>
      CountedAccepted(data, at + 9, base);
      Joins(data, at, [kind], Le(base, 8) + (Le(|rows|, 4) + EncodeRows(rows)));
    case Scrollback2(epoch, off, rows) =>
      CountedAccepted(data, at + 10, off);
      OneStands(data, at + 1);
      Joins(data, at + 1, [epoch], Le(off, 8) + (Le(|rows|, 4) + EncodeRows(rows)));
      Joins(data, at, [kind], [epoch] + (Le(off, 8) + (Le(|rows|, 4) + EncodeRows(rows))));
  }

  /** The flags, marked or not, and if marked the table. */
  function HeadAs(marked: bool, flags: Byte, caps: seq<Cap>): seq<Byte>
    requires !Extended(flags)
  {
    if marked then [flags as int + 2] + EncodeTable(caps) else [flags]
  }

  lemma HeadAccepted(data: seq<Byte>)
    requires DecodeHead(data).Ok?
    ensures var (flags, caps, at) := DecodeHead(data).value;
            && data != [] && !Extended(flags) && (!Extended(data[0]) ==> caps == []) && CapsOk(caps)
            && Stands(data, 0, HeadAs(Extended(data[0]), flags, caps)) && at == |HeadAs(Extended(data[0]), flags, caps)|
  {
    hide EncodeTable, DecodeTable;
    if Extended(data[0]) {
      TableAccepted(data[1..]);
      var t := EncodeTable(DecodeTable(data[1..]).value.0);
      assert data[0..1 + |t|] == [data[0]] + data[1..][..|t|];
    }
  }

  /** Whatever decodes begins with the encoding of what it decodes to: the head, with
      its table if it is marked, the three numbers and the body. Only behind a body that
      says where it ends may there be more. */
  lemma DecodedFrame(data: seq<Byte>)
    requires Decode(data).Ok?
    ensures var f, marked := Decode(data).value, data[0] / 2 % 2 == 1;
            && !Extended(f.flags) && (!marked ==> f.caps == []) && CapsOk(f.caps)
            && var s := HeadAs(marked, f.flags, f.caps)
                        + (Le(f.frameNum, 8) + (Le(f.inputAck, 8) + (Le(f.echoAck, 8) + EncodeBody(f.body))));
               Stands(data, 0, s) && (marked == (f.caps != []) ==> s == Encode(f))
               && (f.body.Full? || f.body.Diff? || f.body.Morph? ==> |s| == |data|)
  {
    hide Stands, Le, FromLe, Num, DecodeBody, EncodeBody, HeadAs, DecodeHead, CapsOk;
    var f, marked := Decode(data).value, Extended(data[0]);
    HeadAccepted(data);
    var h := HeadAs(marked, f.flags, f.caps);
    var n, i, e, b := Le(f.frameNum, 8), Le(f.inputAck, 8), Le(f.echoAck, 8), EncodeBody(f.body);
    NumIs(data, |h|, 8);
    NumIs(data, |h| + 8, 8);
    NumIs(data, |h| + 16, 8);
    BodyAccepted(data, |h| + 24);
    BodyFills(data, |h| + 24);
    Joins(data, |h| + 16, e, b);
    Joins(data, |h| + 8, i, e + b);
    Joins(data, |h|, n, i + (e + b));
    Joins(data, 0, h, n + (i + (e + b)));
    HeadIs(marked, f);
  }

  lemma HeadIs(marked: bool, f: Frame)
    requires !Extended(f.flags)
    ensures marked == (f.caps != []) ==> HeadAs(marked, f.flags, f.caps) == EncodeHead(f)
  {
    hide EncodeTable;
  }

  lemma BodyFills(data: seq<Byte>, at: nat)
    requires at < |data| && DecodeBody(data, at).Ok?
    ensures var b := DecodeBody(data, at).value;
            b.Full? || b.Diff? || b.Morph? ==> at + |EncodeBody(b)| == |data|
  {
    hide Num, Le, DecodeCounted;
  }

  /** What is refused, and how: no byte, a table cut short, fewer than 25 bytes behind
      it, a kind of body that is none, one too short for its numbers, and more rows than
      the cap or the data allow. */
  lemma Refused(data: seq<Byte>)
    ensures data == [] ==> Decode(data) == Err(TooShort)
    ensures data != [] && Extended(data[0]) && DecodeTable(data[1..]).Err? ==> Decode(data) == Err(TableTruncated)
    ensures DecodeHead(data).Ok? && |data| < DecodeHead(data).value.2 + 25 ==> Decode(data) == Err(TooShort)
    ensures DecodeHead(data).Ok? && |data| >= DecodeHead(data).value.2 + 25 ==>
              var at := DecodeHead(data).value.2 + 24;
              var need := match data[at] case 0 => 1 case 1 => 9 case 2 => 1 case 3 => 13 case 4 => 9 case 5 => 13 case 6 => 13 case 7 => 14 case _ => 0;
              && (need == 0 ==> Decode(data) == Err(UnknownBody))
              && (|data| < at + need ==> Decode(data) == Err(TooShort))
              && (|data| >= at + need && data[at] in {0, 1, 2, 4, 5, 6} ==> Decode(data).Ok?)
  {
    hide Num, DecodeCounted, DecodeTable;
    TableErrs(if data == [] then [] else data[1..]);
  }

  lemma TableErrs(data: seq<Byte>)
    ensures DecodeTable(data).Err? ==> DecodeTable(data) == Err(TableTruncated)
  {
    if data != [] {
      CapsErr(data, 1, data[0]);
    }
  }

  lemma {:induction false} CapsErr(data: seq<Byte>, at: nat, n: nat)
    ensures DecodeCaps(data, at, n).Err? ==> DecodeCaps(data, at, n) == Err(TableTruncated)
    decreases n
  {
    if n > 0 && at + 2 <= |data| {
      CapsErr(data, at + 2 + data[at + 1], n - 1);
    }
  }

  // --- the agent stream ----------------------------------------------------------------------

  function Chunks(n: nat): nat {
    (n + 246) / 247
  }

  function End(size: nat, i: nat): nat {
    if 247 * i + 247 < size then 247 * i + 247 else size
  }

  lemma {:induction false} AgentSize(base: nat, data: seq<Byte>, n: nat)
    ensures |AgentCaps(base, data, n)| == if Chunks(|data|) < n then Chunks(|data|) else n
    decreases n
  {
    hide Be;
    ChunksNext(|data|);
    if n > 0 && data != [] {
      var k := Lesser(|data|, 247);
      AgentSize(base + k, data[k..], n - 1);
    }
  }

  function Entry(base: nat, data: seq<Byte>, i: nat): Cap
    requires 247 * i < |data|
  {
    Cap(7, Be(base + 247 * i, 8) + data[247 * i..End(|data|, i)])
  }

  lemma EntryNext(base: nat, data: seq<Byte>, i: nat)
    requires |data| > 247 && 247 * i < |data| - 247
    ensures Entry(base + 247, data[247..], i) == Entry(base, data, i + 1)
  {
    hide Be;
    assert data[247..][247 * i..End(|data| - 247, i)] == data[247 * (i + 1)..End(|data|, i + 1)];
  }

  /** Every entry has id 7, the offset of its bytes in eight bytes, and 247 bytes of the
      stream, the last perhaps fewer; there are as many as the stream needs, at most `n`. */
  lemma {:induction false} AgentLayout(base: nat, data: seq<Byte>, n: nat, i: nat)
    ensures |AgentCaps(base, data, n)| == if Chunks(|data|) < n then Chunks(|data|) else n
    ensures i < |AgentCaps(base, data, n)| ==> 247 * i < |data| && AgentCaps(base, data, n)[i] == Entry(base, data, i)
    decreases n
  {
    hide Be;
    AgentSize(base, data, n);
    ChunksNext(|data|);
    if n > 0 && |data| > 247 && i > 0 {
      hide Entry;
      AgentLayout(base + 247, data[247..], n - 1, i - 1);
      if i < |AgentCaps(base, data, n)| {
        EntryNext(base, data, i - 1);
      }
    }
  }

  /** One message carries 59033 bytes of the stream at most. */
  lemma AgentLimit(base: nat, data: seq<Byte>)
    requires base + |data| < U64
    ensures var caps := AgentCaps(base, data, MAX_AGENT_CAPS);
            |caps| <= 239 && Reassembled(caps, base) == Ok(data[..if |data| < 59033 then |data| else 59033])
  {
    AgentRoundTrip(base, data, MAX_AGENT_CAPS);
  }

  lemma ChunksNext(n: nat)
    ensures n > 247 ==> Chunks(n) == 1 + Chunks(n - 247)
    ensures 0 < n <= 247 ==> Chunks(n) == 1
    ensures Chunks(0) == 0
  {
  }
}
