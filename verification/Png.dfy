// PNG scanline filters (crates/posh-term/src/png.rs; section 6 of RFC 2083):
// `unfilter` works in place, over the very bytes it still has to read.

module Png {
  import opened Bytes

  // --- prediction ------------------------------------------------------------------

  function Apart(a: int, b: int): nat { if a < b then b - a else a - b }

  /** The neighbour nearest to `a + b - c`, left before up before up-left. */
  function Paeth(a: Byte, b: Byte, c: Byte): (r: Byte)
    ensures r == a || r == b || r == c
    ensures forall x :: x in [a, b, c] ==> Apart(a as int + b - c, r) <= Apart(a as int + b - c, x)
    ensures r != a ==> Apart(a as int + b - c, r) < Apart(a as int + b - c, a)
    ensures r != a && r != b ==> Apart(a as int + b - c, r) < Apart(a as int + b - c, b)
  {
    var p := a as int + b - c;
    var pa, pb, pc := Apart(p, a), Apart(p, b), Apart(p, c);
    if pa <= pb && pa <= pc then a else if pb <= pc then b else c
  }

  function Predict(filter: Byte, left: Byte, up: Byte, upLeft: Byte): Byte {
    match filter
    case 1 => left
    case 2 => up
    case 3 => (left as int + up) / 2
    case 4 => Paeth(left, up, upLeft)
    case _ => 0
  }

  function WrappingAdd(x: Byte, y: Byte): Byte { (x as int + y) % 256 }

  function WrappingSub(x: Byte, y: Byte): Byte { (x as int - y) % 256 }

  lemma AddSub(x: Byte, y: Byte)
    ensures WrappingAdd(WrappingSub(x, y), y) == x
  {
  }

  // --- where rows lie ----------------------------------------------------------------

  /** Where row `r` starts in the result. */
  function RowAt(r: nat, stride: nat): nat { r * stride }

  /** Where scanline `r`, with its filter byte, starts in the input. */
  function LineAt(r: nat, stride: nat): nat { RowAt(r, stride) + r }

  lemma RowNext(r: nat, stride: nat)
    ensures RowAt(r + 1, stride) == RowAt(r, stride) + stride
    ensures LineAt(r + 1, stride) == LineAt(r, stride) + 1 + stride
    ensures RowAt(0, stride) == 0
  {
  }

  lemma {:induction false} RowOrder(q: nat, r: nat, stride: nat)
    requires q < r
    ensures RowAt(q, stride) + stride <= RowAt(r, stride)
    ensures LineAt(q, stride) + 1 + stride <= LineAt(r, stride)
    decreases r
  {
    hide RowAt;
    RowNext(r - 1, stride);
    if q < r - 1 {
      RowOrder(q, r - 1, stride);
    }
  }

  // --- the specification ----------------------------------------------------------------

  /** The shape of the data: `height` scanlines of `1 + stride` bytes. */
  predicate Shaped(raw: seq<Byte>, height: nat, stride: nat) {
    |raw| == LineAt(height, stride)
  }

  lemma InLine(raw: seq<Byte>, height: nat, stride: nat, r: nat, i: nat)
    requires Shaped(raw, height, stride) && r < height && i < stride
    ensures LineAt(r, stride) + 1 + i < |raw|
  {
    hide RowAt;
    RowOrder(r, height, stride);
  }

  /** The original byte `i` of row `r`, from its filtered byte and the originals
      to its left, above and above left. */
  function Sample(raw: seq<Byte>, height: nat, stride: nat, bpp: nat, r: nat, i: nat): Byte
    requires Shaped(raw, height, stride) && r < height && i < stride && bpp >= 1
    decreases r, i
  {
    InLine(raw, height, stride, r, i);
    var left := if i >= bpp then Sample(raw, height, stride, bpp, r, i - bpp) else 0;
    var up := if r > 0 then Sample(raw, height, stride, bpp, r - 1, i) else 0;
    var upLeft := if r > 0 && i >= bpp then Sample(raw, height, stride, bpp, r - 1, i - bpp) else 0;
    WrappingAdd(raw[LineAt(r, stride) + 1 + i], Predict(raw[LineAt(r, stride)], left, up, upLeft))
  }

  // --- what each filter stands for (section 6 of RFC 2083) -------------------------------

  lemma ApartIs(a: int, b: int)
    ensures Apart(a, b) >= a - b && Apart(a, b) >= b - a && (Apart(a, b) == a - b || Apart(a, b) == b - a)
  {
  }

  /** `v` is what the filter type adds to a byte with these neighbours: nothing, the
      left, the upper, the floor of their mean, or the one nearest to left + up -
      up-left, ties going left, up, up-left. */
  predicate Added(filter: Byte, left: Byte, up: Byte, upLeft: Byte, v: Byte) {
    match filter
    case 0 => v == 0
    case 1 => v == left
    case 2 => v == up
    case 3 => 2 * v as int <= left as int + up < 2 * v as int + 2
    case 4 =>
      var p := left as int + up - upLeft;
      && (v == left || v == up || v == upLeft)
      && Apart(p, v) <= Apart(p, left) && Apart(p, v) <= Apart(p, up) && Apart(p, v) <= Apart(p, upLeft)
      && (Apart(p, left) == Apart(p, v) ==> v == left)
      && (Apart(p, left) > Apart(p, v) && Apart(p, up) == Apart(p, v) ==> v == up)
    case _ => true
  }

  /** The byte is `x` plus what the filter adds, modulo 256. */
  predicate Restored(byte: Byte, x: Byte, filter: Byte, left: Byte, up: Byte, upLeft: Byte) {
    exists v: Byte :: Added(filter, left, up, upLeft, v) && byte as int == (x as int + v) % 256
  }

  lemma PredictAdds(filter: Byte, left: Byte, up: Byte, upLeft: Byte)
    ensures Added(filter, left, up, upLeft, Predict(filter, left, up, upLeft))
  {
  }

  /** Every unfiltered byte, found at row times stride, is the scanline's byte, found
      behind its filter byte, plus what the filter adds, modulo 256; the neighbours are
      the unfiltered bytes one pixel to the left, one row above, or 0 outside. */
  lemma UnfilteredByte(cur: seq<Byte>, raw: seq<Byte>, height: nat, stride: nat, bpp: nat, r: nat, i: nat)
    requires Shaped(raw, height, stride) && bpp >= 1 && r < height && i < stride && RowsDone(cur, raw, height, stride, bpp, height)
    ensures var at, line := r * stride + i, r * (stride + 1);
            && |raw| == height * (stride + 1) && line + 1 + i < |raw| && at < |cur| && (r > 0 ==> at >= stride)
            && var left := if i >= bpp then cur[at - bpp] else 0;
               var up := if r > 0 then cur[at - stride] else 0;
               var upLeft := if r > 0 && i >= bpp then cur[at - stride - bpp] else 0;
               Restored(cur[at], raw[line + 1 + i], raw[line], left, up, upLeft)
  {
    hide Sample, Predict, Restored, Done;
    Placed(r, stride);
    Placed(height, stride);
    InLine(raw, height, stride, r, i);
    assert Done(cur, raw, height, stride, bpp, r, stride);
    DoneAt(cur, raw, height, stride, bpp, r, i);
    if i >= bpp {
      DoneAt(cur, raw, height, stride, bpp, r, i - bpp);
    }
    if r > 0 {
      Placed(r - 1, stride);
      RowNext(r - 1, stride);
      assert Done(cur, raw, height, stride, bpp, r - 1, stride);
      DoneAt(cur, raw, height, stride, bpp, r - 1, i);
      if i >= bpp {
        DoneAt(cur, raw, height, stride, bpp, r - 1, i - bpp);
      }
    }
    SampleAdds(raw, height, stride, bpp, r, i);
  }

  lemma Placed(r: nat, stride: nat)
    ensures RowAt(r, stride) == r * stride && LineAt(r, stride) == r * (stride + 1)
  {
  }

  lemma SampleAdds(raw: seq<Byte>, height: nat, stride: nat, bpp: nat, r: nat, i: nat)
    requires Shaped(raw, height, stride) && r < height && i < stride && bpp >= 1
    ensures LineAt(r, stride) + 1 + i < |raw|
    ensures var left := if i >= bpp then Sample(raw, height, stride, bpp, r, i - bpp) else 0;
            var up := if r > 0 then Sample(raw, height, stride, bpp, r - 1, i) else 0;
            var upLeft := if r > 0 && i >= bpp then Sample(raw, height, stride, bpp, r - 1, i - bpp) else 0;
            Restored(Sample(raw, height, stride, bpp, r, i), raw[LineAt(r, stride) + 1 + i], raw[LineAt(r, stride)], left, up, upLeft)
  {
    hide RowAt, Predict, Added;
    InLine(raw, height, stride, r, i);
    var left := if i >= bpp then Sample(raw, height, stride, bpp, r, i - bpp) else 0;
    var up := if r > 0 then Sample(raw, height, stride, bpp, r - 1, i) else 0;
    var upLeft := if r > 0 && i >= bpp then Sample(raw, height, stride, bpp, r - 1, i - bpp) else 0;
    PredictAdds(raw[LineAt(r, stride)], left, up, upLeft);
  }

  /** The bytes of a scanline at `i`, one pixel to the left of it, and so on. */
  function PixelSum(line: seq<Byte>, bpp: nat, i: nat): nat
    requires i < |line| && bpp >= 1
  {
    line[i] as nat + if i >= bpp then PixelSum(line, bpp, i - bpp) else 0
  }

  /** A row filtered by difference to the left unfilters to sums along the row. */
  lemma {:induction false} SubRow(raw: seq<Byte>, height: nat, stride: nat, bpp: nat, r: nat, i: nat, line: seq<Byte>)
    requires Shaped(raw, height, stride) && r < height && i < stride && bpp >= 1 && |line| == stride
    requires r * (stride + 1) + 1 + stride <= |raw| && raw[r * (stride + 1)] == 1
    requires line == raw[r * (stride + 1) + 1..r * (stride + 1) + 1 + stride]
    ensures Sample(raw, height, stride, bpp, r, i) as int == PixelSum(line, bpp, i) % 256
    decreases i
  {
    hide Sample, LineAt, RowAt;
    Placed(r, stride);
    SampleAdds(raw, height, stride, bpp, r, i);
    assert line[i] == raw[LineAt(r, stride) + 1 + i];
    if i >= bpp {
      SubRow(raw, height, stride, bpp, r, i - bpp, line);
    }
  }

  // --- filtering ---------------------------------------------------------------------------

  predicate ImageOk(img: seq<seq<Byte>>, fs: seq<Byte>, stride: nat) {
    && |fs| == |img|
    && (forall r :: 0 <= r < |img| ==> |img[r]| == stride)
    && (forall r :: 0 <= r < |fs| ==> fs[r] <= 4)
  }

  function Pixel(img: seq<seq<Byte>>, stride: nat, r: int, i: int): Byte
    requires forall q :: 0 <= q < |img| ==> |img[q]| == stride
    requires r < |img| && i < stride
  {
    if r >= 0 && i >= 0 then img[r][i] else 0
  }

  function FilteredByte(img: seq<seq<Byte>>, fs: seq<Byte>, stride: nat, bpp: nat, r: nat, i: nat): Byte
    requires ImageOk(img, fs, stride) && r < |img| && i < stride
  {
    WrappingSub(img[r][i],
      Predict(fs[r], Pixel(img, stride, r, i - bpp), Pixel(img, stride, r - 1, i), Pixel(img, stride, r - 1, i - bpp)))
  }

  /** Scanlines `0..n` of the image, each behind the filter chosen for it. */
  function Filtered(img: seq<seq<Byte>>, fs: seq<Byte>, stride: nat, bpp: nat, n: nat): (raw: seq<Byte>)
    requires ImageOk(img, fs, stride) && n <= |img|
    ensures Shaped(raw, n, stride)
  {
    if n == 0 then [] else
      RowNext(n - 1, stride);
      Filtered(img, fs, stride, bpp, n - 1) + [fs[n - 1]] +
      seq(stride, i requires 0 <= i < stride => FilteredByte(img, fs, stride, bpp, n - 1, i))
  }

  lemma {:induction false} FilteredAt(img: seq<seq<Byte>>, fs: seq<Byte>, stride: nat, bpp: nat, n: nat, r: nat, i: nat)
    requires ImageOk(img, fs, stride) && r < n <= |img| && i < stride
    ensures LineAt(r, stride) + 1 + i < |Filtered(img, fs, stride, bpp, n)|
    ensures Filtered(img, fs, stride, bpp, n)[LineAt(r, stride)] == fs[r]
    ensures Filtered(img, fs, stride, bpp, n)[LineAt(r, stride) + 1 + i] == FilteredByte(img, fs, stride, bpp, r, i)
    decreases n
  {
    hide RowAt, FilteredByte;
    RowNext(n - 1, stride);
    if r < n - 1 {
      FilteredAt(img, fs, stride, bpp, n - 1, r, i);
    }
  }

  /** Unfiltering undoes filtering, whatever filter each row uses. */
  lemma {:induction false} SampleInverts(img: seq<seq<Byte>>, fs: seq<Byte>, stride: nat, bpp: nat, r: nat, i: nat)
    requires ImageOk(img, fs, stride) && bpp >= 1 && r < |img| && i < stride
    ensures Sample(Filtered(img, fs, stride, bpp, |img|), |img|, stride, bpp, r, i) == img[r][i]
    decreases r, i
  {
    hide RowAt, Filtered, Paeth, WrappingAdd, WrappingSub, Predict;
    FilteredAt(img, fs, stride, bpp, |img|, r, i);
    if i >= bpp {
      SampleInverts(img, fs, stride, bpp, r, i - bpp);
    }
    if r > 0 {
      SampleInverts(img, fs, stride, bpp, r - 1, i);
    }
    if r > 0 && i >= bpp {
      SampleInverts(img, fs, stride, bpp, r - 1, i - bpp);
    }
    AddSub(img[r][i],
      Predict(fs[r], Pixel(img, stride, r, i - bpp), Pixel(img, stride, r - 1, i), Pixel(img, stride, r - 1, i - bpp)));
  }

  // --- in place ----------------------------------------------------------------------------

  /** The first `n` bytes of row `r` stand unfiltered in `cur`. */
  predicate Done(cur: seq<Byte>, raw: seq<Byte>, height: nat, stride: nat, bpp: nat, r: nat, n: nat)
    requires Shaped(raw, height, stride) && r < height && n <= stride && bpp >= 1
  {
    RowAt(r, stride) + n <= |cur| &&
    forall i :: 0 <= i < n ==> cur[RowAt(r, stride) + i] == Sample(raw, height, stride, bpp, r, i)
  }

  /** The first `n` rows stand unfiltered in `cur`. */
  predicate RowsDone(cur: seq<Byte>, raw: seq<Byte>, height: nat, stride: nat, bpp: nat, n: nat)
    requires Shaped(raw, height, stride) && n <= height && bpp >= 1
  {
    forall q :: 0 <= q < n ==> Done(cur, raw, height, stride, bpp, q, stride)
  }

  /** Rows before `r` stand unfiltered in `cur`, and scanlines from `r` on are as
      they were. */
  predicate Progress(cur: seq<Byte>, raw: seq<Byte>, height: nat, stride: nat, bpp: nat, r: nat)
    requires Shaped(raw, height, stride) && r <= height && bpp >= 1
  {
    && |cur| == |raw| && LineAt(r, stride) <= |raw|
    && cur[LineAt(r, stride)..] == raw[LineAt(r, stride)..]
    && RowsDone(cur, raw, height, stride, bpp, r)
  }

  /** Row `r` shifted over its filter byte and unfiltered up to byte `n`. */
  predicate InRow(cur: seq<Byte>, raw: seq<Byte>, height: nat, stride: nat, bpp: nat, r: nat, n: nat)
    requires Shaped(raw, height, stride) && r < height && n <= stride && bpp >= 1
  {
    && |cur| == |raw| && LineAt(r, stride) + 1 + stride <= |raw|
    && cur[LineAt(r, stride) + 1 + stride..] == raw[LineAt(r, stride) + 1 + stride..]
    && cur[RowAt(r, stride) + n..RowAt(r, stride) + stride] == raw[LineAt(r, stride) + 1 + n..LineAt(r, stride) + 1 + stride]
    && Done(cur, raw, height, stride, bpp, r, n)
    && RowsDone(cur, raw, height, stride, bpp, r)
  }

  lemma ProgressStart(raw: seq<Byte>, height: nat, stride: nat, bpp: nat)
    requires Shaped(raw, height, stride) && bpp >= 1
    ensures Progress(raw, raw, height, stride, bpp, 0)
  {
  }

  /** A change at or past the start of row `r` leaves the rows before it done. */
  lemma DoneKept(cur: seq<Byte>, next: seq<Byte>, raw: seq<Byte>, height: nat, stride: nat, bpp: nat, r: nat)
    requires Shaped(raw, height, stride) && r <= height && bpp >= 1 && RowAt(r, stride) <= |cur| == |next|
    requires next[..RowAt(r, stride)] == cur[..RowAt(r, stride)]
    requires RowsDone(cur, raw, height, stride, bpp, r)
    ensures RowsDone(next, raw, height, stride, bpp, r)
  {
    hide RowAt, Sample;
    var a := RowAt(r, stride);
    assert forall k :: 0 <= k < a ==> next[k] == next[..a][k] == cur[..a][k] == cur[k];
    forall q | 0 <= q < r
      ensures Done(next, raw, height, stride, bpp, q, stride)
    {
      RowOrder(q, r, stride);
      assert Done(cur, raw, height, stride, bpp, q, stride);
    }
  }

  /** The move over the filter byte: its source and target may overlap, and it
      writes below every scanline not yet read. */
  lemma Shifted(cur: seq<Byte>, next: seq<Byte>, raw: seq<Byte>, height: nat, stride: nat, bpp: nat, r: nat)
    requires Shaped(raw, height, stride) && r < height && bpp >= 1 && Progress(cur, raw, height, stride, bpp, r)
    requires LineAt(r, stride) + 1 + stride <= |cur|
    requires var a := RowAt(r, stride); next == cur[..a] + cur[a + r + 1..a + r + 1 + stride] + cur[a + stride..]
    ensures InRow(next, raw, height, stride, bpp, r, 0)
    ensures cur[LineAt(r, stride)] == raw[LineAt(r, stride)]
  {
    hide RowAt, Sample, Done;
    var a, l := RowAt(r, stride), LineAt(r, stride);
    assert next[..a] == cur[..a];
    DoneKept(cur, next, raw, height, stride, bpp, r);
    assert cur[l] == cur[l..][0] == raw[l..][0];
    assert next[a..a + stride] == cur[l + 1..l + 1 + stride] == cur[l..][1..1 + stride] == raw[l..][1..1 + stride];
    assert next[l + 1 + stride..] == cur[l + 1 + stride..] == cur[l..][1 + stride..] == raw[l..][1 + stride..];
    DoneNone(next, raw, height, stride, bpp, r);
  }

  lemma DoneNone(cur: seq<Byte>, raw: seq<Byte>, height: nat, stride: nat, bpp: nat, r: nat)
    requires Shaped(raw, height, stride) && r < height && bpp >= 1 && RowAt(r, stride) <= |cur|
    ensures Done(cur, raw, height, stride, bpp, r, 0)
  {
  }

  /** The byte that unfiltering writes at `i`. */
  function Unfiltered(cur: seq<Byte>, filter: Byte, stride: nat, bpp: nat, r: nat, i: nat): Byte
    requires RowAt(r, stride) + i < |cur| && (r > 0 ==> RowAt(r - 1, stride) + i < |cur|) && bpp >= 1
  {
    var left := if i >= bpp then cur[RowAt(r, stride) + i - bpp] else 0;
    var up := if r > 0 then cur[RowAt(r - 1, stride) + i] else 0;
    var upLeft := if r > 0 && i >= bpp then cur[RowAt(r - 1, stride) + i - bpp] else 0;
    WrappingAdd(cur[RowAt(r, stride) + i], Predict(filter, left, up, upLeft))
  }

  lemma SampleIs(raw: seq<Byte>, height: nat, stride: nat, bpp: nat, r: nat, i: nat)
    requires Shaped(raw, height, stride) && r < height && i < stride && bpp >= 1 && LineAt(r, stride) + 1 + i < |raw|
    ensures Sample(raw, height, stride, bpp, r, i) ==
      WrappingAdd(raw[LineAt(r, stride) + 1 + i],
        Predict(raw[LineAt(r, stride)],
          if i >= bpp then Sample(raw, height, stride, bpp, r, i - bpp) else 0,
          if r > 0 then Sample(raw, height, stride, bpp, r - 1, i) else 0,
          if r > 0 && i >= bpp then Sample(raw, height, stride, bpp, r - 1, i - bpp) else 0))
  {
    hide Predict, WrappingAdd;
  }

  lemma UnfilteredBounds(cur: seq<Byte>, raw: seq<Byte>, height: nat, stride: nat, bpp: nat, r: nat, i: nat)
    requires Shaped(raw, height, stride) && r < height && i < stride && bpp >= 1
    requires InRow(cur, raw, height, stride, bpp, r, i)
    ensures RowAt(r, stride) + i < |cur| && (r > 0 ==> RowAt(r - 1, stride) + i < |cur|)
  {
    hide RowAt, Done;
    if r > 0 {
      RowOrder(r - 1, r, stride);
    }
  }

  /** It is the original byte. */
  lemma UnfilteredIs(cur: seq<Byte>, raw: seq<Byte>, height: nat, stride: nat, bpp: nat, r: nat, i: nat)
    requires Shaped(raw, height, stride) && r < height && i < stride && bpp >= 1
    requires InRow(cur, raw, height, stride, bpp, r, i) && LineAt(r, stride) < |raw|
    ensures RowAt(r, stride) + i < |cur| && (r > 0 ==> RowAt(r - 1, stride) + i < |cur|)
    ensures Unfiltered(cur, raw[LineAt(r, stride)], stride, bpp, r, i) == Sample(raw, height, stride, bpp, r, i)
  {
    hide RowAt, Predict, WrappingAdd, Shaped, Done, Sample;
    UnfilteredBounds(cur, raw, height, stride, bpp, r, i);
    InLine(raw, height, stride, r, i);
    SampleIs(raw, height, stride, bpp, r, i);
    if i >= bpp {
      DoneAtLeft(cur, raw, height, stride, bpp, r, i, i - bpp);
    }
    if r > 0 {
      DoneAt(cur, raw, height, stride, bpp, r - 1, i);
    }
    if r > 0 && i >= bpp {
      DoneAt(cur, raw, height, stride, bpp, r - 1, i - bpp);
    }
    var a, l := RowAt(r, stride), LineAt(r, stride) + 1;
    assert cur[a + i] == cur[a + i..a + stride][0] == raw[l + i..l + stride][0];
  }

  lemma InRowStep(cur: seq<Byte>, raw: seq<Byte>, height: nat, stride: nat, bpp: nat, r: nat, i: nat)
    requires Shaped(raw, height, stride) && r < height && i < stride && bpp >= 1
    requires InRow(cur, raw, height, stride, bpp, r, i)
    ensures RowAt(r, stride) + i < |cur|
    ensures InRow(cur[RowAt(r, stride) + i := Sample(raw, height, stride, bpp, r, i)], raw, height, stride, bpp, r, i + 1)
  {
    hide RowAt, Sample;
    var next := cur[RowAt(r, stride) + i := Sample(raw, height, stride, bpp, r, i)];
    var a := RowAt(r, stride);
    assert next[..a] == cur[..a];
    DoneKept(cur, next, raw, height, stride, bpp, r);
    assert Done(cur, raw, height, stride, bpp, r, i);
    var tail := LineAt(r, stride) + 1 + stride;
    assert next[tail..] == cur[tail..];
    assert next[a + i + 1..a + stride] == cur[a + i..a + stride][1..];
  }

  lemma RowFinished(cur: seq<Byte>, raw: seq<Byte>, height: nat, stride: nat, bpp: nat, r: nat)
    requires Shaped(raw, height, stride) && r < height && bpp >= 1
    requires InRow(cur, raw, height, stride, bpp, r, stride)
    ensures Progress(cur, raw, height, stride, bpp, r + 1)
  {
    hide RowAt, Sample, Done;
    RowNext(r, stride);
  }

  /** No scanline before `n` has an unknown filter type. */
  predicate Known(raw: seq<Byte>, stride: nat, n: nat) {
    forall r :: 0 <= r < n ==> LineAt(r, stride) < |raw| && raw[LineAt(r, stride)] <= 4
  }

  /** Move `n` bytes from `src` down to `dst`; the ranges may overlap. */
  method CopyWithin(raw: array<Byte>, src: nat, dst: nat, n: nat)
    requires dst <= src && src + n <= raw.Length
    modifies raw
    ensures raw[..] == old(raw[..dst] + raw[src..src + n] + raw[dst + n..])
  {
    ghost var was := raw[..];
    forall j | dst <= j < dst + n {
      raw[j] := raw[j + (src - dst)];
    }
    ghost var moved := was[..dst] + was[src..src + n] + was[dst + n..];
    assert forall j :: 0 <= j < |was| ==> raw[j] == if dst <= j < dst + n then was[j + (src - dst)] else was[j];
    assert raw[..] == moved;
  }

  /** Move row `row` left over its filter byte. */
  method ShiftRow(raw: array<Byte>, ghost was: seq<Byte>, height: nat, stride: nat, bpp: nat, row: nat) returns (filter: Byte)
    requires Shaped(was, height, stride) && row < height && bpp >= 1 && Progress(raw[..], was, height, stride, bpp, row)
    modifies raw
    ensures InRow(raw[..], was, height, stride, bpp, row, 0)
    ensures LineAt(row, stride) < |was| && filter == was[LineAt(row, stride)]
  {
    hide RowAt, Sample, Done, InRow;
    RowOrder(row, height, stride);
    var cur := LineAt(row, stride) - row;
    filter := raw[LineAt(row, stride)];
    ghost var before := raw[..];
    CopyWithin(raw, cur + row + 1, cur, stride);
    Shifted(before, raw[..], was, height, stride, bpp, row);
  }

  /** Unfilter every row in place; the result is the first `height * stride`
      bytes. It fails exactly when a filter type is above 4. */
  method Unfilter(raw: array<Byte>, height: nat, stride: nat, bpp: nat) returns (ok: bool)
    requires raw.Length == LineAt(height, stride) && bpp >= 1 && stride >= 1
    modifies raw
    ensures Shaped(old(raw[..]), height, stride) && ok == Known(old(raw[..]), stride, height)
    ensures ok ==> RowsDone(raw[..], old(raw[..]), height, stride, bpp, height)
  {
    hide RowAt, LineAt, Sample, Done, Progress, InRow;
    ghost var was := raw[..];
    ProgressStart(was, height, stride, bpp);
    var row := 0;
    while row < height
      invariant row <= height && Progress(raw[..], was, height, stride, bpp, row) && Known(was, stride, row)
    {
      var filter := ShiftRow(raw, was, height, stride, bpp, row);
      if filter > 4 {
        return false;
      }
      UnfilterRow(raw, was, height, stride, bpp, row, filter);
      RowFinished(raw[..], was, height, stride, bpp, row);
      row := row + 1;
    }
    ProgressDone(raw[..], was, height, stride, bpp);
    return true;
  }

  lemma ProgressDone(cur: seq<Byte>, raw: seq<Byte>, height: nat, stride: nat, bpp: nat)
    requires Shaped(raw, height, stride) && bpp >= 1 && Progress(cur, raw, height, stride, bpp, height)
    ensures RowsDone(cur, raw, height, stride, bpp, height)
  {
  }

  method UnfilterRow(raw: array<Byte>, ghost was: seq<Byte>, height: nat, stride: nat, bpp: nat, row: nat, filter: Byte)
    requires Shaped(was, height, stride) && row < height && bpp >= 1 && LineAt(row, stride) < |was|
    requires filter == was[LineAt(row, stride)] && InRow(raw[..], was, height, stride, bpp, row, 0)
    modifies raw
    ensures InRow(raw[..], was, height, stride, bpp, row, stride)
  {
    hide Sample, Done, InRow, Predict, WrappingAdd, RowAt;
    var i := 0;
    while i < stride
      invariant i <= stride && InRow(raw[..], was, height, stride, bpp, row, i)
    {
      ghost var before := raw[..];
      UnfilteredBounds(before, was, height, stride, bpp, row, i);
      UnfilteredIs(before, was, height, stride, bpp, row, i);
      InRowStep(before, was, height, stride, bpp, row, i);
      var cur, above := RowAt(row, stride), if row > 0 then RowAt(row - 1, stride) else 0;
      var left := if i >= bpp then raw[cur + i - bpp] else 0;
      var up := if row > 0 then raw[above + i] else 0;
      var upLeft := if row > 0 && i >= bpp then raw[above + i - bpp] else 0;
      raw[cur + i] := WrappingAdd(raw[cur + i], Predict(filter, left, up, upLeft));
      assert raw[..] == before[cur + i := Sample(was, height, stride, bpp, row, i)];
      i := i + 1;
    }
  }

  predicate ByteShown(cur: seq<Byte>, img: seq<seq<Byte>>, stride: nat, r: nat, i: nat)
    requires r < |img| && i < |img[r]|
  {
    RowAt(r, stride) + i < |cur| && cur[RowAt(r, stride) + i] == img[r][i]
  }

  /** The bytes of the image, row after row. */
  predicate Shows(cur: seq<Byte>, img: seq<seq<Byte>>, stride: nat) {
    forall r, i :: 0 <= r < |img| && 0 <= i < |img[r]| ==> ByteShown(cur, img, stride, r, i)
  }

  /** The scanlines of any image, each filtered in any of the five ways, unfilter
      to the image: `Unfilter` accepts them and leaves its bytes. */
  lemma FilterRoundTrip(img: seq<seq<Byte>>, fs: seq<Byte>, stride: nat, bpp: nat, cur: seq<Byte>)
    requires ImageOk(img, fs, stride) && bpp >= 1 && stride >= 1
    requires RowsDone(cur, Filtered(img, fs, stride, bpp, |img|), |img|, stride, bpp, |img|)
    ensures Known(Filtered(img, fs, stride, bpp, |img|), stride, |img|)
    ensures Shows(cur, img, stride)
  {
    hide RowAt, Sample, Filtered, Done;
    var raw := Filtered(img, fs, stride, bpp, |img|);
    forall r | 0 <= r < |img|
      ensures LineAt(r, stride) < |raw| && raw[LineAt(r, stride)] <= 4
    {
      FilteredAt(img, fs, stride, bpp, |img|, r, 0);
    }
    forall r, i | 0 <= r < |img| && 0 <= i < |img[r]|
      ensures ByteShown(cur, img, stride, r, i)
    {
      assert Done(cur, raw, |img|, stride, bpp, r, stride);
      SampleInverts(img, fs, stride, bpp, r, i);
      DoneAt(cur, raw, |img|, stride, bpp, r, i);
    }
  }

  lemma DoneAtLeft(cur: seq<Byte>, raw: seq<Byte>, height: nat, stride: nat, bpp: nat, r: nat, n: nat, i: nat)
    requires Shaped(raw, height, stride) && r < height && i < n <= stride && bpp >= 1
    requires Done(cur, raw, height, stride, bpp, r, n)
    ensures RowAt(r, stride) + i < |cur| && cur[RowAt(r, stride) + i] == Sample(raw, height, stride, bpp, r, i)
  {
    hide RowAt, Sample;
  }

  lemma DoneAt(cur: seq<Byte>, raw: seq<Byte>, height: nat, stride: nat, bpp: nat, r: nat, i: nat)
    requires Shaped(raw, height, stride) && r < height && i < stride && bpp >= 1
    requires Done(cur, raw, height, stride, bpp, r, stride)
    ensures RowAt(r, stride) + i < |cur| && cur[RowAt(r, stride) + i] == Sample(raw, height, stride, bpp, r, i)
  {
    hide RowAt, Sample;
  }
}
