// Compositing animation frames (crates/posh-term/src/graphics.rs): blending,
// clipped rectangles, and base chains that may run in circles.

module Compose {
  import opened Wrappers
  import opened Bytes
  import opened Graphics

  // --- one pixel ------------------------------------------------------------------------

  /** Red, green, blue, alpha. */
  datatype Px = Px(r: Byte, g: Byte, b: Byte, a: Byte)

  /** Output alpha times 255. */
  function OutAlpha(sa: Byte, da: Byte): (oa: nat)
    ensures oa <= 255 * 255
  {
    AlphaBound(sa, da);
    sa * 255 + da * (255 - sa)
  }

  lemma AlphaBound(sa: int, da: int)
    requires 0 <= sa <= 255 && 0 <= da <= 255
    ensures 0 <= sa * 255 + da * (255 - sa) <= 255 * 255
    ensures sa * 255 + da * (255 - sa) >= 255 * sa
    ensures sa * 255 + da * (255 - sa) >= 255 * da
  {
    var t := da * sa;
    Product(da, sa);
    assert da * (255 - sa) == 255 * da - t;
  }

  lemma Product(a: int, b: int)
    requires 0 <= a <= 255 && 0 <= b <= 255
    ensures 0 <= a * b && a * b <= 255 * b && a * b <= 255 * a
    ensures 255 * a + 255 * b - a * b <= 255 * 255
  {
    Weighted(a, 0, 255, b);
    Weighted(b, 0, 255, a);
    Weighted(a, 0, 255, 255 - b);
    assert a * (255 - b) == 255 * a - a * b;
  }

  /** A weighted mean of `s` and `d`, rounded down. */
  function Mixed(s: int, d: int, ws: int, wd: int): (r: int)
    requires ws >= 0 && wd >= 0 && ws + wd > 0
  {
    (s * ws + d * wd) / (ws + wd)
  }

  /** A mean lies between what it mixes. */
  lemma MixedBetween(s: int, d: int, ws: int, wd: int)
    requires ws >= 0 && wd >= 0 && ws + wd > 0
    ensures Mixed(s, d, ws, wd) >= if s < d then s else d
    ensures Mixed(s, d, ws, wd) <= if s < d then d else s
  {
    var lo, hi, w := if s < d then s else d, if s < d then d else s, ws + wd;
    var n := s * ws + d * wd;
    Weighted(s, lo, hi, ws);
    Weighted(d, lo, hi, wd);
    assert lo * ws + lo * wd == lo * w && hi * ws + hi * wd == hi * w;
    DivBetween(n, lo, hi, w);
  }

  lemma Weighted(v: int, lo: int, hi: int, w: int)
    requires lo <= v <= hi && w >= 0
    ensures lo * w <= v * w <= hi * w
  {
  }

  lemma DivBetween(n: int, lo: int, hi: int, w: int)
    requires w > 0 && lo * w <= n <= hi * w
    ensures lo <= n / w <= hi
  {
    var q := n / w;
    assert n == q * w + n % w;
    var low, high := q - lo, hi - q;
    assert low * w == q * w - lo * w && high * w == hi * w - q * w;
    assert low < 0 ==> low * w <= -w;
    assert high < 0 ==> high * w <= -w;
  }

  function Channel(s: Byte, d: Byte, sa: Byte, da: Byte): Byte
    requires OutAlpha(sa, da) > 0
  {
    AlphaBound(sa, da);
    MixedBetween(s, d, sa * 255, da as int * (255 - sa));
    Mixed(s, d, sa * 255, da as int * (255 - sa))
  }

  function AlphaByte(sa: Byte, da: Byte): (a: Byte)
    ensures a >= sa && a >= da
  {
    AlphaBound(sa, da);
    OutAlpha(sa, da) / 255
  }

  /** `blend_px`: straight-alpha "over". */
  function Blend(d: Px, s: Px): Px {
    if s.a == 255 then s
    else if OutAlpha(s.a, d.a) == 0 then Px(0, 0, 0, 0)
    else Px(Channel(s.r, d.r, s.a, d.a), Channel(s.g, d.g, s.a, d.a), Channel(s.b, d.b, s.a, d.a), AlphaByte(s.a, d.a))
  }

  predicate Between(v: Byte, a: Byte, b: Byte) {
    (a <= v <= b) || (b <= v <= a)
  }

  /** Unless the result is wholly transparent, every colour lies between source and
      destination; the result is at least as opaque as either, so an opaque
      destination stays opaque, and it is wholly transparent only if both are. */
  lemma BlendIsBetween(d: Px, s: Px)
    ensures var p := Blend(d, s);
            && (p.a > 0 ==> Between(p.r, s.r, d.r) && Between(p.g, s.g, d.g) && Between(p.b, s.b, d.b))
            && p.a >= s.a && p.a >= d.a && (d.a == 255 ==> p.a == 255)
            && (OutAlpha(s.a, d.a) == 0 <==> s.a == 0 && d.a == 0)
  {
    hide Mixed;
    AlphaBound(s.a, d.a);
    if s.a != 255 && OutAlpha(s.a, d.a) > 0 {
      ChannelBetween(s.r, d.r, s.a, d.a);
      ChannelBetween(s.g, d.g, s.a, d.a);
      ChannelBetween(s.b, d.b, s.a, d.a);
    }
  }

  lemma ChannelBetween(s: Byte, d: Byte, sa: Byte, da: Byte)
    requires OutAlpha(sa, da) > 0
    ensures Between(Channel(s, d, sa, da), s, d)
  {
    AlphaBound(sa, da);
    MixedBetween(s, d, sa * 255, da as int * (255 - sa));
  }

  // --- where pixels lie ---------------------------------------------------------------------

  /** The first byte of pixel `(x, y)` in a canvas `w` wide. */
  function At(w: nat, x: nat, y: nat): nat { (y * w + x) * 4 }

  lemma AtInside(w: nat, h: nat, x: nat, y: nat)
    requires x < w && y < h
    ensures At(w, x, y) + 4 <= Size(w, h)
  {
    var rest := h - y - 1;
    assert w * h == w * (y + 1 + rest) == w * y + w + w * rest;
  }

  lemma AtApart(w: nat, x: nat, y: nat, u: nat, v: nat)
    requires x < w && u < w && (x != u || y != v)
    ensures At(w, x, y) + 4 <= At(w, u, v) || At(w, u, v) + 4 <= At(w, x, y)
  {
    if y < v {
      RowsApart(w, y, v);
    } else if v < y {
      RowsApart(w, v, y);
    }
  }

  lemma RowsApart(w: nat, y: nat, v: nat)
    requires y < v
    ensures y * w + w <= v * w
  {
    var k := v - y - 1;
    assert v * w == (y + 1 + k) * w == y * w + w + k * w;
  }

  function PixelAt(buf: seq<Byte>, w: nat, x: nat, y: nat): Px
    requires At(w, x, y) + 4 <= |buf|
  {
    var i := At(w, x, y);
    Px(buf[i], buf[i + 1], buf[i + 2], buf[i + 3])
  }

  // --- a clipped rectangle ---------------------------------------------------------------------

  datatype Rect = Rect(sw: nat, sh: nat, sx: nat, sy: nat, dx: nat, dy: nat, w: nat, h: nat, replace: bool)

  function Over(a: nat, b: nat): nat { if a < b then 0 else a - b }

  /** The rectangle clipped to both buffers. */
  function Clipped(r: Rect, dw: nat, dh: nat): Rect {
    r.(w := Lesser(Lesser(r.w, Over(r.sw, r.sx)), Over(dw, r.dx)), h := Lesser(Lesser(r.h, Over(r.sh, r.sy)), Over(dh, r.dy)))
  }

  lemma ClippedInside(r: Rect, dw: nat, dh: nat)
    ensures var c := Clipped(r, dw, dh);
            && (c.w > 0 ==> c.sx + c.w <= c.sw && c.dx + c.w <= dw)
            && (c.h > 0 ==> c.sy + c.h <= c.sh && c.dy + c.h <= dh)
            && c.w <= r.w && c.h <= r.h
  {
  }

  predicate InRect(c: Rect, x: nat, y: nat) {
    c.dx <= x < c.dx + c.w && c.dy <= y < c.dy + c.h
  }

  /** What pixel `(x, y)` becomes. */
  function NewPixel(c: Rect, src: seq<Byte>, d: Px, x: nat, y: nat): Px
    requires InRect(c, x, y) && |src| == Size(c.sw, c.sh) && c.sx + c.w <= c.sw && c.sy + c.h <= c.sh
  {
    AtInside(c.sw, c.sh, c.sx + (x - c.dx), c.sy + (y - c.dy));
    var s := PixelAt(src, c.sw, c.sx + (x - c.dx), c.sy + (y - c.dy));
    if c.replace then s else Blend(d, s)
  }

  /** A clipped rectangle that fits both buffers. */
  predicate Fits(c: Rect, dw: nat, dh: nat) {
    c.w > 0 && c.h > 0 ==> c.sx + c.w <= c.sw && c.sy + c.h <= c.sh && c.dx + c.w <= dw && c.dy + c.h <= dh
  }

  /** Pixel `(x, y)` of `next` is composed if the rectangle has reached it, and
      otherwise as it was: rows before `row` are done, and `col` pixels of it. */
  predicate PixelDone(was: seq<Byte>, next: seq<Byte>, dw: nat, dh: nat, src: seq<Byte>, c: Rect, row: nat, col: nat, x: nat, y: nat)
    requires |was| == |next| == Size(dw, dh) && |src| == Size(c.sw, c.sh) && Fits(c, dw, dh) && x < dw && y < dh
  {
    AtInside(dw, dh, x, y);
    var d := PixelAt(was, dw, x, y);
    PixelAt(next, dw, x, y) ==
    if InRect(c, x, y) && (y - c.dy < row || (y - c.dy == row && x - c.dx < col)) then NewPixel(c, src, d, x, y) else d
  }

  predicate InBounds(w: nat, h: nat, x: nat, y: nat) { x < w && y < h }

  ghost predicate RectDone(was: seq<Byte>, next: seq<Byte>, dw: nat, dh: nat, src: seq<Byte>, c: Rect, row: nat, col: nat)
    requires |was| == |next| == Size(dw, dh) && |src| == Size(c.sw, c.sh) && Fits(c, dw, dh)
  {
    forall x: nat, y: nat :: InBounds(dw, dh, x, y) ==> PixelDone(was, next, dw, dh, src, c, row, col, x, y)
  }

  lemma RectStart(was: seq<Byte>, dw: nat, dh: nat, src: seq<Byte>, c: Rect)
    requires |was| == Size(dw, dh) && |src| == Size(c.sw, c.sh) && Fits(c, dw, dh)
    ensures RectDone(was, was, dw, dh, src, c, 0, 0)
  {
    hide NewPixel, PixelAt, Size, At;
  }

  /** A row finished is the next one begun. */
  lemma RectRow(was: seq<Byte>, next: seq<Byte>, dw: nat, dh: nat, src: seq<Byte>, c: Rect, row: nat)
    requires |was| == |next| == Size(dw, dh) && |src| == Size(c.sw, c.sh) && Fits(c, dw, dh)
    requires RectDone(was, next, dw, dh, src, c, row, c.w)
    ensures RectDone(was, next, dw, dh, src, c, row + 1, 0)
  {
    hide NewPixel, PixelAt, Size, At;
    forall x: nat, y: nat | InBounds(dw, dh, x, y)
      ensures PixelDone(was, next, dw, dh, src, c, row + 1, 0, x, y)
    {
      assert PixelDone(was, next, dw, dh, src, c, row, c.w, x, y);
    }
  }

  function Put(buf: seq<Byte>, i: nat, p: Px): (r: seq<Byte>)
    requires i + 4 <= |buf|
    ensures |r| == |buf|
  {
    buf[i := p.r][i + 1 := p.g][i + 2 := p.b][i + 3 := p.a]
  }

  /** One more pixel, and no other one changes. */
  lemma RectStep(was: seq<Byte>, cur: seq<Byte>, dw: nat, dh: nat, src: seq<Byte>, c: Rect, row: nat, col: nat)
    requires |was| == |cur| == Size(dw, dh) && |src| == Size(c.sw, c.sh) && Fits(c, dw, dh)
    requires row < c.h && col < c.w && RectDone(was, cur, dw, dh, src, c, row, col)
    ensures At(dw, c.dx + col, c.dy + row) + 4 <= |cur|
    ensures var x, y := c.dx + col, c.dy + row;
            var p := NewPixel(c, src, PixelAt(cur, dw, x, y), x, y);
            RectDone(was, Put(cur, At(dw, x, y), p), dw, dh, src, c, row, col + 1)
  {
    var x, y := c.dx + col, c.dy + row;
    AtInside(dw, dh, x, y);
    assert PixelDone(was, cur, dw, dh, src, c, row, col, x, y);
    var p := NewPixel(c, src, PixelAt(cur, dw, x, y), x, y);
    var next := Put(cur, At(dw, x, y), p);
    forall u: nat, v: nat | InBounds(dw, dh, u, v)
      ensures PixelDone(was, next, dw, dh, src, c, row, col + 1, u, v)
    {
      StepPixel(was, cur, dw, dh, src, c, row, col, p, u, v);
    }
  }

  lemma StepPixel(was: seq<Byte>, cur: seq<Byte>, dw: nat, dh: nat, src: seq<Byte>, c: Rect, row: nat, col: nat, p: Px, u: nat, v: nat)
    requires |was| == |cur| == Size(dw, dh) && |src| == Size(c.sw, c.sh) && Fits(c, dw, dh)
    requires row < c.h && col < c.w && u < dw && v < dh
    requires PixelDone(was, cur, dw, dh, src, c, row, col, u, v)
    requires At(dw, c.dx + col, c.dy + row) + 4 <= |cur|
    requires PixelDone(was, cur, dw, dh, src, c, row, col, c.dx + col, c.dy + row)
    requires p == NewPixel(c, src, PixelAt(cur, dw, c.dx + col, c.dy + row), c.dx + col, c.dy + row)
    ensures PixelDone(was, Put(cur, At(dw, c.dx + col, c.dy + row), p), dw, dh, src, c, row, col + 1, u, v)
  {
    hide NewPixel, At, Size;
    AtInside(dw, dh, u, v);
    if u != c.dx + col || v != c.dy + row {
      AtApart(dw, u, v, c.dx + col, c.dy + row);
    }
  }

  method BlendPx(dst: array<Byte>, at: nat, s: Px, replace: bool)
    requires at + 4 <= dst.Length
    modifies dst
    ensures var d := Px(old(dst[at]), old(dst[at + 1]), old(dst[at + 2]), old(dst[at + 3]));
            dst[..] == Put(old(dst[..]), at, if replace then s else Blend(d, s))
  {
    hide Blend;
    var d := Px(dst[at], dst[at + 1], dst[at + 2], dst[at + 3]);
    var p := if replace then s else Blend(d, s);
    dst[at], dst[at + 1], dst[at + 2], dst[at + 3] := p.r, p.g, p.b, p.a;
  }

  /** The composition of a clipped rectangle, and nothing outside it. */
  ghost predicate Composed(was: seq<Byte>, next: seq<Byte>, dw: nat, dh: nat, src: seq<Byte>, r: Rect)
    requires |was| == |next| == Size(dw, dh) && |src| == Size(r.sw, r.sh)
  {
    var c := Clipped(r, dw, dh);
    ClippedInside(r, dw, dh);
    RectDone(was, next, dw, dh, src, c, c.h, 0)
  }

  /** Compose a rectangle of `src` onto `dst`, clipped to both. */
  method ComposeRect(dst: array<Byte>, dw: nat, dh: nat, src: seq<Byte>, r: Rect)
    requires dst.Length == Size(dw, dh) && |src| == Size(r.sw, r.sh)
    modifies dst
    ensures Composed(old(dst[..]), dst[..], dw, dh, src, r)
  {
    hide RectDone, Size, NewPixel, Put, Blend;
    ClippedInside(r, dw, dh);
    var c := Clipped(r, dw, dh);
    ghost var was := dst[..];
    RectStart(was, dw, dh, src, c);
    var row := 0;
    while row < c.h
      invariant row <= c.h && RectDone(was, dst[..], dw, dh, src, c, row, 0)
    {
      ComposeRow(dst, dw, dh, src, c, row, was);
      RectRow(was, dst[..], dw, dh, src, c, row);
      row := row + 1;
    }
  }

  method ComposeRow(dst: array<Byte>, dw: nat, dh: nat, src: seq<Byte>, c: Rect, row: nat, ghost was: seq<Byte>)
    requires dst.Length == Size(dw, dh) == |was| && |src| == Size(c.sw, c.sh) && Fits(c, dw, dh) && row < c.h
    requires RectDone(was, dst[..], dw, dh, src, c, row, 0)
    modifies dst
    ensures RectDone(was, dst[..], dw, dh, src, c, row, c.w)
  {
    hide RectDone, Size, Put, Blend, At;
    var col := 0;
    while col < c.w
      invariant col <= c.w && RectDone(was, dst[..], dw, dh, src, c, row, col)
    {
      RectStep(was, dst[..], dw, dh, src, c, row, col);
      AtInside(c.sw, c.sh, c.sx + col, c.sy + row);
      BlendPx(dst, At(dw, c.dx + col, c.dy + row), PixelAt(src, c.sw, c.sx + col, c.sy + row), c.replace);
      col := col + 1;
    }
  }

  // --- base chains --------------------------------------------------------------------------

  function AsRgba(format: Format, data: seq<Byte>): (out: seq<Byte>)
    ensures format.RgbFormat? && |data| % 3 == 0 ==> |out| == |data| / 3 * 4
    ensures !format.RgbFormat? ==> out == data
  {
    if !format.RgbFormat? then data
    else if |data| < 3 then []
    else [data[0], data[1], data[2], 255] + AsRgba(format, data[3..])
  }

  lemma RgbaSize(format: Format, w: nat, h: nat, data: seq<Byte>)
    requires PixelsOk(format, w, h, data)
    ensures |AsRgba(format, data)| == Size(w, h)
  {
    var n := w * h;
    if format.RgbFormat? {
      assert n * 3 % 3 == 0 && n * 3 / 3 == n;
    }
  }

  function FrameRect(f: Frame): Rect {
    Rect(f.width, f.height, 0, 0, f.x, f.y, f.width, f.height, f.replace)
  }

  predicate Has(fs: seq<Frame>, n: nat) {
    FrameIndex(fs, n) < |fs|
  }

  function BaseOf(fs: seq<Frame>, n: nat): nat
    requires Has(fs, n)
  {
    fs[FrameIndex(fs, n)].baseFrame
  }

  /** Following bases from frame `n` arrives at the root image in `k` steps. */
  predicate Arrives(fs: seq<Frame>, n: nat, k: nat)
    decreases k
  {
    if n == 0 then k == 0 else k > 0 && Has(fs, n) && Arrives(fs, BaseOf(fs, n), k - 1)
  }

  /** The bases of frame `n` lead to the root image. */
  ghost predicate Rooted(fs: seq<Frame>, n: nat) {
    exists k: nat :: Arrives(fs, n, k)
  }

  /** The canvas of frame `n`: its own data composed onto its base's canvas. */
  ghost predicate IsCanvas(canvas: seq<Byte>, img: Image, fs: seq<Frame>, n: nat, k: nat)
    requires PixelsOk(img.format, img.width, img.height, img.data) && FramesOk(fs)
    decreases k
  {
    |canvas| == Size(img.width, img.height) &&
    if n == 0 then k == 0 && canvas == AsRgba(img.format, img.data) else
      k > 0 && Has(fs, n) &&
      var f := fs[FrameIndex(fs, n)];
      RgbaSize(f.format, f.width, f.height, f.data);
      exists base: seq<Byte> ::
        IsCanvas(base, img, fs, f.baseFrame, k - 1) && |base| == |canvas| &&
        Composed(base, canvas, img.width, img.height, AsRgba(f.format, f.data), FrameRect(f))
  }

  function Numbers(fs: seq<Frame>): set<nat> {
    set i | 0 <= i < |fs| :: fs[i].number
  }

  /** Every frame seen leads, base by base, to the frame being composed. */
  ghost predicate LeadTo(fs: seq<Frame>, seen: set<nat>, n: nat) {
    forall m: nat, k: nat :: m in seen && Arrives(fs, m, k) ==> exists j: nat :: j < k && Arrives(fs, n, j)
  }

  /** A base that was seen before is a circle: the root is never reached. */
  lemma {:induction false} CircleNeverArrives(fs: seq<Frame>, seen: set<nat>, n: nat, k: nat)
    requires LeadTo(fs, seen, n) && n in seen
    ensures !Arrives(fs, n, k)
    decreases k
  {
    hide Arrives;
    if Arrives(fs, n, k) {
      var j: nat :| j < k && Arrives(fs, n, j);
      CircleNeverArrives(fs, seen, n, j);
    }
  }

  lemma LeadOn(fs: seq<Frame>, seen: set<nat>, n: nat)
    requires LeadTo(fs, seen, n) && n != 0 && Has(fs, n)
    ensures LeadTo(fs, seen + {n}, BaseOf(fs, n))
  {
    forall m: nat, k: nat | m in seen + {n} && Arrives(fs, m, k)
      ensures exists j: nat :: j < k && Arrives(fs, BaseOf(fs, n), j)
    {
      if m == n {
        assert Arrives(fs, BaseOf(fs, n), k - 1);
      } else {
        var i: nat :| i < k && Arrives(fs, n, i);
        assert Arrives(fs, BaseOf(fs, n), i - 1);
      }
    }
  }

  lemma NumberIn(fs: seq<Frame>, n: nat)
    requires Has(fs, n)
    ensures n in Numbers(fs)
  {
    assert fs[FrameIndex(fs, n)].number == n;
  }

  lemma Shrinks(all: set<nat>, seen: set<nat>, n: nat)
    requires n in all && n !in seen
    ensures |all - (seen + {n})| < |all - seen|
  {
    assert all - seen == (all - (seen + {n})) + {n};
  }

  /** `compose_chain`: the canvas of frame `n`, or none exactly when its bases do
      not lead to the root image, because one is missing or they run in a circle.
      It ends on every graph of bases. */
  method ComposeChain(img: Image, fs: seq<Frame>, n: nat, seen: set<nat>) returns (canvas: array?<Byte>, ghost k: nat)
    requires PixelsOk(img.format, img.width, img.height, img.data) && FramesOk(fs)
    requires LeadTo(fs, seen, n)
    ensures canvas != null <==> Rooted(fs, n)
    ensures canvas != null ==> fresh(canvas) && IsCanvas(canvas[..], img, fs, n, k)
    decreases |Numbers(fs) - seen|
  {
    hide Composed, PixelsOk, AsRgba, Size, LeadTo, IsCanvas, FramesOk, Numbers, FrameIndex, Rooted;
    if n == 0 {
      RgbaSize(img.format, img.width, img.height, img.data);
      var pixels := AsRgba(img.format, img.data);
      canvas := new Byte[|pixels|](i requires 0 <= i < |pixels| => pixels[i]);
      assert canvas[..] == pixels;
      k := 0;
      RootCanvas(img, fs);
      return;
    }
    if n in seen {
      CircleNotRooted(fs, seen, n);
      return null, 0;
    }
    if !Has(fs, n) {
      NowhereToGo(fs, n);
      return null, 0;
    }
    var f := fs[FrameIndex(fs, n)];
    NumberIn(fs, n);
    Shrinks(Numbers(fs), seen, n);
    LeadOn(fs, seen, n);
    canvas, k := ComposeChain(img, fs, f.baseFrame, seen + {n});
    ArrivesNext(fs, n);
    if canvas == null {
      return;
    }
    FramePixels(fs, n);
    RgbaSize(f.format, f.width, f.height, f.data);
    CanvasSize(canvas[..], img, fs, f.baseFrame, k);
    ghost var base := canvas[..];
    ComposeRect(canvas, img.width, img.height, AsRgba(f.format, f.data), FrameRect(f));
    k := k + 1;
    NextCanvas(base, canvas[..], img, fs, n, k - 1);
  }

  lemma NowhereToGo(fs: seq<Frame>, n: nat)
    requires n != 0 && !Has(fs, n)
    ensures !Rooted(fs, n)
  {
  }

  lemma CircleNotRooted(fs: seq<Frame>, seen: set<nat>, n: nat)
    requires LeadTo(fs, seen, n) && n in seen
    ensures !Rooted(fs, n)
  {
    forall k: nat | Arrives(fs, n, k)
      ensures false
    {
      CircleNeverArrives(fs, seen, n, k);
    }
  }

  lemma RootCanvas(img: Image, fs: seq<Frame>)
    requires PixelsOk(img.format, img.width, img.height, img.data) && FramesOk(fs)
    ensures IsCanvas(AsRgba(img.format, img.data), img, fs, 0, 0) && Rooted(fs, 0)
  {
    RgbaSize(img.format, img.width, img.height, img.data);
    assert Arrives(fs, 0, 0);
  }

  lemma CanvasSize(canvas: seq<Byte>, img: Image, fs: seq<Frame>, n: nat, k: nat)
    requires PixelsOk(img.format, img.width, img.height, img.data) && FramesOk(fs)
    requires IsCanvas(canvas, img, fs, n, k)
    ensures |canvas| == Size(img.width, img.height)
  {
  }

  lemma FramePixels(fs: seq<Frame>, n: nat)
    requires FramesOk(fs) && Has(fs, n)
    ensures var f := fs[FrameIndex(fs, n)]; PixelsOk(f.format, f.width, f.height, f.data)
  {
  }

  lemma ArrivesNext(fs: seq<Frame>, n: nat)
    requires n != 0 && Has(fs, n)
    ensures Rooted(fs, n) <==> Rooted(fs, BaseOf(fs, n))
  {
    if Rooted(fs, n) {
      var k: nat :| Arrives(fs, n, k);
      assert Arrives(fs, BaseOf(fs, n), k - 1);
    }
    if Rooted(fs, BaseOf(fs, n)) {
      var k: nat :| Arrives(fs, BaseOf(fs, n), k);
      assert Arrives(fs, n, k + 1);
    }
  }

  lemma NextCanvas(base: seq<Byte>, canvas: seq<Byte>, img: Image, fs: seq<Frame>, n: nat, k: nat)
    requires PixelsOk(img.format, img.width, img.height, img.data) && FramesOk(fs) && n != 0 && Has(fs, n)
    requires |base| == |canvas| == Size(img.width, img.height)
    requires var f := fs[FrameIndex(fs, n)];
             && |AsRgba(f.format, f.data)| == Size(f.width, f.height)
             && IsCanvas(base, img, fs, f.baseFrame, k)
             && Composed(base, canvas, img.width, img.height, AsRgba(f.format, f.data), FrameRect(f))
    ensures IsCanvas(canvas, img, fs, n, k + 1)
  {
    hide Composed, Size, AsRgba, PixelsOk, FrameIndex;
  }

  /** `composed_frame`: the canvas of frame `n`, of four bytes a pixel, or none. */
  method ComposedFrame(img: Image, fs: seq<Frame>, n: nat) returns (canvas: array?<Byte>)
    requires PixelsOk(img.format, img.width, img.height, img.data) && FramesOk(fs)
    ensures canvas != null <==> img.width > 0 && img.height > 0 && Rooted(fs, n)
    ensures canvas != null ==>
      fresh(canvas) && canvas.Length == img.width * img.height * 4 && exists k: nat :: IsCanvas(canvas[..], img, fs, n, k)
  {
    hide IsCanvas, PixelsOk;
    if img.width == 0 || img.height == 0 {
      return null;
    }
    ghost var k;
    canvas, k := ComposeChain(img, fs, n, {});
    if canvas != null {
      CanvasSize(canvas[..], img, fs, n, k);
    }
  }
}
