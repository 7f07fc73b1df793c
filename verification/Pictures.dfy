// What compositing makes of each byte, and what the image store holds after a
// command, without the helpers of either (crates/posh-term/src/graphics.rs).

module Pictures {
  import opened Wrappers
  import opened Bytes
  import opened Graphics
  import opened Compose
  import ImageStore

  // --- one pixel ---------------------------------------------------------------------

  lemma Floor(n: nat, d: nat)
    requires d > 0
    ensures n / d * d <= n < n / d * d + d
  {
  }

  /** The mean of source and destination, weighted by what each contributes, rounded
      down: `sa` of 255 for the source, and of the rest `da` for the destination. */
  lemma ChannelIs(s: Byte, d: Byte, sa: Byte, da: Byte)
    requires sa > 0 || da > 0
    ensures OutAlpha(sa, da) == 255 * sa as nat + da as nat * (255 - sa) && OutAlpha(sa, da) > 0
    ensures var v, w, n := Channel(s, d, sa, da) as nat, OutAlpha(sa, da), s as nat * (255 * sa as nat) + d as nat * (da as nat * (255 - sa));
            v * w <= n < v * w + w
  {
    AlphaBound(sa, da);
    var n := s as nat * (255 * sa as nat) + d as nat * (da as nat * (255 - sa));
    Weighted(255 * sa as nat, 0, 255 * 255, s);
    Weighted(da as nat * (255 - sa), 0, 255 * 255, d);
    Floor(n, OutAlpha(sa, da));
  }

  lemma Exact(v: nat, w: nat, m: nat)
    requires w > 0 && v * w <= m * w < v * w + w
    ensures v == m
  {
    if v < m {
      Weighted(m, v + 1, m, w);
    } else if v > m {
      Weighted(v, m + 1, v, w);
    }
  }

  /** A transparent source leaves the destination, and over a transparent destination
      the source is what there is. */
  lemma ChannelEnds(s: Byte, d: Byte, a: Byte)
    requires a > 0
    ensures Channel(s, d, 0, a) == d && Channel(s, d, a, 0) == s
  {
    ChannelIs(s, d, 0, a);
    ChannelIs(s, d, a, 0);
    Exact(Channel(s, d, 0, a), 255 * a as nat, d);
    Exact(Channel(s, d, a, 0), 255 * a as nat, s);
  }

  lemma AlphaIs(sa: Byte, da: Byte)
    ensures var a := AlphaByte(sa, da) as nat;
            255 * a <= 255 * sa as nat + da as nat * (255 - sa) < 255 * a + 255
    ensures AlphaByte(0, da) == da && AlphaByte(sa, 0) == sa && AlphaByte(sa, 255) == 255
  {
    AlphaBound(sa, da);
  }

  /** The ends of blending: nothing over something, something over nothing, an opaque
      source, and two that are transparent. */
  lemma BlendEnds(d: Px, s: Px)
    ensures s.a == 255 ==> Blend(d, s) == s
    ensures s.a == 0 && d.a > 0 ==> Blend(d, s) == d
    ensures d.a == 0 && s.a > 0 ==> Blend(d, s) == s
    ensures d.a == 0 && s.a == 0 ==> Blend(d, s) == Px(0, 0, 0, 0)
  {
    hide Channel, AlphaByte;
    AlphaIs(s.a, d.a);
    if s.a == 0 && d.a > 0 {
      ChannelEnds(s.r, d.r, d.a);
      ChannelEnds(s.g, d.g, d.a);
      ChannelEnds(s.b, d.b, d.a);
    } else if d.a == 0 && s.a > 0 {
      ChannelEnds(s.r, d.r, s.a);
      ChannelEnds(s.g, d.g, s.a);
      ChannelEnds(s.b, d.b, s.a);
    }
  }

  // --- a rectangle ---------------------------------------------------------------------

  /** The first byte of column `x` in row `y`, four bytes a pixel. */
  function Offset(w: nat, x: nat, y: nat): nat {
    4 * (y * w + x)
  }

  /** Is `(x, y)` under the rectangle, and inside the source there? */
  predicate Under(r: Rect, x: nat, y: nat) {
    && r.dx <= x < r.dx + r.w && r.dy <= y < r.dy + r.h
    && r.sx + (x - r.dx) < r.sw && r.sy + (y - r.dy) < r.sh
  }

  lemma UnderClipped(r: Rect, dw: nat, dh: nat, x: nat, y: nat)
    requires x < dw && y < dh
    ensures var c := Clipped(r, dw, dh);
            InRect(c, x, y) <==> Under(r, x, y)
    ensures var c := Clipped(r, dw, dh);
            c.sx == r.sx && c.sy == r.sy && c.dx == r.dx && c.dy == r.dy && c.sw == r.sw && c.sh == r.sh && c.replace == r.replace
  {
  }

  lemma OffsetFits(w: nat, h: nat, x: nat, y: nat)
    requires x < w && y < h
    ensures Offset(w, x, y) == At(w, x, y) && Offset(w, x, y) + 4 <= Size(w, h)
  {
    AtInside(w, h, x, y);
  }

  /** Every pixel of the destination is as it was, or under the rectangle the source's,
      or the two blended: red, green, blue and alpha in this order. */
  lemma RectPixel(was: seq<Byte>, next: seq<Byte>, dw: nat, dh: nat, src: seq<Byte>, r: Rect, x: nat, y: nat)
    requires |was| == |next| == Size(dw, dh) && |src| == Size(r.sw, r.sh) && Composed(was, next, dw, dh, src, r) && x < dw && y < dh
    ensures var i := Offset(dw, x, y);
            && i + 4 <= |next|
            && (!Under(r, x, y) ==> next[i..i + 4] == was[i..i + 4])
            && (Under(r, x, y) ==>
                  var j := Offset(r.sw, r.sx + (x - r.dx), r.sy + (y - r.dy));
                  && j + 4 <= |src|
                  && (r.replace ==> next[i..i + 4] == src[j..j + 4])
                  && (!r.replace ==>
                        var p := Blend(Px(was[i], was[i + 1], was[i + 2], was[i + 3]), Px(src[j], src[j + 1], src[j + 2], src[j + 3]));
                        next[i..i + 4] == [p.r, p.g, p.b, p.a]))
  {
    hide Blend, Size, Offset, At, RectDone;
    var c := Clipped(r, dw, dh);
    UnderClipped(r, dw, dh, x, y);
    OffsetFits(dw, dh, x, y);
    ClippedInside(r, dw, dh);
    RectPixelDone(was, next, dw, dh, src, c, x, y);
    if Under(r, x, y) {
      OffsetFits(r.sw, r.sh, r.sx + (x - r.dx), r.sy + (y - r.dy));
    }
  }

  lemma RectPixelDone(was: seq<Byte>, next: seq<Byte>, dw: nat, dh: nat, src: seq<Byte>, c: Rect, x: nat, y: nat)
    requires |was| == |next| == Size(dw, dh) && |src| == Size(c.sw, c.sh) && Fits(c, dw, dh) && x < dw && y < dh
    requires RectDone(was, next, dw, dh, src, c, c.h, 0)
    ensures PixelDone(was, next, dw, dh, src, c, c.h, 0, x, y)
  {
    hide PixelDone, Size;
    assert InBounds(dw, dh, x, y);
  }

  /** Three bytes a pixel become four, opaque. */
  lemma {:induction false} RgbaPixel(data: seq<Byte>, i: nat)
    requires 3 * i + 3 <= |data|
    ensures var out := AsRgba(RgbFormat, data);
            4 * i + 4 <= |out| && out[4 * i..4 * i + 4] == data[3 * i..3 * i + 3] + [255]
    decreases i
  {
    var out, rest := AsRgba(RgbFormat, data), AsRgba(RgbFormat, data[3..]);
    assert out == [data[0], data[1], data[2], 255] + rest;
    if i > 0 {
      RgbaPixel(data[3..], i - 1);
      assert out[4 * i..4 * i + 4] == rest[4 * (i - 1)..4 * (i - 1) + 4];
      assert data[3 * i..3 * i + 3] == data[3..][3 * (i - 1)..3 * (i - 1) + 3];
    }
  }

  // --- a frame rewritten ----------------------------------------------------------------

  function Whole(w: nat, h: nat): Rect {
    Rect(w, h, 0, 0, 0, 0, w, h, true)
  }

  lemma PixelOf(w: nat, h: nat, i: nat) returns (x: nat, y: nat)
    requires i < Size(w, h)
    ensures x < w && y < h && Offset(w, x, y) <= i < Offset(w, x, y) + 4
  {
    var p := i / 4;
    assert w > 0;
    x, y := p % w, p / w;
    Floor(p, w);
    assert p < w * h;
    if y >= h {
      Weighted(y, h, y, w);
    }
  }

  /** A whole canvas put over another is that canvas. */
  lemma WholeReplaces(was: seq<Byte>, next: seq<Byte>, w: nat, h: nat, src: seq<Byte>)
    requires |was| == |next| == |src| == Size(w, h) && Composed(was, next, w, h, src, Whole(w, h))
    ensures next == src
  {
    hide Composed, Size, Offset;
    forall i | 0 <= i < |next|
      ensures next[i] == src[i]
    {
      var x, y := PixelOf(w, h, i);
      RectPixel(was, next, w, h, src, Whole(w, h), x, y);
      var o := Offset(w, x, y);
      assert next[i] == next[o..o + 4][i - o] && src[i] == src[o..o + 4][i - o];
    }
  }

  /** After a frame was rewritten as a canvas, that canvas is what it shows. */
  lemma RewrittenShows(img: Image, fs: seq<Frame>, n: nat, canvas: seq<Byte>, shown: seq<Byte>, k: nat)
    requires ImageOk(img) && FramesOk(fs) && n != 0 && Has(fs, n) && |canvas| == Size(img.width, img.height)
    ensures var next := fs[FrameIndex(fs, n) := Recomposed(fs[FrameIndex(fs, n)], img, canvas)];
            FramesOk(next) && (IsCanvas(shown, img, next, n, k) ==> shown == canvas)
  {
    hide Composed, Size, AsRgba, PixelsOk, FrameIndex;
    var i := FrameIndex(fs, n);
    var f := Recomposed(fs[i], img, canvas);
    var next := fs[i := f];
    RewrittenOk(img, fs, i, canvas);
    RewrittenIndex(fs, n, f);
    if IsCanvas(shown, img, next, n, k) {
      assert next[i] == f && AsRgba(f.format, f.data) == canvas && FrameRect(f) == Whole(img.width, img.height);
      var base: seq<Byte> :| IsCanvas(base, img, next, f.baseFrame, k - 1) && |base| == |shown|
        && Composed(base, shown, img.width, img.height, canvas, FrameRect(f));
      WholeReplaces(base, shown, img.width, img.height, canvas);
    }
  }

  lemma RewrittenOk(img: Image, fs: seq<Frame>, i: nat, canvas: seq<Byte>)
    requires FramesOk(fs) && i < |fs| && |canvas| == Size(img.width, img.height)
    ensures FramesOk(fs[i := Recomposed(fs[i], img, canvas)])
  {
  }

  lemma RewrittenIndex(fs: seq<Frame>, n: nat, f: Frame)
    requires Has(fs, n) && f.number == n
    ensures FrameIndex(fs[FrameIndex(fs, n) := f], n) == FrameIndex(fs, n)
  {
    hide FrameIndex;
    var i := FrameIndex(fs, n);
    var next := fs[i := f];
    assert next[i].number == n && forall k :: 0 <= k < i ==> next[k] == fs[k];
  }

  /** Where a frame shows its own pixels, and where its base's. */
  lemma FramePixel(img: Image, fs: seq<Frame>, n: nat, canvas: seq<Byte>, k: nat, x: nat, y: nat) returns (base: seq<Byte>)
    requires ImageOk(img) && FramesOk(fs) && n != 0 && IsCanvas(canvas, img, fs, n, k) && x < img.width && y < img.height
    ensures k > 0 && Has(fs, n)
    ensures var f := fs[FrameIndex(fs, n)];
            && IsCanvas(base, img, fs, f.baseFrame, k - 1)
            && var i := Offset(img.width, x, y);
               && i + 4 <= |canvas| == |base|
               && (!(f.x <= x < f.x + f.width && f.y <= y < f.y + f.height) ==> canvas[i..i + 4] == base[i..i + 4])
               && (f.x <= x < f.x + f.width && f.y <= y < f.y + f.height && f.replace ==>
                     var src, j := AsRgba(f.format, f.data), Offset(f.width, x - f.x, y - f.y);
                     j + 4 <= |src| && canvas[i..i + 4] == src[j..j + 4])
  {
    hide Composed, Size, AsRgba, PixelsOk, FrameIndex, Offset;
    var f := fs[FrameIndex(fs, n)];
    var src := AsRgba(f.format, f.data);
    FramePixels(fs, n);
    RgbaSize(f.format, f.width, f.height, f.data);
    base :| IsCanvas(base, img, fs, f.baseFrame, k - 1) && |base| == |canvas|
      && Composed(base, canvas, img.width, img.height, src, FrameRect(f));
    RectPixel(base, canvas, img.width, img.height, src, FrameRect(f), x, y);
  }

  // --- the store -------------------------------------------------------------------------

  /** Images and frames count by their bytes, no more and no less, and the quota is
      320 MiB. */
  lemma CountedAs(s: Store, id: nat, image: Image, f: Frame)
    requires Valid(s)
    ensures id !in s.images ==> Inserted(s, id, image).total == s.total + |image.data|
    ensures id in s.images ==>
              FrameBytes(FramesOf(s, id)) <= s.total
              && SetFrames(s, id, FramesOf(s, id) + [f]).total == s.total + |f.data|
    ensures s.total <= 335544320 ==> Evicted(s) == s
    ensures Evicted(s).total <= 335544320
  {
    hide FrameBytes, Valid;
    EvictedKeepsNewer(s);
    FrameBytesAdd(FramesOf(s, id), f);
    if id in s.images {
      SetFramesValid(s, id, FramesOf(s, id));
    }
  }

  /** An image without an id gets the next one, and no later image without an id gets
      one that was used; a query stores nothing. */
  lemma IdsGiven(s: Store, query: bool, id0: nat, image: Image)
    requires Valid(s)
    ensures var t := OnTransmit(s, query, id0, image);
            && t.nextId == (if id0 == 0 then s.nextId + 1 else if id0 > s.nextId then id0 else s.nextId)
            && (query ==> t == s.(nextId := t.nextId))
  {
    hide Valid, Evicted, Removed;
    if !query {
      var id := if id0 == 0 then s.nextId + 1 else id0;
      var t := s.(nextId := if id < s.nextId then s.nextId else id);
      Renumbered(s, t);
      RemovedValid(t, id);
      InsertedValid(Removed(t, id), id, image);
      EvictedKeepsNewer(Inserted(Removed(t, id), id, image));
      RemovedIds(t, id);
    }
  }

  lemma RemovedIds(s: Store, id: nat)
    requires id in s.images ==> Weight(s, id) <= s.total
    ensures Removed(s, id).nextId == s.nextId && Removed(s, id).nextSeq == s.nextSeq && Removed(s, id).placements == s.placements
  {
  }

  /** Which raw pixels are accepted. */
  lemma GoodSizeIs(format: Format, w: nat, h: nat, data: seq<Byte>)
    ensures format == RgbFormat ==> (GoodSize(format, w, h, data) <==> w > 0 && h > 0 && |data| == 3 * (w * h))
    ensures format == RgbaFormat ==> (GoodSize(format, w, h, data) <==> w > 0 && h > 0 && |data| == 4 * (w * h))
  {
  }

  lemma IndexIs(fs: seq<Frame>, number: nat, i: nat)
    requires i <= |fs| && (forall k :: 0 <= k < i ==> fs[k].number != number) && (i < |fs| ==> fs[i].number == number)
    ensures FrameIndex(fs, number) == i
  {
    hide FrameIndex;
  }

  /** A frame with a number replaces the one that has it, where it is, or comes last. */
  lemma FramePlaced(fs: seq<Frame>, f: Frame, i: nat)
    requires f.number != 0 && i <= |fs| && (forall k :: 0 <= k < i ==> fs[k].number != f.number)
    requires i < |fs| ==> fs[i].number == f.number
    ensures WithFrame(fs, f) == if i < |fs| then fs[i := f] else fs + [f]
  {
    hide FrameIndex;
    IndexIs(fs, f.number, i);
  }

  /** One without a number comes last and gets the number after the greatest. */
  lemma FrameNumbered(fs: seq<Frame>, f: Frame, m: nat)
    requires f.number == 0 && (forall k :: 0 <= k < |fs| ==> fs[k].number <= m)
    requires if fs == [] then m == 0 else exists k :: 0 <= k < |fs| && fs[k].number == m
    ensures WithFrame(fs, f) == fs + [f.(number := m + 1)]
  {
    hide FrameIndex, LastNumber;
    LastIs(fs);
    assert LastNumber(fs) == m;
    IndexIs(fs, m + 1, |fs|);
  }

  lemma {:induction false} LastIs(fs: seq<Frame>)
    ensures var m := LastNumber(fs);
            && (forall k :: 0 <= k < |fs| ==> fs[k].number <= m)
            && (fs != [] ==> exists k :: 0 <= k < |fs| && fs[k].number == m) && (fs == [] ==> m == 0)
    decreases |fs|
  {
    if fs != [] {
      var n := |fs| - 1;
      LastIs(fs[..n]);
      if LastNumber(fs) == fs[n].number {
      } else {
        var k :| 0 <= k < n && fs[..n][k].number == LastNumber(fs[..n]);
        assert fs[k].number == LastNumber(fs);
      }
    }
  }

  // --- deletion ----------------------------------------------------------------------------

  /** Deleting placements takes those that are hit and no others. */
  lemma {:induction false} KeptIs(ps: seq<Placement>, hit: Placement -> bool, p: Placement)
    ensures p in Kept(ps, hit) <==> p in ps && !hit(p)
    decreases |ps|
  {
    if ps != [] {
      var n := |ps| - 1;
      KeptIs(ps[..n], hit, p);
      assert p in ps <==> p in ps[..n] || p == ps[n];
    }
  }

  /** ... and the others stay in their order: what is kept of two parts is what is kept
      of each, one behind the other. */
  lemma {:induction false} KeptInOrder(a: seq<Placement>, b: seq<Placement>, hit: Placement -> bool)
    ensures Kept(a + b, hit) == Kept(a, hit) + Kept(b, hit)
    decreases |b|
  {
    if b == [] {
      assert a + b == a;
    } else {
      var n := |b| - 1;
      KeptInOrder(a, b[..n], hit);
      assert (a + b)[..|a + b| - 1] == a + b[..n];
    }
  }

  /** A placement of the image that is hit. */
  predicate HitOn(ps: seq<Placement>, hit: Placement -> bool, id: nat, i: nat) {
    i < |ps| && hit(ps[i]) && ps[i].imageId == id
  }

  lemma {:induction false} OrphansAre(ps: seq<Placement>, hit: Placement -> bool, id: nat)
    ensures id in Orphans(ps, hit) <==> exists i: nat :: HitOn(ps, hit, id, i)
    decreases |ps|
  {
    if ps != [] {
      hide HitOn;
      var n := |ps| - 1;
      OrphansAre(ps[..n], hit, id);
      HitSnoc(ps[..n], ps[n], hit, id);
      assert ps[..n] + [ps[n]] == ps;
    }
  }

  lemma HitSnoc(ps: seq<Placement>, q: Placement, hit: Placement -> bool, id: nat)
    ensures (exists i: nat :: HitOn(ps + [q], hit, id, i)) <==> (exists i: nat :: HitOn(ps, hit, id, i)) || (hit(q) && q.imageId == id)
  {
    if i: nat :| HitOn(ps + [q], hit, id, i) {
      assert i < |ps| ==> HitOn(ps, hit, id, i);
    }
    if i: nat :| HitOn(ps, hit, id, i) {
      assert HitOn(ps + [q], hit, id, i);
    }
    if hit(q) && q.imageId == id {
      assert HitOn(ps + [q], hit, id, |ps|);
    }
  }

  /** Freeing takes the data of the images named that have no placement left, and
      nothing else. */
  lemma {:induction false} FreedIs(s: Store, ids: seq<nat>, id: nat)
    requires Valid(s)
    ensures var r := Freed(s, ids);
            && (id in r.images <==> id in s.images && (id !in ids || Placed(s.placements, id)))
            && (id in r.images ==> r.images[id] == s.images[id] && FramesOf(r, id) == FramesOf(s, id))
            && r.placements == s.placements && r.nextSeq == s.nextSeq && r.nextId == s.nextId
    decreases |ids|
  {
    hide Valid, Weight, Placed;
    if ids != [] {
      RemovedValid(s, ids[0]);
      FreedIs(if Placed(s.placements, ids[0]) then s else Removed(s, ids[0]), ids[1..], id);
      RemovedIds(s, ids[0]);
      assert id in ids <==> id == ids[0] || id in ids[1..];
    }
  }

  /** Deleting placements, all told: those hit are gone; with `free` so is the data of
      each image that lost its last one, and of no other. */
  lemma DeletedIs(s: Store, free: bool, hit: Placement -> bool, id: nat, p: Placement)
    requires Valid(s)
    ensures var t := Applied(s, DeleteWhere(free, hit));
            && (p in t.placements <==> p in s.placements && !hit(p))
            && (id in t.images <==> id in s.images && !(free && Bereft(s.placements, hit, id)))
            && (id in t.images ==> t.images[id] == s.images[id] && FramesOf(t, id) == FramesOf(s, id))
  {
    hide Valid, Kept, Orphans, Freed;
    KeptIs(s.placements, hit, p);
    OrphansAre(s.placements, hit, id);
    var u := s.(placements := Kept(s.placements, hit));
    PlacementsAside(s, u.placements);
    FreedIs(u, Orphans(s.placements, hit), id);
    PlacedIs(s.placements, hit, id);
  }

  /** The image had placements, and all of them were hit. */
  ghost predicate Bereft(ps: seq<Placement>, hit: Placement -> bool, id: nat) {
    && (exists i: nat :: HitOn(ps, hit, id, i))
    && (forall i :: 0 <= i < |ps| && ps[i].imageId == id ==> hit(ps[i]))
  }

  lemma PlacedIs(ps: seq<Placement>, hit: Placement -> bool, id: nat)
    ensures Placed(Kept(ps, hit), id) <==> exists i :: 0 <= i < |ps| && ps[i].imageId == id && !hit(ps[i])
  {
    hide Kept;
    var kept := Kept(ps, hit);
    if Placed(kept, id) {
      var i :| 0 <= i < |kept| && kept[i].imageId == id;
      KeptIs(ps, hit, kept[i]);
      var k :| 0 <= k < |ps| && ps[k] == kept[i];
      assert ps[k].imageId == id;
    }
    if i: int :| 0 <= i < |ps| && ps[i].imageId == id && !hit(ps[i]) {
      KeptIs(ps, hit, ps[i]);
      var k :| 0 <= k < |kept| && kept[k] == ps[i];
      assert kept[k].imageId == id;
    }
  }

  /** Deleting an image takes its placements, or only the one with the id given, and
      with `free` its data even if placements are left; no other image is touched, and
      if none is named nothing happens. */
  lemma ImageDeleted(s: Store, id: nat, number: nat, placementId: nat, free: bool, p: Placement, j: nat)
    requires Valid(s)
    ensures var t, named := Applied(s, DeleteImage(id, number, placementId, free)), ResolveId(s, id, number);
            && (named.None? ==> t == s)
            && (named.Some? ==>
                  && (p in t.placements <==>
                      p in s.placements && !(p.imageId == named.value && (placementId == 0 || p.placementId == placementId)))
                  && (j in t.images <==> j in s.images && !(free && j == named.value))
                  && (j in t.images ==> t.images[j] == s.images[j] && FramesOf(t, j) == FramesOf(s, j)))
  {
    hide Kept, Valid, Weight;
    var named := ResolveId(s, id, number);
    if named.Some? {
      var i := named.value;
      var hit := (q: Placement) => q.imageId == i && (placementId == 0 || q.placementId == placementId);
      KeptIs(s.placements, hit, p);
      PlacementsAside(s, Kept(s.placements, hit));
      RemovedValid(s.(placements := Kept(s.placements, hit)), i);
    }
  }

  /** Deleting all takes every placement, and with `free` everything that counts. */
  lemma AllDeleted(s: Store, free: bool)
    requires Valid(s)
    ensures var t := Applied(s, DeleteAll(free));
            && t.placements == [] && t.nextId == s.nextId && t.nextSeq == s.nextSeq
            && (free ==> t.images == map[] && t.frames == map[] && t.animations == map[] && t.total == 0)
            && (!free ==> t == s.(placements := []))
  {
  }

  /** What is named: an id names itself if it is stored, and only without an id a number
      names the latest image that has it. */
  lemma NamedIs(s: Store, id: nat, number: nat, i: nat)
    requires Ordered(s)
    ensures id != 0 ==> (ResolveId(s, id, number) == Some(i) <==> i == id && id in s.images)
    ensures id == 0 && number == 0 ==> ResolveId(s, id, number) == None
    ensures id == 0 && number != 0 ==>
              (ResolveId(s, id, number) == Some(i) <==>
               i in s.images && s.images[i].number == number
               && forall j :: j in s.images && j != i && s.images[j].number == number ==> s.images[j].order < s.images[i].order)
  {
    if id == 0 && number != 0 {
      if i in s.images && s.images[i].number == number && forall j :: j in s.images && j != i && s.images[j].number == number ==> s.images[j].order < s.images[i].order {
        assert IsLatest(s, number, i);
        ImageStore.ResolvedIs(s, number, i);
      }
    }
  }
}
