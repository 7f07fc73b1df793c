// The image store as a program: the methods of `GraphicsState` in
// crates/posh-term/src/graphics.rs, in place on its maps.

module ImageStore {
  import opened Wrappers
  import opened Bytes
  import opened Graphics
  import Compose

  lemma LatestUnique(s: Store, number: nat, i: nat, j: nat)
    requires Ordered(s) && IsLatest(s, number, i) && IsLatest(s, number, j)
    ensures i == j
  {
  }

  lemma ResolvedIs(s: Store, number: nat, i: nat)
    requires Ordered(s) && number != 0 && IsLatest(s, number, i)
    ensures ResolveId(s, 0, number) == Some(i)
  {
    LatestUnique(s, number, i, ResolveId(s, 0, number).value);
  }

  /** The oldest of the images. */
  method OldestOf(images: map<nat, Image>) returns (id: nat)
    requires images != map[]
    ensures id in images && forall j :: j in images ==> images[id].order <= images[j].order
  {
    id :| id in images;
    var rest := images.Keys - {id};
    while rest != {}
      invariant rest <= images.Keys && id in images
      invariant forall j :: j in images && j !in rest ==> images[id].order <= images[j].order
      decreases |rest|
    {
      var k: nat :| k in rest;
      if images[k].order < images[id].order {
        id := k;
      }
      rest := rest - {k};
    }
  }

  /** The latest image with a number, if there is one. */
  method LatestWith(images: map<nat, Image>, number: nat) returns (r: Option<nat>)
    ensures r.Some? ==> r.value in images && images[r.value].number == number
    ensures forall j :: j in images && images[j].number == number ==> r.Some? && images[j].order <= images[r.value].order
  {
    r := None;
    var rest := images.Keys;
    while rest != {}
      invariant rest <= images.Keys
      invariant r.Some? ==> r.value in images && images[r.value].number == number
      invariant forall j :: j in images && j !in rest && images[j].number == number ==>
        r.Some? && images[j].order <= images[r.value].order
      decreases |rest|
    {
      var k: nat :| k in rest;
      if images[k].number == number && (r.None? || images[r.value].order < images[k].order) {
        r := Some(k);
      }
      rest := rest - {k};
    }
  }

  /** What `a=c` asks for: source and target frame, where the rectangle is in each,
      its size (0 for the whole image's), and whether it replaces or blends. */
  datatype Composing = Composing(source: nat, target: nat, sx: nat, sy: nat, dx: nat, dy: nat, w: nat, h: nat, replace: bool)

  datatype Reply = Done | NoSuchImage | NoSuchFrame | NotComposed

  function Asked(img: Image, c: Composing): Compose.Rect {
    Compose.Rect(img.width, img.height, c.sx, c.sy, c.dx, c.dy,
                 if c.w != 0 then c.w else img.width, if c.h != 0 then c.h else img.height, c.replace)
  }

  ghost predicate CanvasOf(canvas: seq<Byte>, img: Image, fs: seq<Frame>, n: nat)
    requires ImageOk(img) && FramesOk(fs)
  {
    |canvas| == Size(img.width, img.height) && exists k: nat :: Compose.IsCanvas(canvas, img, fs, n, k)
  }

  /** The source frame's canvas composed onto the target frame's. */
  ghost predicate Overlaid(canvas: seq<Byte>, img: Image, fs: seq<Frame>, c: Composing)
    requires ImageOk(img) && FramesOk(fs)
  {
    |canvas| == Size(img.width, img.height) &&
    exists src: seq<Byte>, dst: seq<Byte> ::
      CanvasOf(src, img, fs, c.source) && CanvasOf(dst, img, fs, c.target) &&
      Compose.Composed(dst, canvas, img.width, img.height, src, Asked(img, c))
  }

  predicate Named(fs: seq<Frame>, n: nat) {
    n != 0 && Compose.Has(fs, n)
  }

  ghost predicate Composable(img: Image, fs: seq<Frame>, n: nat) {
    img.width > 0 && img.height > 0 && Compose.Rooted(fs, n)
  }

  lemma StoredOk(s: Store, id: nat)
    requires AllPixels(s) && id in s.images
    ensures ImageOk(s.images[id]) && FramesOk(FramesOf(s, id))
  {
  }

  /** The reply to a compose command, and its effect. */
  ghost predicate ComposeReply(s: Store, id: nat, number: nat, c: Composing, r: Reply, t: Store)
    requires Valid(s) && AllPixels(s)
  {
    match ResolveId(s, id, number)
    case None => r == NoSuchImage && t == s
    case Some(i) =>
      StoredOk(s, i);
      var img, fs := s.images[i], FramesOf(s, i);
      if !Named(fs, c.target) || !Named(fs, c.source) then r == NoSuchFrame && t == s
      else if !Composable(img, fs, c.source) || !Composable(img, fs, c.target) then r == NotComposed && t == s
      else r == Done && exists canvas: seq<Byte> :: Overlaid(canvas, img, fs, c) && Rewrites(s, id, number, c.target, canvas, t)
  }

  /** The target frame rewritten as that canvas, which has the image's size. */
  ghost predicate Rewrites(s: Store, id: nat, number: nat, n: nat, canvas: seq<Byte>, t: Store)
    requires Valid(s)
  {
    Decoded(s, Command.Recompose(id, number, n, canvas)) && t == Applied(s, Command.Recompose(id, number, n, canvas))
  }

  /** The composed canvas, if both frames have one. */
  method ComposedOnto(img: Image, fs: seq<Frame>, c: Composing) returns (canvas: Option<seq<Byte>>)
    requires ImageOk(img) && FramesOk(fs)
    ensures canvas.Some? <==> Composable(img, fs, c.source) && Composable(img, fs, c.target)
    ensures canvas.Some? ==> Overlaid(canvas.value, img, fs, c) && |canvas.value| == Size(img.width, img.height)
  {
    hide Compose.IsCanvas, Compose.Composed, Compose.Rooted, FramesOk, PixelsOk;
    var src := Compose.ComposedFrame(img, fs, c.source);
    var dst := Compose.ComposedFrame(img, fs, c.target);
    if src == null || dst == null {
      return None;
    }
    ghost var was := dst[..];
    assert CanvasOf(src[..], img, fs, c.source) && CanvasOf(was, img, fs, c.target);
    Compose.ComposeRect(dst, img.width, img.height, src[..], Asked(img, c));
    return Some(dst[..]);
  }

  class GraphicsState {
    var images: map<nat, Image>
    var placements: seq<Placement>
    var frames: map<nat, seq<Frame>>
    var animations: map<nat, Animation>
    var totalBytes: nat
    var nextSeq: nat
    var nextId: nat

    ghost function Value(): Store
      reads this
    {
      Store(images, placements, frames, animations, totalBytes, nextSeq, nextId)
    }

    constructor ()
      ensures Value() == NOTHING && Valid(Value())
    {
      images, placements, frames, animations := map[], [], map[], map[];
      totalBytes, nextSeq, nextId := 0, 0, 0;
      EmptyValid(NOTHING);
    }

    /** Uncount the bytes of frames that are going. */
    method UncountFrames(gone: seq<Frame>)
      requires FrameBytes(gone) <= totalBytes
      modifies `totalBytes
      ensures totalBytes == old(totalBytes) - FrameBytes(gone)
    {
      var i := |gone|;
      assert gone[..i] == gone;
      while i > 0
        invariant 0 <= i <= |gone|
        invariant totalBytes == old(totalBytes) - FrameBytes(gone) + FrameBytes(gone[..i])
      {
        assert gone[..i][..i - 1] == gone[..i - 1];
        totalBytes := totalBytes - |gone[i - 1].data|;
        i := i - 1;
      }
      assert gone[..0] == [];
    }

    /** Drop an image's pixels, frames and animation. */
    method RemoveImageData(id: nat)
      requires Valid(Value())
      modifies `images, `frames, `animations, `totalBytes
      ensures id in old(images) ==> Weight(old(Value()), id) <= old(totalBytes)
      ensures Value() == Removed(old(Value()), id)
      ensures Valid(Value()) && id !in images
    {
      hide SumOf, Ordered, Weights, FrameBytes;
      NoFrames();
      RemovedValid(Value(), id);
      assert id !in images ==> frames - {id} == frames && animations - {id} == animations && images - {id} == images;
      if id in images {
        totalBytes := totalBytes - |images[id].data|;
        images := images - {id};
      }
      UncountFrames(if id in frames then frames[id] else []);
      frames := frames - {id};
      animations := animations - {id};
    }

    /** Keep the placements of other images. */
    method RetainOthers(id: nat)
      modifies `placements
      ensures placements == WithoutImage(old(placements), id)
    {
      var ps, i := placements, 0;
      var kept: seq<Placement> := [];
      while i < |ps|
        invariant i <= |ps| && kept == WithoutImage(ps[..i], id)
      {
        assert ps[..i + 1][..i] == ps[..i];
        if ps[i].imageId != id {
          kept := kept + [ps[i]];
        }
        i := i + 1;
      }
      assert ps[..i] == ps;
      placements := kept;
    }

    /** Evict the oldest images until the rest fits the quota. */
    method EnforceQuota()
      requires Valid(Value())
      modifies this
      ensures Value() == Evicted(old(Value())) && Valid(Value())
      ensures totalBytes <= QUOTA_BYTES
    {
      hide Valid, SumOf, Weight, WithoutImage, Removed;
      ghost var goal := Evicted(Value());
      EvictedKeepsNewer(Value());
      while totalBytes > QUOTA_BYTES && images != map[]
        invariant Valid(Value()) && Evicted(Value()) == goal
        decreases |images|
      {
        ghost var s := Value();
        var oldest := OldestOf(images);
        OldestIs(s, oldest);
        EvictOneValid(s);
        RemoveImageData(oldest);
        RetainOthers(oldest);
      }
    }

    /** The image a command names. */
    method Resolve(id: nat, number: nat) returns (r: Option<nat>)
      requires Valid(Value())
      ensures r == ResolveId(Value(), id, number)
    {
      hide SumOf, Weights;
      if id != 0 {
        return if id in images then Some(id) else None;
      }
      if number == 0 {
        return None;
      }
      r := LatestWith(images, number);
      if r.Some? {
        ResolvedIs(Value(), number, r.value);
      }
    }

    /** Add a new image, the newest. */
    method InsertImage(id: nat, image: Image)
      requires Valid(Value()) && id !in images
      modifies this
      ensures Value() == Inserted(old(Value()), id, image) && Valid(Value())
    {
      hide Valid;
      InsertedValid(Value(), id, image);
      totalBytes := totalBytes + |image.data|;
      nextSeq := nextSeq + 1;
      images := images[id := image.(order := nextSeq)];
    }

    /** Store a transmitted image, its payload decoded. */
    method Transmit(query: bool, id0: nat, image: Image)
      requires Valid(Value())
      modifies this
      ensures Value() == OnTransmit(old(Value()), query, id0, image) && Valid(Value())
    {
      hide Valid, Weight, Evicted, Removed, Inserted;
      ghost var s := Value();
      var id := id0;
      if id == 0 {
        nextId := nextId + 1;
        id := nextId;
      } else if id > nextId {
        nextId := id;
      }
      Renumbered(s, Value());
      if query {
        return;
      }
      RemovedValid(Value(), id);
      RemoveImageData(id);
      InsertImage(id, image);
      EnforceQuota();
    }

    /** Put a frame over the one at `i`, or behind the last. */
    method PutFrame(id: nat, fs: seq<Frame>, i: nat, g: Frame)
      requires Valid(Value()) && id in images && fs == FramesOf(Value(), id) && i <= |fs|
      requires FrameBytes(fs) <= totalBytes
      modifies `frames, `totalBytes
      ensures var s, next := old(Value()), if i < |fs| then fs[i := g] else fs + [g];
              FrameBytes(FramesOf(s, id)) <= s.total + FrameBytes(next) && Value() == SetFrames(s, id, next)
    {
      hide Valid, FrameBytes;
      totalBytes := totalBytes + |g.data|;
      if i < |fs| {
        FrameBytesSet(fs, i, g);
        totalBytes := totalBytes - |fs[i].data|;
        frames := frames[id := fs[i := g]];
      } else {
        FrameBytesAdd(fs, g);
        frames := frames[id := fs + [g]];
      }
    }

    /** Store one animation frame: edit the one with its number, else append. */
    method StoreFrame(id: nat, f: Frame)
      requires Valid(Value()) && id in images
      modifies this
      ensures Value() == OnFrames(old(Value()), id, WithFrame(FramesOf(old(Value()), id), f)) && Valid(Value())
    {
      hide Valid, SumOf, Evicted, FrameBytes, SetFrames;
      ghost var s := Value();
      var fs := if id in frames then frames[id] else [];
      var g := if f.number != 0 then f else f.(number := LastNumber(fs) + 1);
      SetFramesValid(s, id, WithFrame(fs, f));
      SetFramesBound(s, id);
      PutFrame(id, fs, FrameIndex(fs, g.number), g);
      EnforceQuota();
    }

    /** Rewrite a frame as a whole canvas. */
    method Recompose(id: nat, number: nat, canvas: seq<Byte>)
      requires Valid(Value()) && id in images && id in frames && FrameIndex(frames[id], number) < |frames[id]|
      modifies this
      ensures var fs := FramesOf(old(Value()), id);
              var k := FrameIndex(fs, number);
              k < |fs| && Value() == OnFrames(old(Value()), id, fs[k := Recomposed(fs[k], old(images[id]), canvas)])
      ensures Valid(Value())
    {
      hide Valid, SumOf, Evicted;
      ghost var s := Value();
      var fs := frames[id];
      var k := FrameIndex(fs, number);
      var f := Recomposed(fs[k], images[id], canvas);
      SetFramesValid(s, id, fs[k := f]);
      FrameBytesSet(fs, k, f);
      SetFramesBound(s, id);
      totalBytes := totalBytes - |fs[k].data| + |canvas|;
      frames := frames[id := fs[k := f]];
      assert Value() == SetFrames(s, id, fs[k := f]);
      EnforceQuota();
    }

    /** `compose`: a rectangle of one frame onto another, which becomes a canvas of
        its own. Nothing changes unless both frames are there and have a canvas. */
    method ComposeFrames(id: nat, number: nat, c: Composing) returns (r: Reply)
      requires Valid(Value()) && AllPixels(Value())
      modifies this
      ensures ComposeReply(old(Value()), id, number, c, r, Value())
      ensures Valid(Value()) && AllPixels(Value())
    {
      hide Valid, AllPixels, Overlaid, Composable, OnFrames, ImageOk, FramesOk, ResolveId;
      ghost var s := Value();
      var found := Resolve(id, number);
      if found.None? {
        return NoSuchImage;
      }
      var i := found.value;
      var img, fs := images[i], if i in frames then frames[i] else [];
      StoredOk(s, i);
      if !Named(fs, c.target) || !Named(fs, c.source) {
        return NoSuchFrame;
      }
      var canvas := ComposedOnto(img, fs, c);
      if canvas.None? {
        return NotComposed;
      }
      Recompose(i, c.target, canvas.value);
      assert Rewrites(s, id, number, c.target, canvas.value, Value());
      AppliedPixels(s, Command.Recompose(id, number, c.target, canvas.value));
      return Done;
    }

    /** Remove the placements hit; with `free`, also the data of every image that
        this left without one. */
    method DeletePlacements(free: bool, hit: Placement -> bool)
      requires Valid(Value())
      modifies this
      ensures Value() == Applied(old(Value()), DeleteWhere(free, hit)) && Valid(Value())
    {
      hide Valid, Freed, Removed;
      ghost var s := Value();
      var ps, i := placements, 0;
      var touched: seq<nat>, kept: seq<Placement> := [], [];
      while i < |ps|
        invariant i <= |ps| && kept == Kept(ps[..i], hit) && touched == Orphans(ps[..i], hit) && Value() == s
      {
        assert ps[..i + 1][..i] == ps[..i];
        if hit(ps[i]) {
          touched := touched + [ps[i].imageId];
        } else {
          kept := kept + [ps[i]];
        }
        i := i + 1;
      }
      assert ps[..i] == ps;
      PlacementsAside(s, kept);
      placements := kept;
      if free {
        FreeOrphans(touched);
      }
    }

    method FreeOrphans(ids: seq<nat>)
      requires Valid(Value())
      modifies this
      ensures Value() == Freed(old(Value()), ids) && Valid(Value())
    {
      hide Valid, Removed, Placed;
      ghost var goal := Freed(Value(), ids);
      var i := 0;
      assert ids[0..] == ids;
      while i < |ids|
        invariant i <= |ids| && Valid(Value()) && Freed(Value(), ids[i..]) == goal
      {
        RemovedValid(Value(), ids[i]);
        assert ids[i..][1..] == ids[i + 1..];
        if !Placed(placements, ids[i]) {
          RemoveImageData(ids[i]);
        }
        i := i + 1;
      }
    }
  }

  lemma OldestIs(s: Store, id: nat)
    requires Valid(s) && IsOldest(s, id)
    ensures s.images != map[] && Oldest(s) == id
  {
    OldestUnique(s, id);
  }

  lemma SetFramesBound(s: Store, id: nat)
    requires Valid(s) && id in s.images
    ensures FrameBytes(FramesOf(s, id)) <= s.total
  {
    WeightBound(s, id);
  }
}
