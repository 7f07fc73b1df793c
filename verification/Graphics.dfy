// The image store of the kitty graphics protocol (crates/posh-term/src/
// graphics.rs): what is counted against the quota, and what is evicted.

module Graphics {
  import opened Wrappers
  import opened Bytes

  const QUOTA_BYTES := 320 * 1024 * 1024

  datatype Format = RgbFormat | RgbaFormat | PngFormat

  datatype Image = Image(number: nat, format: Format, width: nat, height: nat, data: seq<Byte>, order: nat)

  datatype Frame = Frame(number: nat, gap: int, baseFrame: nat, x: nat, y: nat, format: Format,
                         width: nat, height: nat, data: seq<Byte>, replace: bool)

  datatype Animation = Animation(state: nat, loops: nat, currentFrame: nat)

  datatype Placement = Placement(imageId: nat, placementId: nat, row: nat, col: nat, z: int)

  datatype Store = Store(
    images: map<nat, Image>, placements: seq<Placement>, frames: map<nat, seq<Frame>>,
    animations: map<nat, Animation>, total: nat, nextSeq: nat, nextId: nat)

  const NOTHING := Store(map[], [], map[], map[], 0, 0, 0)

  // --- counting ------------------------------------------------------------------------

  ghost function SumOf(m: map<nat, nat>): nat
    decreases |m|
  {
    if m == map[] then 0 else var k: nat :| k in m; m[k] + SumOf(m - {k})
  }

  /** The sum does not depend on the order of counting. */
  lemma {:induction false} SumSplit(m: map<nat, nat>, k: nat)
    requires k in m
    ensures SumOf(m) == m[k] + SumOf(m - {k})
    decreases |m|
  {
    var j: nat :| j in m && SumOf(m) == m[j] + SumOf(m - {j});
    if j != k {
      SumSplit(m - {j}, k);
      SumSplit(m - {k}, j);
      assert (m - {j}) - {k} == (m - {k}) - {j};
    }
  }

  lemma SumSet(m: map<nat, nat>, k: nat, v: nat)
    ensures SumOf(m[k := v]) == v + SumOf(m - {k})
  {
    SumSplit(m[k := v], k);
    assert m[k := v] - {k} == m - {k};
  }

  lemma SumNone()
    ensures SumOf(map[]) == 0
  {
  }

  function FrameBytes(fs: seq<Frame>): nat {
    if fs == [] then 0 else FrameBytes(fs[..|fs| - 1]) + |fs[|fs| - 1].data|
  }

  lemma {:induction false} FrameBytesSet(fs: seq<Frame>, i: nat, f: Frame)
    requires i < |fs|
    ensures FrameBytes(fs[i := f]) == FrameBytes(fs) - |fs[i].data| + |f.data|
    ensures |fs[i].data| <= FrameBytes(fs)
    decreases |fs|
  {
    var n := |fs| - 1;
    if i < n {
      FrameBytesSet(fs[..n], i, f);
      assert fs[i := f][..n] == fs[..n][i := f];
    } else {
      assert fs[i := f][..n] == fs[..n];
    }
  }

  lemma FrameBytesAdd(fs: seq<Frame>, f: Frame)
    ensures FrameBytes(fs + [f]) == FrameBytes(fs) + |f.data|
  {
    assert (fs + [f])[..|fs|] == fs;
  }

  function FramesOf(s: Store, id: nat): seq<Frame> {
    if id in s.frames then s.frames[id] else []
  }

  /** Bytes that an image and its frames take. */
  function Weight(s: Store, id: nat): nat
    requires id in s.images
  {
    |s.images[id].data| + FrameBytes(FramesOf(s, id))
  }

  function Weights(s: Store): map<nat, nat> {
    map id | id in s.images :: Weight(s, id)
  }

  // --- what every command keeps -----------------------------------------------------------

  /** No two images were stored at the same time. */
  predicate Ordered(s: Store) {
    && (forall i :: i in s.images ==> s.images[i].order <= s.nextSeq)
    && (forall i, j :: i in s.images && j in s.images && i != j ==> s.images[i].order != s.images[j].order)
  }

  /** Frames and animations belong to stored images only. */
  predicate Belongs(s: Store) {
    s.frames.Keys <= s.images.Keys && s.animations.Keys <= s.images.Keys
  }

  /** Frames and animations belong to stored images only, and the running total is
      the bytes of all images and frames. */
  ghost predicate Valid(s: Store) {
    && Ordered(s)
    && Belongs(s)
    && s.total == SumOf(Weights(s))
  }

  // --- removal and eviction ---------------------------------------------------------------------

  /** `remove_image_data`. */
  function Removed(s: Store, id: nat): (r: Store)
    requires id in s.images ==> Weight(s, id) <= s.total
  {
    if id in s.images then
      s.(images := s.images - {id}, frames := s.frames - {id}, animations := s.animations - {id},
      total := s.total - Weight(s, id))
    else s
  }

  lemma WeightBound(s: Store, id: nat)
    requires Valid(s) && id in s.images
    ensures Weight(s, id) <= s.total
  {
    SumSplit(Weights(s), id);
  }

  lemma RemovedWeights(s: Store, id: nat)
    requires id in s.images && Weight(s, id) <= s.total
    ensures Weights(Removed(s, id)) == Weights(s) - {id}
  {
    hide FrameBytes;
  }

  lemma RemovedOrdered(s: Store, id: nat)
    requires Ordered(s) && id in s.images && Weight(s, id) <= s.total
    ensures Ordered(Removed(s, id))
  {
    hide Weight;
  }

  lemma RemovedValid(s: Store, id: nat)
    requires Valid(s)
    ensures id in s.images ==> Weight(s, id) <= s.total
    ensures Valid(Removed(s, id)) && id !in Removed(s, id).images
    ensures Weights(Removed(s, id)) == Weights(s) - {id}
  {
    hide SumOf, Weight, Ordered;
    if id in s.images {
      WeightBound(s, id);
      RemovedOrdered(s, id);
      RemovedWeights(s, id);
      SumSplit(Weights(s), id);
    } else {
      assert Weights(s) - {id} == Weights(s);
    }
  }

  /** Placements do not count. */
  lemma PlacementsAside(s: Store, ps: seq<Placement>)
    ensures Weights(s.(placements := ps)) == Weights(s)
    ensures Valid(s) ==> Valid(s.(placements := ps))
  {
    hide SumOf, FrameBytes;
    assert Weights(s.(placements := ps)) == Weights(s);
  }

  predicate IsOldest(s: Store, id: nat) {
    id in s.images && forall j :: j in s.images ==> s.images[id].order <= s.images[j].order
  }

  lemma {:induction false} SomeOldest(images: map<nat, Image>) returns (id: nat)
    requires images != map[]
    ensures id in images && forall j :: j in images ==> images[id].order <= images[j].order
    decreases |images|
  {
    var k: nat :| k in images;
    id := k;
    if images - {k} != map[] {
      var o := SomeOldest(images - {k});
      if images[o].order < images[k].order {
        id := o;
      }
    }
    assert forall j :: j in images && j != k ==> j in images - {k};
  }

  ghost function Oldest(s: Store): (id: nat)
    requires s.images != map[]
    ensures IsOldest(s, id)
  {
    assert exists id: nat :: IsOldest(s, id) by {
      var id := SomeOldest(s.images);
      assert IsOldest(s, id);
    }
    var id: nat :| IsOldest(s, id);
    id
  }

  lemma OldestUnique(s: Store, id: nat)
    requires Ordered(s) && IsOldest(s, id)
    ensures s.images != map[] && Oldest(s) == id
  {
    assert id in s.images;
  }

  function WithoutImage(ps: seq<Placement>, id: nat): (r: seq<Placement>)
    ensures |r| <= |ps| && forall p :: p in r <==> p in ps && p.imageId != id
  {
    if ps == [] then [] else
      var p := ps[|ps| - 1];
      WithoutImage(ps[..|ps| - 1], id) + if p.imageId != id then [p] else []
  }

  ghost function EvictOne(s: Store): Store
    requires Valid(s) && s.images != map[]
  {
    var id := Oldest(s);
    RemovedValid(s, id);
    Removed(s, id).(placements := WithoutImage(s.placements, id))
  }

  /** `enforce_quota`: the oldest images go until the rest fits. */
  ghost function Evicted(s: Store): Store
    requires Valid(s)
    decreases |s.images|
  {
    if s.total <= QUOTA_BYTES || s.images == map[] then s else
      EvictOneValid(s);
      Evicted(EvictOne(s))
  }

  lemma EvictOneValid(s: Store)
    requires Valid(s) && s.images != map[]
    ensures Valid(EvictOne(s)) && |EvictOne(s).images| < |s.images|
  {
    hide SumOf, Weight, Weights, Ordered, WithoutImage, Valid;
    var id := Oldest(s);
    RemovedValid(s, id);
    PlacementsAside(Removed(s, id), WithoutImage(s.placements, id));
    assert s.images.Keys == Removed(s, id).images.Keys + {id};
  }

  /** Placements go only with the image they show. */
  ghost predicate PlacementsKept(s: Store, r: Store) {
    forall p :: p in r.placements <==> p in s.placements && (p.imageId in s.images ==> p.imageId in r.images)
  }

  /** What is kept: everything stored after a point in time, unchanged. */
  ghost predicate NewerKept(s: Store, r: Store) {
    && PlacementsKept(s, r)
    && (forall id :: id in r.images ==> id in s.images && r.images[id] == s.images[id])
    && (forall id :: id in r.frames <==> id in r.images && id in s.frames)
    && (forall id :: id in r.frames ==> r.frames[id] == s.frames[id])
    && (forall id :: id in r.animations <==> id in r.images && id in s.animations)
    && (forall id :: id in r.animations ==> r.animations[id] == s.animations[id])
    && (forall i, j :: i in r.images && j in s.images && j !in r.images ==> s.images[j].order < s.images[i].order)
    && r.nextSeq == s.nextSeq && r.nextId == s.nextId
  }

  /** Eviction fits the quota, takes the oldest images first, with their frames
      and placements, and touches nothing else. */
  lemma {:induction false} EvictedKeepsNewer(s: Store)
    requires Valid(s)
    ensures Valid(Evicted(s)) && Evicted(s).total <= QUOTA_BYTES && NewerKept(s, Evicted(s))
    ensures s.total <= QUOTA_BYTES ==> Evicted(s) == s
    decreases |s.images|
  {
    if s.images == map[] {
      assert Weights(s) == map[];
      SumNone();
    } else if s.total > QUOTA_BYTES {
      EvictOneValid(s);
      EvictedKeepsNewer(EvictOne(s));
      EvictOneKeeps(s);
      NewerKeptTrans(s, EvictOne(s), Evicted(EvictOne(s)));
    }
  }

  lemma EvictOneKeeps(s: Store)
    requires Valid(s) && s.images != map[]
    ensures NewerKept(s, EvictOne(s))
  {
    hide SumOf, Weight, Weights, Ordered, WithoutImage, NewerKept, Belongs;
    RemovedValid(s, Oldest(s));
    OldestFirst(s);
    DropKeeps(s, Oldest(s), EvictOne(s).total);
  }

  lemma DropKeeps(s: Store, id: nat, total: nat)
    requires id in s.images && Belongs(s)
    requires forall j :: j in s.images && j != id ==> s.images[id].order < s.images[j].order
    ensures NewerKept(s, s.(images := s.images - {id}, frames := s.frames - {id}, animations := s.animations - {id},
                            total := total, placements := WithoutImage(s.placements, id)))
  {
    hide WithoutImage;
  }

  lemma OldestFirst(s: Store)
    requires Valid(s) && s.images != map[]
    ensures forall j :: j in s.images && j != Oldest(s) ==> s.images[Oldest(s)].order < s.images[j].order
  {
    hide SumOf, Weights;
  }

  lemma NewerKeptTrans(a: Store, b: Store, c: Store)
    requires NewerKept(a, b) && NewerKept(b, c)
    ensures NewerKept(a, c)
  {
  }

  lemma EvictOneWeights(s: Store)
    requires Valid(s) && s.images != map[]
    ensures var t, o := EvictOne(s), Oldest(s);
            && t.total + Weight(s, o) == s.total
            && t.images == s.images - {o}
            && forall j :: j in t.images ==> Weight(t, j) == Weight(s, j)
  {
    hide SumOf, Ordered, WithoutImage, FrameBytes;
    RemovedValid(s, Oldest(s));
  }

  lemma Overfull(s: Store)
    requires Valid(s) && s.total > QUOTA_BYTES
    ensures s.images != map[]
  {
    SumNone();
    assert s.images == map[] ==> Weights(s) == map[];
  }

  /** No image is evicted needlessly: with the newest evicted one back, the store
      would still be over the quota, and every other evicted one is older. */
  lemma {:induction false} EvictedMinimal(s: Store) returns (j: nat)
    requires Valid(s) && s.total > QUOTA_BYTES
    ensures var r := Evicted(s);
            && j in s.images && j !in r.images && r.total + Weight(s, j) > QUOTA_BYTES
            && forall i :: i in s.images && i !in r.images ==> s.images[i].order <= s.images[j].order
    decreases |s.images|
  {
    hide Valid, SumOf, Weight, Weights, Ordered, Oldest, EvictOne;
    Overfull(s);
    EvictOneValid(s);
    EvictOneWeights(s);
    OldestFirst(s);
    var t := EvictOne(s);
    EvictedKeepsNewer(t);
    if t.total <= QUOTA_BYTES {
      j := Oldest(s);
    } else {
      j := EvictedMinimal(t);
    }
  }

  predicate IsNewest(s: Store, id: nat) {
    id in s.images && forall j :: j in s.images ==> s.images[j].order <= s.images[id].order
  }

  /** The newest image stays if it fits by itself. */
  lemma {:induction false} NewestStays(s: Store, id: nat)
    requires Valid(s) && IsNewest(s, id) && Weight(s, id) <= QUOTA_BYTES
    ensures id in Evicted(s).images && Evicted(s).images[id] == s.images[id]
    decreases |s.images|
  {
    hide Valid, SumOf, Weight, Weights, Ordered, Oldest, EvictOne;
    if s.total > QUOTA_BYTES {
      EvictOneValid(s);
      EvictOneWeights(s);
      OldestFirst(s);
      if Oldest(s) == id {
        OnlyOne(s, id);
      }
      NewestStays(EvictOne(s), id);
    }
    EvictedKeepsNewer(s);
  }

  lemma OnlyOne(s: Store, id: nat)
    requires Valid(s) && id in s.images && forall j :: j in s.images ==> j == id
    ensures s.total == Weight(s, id)
  {
    SumSplit(Weights(s), id);
    assert Weights(s) - {id} == map[];
    SumNone();
  }

  // --- commands ------------------------------------------------------------------------------

  /** One graphics command, its payload decoded. */
  datatype Command =
    | Transmit(query: bool, id: nat, number: nat, format: Format, width: nat, height: nat, data: seq<Byte>)
    | StoreFrame(id: nat, number: nat, frame: Frame)
    | Recompose(id: nat, number: nat, frameNumber: nat, canvas: seq<Byte>)
    | Animate(id: nat, number: nat, animation: Animation)
    | Put(placement: Placement)
    | DeleteAll(free: bool)
    | DeleteImage(id: nat, number: nat, placementId: nat, free: bool)
    | DeleteWhere(free: bool, hit: Placement -> bool)
    | Reset

  predicate IsLatest(s: Store, number: nat, id: nat) {
    && id in s.images && s.images[id].number == number
    && forall j :: j in s.images && s.images[j].number == number ==> s.images[j].order <= s.images[id].order
  }

  /** The image a command names: by id, else the latest with its number. */
  ghost function ResolveId(s: Store, id: nat, number: nat): (r: Option<nat>)
    ensures r.Some? ==> r.value in s.images
  {
    if id != 0 then if id in s.images then Some(id) else None
    else if number != 0 && exists i: nat :: IsLatest(s, number, i) then
      var i: nat :| IsLatest(s, number, i); Some(i)
    else None
  }

  /** Raw pixels must be as many as the dimensions say; PNG data was checked when
      it was decoded. */
  predicate GoodSize(format: Format, width: nat, height: nat, data: seq<Byte>) {
    format.PngFormat? ||
    (width > 0 && height > 0 && |data| == width * height * if format.RgbFormat? then 3 else 4)
  }

  /** `finish_transmission`, from the decoded payload on. */
  ghost function OnTransmit(s: Store, query: bool, id0: nat, image: Image): Store
    requires Valid(s)
  {
    var id := if id0 == 0 then s.nextId + 1 else id0;
    var t := s.(nextId := if id < s.nextId then s.nextId else id);
    if query then t else
      Renumbered(s, t);
      RemovedValid(t, id);
      InsertedValid(Removed(t, id), id, image);
      Evicted(Inserted(Removed(t, id), id, image))
  }

  /** Counters of ids and of time do not count against the quota. */
  lemma Renumbered(s: Store, t: Store)
    requires Valid(s) && t == s.(nextId := t.nextId)
    ensures Valid(t)
  {
    assert Weights(t) == Weights(s);
  }

  function Inserted(r: Store, id: nat, image: Image): Store {
    r.(total := r.total + |image.data|, nextSeq := r.nextSeq + 1,
    images := r.images[id := image.(order := r.nextSeq + 1)])
  }

  lemma InsertedWeights(r: Store, id: nat, image: Image)
    requires id !in r.images && Belongs(r)
    ensures Weights(Inserted(r, id, image)) == Weights(r)[id := |image.data|]
    ensures Weight(Inserted(r, id, image), id) == |image.data|
  {
    hide FrameBytes;
    assert FrameBytes([]) == 0 by {
      NoFrames();
    }
  }

  lemma NoFrames()
    ensures FrameBytes([]) == 0
  {
  }

  lemma InsertedOrdered(r: Store, id: nat, image: Image)
    requires Ordered(r) && id !in r.images && Belongs(r)
    ensures Ordered(Inserted(r, id, image)) && IsNewest(Inserted(r, id, image), id) && Belongs(Inserted(r, id, image))
  {
  }

  lemma InsertedValid(r: Store, id: nat, image: Image)
    requires Valid(r) && id !in r.images
    ensures Valid(Inserted(r, id, image)) && IsNewest(Inserted(r, id, image), id)
    ensures Weight(Inserted(r, id, image), id) == |image.data|
  {
    hide SumOf, Weight, Ordered, Belongs, IsNewest;
    InsertedWeights(r, id, image);
    InsertedOrdered(r, id, image);
    SumSet(Weights(r), id, |image.data|);
    assert Weights(r) - {id} == Weights(r);
  }

  function FrameIndex(fs: seq<Frame>, number: nat): (i: nat)
    ensures i <= |fs|
    ensures i < |fs| ==> fs[i].number == number
    ensures forall k :: 0 <= k < i ==> fs[k].number != number
  {
    if fs == [] then 0 else
      var i := FrameIndex(fs[..|fs| - 1], number);
      if i < |fs| - 1 || fs[|fs| - 1].number == number then i else |fs|
  }

  function LastNumber(fs: seq<Frame>): nat {
    if fs == [] then 0 else
      var m := LastNumber(fs[..|fs| - 1]);
      if m < fs[|fs| - 1].number then fs[|fs| - 1].number else m
  }

  /** The frames with one edited, or added behind them. */
  function WithFrame(fs: seq<Frame>, f: Frame): seq<Frame> {
    var g := if f.number != 0 then f else f.(number := LastNumber(fs) + 1);
    var i := FrameIndex(fs, g.number);
    if i < |fs| then fs[i := g] else fs + [g]
  }

  function SetFrames(s: Store, id: nat, fs: seq<Frame>): Store
    requires FrameBytes(FramesOf(s, id)) <= s.total + FrameBytes(fs)
  {
    s.(frames := s.frames[id := fs], total := s.total + FrameBytes(fs) - FrameBytes(FramesOf(s, id)))
  }

  lemma SetFramesValid(s: Store, id: nat, fs: seq<Frame>)
    requires Valid(s) && id in s.images
    ensures FrameBytes(FramesOf(s, id)) <= s.total
    ensures Valid(SetFrames(s, id, fs))
  {
    hide SumOf, FrameBytes;
    WeightBound(s, id);
    var t := SetFrames(s, id, fs);
    assert Weights(t) == Weights(s)[id := Weight(t, id)];
    SumSplit(Weights(s), id);
    SumSet(Weights(s), id, Weight(t, id));
  }

  ghost function OnFrames(s: Store, id: nat, fs: seq<Frame>): Store
    requires Valid(s) && id in s.images
  {
    SetFramesValid(s, id, fs);
    Evicted(SetFrames(s, id, fs))
  }

  /** A frame rewritten as a whole canvas. */
  function Recomposed(f: Frame, img: Image, canvas: seq<Byte>): Frame {
    f.(data := canvas, format := RgbaFormat, x := 0, y := 0, width := img.width, height := img.height,
    baseFrame := 0, replace := true)
  }

  function Kept(ps: seq<Placement>, hit: Placement -> bool): seq<Placement> {
    if ps == [] then [] else
      var p := ps[|ps| - 1];
      Kept(ps[..|ps| - 1], hit) + if hit(p) then [] else [p]
  }

  lemma {:induction false} KeptIs(ps: seq<Placement>, hit: Placement -> bool)
    ensures forall p :: p in Kept(ps, hit) <==> p in ps && !hit(p)
    decreases |ps|
  {
    if ps != [] {
      KeptIs(ps[..|ps| - 1], hit);
      assert ps == ps[..|ps| - 1] + [ps[|ps| - 1]];
    }
  }

  predicate SameIds(p: Placement, q: Placement) {
    p.imageId == q.imageId && p.placementId == q.placementId
  }

  /** A placement takes the place of the one with its ids. */
  function PutOver(ps: seq<Placement>, p: Placement): seq<Placement> {
    Kept(ps, (q: Placement) => SameIds(p, q)) + [p]
  }

  /** After it is put, a placement is the only one with its ids, and the others are
      still there. */
  lemma PutReplaces(ps: seq<Placement>, p: Placement)
    ensures forall q :: q in PutOver(ps, p) <==> q == p || (q in ps && !SameIds(p, q))
  {
    KeptIs(ps, (q: Placement) => SameIds(p, q));
  }

  /** Images that lost their last placement, in the order they were touched. */
  function Orphans(ps: seq<Placement>, hit: Placement -> bool): seq<nat> {
    if ps == [] then [] else
      var p := ps[|ps| - 1];
      Orphans(ps[..|ps| - 1], hit) + if hit(p) then [p.imageId] else []
  }

  predicate Placed(ps: seq<Placement>, id: nat) {
    exists i :: 0 <= i < |ps| && ps[i].imageId == id
  }

  ghost function Freed(s: Store, ids: seq<nat>): (r: Store)
    requires Valid(s)
    ensures Valid(r) && r.total <= s.total
    decreases |ids|
  {
    if ids == [] then s else
      RemovedValid(s, ids[0]);
      Freed(if Placed(s.placements, ids[0]) then s else Removed(s, ids[0]), ids[1..])
  }

  ghost function Applied(s: Store, c: Command): Store
    requires Valid(s)
  {
    match c
    case Transmit(query, id, number, format, w, h, data) =>
      if !GoodSize(format, w, h, data) then s
      else OnTransmit(s, query, id, Image(number, format, w, h, data, 0))
    case StoreFrame(id, number, f) =>
      (match ResolveId(s, id, number)
       case None => s
       case Some(i) =>
         if !GoodSize(f.format, f.width, f.height, f.data) then s else OnFrames(s, i, WithFrame(FramesOf(s, i), f)))
    case Recompose(id, number, n, canvas) =>
      (match ResolveId(s, id, number)
       case None => s
       case Some(i) =>
         var fs := FramesOf(s, i);
         var k := FrameIndex(fs, n);
         if k == |fs| then s else OnFrames(s, i, fs[k := Recomposed(fs[k], s.images[i], canvas)]))
    case Animate(id, number, a) =>
      (match ResolveId(s, id, number)
       case None => s
       case Some(i) => s.(animations := s.animations[i := a]))
    case Put(p) => if p.imageId in s.images then s.(placements := PutOver(s.placements, p)) else s
    case DeleteAll(free) =>
      if free then s.(placements := [], images := map[], frames := map[], animations := map[], total := 0)
      else s.(placements := [])
    case DeleteImage(id, number, placementId, free) =>
      (match ResolveId(s, id, number)
       case None => s
       case Some(i) =>
         var t := s.(placements := Kept(s.placements, (p: Placement) => p.imageId == i && (placementId == 0 || p.placementId == placementId)));
         PlacementsAside(s, t.placements);
         RemovedValid(t, i);
         if free then Removed(t, i) else t)
    case DeleteWhere(free, hit) =>
      var t := s.(placements := Kept(s.placements, hit));
      PlacementsAside(s, t.placements);
      if free then Freed(t, Orphans(s.placements, hit)) else t
    case Reset => NOTHING
  }

  // --- over every run --------------------------------------------------------------------------

  predicate Within(s: Store) { s.total <= QUOTA_BYTES }

  lemma AppliedWithin(s: Store, c: Command)
    requires Valid(s)
    ensures Valid(Applied(s, c)) && (Within(s) ==> Within(Applied(s, c)))
  {
    hide Valid, Evicted, Removed, Freed, WithFrame, Kept, Orphans, GoodSize, Inserted, ResolveId, FrameIndex;
    match c
    case Transmit(query, id0, number, format, w, h, data) =>
      TransmitWithin(s, query, id0, Image(number, format, w, h, data, 0));
    case StoreFrame(id, number, f) =>
      var i := ResolveId(s, id, number);
      if i.Some? {
        FramesWithin(s, i.value, WithFrame(FramesOf(s, i.value), f));
      }
    case Recompose(id, number, n, canvas) =>
      var i := ResolveId(s, id, number);
      if i.Some? {
        var fs := FramesOf(s, i.value);
        var k := FrameIndex(fs, n);
        if k < |fs| {
          FramesWithin(s, i.value, fs[k := Recomposed(fs[k], s.images[i.value], canvas)]);
        }
      }
    case Animate(id, number, a) =>
      var i := ResolveId(s, id, number);
      if i.Some? {
        AnimationAside(s, i.value, a);
      }
    case Put(p) =>
      PlacementsAside(s, PutOver(s.placements, p));
    case DeleteAll(free) =>
      PlacementsAside(s, []);
      EmptyValid(s);
    case DeleteImage(id, number, placementId, free) =>
      var i := ResolveId(s, id, number);
      if i.Some? {
        DeletedWithin(s, i.value, Kept(s.placements, (p: Placement) => p.imageId == i.value && (placementId == 0 || p.placementId == placementId)));
      }
    case DeleteWhere(_, hit) =>
      PlacementsAside(s, Kept(s.placements, hit));
    case Reset =>
      EmptyValid(NOTHING);
  }

  lemma TransmitWithin(s: Store, query: bool, id0: nat, image: Image)
    requires Valid(s)
    ensures Valid(OnTransmit(s, query, id0, image)) && (Within(s) ==> Within(OnTransmit(s, query, id0, image)))
  {
    hide Valid, Evicted, Removed, Inserted;
    var id := if id0 == 0 then s.nextId + 1 else id0;
    var t := s.(nextId := if id < s.nextId then s.nextId else id);
    Renumbered(s, t);
    if !query {
      RemovedValid(t, id);
      InsertedValid(Removed(t, id), id, image);
      EvictedKeepsNewer(Inserted(Removed(t, id), id, image));
    }
  }

  lemma FramesWithin(s: Store, id: nat, fs: seq<Frame>)
    requires Valid(s) && id in s.images
    ensures Valid(OnFrames(s, id, fs)) && Within(OnFrames(s, id, fs))
  {
    hide Valid, Evicted, SetFrames;
    SetFramesValid(s, id, fs);
    EvictedKeepsNewer(SetFrames(s, id, fs));
  }

  lemma AnimationAside(s: Store, id: nat, a: Animation)
    requires Valid(s) && id in s.images
    ensures Valid(s.(animations := s.animations[id := a]))
  {
    hide SumOf, FrameBytes;
    assert Weights(s.(animations := s.animations[id := a])) == Weights(s);
  }

  lemma EmptyValid(s: Store)
    ensures Valid(s.(placements := [], images := map[], frames := map[], animations := map[], total := 0))
  {
    SumNone();
    assert Weights(s.(placements := [], images := map[], frames := map[], animations := map[], total := 0)) == map[];
  }

  lemma DeletedWithin(s: Store, id: nat, ps: seq<Placement>)
    requires Valid(s) && id in s.images
    ensures var t := s.(placements := ps);
            && Valid(t) && (id in t.images ==> Weight(t, id) <= t.total)
            && Valid(Removed(t, id)) && (Within(s) ==> Within(Removed(t, id)))
  {
    hide SumOf, FrameBytes, Valid;
    PlacementsAside(s, ps);
    RemovedValid(s.(placements := ps), id);
  }

  /** The store after a sequence of commands. */
  ghost function Ran(cs: seq<Command>): (s: Store)
    ensures Valid(s)
    decreases |cs|
  {
    hide Applied, Valid;
    EmptyValid(NOTHING);
    if cs == [] then NOTHING else
      AppliedWithin(Ran(cs[..|cs| - 1]), cs[|cs| - 1]);
      Applied(Ran(cs[..|cs| - 1]), cs[|cs| - 1])
  }

  /** In every state that any sequence of commands reaches, the running total is
      the bytes of all images and frames, frames belong to stored images, and the
      total is within the quota. */
  lemma {:induction false} RunsWithinQuota(cs: seq<Command>)
    ensures var s := Ran(cs);
            s.total == SumOf(Weights(s)) && s.total <= QUOTA_BYTES && s.frames.Keys <= s.images.Keys
    decreases |cs|
  {
    hide Applied, SumOf;
    if cs != [] {
      RunsWithinQuota(cs[..|cs| - 1]);
      AppliedWithin(Ran(cs[..|cs| - 1]), cs[|cs| - 1]);
    }
  }

  // --- pixels ---------------------------------------------------------------------------------

  function Size(w: nat, h: nat): nat { w * h * 4 }

  /** The data is exactly the pixels: three bytes each, or four (decoded PNG too). */
  predicate PixelsOk(format: Format, w: nat, h: nat, data: seq<Byte>) {
    if format.RgbFormat? then |data| == w * h * 3 else |data| == Size(w, h)
  }

  predicate FramesOk(fs: seq<Frame>) {
    forall i :: 0 <= i < |fs| ==> PixelsOk(fs[i].format, fs[i].width, fs[i].height, fs[i].data)
  }

  predicate ImageOk(image: Image) {
    PixelsOk(image.format, image.width, image.height, image.data)
  }

  /** Every image and every frame has exactly the pixels of its dimensions. */
  predicate AllPixels(s: Store) {
    && (forall id :: id in s.images ==> ImageOk(s.images[id]))
    && (forall id :: id in s.frames ==> FramesOk(s.frames[id]))
  }

  /** What the decoders give: a PNG has the pixels of its header, and a composed
      canvas those of its image (as `ImageStore.GraphicsState.ComposeFrames` does). */
  ghost predicate Decoded(s: Store, c: Command) {
    match c
    case Transmit(_, _, _, format, w, h, data) => format.PngFormat? ==> PixelsOk(format, w, h, data)
    case StoreFrame(_, _, f) => f.format.PngFormat? ==> PixelsOk(f.format, f.width, f.height, f.data)
    case Recompose(id, number, _, canvas) =>
      (match ResolveId(s, id, number)
       case None => true
       case Some(i) => |canvas| == Size(s.images[i].width, s.images[i].height))
    case _ => true
  }

  /** Every command was decoded in the state it came to. */
  ghost predicate AllDecoded(cs: seq<Command>)
    decreases |cs|
  {
    cs == [] || (AllDecoded(cs[..|cs| - 1]) && Decoded(Ran(cs[..|cs| - 1]), cs[|cs| - 1]))
  }

  lemma GoodPixels(format: Format, w: nat, h: nat, data: seq<Byte>)
    requires GoodSize(format, w, h, data) && (format.PngFormat? ==> PixelsOk(format, w, h, data))
    ensures PixelsOk(format, w, h, data)
  {
  }

  /** A store with fewer images and frames keeps their pixels right. */
  lemma FewerPixels(s: Store, r: Store)
    requires AllPixels(s)
    requires forall id :: id in r.images ==> id in s.images && r.images[id] == s.images[id]
    requires forall id :: id in r.frames ==> id in s.frames && r.frames[id] == s.frames[id]
    ensures AllPixels(r)
  {
    hide ImageOk, FramesOk;
  }

  lemma EvictedPixels(s: Store)
    requires Valid(s) && AllPixels(s)
    ensures AllPixels(Evicted(s))
  {
    hide Valid, AllPixels, Evicted;
    EvictedKeepsNewer(s);
    FewerPixels(s, Evicted(s));
  }

  lemma {:induction false} FreedPixels(s: Store, ids: seq<nat>)
    requires Valid(s) && AllPixels(s)
    ensures AllPixels(Freed(s, ids))
    decreases |ids|
  {
    hide Valid, AllPixels, Weight, Placed;
    if ids != [] {
      RemovedValid(s, ids[0]);
      FewerPixels(s, Removed(s, ids[0]));
      FreedPixels(if Placed(s.placements, ids[0]) then s else Removed(s, ids[0]), ids[1..]);
    }
  }

  lemma WithFramePixels(fs: seq<Frame>, f: Frame)
    requires FramesOk(fs) && PixelsOk(f.format, f.width, f.height, f.data)
    ensures FramesOk(WithFrame(fs, f))
  {
    hide PixelsOk;
  }

  lemma FramesPixels(s: Store, id: nat, fs: seq<Frame>)
    requires Valid(s) && AllPixels(s) && id in s.images && FramesOk(fs)
    ensures AllPixels(OnFrames(s, id, fs))
  {
    hide Valid, Evicted, ImageOk, FramesOk;
    SetFramesValid(s, id, fs);
    EvictedPixels(SetFrames(s, id, fs));
  }

  lemma TransmitPixels(s: Store, query: bool, id0: nat, image: Image)
    requires Valid(s) && AllPixels(s) && ImageOk(image)
    ensures AllPixels(OnTransmit(s, query, id0, image))
  {
    hide Valid, Evicted, PixelsOk, FramesOk, Weight;
    var id := if id0 == 0 then s.nextId + 1 else id0;
    var t := s.(nextId := if id < s.nextId then s.nextId else id);
    Renumbered(s, t);
    if !query {
      RemovedValid(t, id);
      FewerPixels(t, Removed(t, id));
      InsertedValid(Removed(t, id), id, image);
      EvictedPixels(Inserted(Removed(t, id), id, image));
    }
  }

  lemma AppliedPixels(s: Store, c: Command)
    requires Valid(s) && AllPixels(s) && Decoded(s, c)
    ensures AllPixels(Applied(s, c))
  {
    hide Valid, Evicted, OnTransmit, OnFrames, Freed, WithFrame, Kept, Orphans, GoodSize, PixelsOk, FramesOk, ResolveId, FrameIndex,
      Removed, PutOver, Size;
    match c
    case Transmit(query, id0, number, format, w, h, data) =>
      if GoodSize(format, w, h, data) {
        GoodPixels(format, w, h, data);
        TransmitPixels(s, query, id0, Image(number, format, w, h, data, 0));
      }
    case StoreFrame(id, number, f) =>
      var i := ResolveId(s, id, number);
      if i.Some? && GoodSize(f.format, f.width, f.height, f.data) {
        GoodPixels(f.format, f.width, f.height, f.data);
        FramesThere(s, i.value);
        WithFramePixels(FramesOf(s, i.value), f);
        FramesPixels(s, i.value, WithFrame(FramesOf(s, i.value), f));
      }
    case Recompose(id, number, n, canvas) =>
      var i := ResolveId(s, id, number);
      if i.Some? {
        var fs := FramesOf(s, i.value);
        var k := FrameIndex(fs, n);
        FramesThere(s, i.value);
        if k < |fs| {
          RecomposedPixels(fs, k, s.images[i.value], canvas);
          FramesPixels(s, i.value, fs[k := Recomposed(fs[k], s.images[i.value], canvas)]);
        }
      }
    case Animate(_, _, _) =>
    case Put(_) =>
    case DeleteAll(_) =>
    case DeleteImage(id, number, placementId, free) =>
      var i := ResolveId(s, id, number);
      if i.Some? {
        var t := s.(placements := Kept(s.placements, (p: Placement) => p.imageId == i.value && (placementId == 0 || p.placementId == placementId)));
        PlacementsAside(s, t.placements);
        RemovedValid(t, i.value);
        RemovedPixels(t, i.value);
      }
    case DeleteWhere(_, hit) =>
      PlacementsAside(s, Kept(s.placements, hit));
      FreedPixels(s.(placements := Kept(s.placements, hit)), Orphans(s.placements, hit));
    case Reset =>
  }

  lemma FramesThere(s: Store, id: nat)
    requires AllPixels(s)
    ensures FramesOk(FramesOf(s, id))
  {
  }

  lemma RecomposedPixels(fs: seq<Frame>, k: nat, img: Image, canvas: seq<Byte>)
    requires FramesOk(fs) && k < |fs| && |canvas| == Size(img.width, img.height)
    ensures FramesOk(fs[k := Recomposed(fs[k], img, canvas)])
  {
  }

  lemma RemovedPixels(s: Store, id: nat)
    requires AllPixels(s) && (id in s.images ==> Weight(s, id) <= s.total)
    ensures AllPixels(Removed(s, id))
  {
    FewerPixels(s, Removed(s, id));
  }

  /** In every state that decoded commands reach, every image and every frame has
      exactly the pixels of its dimensions, which is what composing them needs. */
  lemma {:induction false} RunsKeepPixels(cs: seq<Command>)
    requires AllDecoded(cs)
    ensures AllPixels(Ran(cs))
    decreases |cs|
  {
    hide Applied, AllPixels, Valid, Decoded;
    if cs == [] {
      NothingPixels();
    } else {
      RunsKeepPixels(cs[..|cs| - 1]);
      AppliedPixels(Ran(cs[..|cs| - 1]), cs[|cs| - 1]);
    }
  }

  lemma NothingPixels()
    ensures AllPixels(NOTHING)
  {
  }

  /** An image that fits the quota by itself is there after it is transmitted,
      whatever had to go for it. */
  lemma TransmittedStays(s: Store, id0: nat, image: Image)
    requires Valid(s) && |image.data| <= QUOTA_BYTES
    ensures var id, t := if id0 == 0 then s.nextId + 1 else id0, OnTransmit(s, false, id0, image);
            id in t.images && t.images[id] == image.(order := s.nextSeq + 1) && t.nextSeq == s.nextSeq + 1
  {
    hide Valid, Evicted;
    var id := if id0 == 0 then s.nextId + 1 else id0;
    var t := s.(nextId := if id < s.nextId then s.nextId else id);
    Renumbered(s, t);
    RemovedValid(t, id);
    InsertedValid(Removed(t, id), id, image);
    var u := Inserted(Removed(t, id), id, image);
    NewestStays(u, id);
    EvictedKeepsNewer(u);
  }
}
