// Dumps for mirrors: the bounded form agrees with the full one, and what a
// replay keeps of the source (crates/posh-term/src/dump.rs).

module Mirror {
  import opened Wrappers
  import opened Cells
  import opened Machine
  import opened Printing
  import opened Invariants
  import opened Emit
  import Flow
  import opened Dump
  import opened Replay

  // --- the image depends on the flow's last lines only ----------------------------

  /** A landed line is the same row of ring and grid for every depth. */
  lemma LandedLine(s: Term, k: nat, m: nat, i: nat)
    requires s.Valid() && k <= |s.scr.sb| && m <= k + s.scr.rows && i < m
    ensures FlowRows(s, k)[k + s.scr.rows - m + i] == (s.scr.sb + s.scr.grid)[|s.scr.sb| + s.scr.rows - m + i]
  {
  }

  lemma SameLine(s: Term, h: nat, k: nat, j: nat, i: nat)
    requires Dumpable(s) && k <= |s.scr.sb| && j <= |s.scr.sb| && Landed(s, h, k) == Landed(s, h, j)
    ensures BaseRow(s, h, k, i) == BaseRow(s, h, j, i) && ImageWrap(s, h, k, i) == ImageWrap(s, h, j, i)
  {
    hide FlowRows, ScreenOk, ShownRow;
    var m := Landed(s, h, k);
    if i < m {
      LandedLine(s, k, m, i);
      LandedLine(s, j, m, i);
    }
  }

  /** Two replay depths that land equally many lines show the same. */
  lemma SameLanding(s: Term, h: nat, k: nat, j: nat)
    requires Dumpable(s) && h >= s.scr.rows && k <= |s.scr.sb| && j <= |s.scr.sb|
    requires Landed(s, h, k) == Landed(s, h, j)
    ensures CursorRow(s, h, k) == CursorRow(s, h, j)
    ensures forall i :: 0 <= i < h ==> ImageRow(s, h, k, i) == ImageRow(s, h, j, i)
    ensures forall i :: 0 <= i < h ==> ImageWrap(s, h, k, i) == ImageWrap(s, h, j, i)
  {
    hide ScreenOk, BaseRow, ImageWrap, Reprinted;
    forall i | 0 <= i < h
      ensures ImageRow(s, h, k, i) == ImageRow(s, h, j, i) && ImageWrap(s, h, k, i) == ImageWrap(s, h, j, i)
    {
      SameLine(s, h, k, j, i);
    }
  }

  lemma SameReplay(u: Term, s: Term, k: nat, j: nat)
    requires Dumpable(s) && k <= |s.scr.sb| && j <= |s.scr.sb| && u.scr.rows >= s.scr.rows
    requires Landed(s, u.scr.rows, k) == Landed(s, u.scr.rows, j)
    ensures Replayed(u, s, k) <==> Replayed(u, s, j)
  {
    hide ImageRow, ImageWrap, CursorRow, ScreenOk;
    SameLanding(s, u.scr.rows, k, j);
  }

  /** Two terminals that show the same: cells, wrap flags, cursor, modes, region and
      tab stops. */
  predicate Alike(u: Term, v: Term) {
    && u.Valid() && v.Valid() && u.scr.rows == v.scr.rows && u.scr.cols == v.scr.cols
    && (forall i :: 0 <= i < u.scr.rows ==> ShownRow(u.scr.grid[i].cells) == ShownRow(v.scr.grid[i].cells))
    && (forall i :: 0 <= i < u.scr.rows ==> u.scr.grid[i].wrapped == v.scr.grid[i].wrapped)
    && u.cur == v.cur && u.modes == v.modes && u.top == v.top && u.bot == v.bot && u.tabs == v.tabs
  }

  /** Replays of any two depths that land equally many lines show the same, for
      every source that can be dumped. */
  lemma ReplaysAlike(u: Term, v: Term, s: Term, k: nat, j: nat)
    requires Dumpable(s) && k <= |s.scr.sb| && j <= |s.scr.sb| && u.scr.rows == v.scr.rows >= s.scr.rows
    requires Replayed(u, s, k) && Replayed(v, s, j) && Landed(s, u.scr.rows, k) == Landed(s, u.scr.rows, j)
    ensures Alike(u, v)
  {
    hide ImageRow, ImageWrap, CursorRow, ScreenOk, ShownRow;
    SameLanding(s, u.scr.rows, k, j);
  }

  // --- the mirror dump ----------------------------------------------------------------

  /** The geometry rule: the mirror has the source's width and at least its
      height. */
  predicate MirrorIsBounded(source: (nat, nat), rows: nat, cols: nat) {
    cols == source.1 && rows >= source.0
  }

  /** How many ring rows a mirror's dump may replay; the whole ring if unbounded. */
  function MirrorTail(s: Term, rows: nat, cols: nat): nat {
    if !MirrorIsBounded((s.scr.rows, s.scr.cols), rows, cols) then |s.scr.sb|
    else if rows == s.scr.rows then 0
    else 2 * rows - s.scr.rows
  }

  datatype MirrorDump = MirrorDump(bytes: seq<Action>, shapedFor: Option<(nat, nat)>, source: (nat, nat))
  {
    /** Is this the dump for a mirror of that size too? */
    predicate IsDumpFor(rows: nat, cols: nat) {
      match shapedFor
      case Some(geometry) => geometry == (rows, cols)
      case None => !MirrorIsBounded(source, rows, cols)
    }
  }

  /** The mirror dump of `s` for a geometry. */
  function MirrorOf(s: Term, rows: nat, cols: nat): MirrorDump
    requires s.Valid()
  {
    var source := (s.scr.rows, s.scr.cols);
    MirrorDump(TailOut(s, Min(|s.scr.sb|, MirrorTail(s, rows, cols))),
               if MirrorIsBounded(source, rows, cols) then Some((rows, cols)) else None, source)
  }

  /** `is_dump_for` says yes exactly when the other geometry's dump is this one. */
  lemma SharedExactly(s: Term, r: nat, c: nat, r2: nat, c2: nat)
    requires s.Valid()
    ensures MirrorOf(s, r, c).IsDumpFor(r2, c2) <==> MirrorOf(s, r2, c2) == MirrorOf(s, r, c)
  {
    hide TailOut;
  }

  // --- what a dump reads --------------------------------------------------------------

  /** Two terminals that differ in their rings at most. */
  predicate SameScreenful(s: Term, v: Term) {
    v == s.(scr := s.scr.(sb := v.scr.sb, maxSb := v.scr.maxSb, total := v.scr.total))
  }

  /** A dump of `k` ring rows reads no others. */
  lemma TailReads(s: Term, v: Term, k: nat)
    requires s.Valid() && v.Valid() && SameScreenful(s, v) && k <= |s.scr.sb| && k <= |v.scr.sb|
    requires s.scr.sb[|s.scr.sb| - k..] == v.scr.sb[|v.scr.sb| - k..]
    ensures TailOut(s, k) == TailOut(v, k)
  {
    hide ScreenOut, SaveOut, ModesOut, CursorOut;
    var start := Printer([], DEFAULT_STYLE, 0, false);
    ScreenReads(start, s, v, k);
    var p := ScreenOut(start, s, k);
    RestReads(p, s, v);
    RestReads(SaveOut(p, s), s, v);
    CursorReads(ModesOut(p, s), s, v);
    CursorReads(ModesOut(SaveOut(p, s), s), s, v);
  }

  lemma ScreenReads(p: Printer, s: Term, v: Term, k: nat)
    requires s.Valid() && v.Valid() && SameScreenful(s, v) && k <= |s.scr.sb| && k <= |v.scr.sb|
    requires s.scr.sb[|s.scr.sb| - k..] == v.scr.sb[|v.scr.sb| - k..]
    ensures ScreenOut(p, s, k) == ScreenOut(p, v, k)
  {
    hide Flow.RowsOut, Term.Valid;
  }

  lemma RestReads(p: Printer, s: Term, v: Term)
    requires s.Valid() && v.Valid() && SameScreenful(s, v)
    ensures SaveOut(p, s) == SaveOut(p, v) && ModesOut(p, s) == ModesOut(p, v)
  {
    hide StopsOut, ModeOut, DefaultTabs;
    assert PrintCol(s) == PrintCol(v);
  }

  lemma CursorReads(p: Printer, s: Term, v: Term)
    requires s.Valid() && v.Valid() && SameScreenful(s, v)
    ensures forall a :: CursorOut(p, s, a) == CursorOut(p, v, a)
  {
    hide ModeOut, RedoOut;
    assert PrintCol(s) == PrintCol(v) && s.Cells() == v.Cells();
  }

  /** The mirror dump is bounded: at the source's own height it is the same for every
      ring, and on a taller mirror for all rings with the same newest rows, twice the
      mirror's height less the source's. */
  lemma MirrorBounded(s: Term, v: Term, rows: nat)
    requires s.Valid() && v.Valid() && SameScreenful(s, v) && rows >= s.scr.rows
    requires rows > s.scr.rows ==> Newest(s.scr.sb, 2 * rows - s.scr.rows) == Newest(v.scr.sb, 2 * rows - s.scr.rows)
    ensures MirrorOf(s, rows, s.scr.cols) == MirrorOf(v, rows, s.scr.cols)
  {
    hide TailOut;
    var k := Min(|s.scr.sb|, MirrorTail(s, rows, s.scr.cols));
    assert k == Min(|v.scr.sb|, MirrorTail(v, rows, s.scr.cols));
    assert s.scr.sb[|s.scr.sb| - k..] == v.scr.sb[|v.scr.sb| - k..];
    TailReads(s, v, k);
  }

  /** Whatever the ring holds, a bounded tail lands as many lines as the whole
      ring on a mirror of that height. */
  lemma TailLandsAlike(s: Term, rows: nat)
    requires rows >= s.scr.rows
    ensures Landed(s, rows, Min(|s.scr.sb|, MirrorTail(s, rows, s.scr.cols))) == Landed(s, rows, |s.scr.sb|)
  {
  }

  /** The full dump: for every fresh terminal of the source's width and at least
      its height, the image and the ring of the whole flow. */
  method DumpVt(s: Term, ghost t: Term) returns (out: seq<Action>)
    requires Dumpable(s)
    requires t.scr.rows >= s.scr.rows && t == FreshTerm(t.scr.rows, s.scr.cols, t.scr.maxSb)
    ensures Replayed(Run(t, out), s, |s.scr.sb|)
    ensures RingReplayed(Run(t, out), s, |s.scr.sb|)
    ensures Run(t, out).cur.pending == s.cur.pending <==> Rearmable(s)
    ensures out == TailOut(s, |s.scr.sb|)
  {
    hide Run, Replayed, RingReplayed, Rearmable, TailOut;
    out := DumpVtTail(s, |s.scr.sb|, t);
    PendingBack(Run(t, out), s, |s.scr.sb|);
  }

  /** A pending wrap comes back if and only if printing can arm it. */
  lemma PendingBack(u: Term, s: Term, k: nat)
    requires Dumpable(s) && k <= |s.scr.sb| && Replayed(u, s, k)
    ensures u.cur.pending == s.cur.pending <==> Rearmable(s)
  {
    hide ScreenOk, ImageRow, ImageWrap;
  }

  /** The mirror dump. Run on a ring-less mirror of the size it is shaped for it
      shows exactly what the full dump shows there, however deep the ring is. */
  method DumpVtMirror(s: Term, rows: nat, cols: nat, ghost t: Term) returns (d: MirrorDump)
    requires Dumpable(s)
    requires t.scr.rows >= s.scr.rows && t == FreshTerm(t.scr.rows, s.scr.cols, 0)
    requires MirrorIsBounded((s.scr.rows, s.scr.cols), rows, cols) ==> t.scr.rows == rows
    ensures d == MirrorOf(s, rows, cols)
    ensures Replayed(Run(t, d.bytes), s, |s.scr.sb|)
    ensures forall full: Term :: full.scr.rows == t.scr.rows && Replayed(full, s, |s.scr.sb|) ==> Alike(Run(t, d.bytes), full)
  {
    hide Run, Replayed, RingReplayed, Alike, TailOut;
    var source := (s.scr.rows, s.scr.cols);
    var tail := MirrorTail(s, rows, cols);
    var bytes := DumpVtTail(s, tail, t);
    d := MirrorDump(bytes, if MirrorIsBounded(source, rows, cols) then Some((rows, cols)) else None, source);
    TailLandsAlike(s, t.scr.rows);
    assert Run(t, bytes).scr.rows == t.scr.rows;
    SameReplay(Run(t, bytes), s, Min(|s.scr.sb|, tail), |s.scr.sb|);
    forall full: Term | full.scr.rows == t.scr.rows && Replayed(full, s, |s.scr.sb|)
      ensures Alike(Run(t, bytes), full)
    {
      ReplaysAlike(Run(t, bytes), full, s, |s.scr.sb|, |s.scr.sb|);
    }
  }

  // --- what the image keeps of the source -------------------------------------------------

  /** The replayed cursor is on the line that shows the source cursor's own row
      if and only if origin mode does not push it off that line. */
  lemma CursorOnItsLine(s: Term, h: nat, k: nat)
    requires Dumpable(s) && h >= s.scr.rows && k <= |s.scr.sb|
    ensures CursorRow(s, h, k) == OwnRow(s, h, k) <==>
            !s.modes.origin || s.FullRegion() || s.top <= OwnRow(s, h, k) <= s.bot
    ensures BaseRow(s, h, k, OwnRow(s, h, k)) == ShownRow(s.Cells())
  {
    hide ScreenOk, ShownRow;
  }

  /** At the source's own height origin mode matters only for a cursor that is
      outside the region already. */
  lemma CursorAtOwnHeight(s: Term, k: nat)
    requires Dumpable(s) && k <= |s.scr.sb|
    ensures OwnRow(s, s.scr.rows, k) == s.cur.row
  {
  }

  lemma OwnBase(s: Term, h: nat, k: nat, i: nat)
    requires Dumpable(s) && h >= s.scr.rows && k <= |s.scr.sb| && i < s.scr.rows
    ensures BaseRow(s, h, k, Landed(s, h, k) - s.scr.rows + i) == ShownRow(s.scr.grid[i].cells)
  {
    hide ScreenOk, ShownRow;
  }

  /** The cell printed again comes back as it was: it carries the pen's link, and
      its marks find it, for which the wrap must be armed or the cell be wide. */
  predicate ComesBack(s: Term)
    requires s.Valid()
  {
    var c := s.Cells()[PrintCol(s)];
    c.link == s.cur.link && (s.modes.autowrap || c.width == 2 || c.extra == [])
  }

  /** Every replay shows the source's grid cell for cell if and only if the cell
      printed again for a pending wrap comes back as it was. */
  lemma GridKept(u: Term, s: Term, k: nat)
    requires Dumpable(s) && k <= |s.scr.sb| && Replayed(u, s, k)
    requires CursorRow(s, u.scr.rows, k) == OwnRow(s, u.scr.rows, k)
    ensures (forall i :: 0 <= i < s.scr.rows ==>
              ShownRow(u.scr.grid[Landed(s, u.scr.rows, k) - s.scr.rows + i].cells) == ShownRow(s.scr.grid[i].cells))
            <==> (s.cur.pending ==> ComesBack(s))
  {
    hide ScreenOk, BaseRow, ShownRow, Reprinted, Redraw, PrintCol, ComesBack, ImageWrap;
    var h := u.scr.rows;
    var base := Landed(s, h, k) - s.scr.rows;
    forall i | 0 <= i < s.scr.rows
      ensures BaseRow(s, h, k, base + i) == ShownRow(s.scr.grid[i].cells)
      ensures ShownRow(u.scr.grid[base + i].cells) == ImageRow(s, h, k, base + i)
    {
      OwnBase(s, h, k, i);
    }
    if s.cur.pending {
      OwnReprinted(s);
      assert ImageRow(s, h, k, base + s.cur.row) ==
             Reprinted(ShownRow(s.Cells()), PrintCol(s), Redraw(s), s.modes.autowrap);
    }
  }

  lemma OwnReprinted(s: Term)
    requires Dumpable(s) && s.cur.pending
    ensures Reprinted(ShownRow(s.Cells()), PrintCol(s), Redraw(s), s.modes.autowrap) == ShownRow(s.Cells()) <==>
            ComesBack(s)
  {
    hide Redrawn, Marked, Shown, ShownRow, RedrawnAt;
    OwnRedrawn(s, Redraw(s));
    PrintColEnds(s);
    if !s.modes.autowrap {
      OwnRedrawn(s, Redraw(s).(extra := []));
      OwnMarked(s);
    }
  }

  /** The row after its last cell is redrawn as `d`, against the row itself. */
  lemma OwnRedrawn(s: Term, d: Cell)
    requires Dumpable(s) && s.cur.pending && (d == Redraw(s) || d == Redraw(s).(extra := []))
    ensures Redrawn(ShownRow(s.Cells()), PrintCol(s), d) == ShownRow(s.Cells())[PrintCol(s) := Shown(d)]
    ensures ShownRow(s.Cells())[PrintCol(s)] == Shown(s.Cells()[PrintCol(s)])
    ensures Redrawn(ShownRow(s.Cells()), PrintCol(s), d) == ShownRow(s.Cells()) <==>
            d.link == s.Cells()[PrintCol(s)].link && d.extra == s.Cells()[PrintCol(s)].extra
  {
    PrintColEnds(s);
    var cells, c := s.Cells(), PrintCol(s);
    assert RowOk(cells, s.scr.cols);
    assert !Orphan(cells, c);
    var a, b := Redrawn(ShownRow(cells), c, d), ShownRow(cells);
    assert forall x :: 0 <= x < |cells| && x != c ==> a[x] == b[x];
    assert a == b[c := Shown(d)];
    if a == b {
      assert a[c] == b[c];
    }
  }

  /** Where the marks of the cell printed last go, when no wrap is armed. */
  lemma OwnMarked(s: Term)
    requires Dumpable(s) && s.cur.pending
    ensures var row, c, d := ShownRow(s.Cells()), PrintCol(s), Redraw(s);
            var r := Marked(Redrawn(row, c, d.(extra := [])), d.extra);
            if d.width == 2 then r == Redrawn(row, c, d)
            else if d.extra == [] then r == Redrawn(row, c, d.(extra := []))
            else r[c] == Shown(d.(extra := []))
  {
    hide Redrawn, ShownRow, RedrawnAt;
    PrintColEnds(s);
    var row, c, d := ShownRow(s.Cells()), PrintCol(s), Redraw(s);
    OwnRedrawn(s, d);
    OwnRedrawn(s, d.(extra := []));
    var bare := Redrawn(row, c, d.(extra := []));
    assert bare[c] == Shown(d.(extra := []));
    if d.extra == [] {
      MarkedNone(bare);
    }
    if d.width == 2 {
      assert MarkCol(bare) == c;
      assert [] + d.extra == d.extra;
      assert Marked(bare, d.extra) == bare[c := Shown(d)];
    }
  }
}
