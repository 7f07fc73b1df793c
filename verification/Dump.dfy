// The state dump (`dump_vt`, `dump_vt_mirror` in crates/posh-term/src/dump.rs):
// what a fresh terminal shows after replaying it.

module Dump {
  import opened Cells
  import opened Machine
  import opened Printing
  import opened Frame
  import opened Invariants
  import opened Tape
  import opened Emit
  import opened Flow

  function DefaultTabs(cols: nat): (tabs: seq<bool>)
    ensures |tabs| == cols
  {
    seq(cols, i => i % 8 == 0)
  }

  /** A newly constructed terminal. */
  function FreshTerm(rows: nat, cols: nat, maxSb: nat): (t: Term)
    requires rows >= 1 && cols >= 1
    ensures t.Valid()
  {
    Term(Screen(rows, cols, BlankRows(rows, cols), [], maxSb, 0), HOME, HOME, false,
         DEFAULT_MODES, 0, rows - 1, DefaultTabs(cols))
  }

  /** A terminal that can be dumped: well formed, its region one that DECSTBM
      accepts. */
  predicate Dumpable(s: Term) {
    && WellFormed(s)
    && (s.FullRegion() || s.top < s.bot)
  }

  /** A pending wrap is one that printing can arm again: autowrap is still on.
      (DECRC brings a pending wrap back after autowrap was switched off.) */
  predicate Rearmable(s: Term) {
    s.cur.pending ==> s.modes.autowrap
  }

  // --- what the replay should show ------------------------------------------------

  function ShownRow(cells: seq<Cell>): (r: seq<Cell>)
    ensures |r| == |cells|
    ensures forall x :: 0 <= x < |cells| ==> r[x] == Shown(cells[x])
  {
    seq(|cells|, x requires 0 <= x < |cells| => Shown(cells[x]))
  }

  /** The rows of the flow: the newest `k` of the ring, then the grid. */
  function FlowRows(s: Term, k: nat): (r: seq<Row>)
    requires s.Valid() && k <= |s.scr.sb|
    ensures |r| == k + s.scr.rows
  {
    s.scr.sb[|s.scr.sb| - k..] + s.scr.grid
  }

  /** How many lines of the flow a target of height `h` shows. */
  function Landed(s: Term, h: nat, k: nat): nat {
    Min(k + s.scr.rows, h)
  }

  function RegionOf(s: Term, h: nat): (nat, nat)
    requires h >= 1
  {
    if s.FullRegion() then (0, h - 1) else (s.top, s.bot)
  }

  /** The target row that shows the source cursor's own row. */
  function OwnRow(s: Term, h: nat, k: nat): (r: nat)
    requires s.Valid() && h >= s.scr.rows
    ensures r < h
  {
    Landed(s, h, k) - s.scr.rows + s.cur.row
  }

  /** The target row the cursor lands on: origin mode keeps it in the region. */
  function CursorRow(s: Term, h: nat, k: nat): (r: nat)
    requires s.Valid() && h >= s.scr.rows
    ensures r < h
  {
    var own, (top, bot) := OwnRow(s, h, k), RegionOf(s, h);
    if s.modes.origin then Max(top, Min(own, bot)) else own
  }

  /** The column the cursor is replayed at: the head of a wide pair whose
      printing armed the wrap. */
  function PrintCol(s: Term): (c: nat)
    requires s.Valid()
    ensures c < s.scr.cols
  {
    if s.cur.pending && s.cur.col > 0 && s.Cells()[s.cur.col].width == 0 then s.cur.col - 1 else s.cur.col
  }

  /** A shown row after its last cell is drawn again as `c`. */
  function Redrawn(base: seq<Cell>, col: nat, c: Cell): (r: seq<Cell>)
    requires col < |base|
    ensures |r| == |base|
    ensures forall x :: 0 <= x < |base| ==> r[x] == RedrawnAt(base, col, c, x)
  {
    seq(|base|, x requires 0 <= x < |base| => RedrawnAt(base, col, c, x))
  }

  function RedrawnAt(base: seq<Cell>, col: nat, c: Cell, x: nat): Cell
    requires col < |base| && x < |base|
  {
    if x > col then SPACER
    else if x == col then Shown(c)
    else if x + 1 == col && base[col].width == 0 then BLANK
    else base[x]
  }

  /** Row `i` of the flow as the target shows it, before the cursor replay. */
  function BaseRow(s: Term, h: nat, k: nat, i: nat): (r: seq<Cell>)
    requires s.Valid() && k <= |s.scr.sb|
    ensures ScreenOk(s.scr) ==> |r| == s.scr.cols
  {
    var m := Landed(s, h, k);
    if i < m then ShownRow(FlowRows(s, k)[k + s.scr.rows - m + i].cells) else BlankCells(s.scr.cols)
  }

  /** The cell drawn again to re-arm a pending wrap: it gets the pen's link. */
  function Redraw(s: Term): Cell
    requires s.Valid()
  {
    s.Cells()[PrintCol(s)].(link := s.cur.link)
  }

  /** A shown row after its last cell is printed again as `c`. With autowrap off no
      wrap is armed, and the marks of `c` go where marks then go. */
  function Reprinted(base: seq<Cell>, col: nat, c: Cell, autowrap: bool): (r: seq<Cell>)
    requires col < |base|
    ensures |r| == |base|
  {
    if autowrap then Redrawn(base, col, c) else Marked(Redrawn(base, col, c.(extra := [])), c.extra)
  }

  function ImageRow(s: Term, h: nat, k: nat, i: nat): seq<Cell>
    requires s.Valid() && ScreenOk(s.scr) && h >= s.scr.rows && k <= |s.scr.sb|
  {
    if s.cur.pending && i == CursorRow(s, h, k) then
      Reprinted(BaseRow(s, h, k, i), PrintCol(s), Redraw(s), s.modes.autowrap)
    else BaseRow(s, h, k, i)
  }

  function ImageWrap(s: Term, h: nat, k: nat, i: nat): bool
    requires s.Valid() && k <= |s.scr.sb|
  {
    var m := Landed(s, h, k);
    i + 1 < m && FlowRows(s, k)[k + s.scr.rows - m + i].wrapped
  }

  /** The whole replayed state, when `k` ring rows are replayed. A wrap is pending
      only if printing could arm it. */
  predicate Replayed(u: Term, s: Term, k: nat)
    requires s.Valid() && ScreenOk(s.scr) && k <= |s.scr.sb|
  {
    && u.Valid() && u.scr.cols == s.scr.cols && u.scr.rows >= s.scr.rows
    && (forall i :: 0 <= i < u.scr.rows ==> ShownRow(u.scr.grid[i].cells) == ImageRow(s, u.scr.rows, k, i))
    && (forall i :: 0 <= i < u.scr.rows ==> u.scr.grid[i].wrapped == ImageWrap(s, u.scr.rows, k, i))
    && u.cur == s.cur.(row := CursorRow(s, u.scr.rows, k), pending := s.cur.pending && s.modes.autowrap)
    && u.modes == s.modes && (u.top, u.bot) == RegionOf(s, u.scr.rows) && u.tabs == s.tabs
  }

  /** The ring holds the lines that scrolled off, oldest first. */
  predicate RingReplayed(u: Term, s: Term, k: nat)
    requires s.Valid() && k <= |s.scr.sb| && u.Valid()
  {
    var off := k + s.scr.rows - Landed(s, u.scr.rows, k);
    var n := Min(off, u.scr.maxSb);
    && |u.scr.sb| == n
    && forall i :: 0 <= i < n ==>
         ShownRow(u.scr.sb[i].cells) == ShownRow(FlowRows(s, k)[off - n + i].cells) &&
         u.scr.sb[i].wrapped == FlowRows(s, k)[off - n + i].wrapped
  }

  // --- the flow on the screen -----------------------------------------------------------

  predicate ScreenHolds(t: Term, s: Term, k: nat)
    requires s.Valid() && k <= |s.scr.sb|
  {
    && t.Valid()
    && (forall i :: 0 <= i < t.scr.rows ==> Paired(t.scr.grid[i].cells))
    && (forall i :: 0 <= i < t.scr.rows ==> ShownRow(t.scr.grid[i].cells) == BaseRow(s, t.scr.rows, k, i))
    && (forall i :: 0 <= i < t.scr.rows ==> t.scr.grid[i].wrapped == ImageWrap(s, t.scr.rows, k, i))
  }

  lemma FlowOnScreen(t: Term, s: Term, k: nat, lines: seq<Row>, ring: seq<Row>)
    requires s.Valid() && ScreenOk(s.scr) && k <= |s.scr.sb| && t.scr.cols == s.scr.cols
    requires OnTape(t, lines, ring) && Faithful(lines, FlowRows(s, k))
    ensures ScreenHolds(t, s, k)
  {
    hide ScreenOk, OnTape, FlowRows;
    var n, h := k + s.scr.rows, t.scr.rows;
    var m := Min(n, h);
    TapeValid(t, lines, ring);
    forall i | 0 <= i < h
      ensures Paired(t.scr.grid[i].cells)
      ensures ShownRow(t.scr.grid[i].cells) == BaseRow(s, h, k, i)
      ensures t.scr.grid[i].wrapped == ImageWrap(s, h, k, i)
    {
      TapeRow(t, lines, ring, i);
      if i < m {
        assert LooksLike(lines[n - m + i].cells, FlowRows(s, k)[n - m + i].cells);
      } else {
        assert ShownRow(BlankCells(t.scr.cols)) == BlankCells(t.scr.cols);
      }
    }
  }

  lemma TapeRow(t: Term, lines: seq<Row>, ring: seq<Row>, i: nat)
    requires OnTape(t, lines, ring) && i < t.scr.rows
    ensures var m := Min(|lines|, t.scr.rows);
            && |t.scr.grid| == t.scr.rows
            && t.scr.grid[i] == if i < m then lines[|lines| - m + i] else BlankRow(t.scr.cols)
  {
    hide RingOf;
  }

  lemma FlowInRing(t: Term, s: Term, k: nat, lines: seq<Row>)
    requires s.Valid() && k <= |s.scr.sb|
    requires OnTape(t, lines, []) && Faithful(lines, FlowRows(s, k)) && |t.scr.sb| <= t.scr.maxSb
    ensures RingReplayed(t, s, k)
  {
    hide FlowRows, LooksLike, RingOf;
    var off := k + s.scr.rows - Landed(s, t.scr.rows, k);
    var n := Min(off, t.scr.maxSb);
    RingNewest(t.scr.maxSb, lines[..off]);
    assert t.scr.sb == lines[..off][off - n..];
    forall i | 0 <= i < n
      ensures ShownRow(t.scr.sb[i].cells) == ShownRow(FlowRows(s, k)[off - n + i].cells)
      ensures t.scr.sb[i].wrapped == FlowRows(s, k)[off - n + i].wrapped
    {
      assert t.scr.sb[i] == lines[off - n + i];
      LooksSame(lines[off - n + i].cells, FlowRows(s, k)[off - n + i].cells);
    }
  }

  lemma RingNewest(maxSb: nat, rows: seq<Row>)
    ensures RingOf(maxSb, [], rows) == rows[|rows| - Min(|rows|, maxSb)..]
  {
    assert [] + rows == rows;
  }

  lemma LooksSame(cells: seq<Cell>, row: seq<Cell>)
    requires LooksLike(cells, row)
    ensures ShownRow(cells) == ShownRow(row)
  {
  }
}
