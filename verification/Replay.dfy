// The dump as a program, phase by phase, against the terminal it is replayed on.

module Replay {
  import opened Cells
  import opened Machine
  import opened Printing
  import opened Frame
  import opened Invariants
  import opened Tape
  import opened Emit
  import opened Flow
  import opened Dump

  /** How the cursor is positioned: from home, or by the flow's last line. */
  datatype CursorAnchor = Absolute | Relative

  // --- what is printed ------------------------------------------------------------

  function GridOut(p: Printer, s: Term): Printer {
    RowsOut(p.Plus([Cup(1, 1)]).(afterWrap := false), s.scr.grid, |s.scr.grid|, false, true)
  }

  function ScreenOut(p: Printer, s: Term, k: nat): Printer
    requires k <= |s.scr.sb|
  {
    if k == 0 then GridOut(p, s) else
      var tail := s.scr.sb[|s.scr.sb| - k..];
      var q := if s.modes.origin then p.Plus([SetMode(Origin, true)]) else p;
      RowsOut(RowsOut(q, tail, k, true, false), s.scr.grid, |s.scr.grid|, true, true)
  }

  function SaveOut(p: Printer, s: Term): Printer
    requires s.Valid()
  {
    var up, col := s.scr.rows - 1 - s.cur.row, PrintCol(s);
    var q := if up > 0 then p.Plus([Cr]).Plus([Cuu(up)]) else p.Plus([Cr]);
    (if col > 0 then q.Plus([Cha(col + 1)]) else q).Plus([Decsc])
  }

  /** The stops among the first `n` columns. */
  function StopsOut(p: Printer, tabs: seq<bool>, n: nat): Printer
    requires n <= |tabs|
    decreases n
  {
    if n == 0 then p
    else if tabs[n - 1] then StopsOut(p, tabs, n - 1).Plus([Cup(1, n)]).Plus([Hts])
    else StopsOut(p, tabs, n - 1)
  }

  function TabsOut(p: Printer, s: Term): Printer {
    if s.tabs == DefaultTabs(s.scr.cols) then p else StopsOut(p.Plus([Tbc]), s.tabs, |s.tabs|)
  }

  function ModeOut(p: Printer, differs: bool, m: Mode, on: bool): Printer {
    if differs then p.Plus([SetMode(m, on)]) else p
  }

  function RegionOut(p: Printer, s: Term): Printer {
    ModeOut(if s.FullRegion() then p else p.Plus([Stbm(s.top + 1, s.bot + 1)]), s.modes.origin, Origin, true)
  }

  function ModesOut(p: Printer, s: Term): Printer {
    ModeOut(ModeOut(ModeOut(TabsOut(RegionOut(p, s), s), !s.modes.autowrap, Autowrap, false),
                    s.modes.insert, Insert, true), s.modes.lnm, Lnm, true)
  }

  /** A cell once more, in its own style but the pen's link, and the pen put back. */
  function RedoOut(p: Printer, c: Cell): Printer {
    p.Penned(c.style, p.link).Plus(Drawn(c)).Repenned(p.style)
  }

  function PlaceOut(p: Printer, s: Term, anchor: CursorAnchor): Printer
    requires s.Valid()
  {
    match anchor
    case Relative => p.Plus([Decrc]).Penned(s.cur.style, s.cur.link)
    case Absolute =>
      p.Penned(s.cur.style, s.cur.link)
       .Plus([Cup(Max(s.cur.row - if s.modes.origin then s.top else 0, 0) + 1, PrintCol(s) + 1)])
  }

  function RearmOut(p: Printer, s: Term): Printer
    requires s.Valid()
  {
    if s.cur.pending then RedoOut(p, s.Cells()[PrintCol(s)]) else p
  }

  function CursorOut(p: Printer, s: Term, anchor: CursorAnchor): Printer
    requires s.Valid()
  {
    ModeOut(RearmOut(PlaceOut(p, s, anchor), s), !s.modes.visible, Visible, false)
  }

  /** The dump that replays the newest `k` rows of the ring. */
  function TailOut(s: Term, k: nat): seq<Action>
    requires s.Valid() && k <= |s.scr.sb|
  {
    var p := ScreenOut(Printer([], DEFAULT_STYLE, 0, false), s, k);
    CursorOut(ModesOut(if k > 0 then SaveOut(p, s) else p, s), s, if k > 0 then Relative else Absolute).out
  }

  // --- the methods that print it ----------------------------------------------------

  lemma FreshBetween(t: Term)
    requires Flowing(t) && t.cur.row == 0 && t.cur.col == 0 && !t.cur.pending
    requires t.scr.grid == BlankRows(t.scr.rows, t.scr.cols)
    ensures Flow.Between(t, [], [], t.scr.sb, false)
  {
    hide OnTape, Term.Valid;
    FreshFlow(t);
    TapeStart(t);
    assert TapeOf([], false, t.scr.cols) == [BlankRow(t.scr.cols)];
  }

  lemma FreshFlow(t: Term)
    requires Flowing(t)
    ensures t.Valid()
  {
  }

  lemma StepOriginHome(t: Term)
    requires t.Valid() && t.FullRegion()
    ensures t.Step(SetMode(Origin, true)) == t.(modes := t.modes.(origin := true)).At(0, 0, false)
  {
  }

  /** `draw_grid`: the grid from home, on a cleared screen. */
  method DrawGrid(st: EmitState, s: Term) returns (ghost lines: seq<Row>)
    requires Dumpable(s) && st.Valid() && Flowing(st.scr) && !st.scr.modes.origin
    requires st.scr.scr.cols == s.scr.cols && st.scr.scr.grid == BlankRows(st.scr.scr.rows, s.scr.cols)
    modifies st
    ensures st.Valid() && st.start == old(st.start) && SameRest(old(st.scr), st.scr)
    ensures OnTape(st.scr, lines, old(st.scr).scr.sb) && Faithful(lines, s.scr.grid)
    ensures st.Now() == GridOut(old(st.Now()), s)
  {
    hide Run, Term.Step, OnTape, Faithful, Between, RowOk, RowsOut, Printer.Plus;
    RowsFit(s, 0);
    StepCup(st.scr, 0, 0);
    st.Emit(Cup(1, 1));
    st.afterWrap := false;
    FreshBetween(st.scr);
    lines := EmitRows(st, s.scr.grid, false, true, [], [], st.scr.scr.sb);
    assert [] + s.scr.grid == s.scr.grid;
  }

  /** The grid from home, or ring tail and grid as one flow. */
  method EmitScreen(st: EmitState, s: Term, k: nat) returns (ghost lines: seq<Row>)
    requires Dumpable(s) && k <= |s.scr.sb|
    requires st.Valid() && st.out == [] && !st.afterWrap && st.scr.scr.cols == s.scr.cols
    requires st.scr == FreshTerm(st.scr.scr.rows, s.scr.cols, st.scr.scr.maxSb)
    modifies st
    ensures st.Valid() && st.start == old(st.start)
    ensures st.scr == old(st.scr).(scr := st.scr.scr, cur := st.scr.cur, modes := DEFAULT_MODES.(origin := k > 0 && s.modes.origin))
    ensures old(st.scr).SameShape(st.scr)
    ensures OnTape(st.scr, lines, []) && Faithful(lines, FlowRows(s, k))
    ensures st.Now() == ScreenOut(old(st.Now()), s, k)
  {
    hide Run, Term.Step, OnTape, Faithful, Between, RowOk, GridOut, RowsOut, Printer.Plus;
    RowsFit(s, k);
    if k > 0 {
      if s.modes.origin {
        StepOriginHome(st.scr);
        st.Emit(SetMode(Origin, true));
      }
      FreshBetween(st.scr);
      ghost var tail := s.scr.sb[|s.scr.sb| - k..];
      lines := EmitRows(st, s.scr.sb[|s.scr.sb| - k..], true, false, [], [], []);
      assert [] + tail == tail;
      lines := EmitRows(st, s.scr.grid, true, true, tail, lines, []);
    } else {
      lines := DrawGrid(st, s);
      assert FlowRows(s, 0) == s.scr.grid;
    }
  }

  lemma RowsFit(s: Term, k: nat)
    requires Dumpable(s) && k <= |s.scr.sb|
    ensures RowsOk(s.scr.sb[|s.scr.sb| - k..], s.scr.cols) && RowsOk(s.scr.grid, s.scr.cols)
  {
    hide RowOk;
  }

  lemma StepCuu(t: Term, n: nat)
    requires t.Valid() && t.FullRegion() && 1 <= n <= t.cur.row
    ensures t.Step(Cuu(n)) == t.At(t.cur.row - n, t.cur.col, false)
  {
  }

  lemma StepCha(t: Term, c: nat)
    requires t.Valid() && c < t.scr.cols
    ensures t.Step(Cha(c + 1)) == t.At(t.cur.row, c, false)
  {
  }

  lemma StepDecsc(t: Term)
    requires t.Valid()
    ensures t.Step(Decsc) == t.(saved := t.cur, savedOrigin := t.modes.origin)
  {
  }

  /** Move from the end of the flow to the source cursor's cell and save it,
      before the mode, tab and region replay moves the cursor. */
  method SaveFlowAnchored(st: EmitState, s: Term)
    requires Dumpable(s) && st.Valid() && st.scr.FullRegion() && st.scr.scr.cols == s.scr.cols
    requires st.scr.cur.row >= s.scr.rows - 1
    modifies st`out, st`scr
    ensures st.Valid()
    ensures var c := old(st.scr).cur.(row := old(st.scr).cur.row - (s.scr.rows - 1 - s.cur.row), col := PrintCol(s), pending := false);
            st.scr == old(st.scr).(cur := c, saved := c, savedOrigin := old(st.scr).modes.origin)
    ensures st.Now() == SaveOut(old(st.Now()), s)
  {
    hide Run, Term.Step, ScreenOk, Printer.Plus;
    var up, printCol := s.scr.rows - 1 - s.cur.row, PrintCol(s);
    StepCr(st.scr);
    st.Emit(Cr);
    if up > 0 {
      StepCuu(st.scr, up);
      st.Emit(Cuu(up));
    }
    if printCol > 0 {
      StepCha(st.scr, printCol);
      st.Emit(Cha(printCol + 1));
    }
    StepDecsc(st.scr);
    st.Emit(Decsc);
  }

  // --- modes ------------------------------------------------------------------

  /** Everything but the cursor's position, modes, region and tabs. */
  predicate SamePaint(t: Term, u: Term) {
    && t.Valid() && u.Valid() && u.scr == t.scr
    && u.cur.style == t.cur.style && u.cur.link == t.cur.link
    && u.saved == t.saved && u.savedOrigin == t.savedOrigin
  }

  lemma StepTbc(t: Term)
    requires t.Valid()
    ensures var u := t.Step(Tbc); u == t.(tabs := u.tabs) && |u.tabs| == t.scr.cols && forall i :: 0 <= i < t.scr.cols ==> !u.tabs[i]
  {
  }

  lemma StepTab(t: Term, i: nat)
    requires t.Valid() && i < t.scr.cols
    ensures var u := t.Step(Cup(1, i + 1)); u == t.At(u.cur.row, i, false) && u.Step(Hts) == u.(tabs := u.tabs[i := true])
  {
  }

  method SetStop(st: EmitState, i: nat)
    requires st.Valid() && i < st.scr.scr.cols
    modifies st`out, st`scr
    ensures st.Valid() && SamePaint(old(st.scr), st.scr) && st.scr.tabs == old(st.scr).tabs[i := true]
    ensures st.scr.modes == old(st.scr).modes && st.scr.top == old(st.scr).top && st.scr.bot == old(st.scr).bot
    ensures st.Now() == old(st.Now()).Plus([Cup(1, i + 1)]).Plus([Hts])
  {
    hide Run, Term.Step, Printer.Plus;
    StepTab(st.scr, i);
    st.Emit(Cup(1, i + 1));
    st.Emit(Hts);
  }

  /** Tab stops, if they are not the default ones: clear all, then set each. */
  method DumpTabs(st: EmitState, s: Term)
    requires s.Valid() && st.Valid() && st.scr.scr.cols == s.scr.cols
    modifies st`out, st`scr
    ensures st.Valid() && SamePaint(old(st.scr), st.scr)
    ensures st.scr.tabs == if s.tabs == DefaultTabs(s.scr.cols) then old(st.scr).tabs else s.tabs
    ensures st.scr.modes == old(st.scr).modes
    ensures st.scr.top == old(st.scr).top && st.scr.bot == old(st.scr).bot
    ensures st.Now() == TabsOut(old(st.Now()), s)
  {
    hide Run, Term.Step, DefaultTabs, Printer.Plus;
    if s.tabs == DefaultTabs(s.scr.cols) {
      return;
    }
    StepTbc(st.scr);
    st.Emit(Tbc);
    for i := 0 to |s.tabs|
      invariant st.Valid() && SamePaint(old(st.scr), st.scr)
      invariant st.scr.modes == old(st.scr).modes && st.scr.top == old(st.scr).top && st.scr.bot == old(st.scr).bot
      invariant forall j :: 0 <= j < |s.tabs| ==> st.scr.tabs[j] == (j < i && s.tabs[j])
      invariant st.Now() == StopsOut(old(st.Now()).Plus([Tbc]), s.tabs, i)
    {
      if s.tabs[i] {
        SetStop(st, i);
      }
    }
  }

  lemma StepRegion(t: Term, top: nat, bot: nat)
    requires t.Valid() && top < bot < t.scr.rows
    ensures var u := t.Step(Stbm(top + 1, bot + 1));
            SamePaint(t, u) && u.top == top && u.bot == bot && u.modes == t.modes && u.tabs == t.tabs
  {
  }

  function WithMode(modes: Modes, m: Mode, on: bool): Modes {
    match m
    case Origin => modes.(origin := on)
    case Autowrap => modes.(autowrap := on)
    case Insert => modes.(insert := on)
    case Lnm => modes.(lnm := on)
    case Visible => modes.(visible := on)
  }

  lemma StepMode(t: Term, m: Mode, on: bool)
    requires t.Valid()
    ensures var u := t.Step(SetMode(m, on));
            && SamePaint(t, u) && u.top == t.top && u.bot == t.bot && u.tabs == t.tabs
            && u.modes == WithMode(t.modes, m, on)
  {
  }

  /** Region and origin mode, if they are not a fresh terminal's. */
  method DumpRegion(st: EmitState, s: Term)
    requires Dumpable(s) && st.Valid() && st.scr.FullRegion()
    requires st.scr.scr.cols == s.scr.cols && st.scr.scr.rows >= s.scr.rows
    requires st.scr.modes.origin ==> s.modes.origin
    modifies st`out, st`scr
    ensures st.Valid() && SamePaint(old(st.scr), st.scr) && st.scr.tabs == old(st.scr).tabs
    ensures (st.scr.top, st.scr.bot) == RegionOf(s, st.scr.scr.rows)
    ensures st.scr.modes == old(st.scr).modes.(origin := s.modes.origin)
    ensures st.Now() == RegionOut(old(st.Now()), s)
  {
    hide Run, Term.Step, ScreenOk, Printer.Plus;
    if !s.FullRegion() {
      StepRegion(st.scr, s.top, s.bot);
      st.Emit(Stbm(s.top + 1, s.bot + 1));
    }
    if s.modes.origin {
      StepMode(st.scr, Origin, true);
      st.Emit(SetMode(Origin, true));
    }
  }

  /** Set one mode, if the source's differs from a fresh terminal's. */
  method DumpMode(st: EmitState, differs: bool, m: Mode, on: bool)
    requires st.Valid()
    modifies st`out, st`scr
    ensures st.Valid() && SamePaint(old(st.scr), st.scr) && st.scr.tabs == old(st.scr).tabs
    ensures st.scr.top == old(st.scr).top && st.scr.bot == old(st.scr).bot
    ensures st.scr.modes == if differs then WithMode(old(st.scr).modes, m, on) else old(st.scr).modes
    ensures st.Now() == ModeOut(old(st.Now()), differs, m, on)
  {
    hide Run, Term.Step, Printer.Plus;
    if differs {
      StepMode(st.scr, m, on);
      st.Emit(SetMode(m, on));
    }
  }

  /** Region, origin mode, tabs, autowrap, insert, LNM: only what differs from
      a fresh terminal. The cursor ends up wherever these leave it. */
  method DumpModes(st: EmitState, s: Term)
    requires Dumpable(s) && st.Valid() && st.scr.FullRegion()
    requires st.scr.scr.cols == s.scr.cols && st.scr.scr.rows >= s.scr.rows
    requires st.scr.modes == DEFAULT_MODES.(origin := st.scr.modes.origin, visible := st.scr.modes.visible)
    requires st.scr.modes.origin ==> s.modes.origin
    modifies st`out, st`scr
    ensures st.Valid() && SamePaint(old(st.scr), st.scr)
    ensures (st.scr.top, st.scr.bot) == RegionOf(s, st.scr.scr.rows)
    ensures st.scr.tabs == if s.tabs == DefaultTabs(s.scr.cols) then old(st.scr).tabs else s.tabs
    ensures st.scr.modes == s.modes.(visible := old(st.scr).modes.visible)
    ensures st.Now() == ModesOut(old(st.Now()), s)
  {
    hide Run, Term.Step, ScreenOk, DefaultTabs, RegionOf, TabsOut, RegionOut, ModeOut;
    DumpRegion(st, s);
    DumpTabs(st, s);
    DumpMode(st, !s.modes.autowrap, Autowrap, false);
    DumpMode(st, s.modes.insert, Insert, true);
    DumpMode(st, s.modes.lnm, Lnm, true);
  }

  // --- the cursor ---------------------------------------------------------------

  /** Drawing the last cell again, seen row by row. */
  lemma RedrawnShown(cells: seq<Cell>, col: nat, c: Cell)
    requires Paired(cells) && CellOk(c) && c.width != 0 && col + c.width == |cells|
    ensures ShownRow(PutCell(cells, col, c, c.style, c.link)) == Redrawn(ShownRow(cells), col, c)
    ensures Paired(PutCell(cells, col, c, c.style, c.link))
  {
    hide PutCell, Shown;
    PutEffect(cells, col, c, c.style, c.link);
    ShownDrawn(c);
    ShownWidth(cells[col]);
    var r := PutCell(cells, col, c, c.style, c.link);
    forall x | 0 <= x < |cells|
      ensures Shown(r[x]) == RedrawnAt(ShownRow(cells), col, c, x)
    {
      if x > col {
        CellShape(c);
        SpacerShown(r[x], SPACER);
        ShownSpacer();
      } else if x + 1 == col {
        ShownBlank();
      }
    }
  }

  /** Marks show where they go. */
  lemma MarkedShown(cells: seq<Cell>, extra: seq<Glyph>)
    requires Paired(cells)
    ensures ShownRow(Marked(cells, extra)) == Marked(ShownRow(cells), extra)
  {
    if |cells| > 1 {
      var n := |cells|;
      assert !Orphan(cells, n - 2);
      ShownWidth(cells[n - 2]);
      var k := MarkCol(cells);
      assert cells[k].width != 0;
      assert ShownRow(Marked(cells, extra))[k] == Marked(ShownRow(cells), extra)[k];
    }
  }

  /** The row after its last cell is printed again with the cell's own pen. */
  function Reput(cells: seq<Cell>, col: nat, c: Cell, autowrap: bool): (r: seq<Cell>)
    requires col < |cells| && CellOk(c) && c.width != 0
    ensures |r| == |cells|
  {
    if autowrap then PutCell(cells, col, c, c.style, c.link)
    else Marked(PutCell(cells, col, c.(extra := []), c.style, c.link), c.extra)
  }

  lemma ReputShown(cells: seq<Cell>, col: nat, c: Cell, autowrap: bool)
    requires Paired(cells) && CellOk(c) && c.width != 0 && col + c.width == |cells|
    ensures ShownRow(Reput(cells, col, c, autowrap)) == Reprinted(ShownRow(cells), col, c, autowrap)
  {
    hide PutCell, Redrawn, Marked, ShownRow;
    if autowrap {
      RedrawnShown(cells, col, c);
    } else {
      RedrawnShown(cells, col, c.(extra := []));
      MarkedShown(PutCell(cells, col, c.(extra := []), c.style, c.link), c.extra);
    }
  }

  lemma ShownWidth(c: Cell)
    ensures Shown(c).width == c.width
  {
  }

  lemma ShownBlank()
    ensures Shown(BLANK) == BLANK
  {
  }

  lemma ShownSpacer()
    ensures Shown(SPACER) == SPACER
  {
  }

  /** The cell whose printing arms the pending wrap ends the row. */
  lemma PrintColEnds(s: Term)
    requires Dumpable(s)
    ensures var c := s.Cells()[PrintCol(s)];
            && (s.cur.pending ==> CellOk(c) && c.width != 0 && PrintCol(s) + c.width == s.scr.cols)
            && (!s.cur.pending ==> PrintCol(s) == s.cur.col)
  {
    var cells := s.Cells();
    assert RowOk(cells, s.scr.cols);
    if s.cur.pending {
      assert !Orphan(cells, s.cur.col);
      assert CellOk(cells[s.cur.col]);
      assert s.cur.col > 0 ==> CellOk(cells[s.cur.col - 1]);
    }
  }

  /** The terminal after its last cell was drawn as `c` and the pen put back. */
  function Redone(t: Term, c: Cell): Term
    requires t.Valid() && CellOk(c) && c.width != 0
  {
    t.SetCells(Reput(t.Cells(), t.cur.col, c, t.modes.autowrap)).At(t.cur.row, t.scr.cols - 1, t.modes.autowrap)
  }

  lemma RedoneFacts(t: Term, c: Cell)
    requires t.Valid() && CellOk(c) && c.width != 0
    ensures OnlyRow(t, Redone(t, c), t.cur.row)
    ensures Redone(t, c).scr.grid[t.cur.row] ==
            t.scr.grid[t.cur.row].(cells := Reput(t.Cells(), t.cur.col, c, t.modes.autowrap))
    ensures Redone(t, c).cur == t.cur.(col := t.scr.cols - 1, pending := t.modes.autowrap)
  {
    hide Reput;
  }

  /** Drawing it with its own pen and putting the pen back comes to that. */
  lemma RedoneIs(t: Term, c: Cell)
    requires t.Valid() && CellOk(c) && c.width != 0 && t.cur.col + c.width == t.scr.cols && !t.cur.pending
    ensures var u := PenSet(t, c.style, c.link);
            && u.Valid()
            && PenSet(if t.modes.autowrap then AfterDraw(u, c) else AfterFlat(u, c), t.cur.style, t.cur.link) == Redone(t, c)
  {
    hide PutCell, Marked;
  }

  lemma BaseNone(t: Term)
    requires t.Valid() && !t.cur.pending
    ensures Base(t) == t
  {
  }

  /** Draw the cell under the cursor again, to re-arm the pending wrap, and put
      the pen back. */
  method Redo(st: EmitState, cell: Cell)
    requires st.Valid() && CellOk(cell) && cell.width != 0
    requires st.scr.cur.col + cell.width == st.scr.scr.cols && !st.scr.cur.pending && Paired(st.scr.Cells())
    modifies st`out, st`scr, st`style, st`link
    ensures st.Valid() && st.style == old(st.style) && st.link == old(st.link)
    ensures st.scr == Redone(old(st.scr), cell.(link := old(st.link)))
    ensures st.Now() == RedoOut(old(st.Now()), cell)
  {
    hide Run, AfterDraw, AfterFlat, Redone, Paired, Base, Printer.Plus, Printer.Penned, Printer.Repenned;
    var pen := st.style;
    RedoneIs(st.scr, cell.(link := st.link));
    st.SetPen(cell.style, st.link);
    BaseNone(st.scr);
    st.PutChars(cell.(link := st.link));
    st.RestorePen(pen);
  }

  lemma StepDecrc(t: Term)
    requires t.Valid() && t.saved.row < t.scr.rows && t.saved.col < t.scr.cols
    ensures t.Step(Decrc) == t.(modes := t.modes.(origin := t.savedOrigin),
                                cur := t.saved.(row := if t.savedOrigin then Max(t.top, Min(t.saved.row, t.bot)) else t.saved.row))
  {
  }

  lemma StepCupAny(t: Term, r: nat, c: nat)
    requires t.Valid() && r < t.scr.rows && c < t.scr.cols
    ensures t.Step(Cup(r + 1, c + 1)) == t.At(if t.modes.origin then Min(t.top + r, t.bot) else r, c, false)
  {
  }

  /** The anchor's half of `dump_cursor`: position and pen. */
  method PlaceCursor(st: EmitState, s: Term, k: nat, anchor: CursorAnchor)
    requires Dumpable(s) && k <= |s.scr.sb| && st.Valid()
    requires st.scr.scr.cols == s.scr.cols && st.scr.scr.rows >= s.scr.rows
    requires (st.scr.top, st.scr.bot) == RegionOf(s, st.scr.scr.rows) && st.scr.modes.origin == s.modes.origin
    requires anchor == Absolute ==> k == 0
    requires anchor == Relative ==>
               && st.scr.saved == Cursor(OwnRow(s, st.scr.scr.rows, k), PrintCol(s), false, st.style, st.link)
               && st.scr.savedOrigin == s.modes.origin
    modifies st`out, st`scr, st`style, st`link
    ensures st.Valid() && st.style == s.cur.style && st.link == s.cur.link
    ensures st.scr == old(st.scr).(cur := Cursor(CursorRow(s, st.scr.scr.rows, k), PrintCol(s), false, s.cur.style, s.cur.link))
    ensures st.Now() == PlaceOut(old(st.Now()), s, anchor)
  {
    hide Run, Term.Step, ScreenOk, PrintCol, Printer.Plus, Printer.Penned;
    if anchor == Relative {
      StepDecrc(st.scr);
      st.Emit(Decrc);
    }
    st.SetPen(s.cur.style, s.cur.link);
    if anchor == Absolute {
      var top := if s.modes.origin then s.top else 0;
      var r := Max(s.cur.row - top, 0);
      StepCupAny(st.scr, r, PrintCol(s));
      st.Emit(Cup(r + 1, PrintCol(s) + 1));
    }
  }

  lemma ReplayedPlain(t: Term, s: Term, k: nat)
    requires Dumpable(s) && k <= |s.scr.sb| && t.scr.cols == s.scr.cols && t.scr.rows >= s.scr.rows
    requires ScreenHolds(t, s, k) && !s.cur.pending
    requires t.cur == Cursor(CursorRow(s, t.scr.rows, k), PrintCol(s), false, s.cur.style, s.cur.link)
    requires (t.top, t.bot) == RegionOf(s, t.scr.rows)
    ensures Replayed(t.(modes := s.modes, tabs := s.tabs), s, k)
  {
    hide BaseRow, ImageWrap, CursorRow;
    PrintColEnds(s);
  }

  lemma ReplayedPending(t: Term, s: Term, k: nat)
    requires Dumpable(s) && k <= |s.scr.sb| && t.scr.cols == s.scr.cols && t.scr.rows >= s.scr.rows
    requires ScreenHolds(t, s, k) && s.cur.pending && t.modes.autowrap == s.modes.autowrap
    requires t.cur == Cursor(CursorRow(s, t.scr.rows, k), PrintCol(s), false, s.cur.style, s.cur.link)
    requires (t.top, t.bot) == RegionOf(s, t.scr.rows)
    requires CellOk(Redraw(s)) && Redraw(s).width != 0
    ensures Replayed(Redone(t, Redraw(s)).(modes := s.modes, tabs := s.tabs), s, k)
    ensures Redone(t, Redraw(s)).scr.sb == t.scr.sb
  {
    hide BaseRow, ImageWrap, CursorRow, Reput, Reprinted, Redone;
    PrintColEnds(s);
    RedoneFacts(t, Redraw(s));
    ReputShown(t.Cells(), PrintCol(s), Redraw(s), s.modes.autowrap);
  }

  /** Draw the last cell again if a wrap is pending. */
  method Rearm(st: EmitState, s: Term, k: nat)
    requires Dumpable(s) && k <= |s.scr.sb| && st.Valid() && st.link == s.cur.link
    requires st.scr.scr.cols == s.scr.cols && st.scr.scr.rows >= s.scr.rows && ScreenHolds(st.scr, s, k)
    requires (st.scr.top, st.scr.bot) == RegionOf(s, st.scr.scr.rows)
    requires st.scr.modes.autowrap == s.modes.autowrap
    requires st.scr.cur == Cursor(CursorRow(s, st.scr.scr.rows, k), PrintCol(s), false, s.cur.style, s.cur.link)
    modifies st`out, st`scr, st`style, st`link
    ensures st.Valid() && Replayed(st.scr.(modes := s.modes, tabs := s.tabs), s, k)
    ensures SameRest(old(st.scr), st.scr) && st.scr.scr.sb == old(st.scr).scr.sb
    ensures st.Now() == RearmOut(old(st.Now()), s)
  {
    hide Run, Term.Step, ScreenOk, PrintCol, Replayed, CursorRow, Redone, Paired, RegionOf, RedoOut;
    ghost var t := st.scr;
    PrintColEnds(s);
    if !s.cur.pending {
      ReplayedPlain(t, s, k);
      return;
    }
    ReplayedPending(t, s, k);
    RedoneFacts(t, Redraw(s));
    Redo(st, s.Cells()[PrintCol(s)]);
  }

  /** `dump_cursor`: anchor, pen, pending wrap, visibility. */
  method DumpCursor(st: EmitState, s: Term, k: nat, anchor: CursorAnchor)
    requires Dumpable(s) && k <= |s.scr.sb| && st.Valid()
    requires st.scr.scr.cols == s.scr.cols && st.scr.scr.rows >= s.scr.rows
    requires ScreenHolds(st.scr, s, k)
    requires (st.scr.top, st.scr.bot) == RegionOf(s, st.scr.scr.rows)
    requires st.scr.modes.autowrap == s.modes.autowrap && st.scr.modes.origin == s.modes.origin
    requires anchor == Absolute ==> k == 0
    requires anchor == Relative ==>
               && st.scr.saved == Cursor(OwnRow(s, st.scr.scr.rows, k), PrintCol(s), false, st.style, st.link)
               && st.scr.savedOrigin == s.modes.origin
    modifies st`out, st`scr, st`style, st`link
    ensures st.Valid() && CursorDumped(old(st.scr), st.scr, s, k)
    ensures st.Now() == CursorOut(old(st.Now()), s, anchor)
  {
    hide Run, Term.Step, ScreenOk, PrintCol, Replayed, CursorRow, OwnRow, ScreenHolds, RegionOf, PlaceOut, RearmOut, ModeOut,
      CursorDumped, SameRest;
    ghost var t := st.scr;
    PlaceCursor(st, s, k, anchor);
    ghost var a := st.scr;
    SameScreen(t, a, s, k);
    Rearm(st, s, k);
    ghost var b := st.scr;
    HideCursor(st, s);
    CursorDumpedBy(t, a, b, st.scr, s, k);
  }

  /** The source is shown but for modes and tab stops, of which only the cursor's
      visibility changed; the ring is as it was. */
  predicate CursorDumped(t: Term, u: Term, s: Term, k: nat)
    requires s.Valid() && ScreenOk(s.scr) && k <= |s.scr.sb|
  {
    && Replayed(u.(modes := s.modes, tabs := s.tabs), s, k)
    && u.modes == t.modes.(visible := t.modes.visible && s.modes.visible)
    && SameRest(t, u.(modes := t.modes)) && u.scr.sb == t.scr.sb
  }

  lemma CursorDumpedBy(t: Term, a: Term, b: Term, u: Term, s: Term, k: nat)
    requires Dumpable(s) && k <= |s.scr.sb|
    requires a == t.(cur := a.cur) && SameRest(a, b) && b.scr.sb == a.scr.sb
    requires Replayed(b.(modes := s.modes, tabs := s.tabs), s, k)
    requires u == b.(modes := b.modes.(visible := b.modes.visible && s.modes.visible))
    ensures CursorDumped(t, u, s, k)
  {
    hide Replayed, ScreenOk;
    assert u.(modes := s.modes, tabs := s.tabs) == b.(modes := s.modes, tabs := s.tabs);
  }

  method HideCursor(st: EmitState, s: Term)
    requires st.Valid()
    modifies st`out, st`scr
    ensures st.Valid() && st.scr == old(st.scr).(modes := old(st.scr).modes.(visible := old(st.scr).modes.visible && s.modes.visible))
    ensures st.Now() == ModeOut(old(st.Now()), !s.modes.visible, Visible, false)
  {
    hide Run, Term.Step, Printer.Plus;
    if !s.modes.visible {
      StepVisible(st.scr, false);
      st.Emit(SetMode(Visible, false));
    }
  }

  // --- the dumps ------------------------------------------------------------------

  /** The replay of the newest `k` ring rows and the grid. The result, run on any
      fresh terminal of the source's width and at least its height, shows what
      `Replayed` says, and its ring holds the rest of the flow. */
  method DumpVtTail(s: Term, maxRows: nat, ghost t: Term) returns (out: seq<Action>)
    requires Dumpable(s)
    requires t.scr.rows >= s.scr.rows && t == FreshTerm(t.scr.rows, s.scr.cols, t.scr.maxSb)
    ensures Replayed(Run(t, out), s, Min(|s.scr.sb|, maxRows))
    ensures RingReplayed(Run(t, out), s, Min(|s.scr.sb|, maxRows))
    ensures out == TailOut(s, Min(|s.scr.sb|, maxRows))
  {
    hide Run, Term.Step, ScreenOk, Replayed, RingReplayed, OnTape, Faithful, ScreenHolds, ScreenOut, SaveOut, ModesOut, CursorOut,
      CursorDumped;
    var k := Min(|s.scr.sb|, maxRows);
    var st := new EmitState.Fresh(t);
    ghost var lines := EmitScreen(st, s, k);
    ghost var flowed := st.scr;
    var anchor := if k > 0 then Relative else Absolute;
    FlowFacts(st.scr, s, k, lines);
    if k > 0 {
      SaveFlowAnchored(st, s);
    }
    DumpModes(st, s);
    SameScreen(flowed, st.scr, s, k);
    ghost var ready := st.scr;
    SameRing(flowed, ready, s, k);
    DumpCursor(st, s, k, anchor);
    DumpedIs(ready, st.scr, s, k);
    out := st.out;
  }

  lemma DumpedIs(t: Term, u: Term, s: Term, k: nat)
    requires Dumpable(s) && k <= |s.scr.sb| && t.Valid() && u.Valid() && RingReplayed(t, s, k) && CursorDumped(t, u, s, k)
    requires t.modes == s.modes.(visible := true) && t.tabs == s.tabs
    ensures Replayed(u, s, k) && RingReplayed(u, s, k)
  {
    hide Replayed, ScreenOk, RingReplayed;
    assert u == u.(modes := s.modes, tabs := s.tabs);
    SameRing(t, u, s, k);
  }

  lemma FlowFacts(t: Term, s: Term, k: nat, lines: seq<Row>)
    requires Dumpable(s) && k <= |s.scr.sb| && t.scr.cols == s.scr.cols && t.scr.rows >= s.scr.rows
    requires OnTape(t, lines, []) && Faithful(lines, FlowRows(s, k))
    ensures ScreenHolds(t, s, k) && RingReplayed(t, s, k)
    ensures t.FullRegion() && t.cur.row == Landed(s, t.scr.rows, k) - 1
  {
    hide ScreenHolds, RingReplayed;
    FlowOnScreen(t, s, k, lines, []);
    FlowInRing(t, s, k, lines);
  }

  lemma SameScreen(t: Term, u: Term, s: Term, k: nat)
    requires s.Valid() && k <= |s.scr.sb| && ScreenHolds(t, s, k) && u.Valid() && u.scr == t.scr
    ensures ScreenHolds(u, s, k)
  {
  }

  lemma SameRing(t: Term, u: Term, s: Term, k: nat)
    requires s.Valid() && k <= |s.scr.sb| && t.Valid() && u.Valid() && t.SameShape(u) && u.scr.sb == t.scr.sb
    requires RingReplayed(t, s, k)
    ensures RingReplayed(u, s, k)
  {
  }
}
