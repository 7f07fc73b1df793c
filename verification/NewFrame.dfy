// The whole frame: scroll shortcut, row diffs, cursor, pen
// (`new_frame_opt` in crates/posh-proto/src/display.rs).

module NewFrame {
  import opened Cells
  import opened Machine
  import opened Printing
  import opened RowDiff
  import opened Frame
  import opened Display

  // --- the scroll shortcut -----------------------------------------------------

  predicate Comparable(last: Snapshot, f: Snapshot) {
    last.Valid() && f.Valid() && last.rows == f.rows && last.cols == f.cols
  }

  predicate SameRow(last: Snapshot, f: Snapshot, newY: nat, oldY: nat)
    requires Comparable(last, f) && newY < f.rows && oldY < f.rows
  {
    f.cells[newY] == last.cells[oldY] && f.wrapped[newY] == last.wrapped[oldY]
  }

  /** The first old row from `row` on that equals new row 0, or `rows`. */
  function FirstMatch(last: Snapshot, f: Snapshot, row: nat): (r: nat)
    requires Comparable(last, f) && row <= f.rows
    ensures row <= r <= f.rows
    ensures r < f.rows ==> SameRow(last, f, 0, r)
    ensures forall k :: row <= k < r ==> !SameRow(last, f, 0, k)
    decreases f.rows - row
  {
    if row == f.rows || SameRow(last, f, 0, row) then row else FirstMatch(last, f, row + 1)
  }

  /** New rows `0..h` are the old rows `lines..lines + h`. */
  predicate MovedUp(last: Snapshot, f: Snapshot, lines: nat, h: nat)
    requires Comparable(last, f)
  {
    && lines + h <= f.rows
    && (forall k :: 0 <= k < h ==> f.cells[k] == last.cells[k + lines])
    && (forall k :: 0 <= k < h ==> f.wrapped[k] == last.wrapped[k + lines])
  }

  /** How far down the match that begins `lines` rows up extends. */
  function MatchHeight(last: Snapshot, f: Snapshot, lines: nat, h: nat): (r: nat)
    requires Comparable(last, f) && MovedUp(last, f, lines, h)
    ensures h <= r && MovedUp(last, f, lines, r)
    decreases f.rows - h
  {
    if lines + h < f.rows && SameRow(last, f, h, lines + h) then MatchHeight(last, f, lines, h + 1) else h
  }

  /** (rows scrolled, rows that then match); (0, 0) for no scroll. */
  function ScrollOf(last: Snapshot, f: Snapshot): (r: (nat, nat))
    requires Comparable(last, f)
    ensures r.1 > 0 ==> r.0 > 0
    ensures MovedUp(last, f, r.0, r.1)
  {
    var row := FirstMatch(last, f, 0);
    if row == 0 || row == f.rows then (0, 0) else (row, MatchHeight(last, f, row, 1))
  }

  method FindScroll(last: Snapshot, f: Snapshot) returns (lines: nat, height: nat)
    requires Comparable(last, f)
    ensures (lines, height) == ScrollOf(last, f)
  {
    hide Comparable;
    lines, height := 0, 0;
    var row := 0;
    while row < f.rows
      invariant row <= f.rows && lines == 0 && height == 0
      invariant FirstMatch(last, f, 0) == FirstMatch(last, f, row)
      invariant forall k :: 0 <= k < row ==> !SameRow(last, f, 0, k)
    {
      if SameRow(last, f, 0, row) {
        if row == 0 {
          break; // every row equals itself: no scroll to be had
        }
        lines, height := row, 1;
        while lines + height < f.rows && SameRow(last, f, height, lines + height)
          invariant 1 <= height && MovedUp(last, f, lines, height)
          invariant MatchHeight(last, f, lines, 1) == MatchHeight(last, f, lines, height)
          decreases f.rows - height
        {
          height := height + 1;
        }
        break;
      }
      row := row + 1;
    }
  }

  /** The model of the terminal's rows after rows 0..=bottom scroll by `lines`. */
  function Shifted(model: seq<seq<Cell>>, lines: nat, bottom: nat, cols: nat): (r: seq<seq<Cell>>)
    requires lines <= bottom + 1 <= |model|
    ensures |r| == |model|
    ensures forall y :: 0 <= y < |r| ==>
      r[y] == (if y + lines <= bottom then model[y + lines] else if y <= bottom then BlankCells(cols) else model[y])
  {
    seq(|model|, y requires 0 <= y < |model| =>
      if y + lines <= bottom then model[y + lines] else if y <= bottom then BlankCells(cols) else model[y])
  }

  lemma ShiftedSizes(model: seq<seq<Cell>>, lines: nat, bottom: nat, cols: nat)
    requires lines <= bottom + 1 <= |model| && forall y :: 0 <= y < |model| ==> |model[y]| == cols
    ensures forall y :: 0 <= y < |model| ==> |Shifted(model, lines, bottom, cols)[y]| == cols
  {
    var r := Shifted(model, lines, bottom, cols);
    forall y | 0 <= y < |model|
      ensures |r[y]| == cols
    {
      if y + lines <= bottom {
        assert r[y] == model[y + lines];
      } else if y <= bottom {
        assert r[y] == BlankCells(cols);
      } else {
        assert r[y] == model[y];
      }
    }
  }

  lemma Sizes(f: Snapshot)
    requires f.Valid()
    ensures |f.cells| == f.rows && forall y :: 0 <= y < f.rows ==> |f.cells[y]| == f.cols
  {
  }

  method ShiftModel(model: seq<seq<Cell>>, lines: nat, bottom: nat, cols: nat) returns (rows: seq<seq<Cell>>)
    requires lines <= bottom + 1 <= |model|
    ensures rows == Shifted(model, lines, bottom, cols)
  {
    rows := model;
    for i := 0 to bottom + 1
      invariant |rows| == |model|
      invariant forall y :: 0 <= y < |rows| ==> rows[y] == if y < i then Shifted(model, lines, bottom, cols)[y] else model[y]
    {
      rows := rows[i := if i + lines <= bottom then rows[i + lines] else BlankCells(cols)];
    }
  }

  /** Where the row diff starts, and against which rows. */
  datatype Plan = Plan(top: nat, model: seq<seq<Cell>>)

  function BlankGrid(rows: nat, cols: nat): (r: seq<seq<Cell>>)
    ensures |r| == rows
    ensures forall y :: 0 <= y < rows ==> r[y] == BlankCells(cols)
  {
    seq(rows, y => BlankCells(cols))
  }

  /** Every row from the top, on a cleared screen. */
  function BlankPlan(f: Snapshot): Plan {
    Plan(0, BlankGrid(f.rows, f.cols))
  }

  /** `init` is false when the screen is cleared first. */
  function PlanOf(init: bool, last: Snapshot, f: Snapshot, allowScroll: bool): (p: Plan)
    requires f.Valid() && (init ==> Comparable(last, f))
    ensures p.top <= f.rows && |p.model| == f.rows
    ensures forall y :: 0 <= y < f.rows ==> |p.model[y]| == f.cols
  {
    if !init then BlankPlan(f)
    else if allowScroll && ScrollOf(last, f).1 > 0 then
      var s := ScrollOf(last, f);
      Sizes(last);
      ShiftedSizes(last.cells, s.0, s.0 + s.1 - 1, f.cols);
      Plan(s.1, Shifted(last.cells, s.0, s.0 + s.1 - 1, f.cols))
    else Sizes(last); Plan(0, last.cells)
  }

  // --- what a caller can compute before the call -----------------------------------

  /** Is row `y`'s first cell forced by a wrap of the row above? */
  function WrapsInto(f: Snapshot, p: Plan, init: bool, y: nat): bool
    requires f.Valid() && |p.model| == f.rows && p.top <= y <= f.rows
    requires forall k :: 0 <= k < f.rows ==> |p.model[k]| == f.cols
    decreases y
  {
    p.top < y < f.rows && f.wrapped[y - 1] && Ends(f, y - 1, p.model[y - 1], init, WrapsInto(f, p, init, y - 1))
  }

  /** The row past whose right edge the position stands before row `y`, or -1. */
  function EdgeUpTo(f: Snapshot, p: Plan, init: bool, y: nat): int
    requires f.Valid() && |p.model| == f.rows && p.top <= y <= f.rows
    requires forall k :: 0 <= k < f.rows ==> |p.model[k]| == f.cols
    decreases y
  {
    if y == p.top then -1
    else EdgeAfter(f, y - 1, p.model[y - 1], init, WrapsInto(f, p, init, y - 1), EdgeUpTo(f, p, init, y - 1))
  }

  /** The frame leaves the cursor one column short: the diff ended past the
      right edge of the cursor's own row, and the cursor belongs fewer than five
      columns back, which is reached by backspaces counted from the edge. */
  predicate Short(initialized: bool, last: Snapshot, f: Snapshot, allowScroll: bool)
    requires last.Valid() && f.Valid()
  {
    var init := initialized && last.rows == f.rows && last.cols == f.cols;
    0 < f.cursorCol && f.cols < f.cursorCol + 5 &&
    EdgeUpTo(f, PlanOf(init, last, f, allowScroll), init, f.rows) == f.cursorRow
  }

  /** Every row of the plan has its model. */
  predicate PlanOk(f: Snapshot, p: Plan) {
    && p.top <= f.rows && |p.model| == f.rows
    && forall k :: 0 <= k < f.rows ==> |p.model[k]| == f.cols
  }

  /** Is cell `x` of row `y` left as the terminal has it: in a row that scrolled
      into place, or passed over by the scan as unchanged? */
  predicate Untouched(f: Snapshot, p: Plan, init: bool, y: nat, x: nat)
    requires f.Valid() && PlanOk(f, p) && y < f.rows && x < f.cols
  {
    f.cells[y][x].width != 0 &&
    (y < p.top || Skips(f.cells[y], p.model[y], init, FirstWidth(f, y, WrapsInto(f, p, init, y)), 0, x))
  }

  predicate InPicture(f: Snapshot, y: nat, x: nat) { y < f.rows && x < f.cols }

  /** The frame leaves an old hyperlink on the screen: a cell whose id stands for
      one URI in `last` and another in `f` is left as it is, because the diff
      compares ids. */
  ghost predicate Stale(initialized: bool, last: Snapshot, f: Snapshot, allowScroll: bool)
    requires last.Valid() && f.Valid()
  {
    var init := initialized && last.rows == f.rows && last.cols == f.cols;
    StaleIn(last, f, PlanOf(init, last, f, allowScroll), init)
  }

  ghost predicate StaleIn(last: Snapshot, f: Snapshot, p: Plan, init: bool)
    requires f.Valid() && PlanOk(f, p)
  {
    exists y: nat, x: nat ::
      InPicture(f, y, x) && Untouched(f, p, init, y, x) && last.Uri(f.cells[y][x].link) != f.Uri(f.cells[y][x].link)
  }

  /** How row `y` is shown in the end. */
  function FinalRow(last: Snapshot, f: Snapshot, p: Plan, init: bool, y: nat): (w: seq<Cell>)
    requires f.Valid() && PlanOk(f, p) && y < f.rows
    ensures |w| == f.cols
  {
    if y < p.top then last.Want(f.cells[y])
    else RowWant(f, y, p.model[y], last.Want(p.model[y]), init, WrapsInto(f, p, init, y))
  }

  lemma FinalIs(last: Snapshot, f: Snapshot, p: Plan, init: bool, y: nat, x: nat)
    requires f.Valid() && PlanOk(f, p) && y < f.rows && x < f.cols
    ensures FinalRow(last, f, p, init, y)[x] ==
            if Untouched(f, p, init, y, x) then last.LookOf(f.cells[y][x]) else f.LookOf(f.cells[y][x])
    ensures FinalRow(last, f, p, init, y)[x].width == f.cells[y][x].width
  {
    hide Look, Skips, WrapsInto, FirstWidth;
    var row := f.cells[y];
    LookWidth(row[x].(link := last.Uri(row[x].link)));
    LookWidth(row[x].(link := f.Uri(row[x].link)));
    if row[x].width == 0 {
      SpacerLook(row[x].(link := last.Uri(row[x].link)), row[x].(link := f.Uri(row[x].link)));
    }
    if p.top <= y {
      var start := FirstWidth(f, y, WrapsInto(f, p, init, y));
      if Skips(row, p.model[y], init, start, 0, x) {
        SkipsAhead(row, p.model[y], init, start, 0, x);
      }
    }
  }

  lemma LookUri(last: Snapshot, f: Snapshot, c: Cell)
    requires c.width != 0
    ensures last.LookOf(c) == f.LookOf(c) <==> last.Uri(c.link) == f.Uri(c.link)
  {
  }

  // --- the terminal against the model -------------------------------------------------

  /** Every row shows its model row, as `last` resolves its links. */
  predicate ShowsModel(t: Term, last: Snapshot, model: seq<seq<Cell>>) {
    && t.Valid() && |model| == t.scr.rows
    && forall y :: 0 <= y < t.scr.rows ==> RowShowsModel(t.scr.grid[y].cells, last, model[y])
  }

  predicate RowShowsModel(cells: seq<Cell>, last: Snapshot, model: seq<Cell>) {
    && |model| == |cells| && Paired(cells)
    && forall x :: 0 <= x < |cells| ==> Look(cells[x]) == last.LookOf(model[x])
  }

  lemma ModelReady(cells: seq<Cell>, last: Snapshot, row: seq<Cell>, model: seq<Cell>)
    requires |cells| == |row| && RowOk(row, |row|) && RowShowsModel(cells, last, model)
    ensures RowReady(cells, row, model, last.Want(model), true)
  {
    hide Look, Orphan;
    forall x | 0 <= x < |row| && model[x] == row[x]
      ensures last.Want(model)[x].width == row[x].width
    {
      LookWidth(model[x].(link := last.Uri(model[x].link)));
    }
  }

  lemma BlankReady(cells: seq<Cell>, row: seq<Cell>, model: seq<Cell>, was: seq<Cell>)
    requires |cells| == |row| == |model| == |was| && RowOk(row, |row|) && cells == BlankCells(|row|)
    ensures RowReady(cells, row, model, was, false)
  {
  }

  /** A row shown with the widths of a well-formed one has its pairs whole. */
  lemma ShownPaired(row: seq<Cell>, cells: seq<Cell>, want: seq<Cell>)
    requires RowIs(cells, want) && |want| == |row| && Paired(row)
    requires forall x :: 0 <= x < |row| ==> want[x].width == row[x].width
    ensures Paired(cells)
  {
    hide Look;
    forall x | 0 <= x < |row|
      ensures cells[x].width == row[x].width
    {
      LookWidth(cells[x]);
    }
    forall c: nat | c < |cells|
      ensures !Orphan(cells, c)
    {
      assert !Orphan(row, c);
    }
  }

  // --- the frame ------------------------------------------------------------------------

  lemma StepStbm(t: Term, top: nat, bot: nat)
    requires t.Valid() && !t.modes.origin && top < bot < t.scr.rows
    ensures t.Step(Stbm(top + 1, bot + 1)) == t.(top := top, bot := bot).At(0, 0, false)
  {
  }

  lemma StepResetRegion(t: Term)
    requires t.Valid() && !t.modes.origin && t.scr.rows >= 2
    ensures t.Step(Stbm(0, 0)) == t.(top := 0, bot := t.scr.rows - 1).At(0, 0, false)
  {
  }

  /** The rows after a scroll still show the shifted model. */
  lemma ScrollShows(t: Term, u: Term, last: Snapshot, model: seq<seq<Cell>>, lines: nat, bottom: nat)
    requires ShowsModel(t, last, model) && u.Valid() && t.SameShape(u)
    requires 1 <= lines <= bottom + 1 <= t.scr.rows
    requires u.scr.grid == Scrolled(t.scr.grid, 0, bottom, lines, t.scr.cols)
    ensures ShowsModel(u, last, Shifted(model, lines, bottom, t.scr.cols))
  {
    hide RowShowsModel, Scrolled;
    var shifted := Shifted(model, lines, bottom, t.scr.cols);
    forall y | 0 <= y < t.scr.rows
      ensures RowShowsModel(u.scr.grid[y].cells, last, shifted[y])
    {
      ScrolledRow(t.scr.grid, bottom, lines, t.scr.cols, y);
      BlankShows(last, t.scr.cols);
    }
  }

  lemma ScrolledRow(grid: seq<Row>, bottom: nat, lines: nat, cols: nat, y: nat)
    requires 1 <= lines <= bottom + 1 <= |grid| && y < |grid|
    ensures var g := Scrolled(grid, 0, bottom, lines, cols);
            && |g| == |grid|
            && g[y] == if y + lines <= bottom then grid[y + lines] else if y <= bottom then BlankRow(cols) else grid[y]
  {
  }

  lemma BlankShows(last: Snapshot, cols: nat)
    ensures RowShowsModel(BlankCells(cols), last, BlankCells(cols))
  {
  }

  /** The frame stands where the picture has its cursor, over rows that show
      the model. */
  ghost predicate Begun(frame: FrameState, last: Snapshot, model: seq<seq<Cell>>)
    reads frame
  {
    && frame.Valid() && frame.Located() && frame.scr.FullRegion()
    && frame.x != frame.scr.scr.cols
    && ShowsModel(frame.scr, last, model)
  }

  /** Scroll the whole screen by line feeds on the bottom row. */
  method ScrollScreen(frame: FrameState, last: Snapshot, model: seq<seq<Cell>>, lines: nat)
    requires Begun(frame, last, model) && frame.Tracked() && frame.y + 1 == frame.scr.scr.rows
    requires 1 <= lines < frame.scr.scr.rows
    modifies frame
    ensures frame.start == old(frame.start) && old(frame.scr).SameShape(frame.scr)
    ensures Begun(frame, last, Shifted(model, lines, frame.scr.scr.rows - 1, frame.scr.scr.cols))
    ensures Margins(frame.out) == old(Margins(frame.out))
  {
    hide Run, Margins, Term.Step, ShowsModel, Scrolled, Shifted, Screen.ScrollUp;
    StepCr(frame.scr);
    frame.Append(Cr);
    ghost var t := frame.scr;
    ScrollFeeds(t, lines);
    ScrollIs(t.scr, 0, t.bot, lines, true);
    RepeatPlain(Lf, lines);
    frame.AppendN(Repeat(Lf, lines));
    frame.x := 0;
    SameGridShows(old(frame.scr), t, last, model);
    ScrollShows(t, frame.scr, last, model, lines, t.bot);
  }

  lemma SameGridShows(t: Term, u: Term, last: Snapshot, model: seq<seq<Cell>>)
    requires ShowsModel(t, last, model) && u.Valid() && u.scr.grid == t.scr.grid && u.scr.rows == t.scr.rows
    ensures ShowsModel(u, last, model)
  {
  }

  /** Set the region 0..=bottom and go to its last row. */
  method EnterRegion(frame: FrameState, bottom: nat)
    requires frame.Valid() && frame.scr.FullRegion() && 1 <= bottom < frame.scr.scr.rows
    modifies frame
    ensures frame.Valid() && frame.start == old(frame.start) && frame.x == 0 && frame.y == bottom
    ensures frame.scr == old(frame.scr).(top := 0, bot := bottom, modes := frame.scr.modes).At(bottom, 0, false)
    ensures Margins(frame.out) == old(Margins(frame.out)) + 1
  {
    hide Run, Margins, Term.Step;
    StepStbm(frame.scr, 0, bottom);
    frame.Append(Stbm(1, bottom + 1));
    frame.x, frame.y := -1, -1;
    frame.AppendSilentMove(bottom, 0);
  }

  /** Scroll the rows 0..=bottom inside a region of their own. */
  method ScrollRegion(frame: FrameState, last: Snapshot, model: seq<seq<Cell>>, lines: nat, bottom: nat)
    requires Begun(frame, last, model)
    requires 1 <= lines <= bottom < frame.scr.scr.rows
    modifies frame
    ensures frame.start == old(frame.start) && old(frame.scr).SameShape(frame.scr)
    ensures Begun(frame, last, Shifted(model, lines, bottom, frame.scr.scr.cols))
    ensures Margins(frame.out) == old(Margins(frame.out)) + 2
  {
    hide Run, Margins, Term.Step, ShowsModel, Scrolled, Shifted, Screen.ScrollUp;
    EnterRegion(frame, bottom);
    ghost var t := frame.scr;
    SameGridShows(old(frame.scr), t, last, model);
    ScrollFeeds(t, lines);
    ScrollIs(t.scr, 0, bottom, lines, t.FullRegion());
    RepeatPlain(Lf, lines);
    frame.AppendN(Repeat(Lf, lines));
    ghost var u := frame.scr;
    StepResetRegion(u);
    frame.Append(Stbm(0, 0));
    // Where the cursor is now depends on the terminal.
    frame.x, frame.y := -1, -1;
    ScrollShows(t, frame.scr, last, model, lines, bottom);
  }

  /** Rows above `y` are done; the rest are ready to be diffed. */
  ghost predicate RowsReady(t: Term, last: Snapshot, f: Snapshot, p: Plan, init: bool, y: nat)
    requires f.Valid() && PlanOk(f, p)
  {
    && t.Valid() && t.scr.rows == f.rows && t.scr.cols == f.cols
    && (forall i :: 0 <= i < y && i < f.rows ==> RowIs(t.scr.grid[i].cells, FinalRow(last, f, p, init, i)))
    && (forall i :: y <= i < f.rows ==>
          RowReady(t.scr.grid[i].cells, f.cells[i], p.model[i], last.Want(p.model[i]), init))
  }

  lemma RowDone(t: Term, u: Term, last: Snapshot, f: Snapshot, p: Plan, init: bool, y: nat, wrap: bool)
    requires f.Valid() && PlanOk(f, p) && RowsReady(t, last, f, p, init, y) && y < f.rows
    requires SameOthers(Flagged(t, y, wrap), u, y) && RowIs(u.scr.grid[y].cells, FinalRow(last, f, p, init, y))
    ensures RowsReady(u, last, f, p, init, y + 1)
  {
    hide RowIs, RowReady, FinalRow;
    forall i | 0 <= i < f.rows && i != y
      ensures u.scr.grid[i].cells == t.scr.grid[i].cells
    {
      assert Flagged(t, y, wrap).scr.grid[i].cells == t.scr.grid[i].cells;
    }
    forall i | y + 1 <= i < f.rows
      ensures RowReady(u.scr.grid[i].cells, f.cells[i], p.model[i], last.Want(p.model[i]), init)
    {
      assert u.scr.grid[i].cells == t.scr.grid[i].cells;
    }
    forall i | 0 <= i < y + 1
      ensures RowIs(u.scr.grid[i].cells, FinalRow(last, f, p, init, i))
    {
      if i < y {
        assert RowIs(t.scr.grid[i].cells, FinalRow(last, f, p, init, i));
        assert u.scr.grid[i].cells == t.scr.grid[i].cells;
      }
    }
  }

  /** Is the row below `k` begun by a wrap off row `k`? */
  predicate WrapsOff(f: Snapshot, p: Plan, init: bool, k: nat)
    requires f.Valid() && PlanOk(f, p)
  {
    p.top <= k < f.rows && WrapsInto(f, p, init, k + 1)
  }

  /** With the rows above `y` drawn since `t`, those that are known to have wrapped
      are marked, and no other row has come to be. */
  predicate Marked(t: Term, u: Term, f: Snapshot, p: Plan, init: bool, y: nat)
    requires f.Valid() && PlanOk(f, p)
  {
    && t.Valid() && u.Valid() && t.scr.rows == u.scr.rows == f.rows
    && forall k: nat :: k < f.rows ==>
         (k + 1 < y && WrapsOff(f, p, init, k) ==> u.scr.grid[k].wrapped)
         && (u.scr.grid[k].wrapped ==> t.scr.grid[k].wrapped || (k + 1 < y && WrapsOff(f, p, init, k)))
  }

  lemma RowMarks(t: Term, u: Term, v: Term, f: Snapshot, p: Plan, init: bool, y: nat, wrap: bool)
    requires f.Valid() && PlanOk(f, p) && p.top <= y < f.rows && Marked(t, u, f, p, init, y)
    requires wrap == WrapsInto(f, p, init, y) && SameOthers(Flagged(u, y, wrap), v, y)
    ensures Marked(t, v, f, p, init, y + 1)
  {
    hide WrapsInto;
    assert wrap ==> y > p.top by {
      WrapsBelow(f, p, init, y);
    }
    forall k: nat | k < f.rows
      ensures k + 1 < y + 1 && WrapsOff(f, p, init, k) ==> v.scr.grid[k].wrapped
      ensures v.scr.grid[k].wrapped ==> t.scr.grid[k].wrapped || (k + 1 < y + 1 && WrapsOff(f, p, init, k))
    {
      assert k != y && k + 1 != y ==> Flagged(u, y, wrap).scr.grid[k] == u.scr.grid[k];
    }
  }

  lemma WrapsBelow(f: Snapshot, p: Plan, init: bool, y: nat)
    requires f.Valid() && PlanOk(f, p) && p.top <= y <= f.rows
    ensures WrapsInto(f, p, init, y) ==> p.top < y < f.rows
  {
  }

  predicate NoneMarked(t: Term) {
    forall k :: 0 <= k < |t.scr.grid| ==> !t.scr.grid[k].wrapped
  }

  /** The rows that the frame wrapped are marked as wrapped, so that the terminal knows
      the lines of the session; after a repaint no others are. */
  predicate MarksWraps(u: Term, f: Snapshot, p: Plan, init: bool)
    requires f.Valid() && PlanOk(f, p)
  {
    && u.Valid() && u.scr.rows == f.rows
    && (forall k: nat :: k < f.rows && WrapsOff(f, p, init, k) ==> u.scr.grid[k].wrapped)
    && (forall k: nat :: k < f.rows && !init && u.scr.grid[k].wrapped ==> WrapsOff(f, p, init, k))
  }

  lemma AllMarked(t: Term, u: Term, v: Term, f: Snapshot, p: Plan, init: bool)
    requires f.Valid() && PlanOk(f, p) && Marked(t, u, f, p, init, f.rows)
    requires v.Valid() && v.scr == u.scr && (!init ==> NoneMarked(t))
    ensures MarksWraps(v, f, p, init)
  {
    hide WrapsInto;
    forall k: nat | k < f.rows && WrapsOff(f, p, init, k)
      ensures k + 1 < f.rows
    {
      WrapsBelow(f, p, init, k + 1);
    }
  }

  /** In a repaint every row that wraps is written to its end. */
  lemma {:induction false} RepaintEnds(f: Snapshot, y: nat, model: seq<Cell>, x: nat, run: nat)
    requires f.Valid() && y < f.rows && |model| == f.cols && f.wrapped[y] && run <= x <= f.cols
    requires if x == f.cols then run > 0 else f.cells[y][x].width != 0
    ensures EndsPrinted(f, f.cells[y], true, model, false, x, run)
    decreases f.cols - x
  {
    hide IsBlank;
    var row := f.cells[y];
    if x < f.cols {
      ScanStart(f, y, x);
      var c, w := row[x], row[x].width;
      if IsBlank(c) && (run == 0 || (c.style == row[x - 1].style && c.link == row[x - 1].link)) {
        RepaintEnds(f, y, model, x + 1, run + 1);
      } else if IsBlank(c) {
        RepaintEnds(f, y, model, x + 1, 1);
      } else if x + w < f.cols {
        RepaintEnds(f, y, model, x + w, 0);
      }
    }
  }

  /** On a terminal of three columns or more a repaint wraps exactly where the session
      did. */
  lemma {:induction false} RepaintWraps(f: Snapshot, k: nat)
    requires f.Valid() && f.cols > 2 && k < f.rows
    ensures WrapsOff(f, BlankPlan(f), false, k) <==> k + 1 < f.rows && f.wrapped[k]
  {
    hide EndsPrinted;
    var p := BlankPlan(f);
    if k + 1 < f.rows && f.wrapped[k] {
      var wrap := WrapsInto(f, p, false, k);
      assert !Orphan(f.cells[k], 0);
      ScanStart(f, k, 0);
      RepaintEnds(f, k, p.model[k], FirstWidth(f, k, wrap), 0);
    }
  }

  lemma RepaintMarks(u: Term, f: Snapshot, y: nat)
    requires f.Valid() && f.cols > 2 && y < f.rows && PlanOk(f, BlankPlan(f)) && MarksWraps(u, f, BlankPlan(f), false)
    ensures u.scr.grid[y].wrapped == (y + 1 < f.rows && f.wrapped[y])
  {
    hide WrapsOff;
    RepaintWraps(f, y);
  }

  lemma UnmarkedYet(t: Term, f: Snapshot, p: Plan, init: bool)
    requires f.Valid() && PlanOk(f, p) && t.Valid() && t.scr.rows == f.rows
    ensures Marked(t, t, f, p, init, p.top)
  {
    hide WrapsInto;
  }

  lemma ReadyRow(t: Term, last: Snapshot, f: Snapshot, p: Plan, init: bool, y: nat)
    requires f.Valid() && PlanOk(f, p) && RowsReady(t, last, f, p, init, y) && p.top <= y < f.rows
    ensures |p.model[y]| == f.cols && |last.Want(p.model[y])| == f.cols
    ensures RowReady(t.scr.grid[y].cells, f.cells[y], p.model[y], last.Want(p.model[y]), init)
    ensures FinalRow(last, f, p, init, y) == RowWant(f, y, p.model[y], last.Want(p.model[y]), init, WrapsInto(f, p, init, y))
  {
    hide RowReady, RowWant, RowIs;
  }

  /** Diff every row from `p.top` on. */
  method DrawRows(init: bool, frame: FrameState, f: Snapshot, p: Plan, ghost last: Snapshot)
    requires f.Valid() && PlanOk(f, p)
    requires frame.Valid() && Sized(frame.scr, f) && frame.Located() && frame.x != f.cols
    requires RowsReady(frame.scr, last, f, p, init, p.top)
    modifies frame
    ensures frame.Valid() && Sized(frame.scr, f) && frame.Located() && frame.start == old(frame.start)
    ensures RowsReady(frame.scr, last, f, p, init, f.rows)
    ensures EdgeRow(frame) == EdgeUpTo(f, p, init, f.rows)
    ensures Margins(frame.out) == old(Margins(frame.out))
    ensures Quiet(f, p, init) ==> frame.Fields() == old(frame.Fields())
    ensures Marked(old(frame.scr), frame.scr, f, p, init, f.rows)
  {
    hide Run, Margins, RowReady, RowIs, RowsReady, EdgeAfter, Ends, Standing, FinalRow, RowWant, Marked;
    UnmarkedYet(frame.scr, f, p, init);
    var wrap := false;
    ghost var quiet := Quiet(f, p, init);
    for y := p.top to f.rows
      invariant frame.Valid() && Sized(frame.scr, f) && frame.start == old(frame.start)
      invariant RowsReady(frame.scr, last, f, p, init, y)
      invariant if wrap then AtWrap(frame, y) && y < f.rows else Between(frame, y)
      invariant wrap == WrapsInto(f, p, init, y)
      invariant EdgeRow(frame) == EdgeUpTo(f, p, init, y)
      invariant Margins(frame.out) == old(Margins(frame.out))
      invariant quiet ==> !wrap && frame.Fields() == old(frame.Fields())
      invariant Marked(old(frame.scr), frame.scr, f, p, init, y)
    {
      ghost var t := frame.scr;
      ReadyRow(t, last, f, p, init, y);
      ghost var before := wrap;
      wrap := PutRow(init, frame, f, y, p.model[y], wrap, last.Want(p.model[y]));
      RowDone(t, frame.scr, last, f, p, init, y, before);
      RowMarks(old(frame.scr), t, frame.scr, f, p, init, y, before);
    }
  }

  /** A terminal in an unknown state that a full repaint can rely on: drawing
      modes normal, no link open, DECSCA off. */
  predicate Drawable(t: Term) {
    && t.Valid()
    && t.modes.autowrap && !t.modes.insert && !t.modes.origin && !t.modes.lnm
    && t.cur.link == 0 && !t.cur.style.guarded
  }

  lemma ClearFacts(t: Term)
    requires Drawable(t)
    ensures var u := Run(t, [Stbm(0, 0), Sgr(DEFAULT_STYLE), Cup(1, 1), Ed(2)]);
            && u.FullRegion() && u.cur == Cursor(0, 0, false, DEFAULT_STYLE, 0) && u.modes == t.modes
            && forall y :: 0 <= y < u.scr.rows ==> u.scr.grid[y] == BlankRow(t.scr.cols)
  {
    hide Run, Margins, Term.Step;
    var a, b, c := t.Step(Stbm(0, 0)), t.Step(Stbm(0, 0)).Step(Sgr(DEFAULT_STYLE)), t.Step(Stbm(0, 0)).Step(Sgr(DEFAULT_STYLE)).Step(Cup(1, 1));
    if t.scr.rows >= 2 {
      StepResetRegion(t);
    } else {
      StepNoRegion(t);
    }
    StepSgr(a, DEFAULT_STYLE);
    StepCup(b, 0, 0);
    StepEd(c);
    RunFour(t, Stbm(0, 0), Sgr(DEFAULT_STYLE), Cup(1, 1), Ed(2));
  }

  /** On a one-row screen DECSTBM is refused. */
  lemma StepNoRegion(t: Term)
    requires t.Valid() && t.scr.rows == 1
    ensures t.Step(Stbm(0, 0)) == t && t.FullRegion()
  {
  }

  lemma StepEd(t: Term)
    requires t.Valid()
    ensures var u := t.Step(Ed(2));
            && u == t.(scr := t.scr.(grid := u.scr.grid), cur := t.cur.(pending := false))
            && forall y :: 0 <= y < u.scr.rows ==> u.scr.grid[y] == BlankRow(t.scr.cols)
  {
  }

  /** The picture is unknown: reset, clear, hide the cursor. */
  method ClearScreen(frame: FrameState, f: Snapshot, ghost last: Snapshot)
    requires frame.Tied() && Drawable(frame.scr) && f.Valid()
    requires frame.scr.scr.rows == f.rows && frame.scr.scr.cols == f.cols
    requires frame.link == 0
    modifies frame
    ensures frame.start == old(frame.start)
    ensures frame.Valid() && Sized(frame.scr, f) && frame.Located() && frame.x == 0 && frame.y == 0
    ensures PlanOk(f, BlankPlan(f)) && RowsReady(frame.scr, last, f, BlankPlan(f), false, 0)
    ensures NoneMarked(frame.scr)
  {
    hide Run, Margins, Term.Step, RowReady, RowIs;
    ClearFacts(frame.scr);
    frame.AppendN([Stbm(0, 0), Sgr(DEFAULT_STYLE), Cup(1, 1), Ed(2)]);
    frame.x, frame.y, frame.style := 0, 0, DEFAULT_STYLE;
    StepVisible(frame.scr, false);
    frame.Append(SetMode(Visible, false));
    frame.visible := false;
    forall y | 0 <= y < f.rows
      ensures RowReady(frame.scr.scr.grid[y].cells, f.cells[y], BlankPlan(f).model[y], last.Want(BlankPlan(f).model[y]), false)
    {
      BlankReady(frame.scr.scr.grid[y].cells, f.cells[y], BlankPlan(f).model[y], last.Want(BlankPlan(f).model[y]));
    }
  }

  lemma KnownShowsModel(t: Term, last: Snapshot)
    requires last.Valid() && Shows(t, last)
    ensures ShowsModel(t, last, last.cells)
  {
    forall y | 0 <= y < t.scr.rows
      ensures RowShowsModel(t.scr.grid[y].cells, last, last.cells[y])
    {
      assert last.RowShown(t.scr.grid[y].cells, y);
    }
  }

  lemma ModelRowsReady(t: Term, last: Snapshot, f: Snapshot, p: Plan)
    requires f.Valid() && PlanOk(f, p)
    requires t.Valid() && t.scr.rows == f.rows && t.scr.cols == f.cols
    requires ShowsModel(t, last, p.model) && forall i :: 0 <= i < p.top ==> p.model[i] == f.cells[i]
    ensures RowsReady(t, last, f, p, true, p.top)
  {
    hide RowShowsModel, RowReady, RowIs;
    Sizes(f);
    forall i | p.top <= i < f.rows
      ensures RowReady(t.scr.grid[i].cells, f.cells[i], p.model[i], last.Want(p.model[i]), true)
    {
      ModelReady(t.scr.grid[i].cells, last, f.cells[i], p.model[i]);
    }
    forall i | 0 <= i < p.top
      ensures RowIs(t.scr.grid[i].cells, FinalRow(last, f, p, true, i))
    {
      ModelShown(t.scr.grid[i].cells, last, f.cells[i]);
    }
  }

  lemma ModelShown(cells: seq<Cell>, last: Snapshot, row: seq<Cell>)
    requires RowShowsModel(cells, last, row)
    ensures RowIs(cells, last.Want(row))
  {
  }

  /** Scroll, if the new picture is the old one some lines further up, rather than
      draw those lines anew. */
  method ScrollShortcut(frame: FrameState, last: Snapshot, f: Snapshot, allowScroll: bool) returns (p: Plan)
    requires Comparable(last, f)
    requires frame.scr.Valid() && frame.scr.scr.rows == f.rows && frame.scr.scr.cols == f.cols
    requires Begun(frame, last, last.cells) && frame.Tracked()
    modifies frame
    ensures frame.start == old(frame.start) && p == PlanOf(true, last, f, allowScroll)
    ensures frame.Valid() && Sized(frame.scr, f) && frame.Located() && frame.x != f.cols
    ensures PlanOk(f, p) && RowsReady(frame.scr, last, f, p, true, p.top)
    ensures if allowScroll && ScrollOf(last, f).1 > 0 then Margins(frame.out) <= old(Margins(frame.out)) + 2
            else frame.Fields() == old(frame.Fields())
  {
    hide Run, Margins, ShowsModel, RowsReady, ScrollOf, Shifted;
    p := Plan(0, last.cells);
    if allowScroll {
      var lines, height := FindScroll(last, f);
      if height > 0 {
        frame.UpdateStyle(DEFAULT_STYLE, true);
        frame.UpdateLink(0, true);
        SameGridShows(old(frame.scr), frame.scr, last, last.cells);
        var bottom := lines + height - 1;
        if height + lines == f.rows && frame.y + 1 == f.rows {
          ScrollScreen(frame, last, last.cells, lines);
        } else {
          ScrollRegion(frame, last, last.cells, lines, bottom);
        }
        var model := ShiftModel(last.cells, lines, bottom, f.cols);
        p := Plan(height, model);
        ShiftedTop(last, f, lines, height);
      }
    }
    PlanFits(last, f, allowScroll);
    assert p == PlanOf(true, last, f, allowScroll);
    ModelRowsReady(frame.scr, last, f, p);
  }

  lemma PlanFits(last: Snapshot, f: Snapshot, allowScroll: bool)
    requires Comparable(last, f)
    ensures PlanOk(f, PlanOf(true, last, f, allowScroll))
  {
    hide ScrollOf, Shifted;
  }

  lemma ShiftedTop(last: Snapshot, f: Snapshot, lines: nat, height: nat)
    requires Comparable(last, f) && MovedUp(last, f, lines, height) && lines > 0 && height > 0
    ensures forall i :: 0 <= i < height ==> Shifted(last.cells, lines, lines + height - 1, f.cols)[i] == f.cells[i]
  {
  }

  /** The terminal shows every row as it is in the end. */
  ghost predicate ShowsFinal(t: Term, last: Snapshot, f: Snapshot, p: Plan, init: bool)
    requires f.Valid() && PlanOk(f, p)
  {
    && t.Valid() && t.scr.rows == f.rows && t.scr.cols == f.cols
    && forall y :: 0 <= y < f.rows ==> RowIs(t.scr.grid[y].cells, FinalRow(last, f, p, init, y))
  }

  lemma AllShown(t: Term, last: Snapshot, f: Snapshot, p: Plan, init: bool)
    requires f.Valid() && PlanOk(f, p) && RowsReady(t, last, f, p, init, f.rows)
    ensures ShowsFinal(t, last, f, p, init)
    ensures forall y :: 0 <= y < f.rows ==> Paired(t.scr.grid[y].cells)
  {
    hide RowIs, Orphan, FinalRow, RowReady, Untouched;
    forall y | 0 <= y < f.rows
      ensures Paired(t.scr.grid[y].cells)
    {
      forall x | 0 <= x < f.cols
        ensures FinalRow(last, f, p, init, y)[x].width == f.cells[y][x].width
      {
        FinalIs(last, f, p, init, y, x);
      }
      ShownPaired(f.cells[y], t.scr.grid[y].cells, FinalRow(last, f, p, init, y));
    }
  }

  lemma FinalShown(t: Term, last: Snapshot, f: Snapshot, p: Plan, init: bool, y: nat, x: nat)
    requires f.Valid() && PlanOk(f, p) && ShowsFinal(t, last, f, p, init) && y < f.rows && x < f.cols
    ensures |t.scr.grid[y].cells| == f.cols
    ensures Look(t.scr.grid[y].cells[x]) == f.LookOf(f.cells[y][x]) <==>
            !(Untouched(f, p, init, y, x) && last.Uri(f.cells[y][x].link) != f.Uri(f.cells[y][x].link))
  {
    hide Look, Snapshot.LookOf, FinalRow, Snapshot.Uri;
    FinalIs(last, f, p, init, y, x);
    assert RowIs(t.scr.grid[y].cells, FinalRow(last, f, p, init, y));
    if Untouched(f, p, init, y, x) {
      LookUri(last, f, f.cells[y][x]);
    }
  }

  /** All cells are shown exactly when no stale link is left. */
  lemma FinalCells(t: Term, last: Snapshot, f: Snapshot, p: Plan, init: bool)
    requires f.Valid() && PlanOk(f, p) && ShowsFinal(t, last, f, p, init)
    ensures ShowsCells(t, f) <==> !StaleIn(last, f, p, init)
  {
    hide Look, Snapshot.LookOf, FinalRow, Untouched, Snapshot.Uri, RowIs, PlanOk;
    if StaleIn(last, f, p, init) {
      var y: nat, x: nat :|
        InPicture(f, y, x) && Untouched(f, p, init, y, x) && last.Uri(f.cells[y][x].link) != f.Uri(f.cells[y][x].link);
      FinalShown(t, last, f, p, init, y, x);
      assert !f.RowShown(t.scr.grid[y].cells, y);
    } else {
      forall y | 0 <= y < f.rows
        ensures f.RowShown(t.scr.grid[y].cells, y)
      {
        FinalShown(t, last, f, p, init, y, 0);
        forall x | 0 <= x < f.cols
          ensures Look(t.scr.grid[y].cells[x]) == f.LookOf(f.cells[y][x])
        {
          FinalShown(t, last, f, p, init, y, x);
          assert InPicture(f, y, x);
        }
      }
    }
  }

  /** Visibility, then the default pen. */
  method ComeToRest(frame: FrameState, visible: bool, init: bool)
    requires frame.Valid() && frame.scr.FullRegion()
    requires forall y :: 0 <= y < frame.scr.scr.rows ==> Paired(frame.scr.scr.grid[y].cells)
    modifies frame
    ensures frame.Tied() && frame.start == old(frame.start)
    ensures AtRest(frame.scr, visible)
    ensures frame.scr.scr == old(frame.scr).scr
    ensures var c, d := frame.scr.cur, old(frame.scr).cur; c.row == d.row && c.col == d.col && c.pending == d.pending
    ensures Margins(frame.out) == old(Margins(frame.out))
    ensures init && old(frame.visible == visible && frame.style == DEFAULT_STYLE && frame.link == 0) ==>
              frame.out == old(frame.out)
  {
    hide Run, Margins, Term.Step, Paired;
    if !init || visible != frame.visible {
      StepVisible(frame.scr, visible);
      frame.Append(SetMode(Visible, visible));
      frame.visible := visible;
    }
    frame.UpdateStyle(DEFAULT_STYLE, !init);
    frame.UpdateLink(0, !init);
  }

  /** The builder stands where the picture wants the cursor, the pen put away. */
  predicate Rests(frame: FrameState, f: Snapshot)
    reads frame
  {
    && frame.x == f.cursorCol && frame.y == f.cursorRow && frame.visible == f.cursorVisible
    && frame.style == DEFAULT_STYLE && frame.link == 0
  }

  /** Cursor position, then the rest. */
  method Finish(frame: FrameState, f: Snapshot, init: bool, ghost last: Snapshot, ghost p: Plan)
    requires f.Valid() && PlanOk(f, p) && frame.Valid() && Sized(frame.scr, f) && frame.Located()
    requires RowsReady(frame.scr, last, f, p, init, f.rows)
    modifies frame
    ensures frame.Tied() && frame.start == old(frame.start)
    ensures ShowsFinal(frame.scr, last, f, p, init) && AtRest(frame.scr, f.cursorVisible)
    ensures frame.scr.cur.row == f.cursorRow && !frame.scr.cur.pending
    ensures frame.scr.cur.col ==
            if old(EdgeRow(frame)) == f.cursorRow && 0 < f.cursorCol && f.cols < f.cursorCol + 5 then f.cursorCol - 1
            else f.cursorCol
    ensures Margins(frame.out) == old(Margins(frame.out)) && frame.scr.scr == old(frame.scr).scr
    ensures init && old(Rests(frame, f)) ==> frame.out == old(frame.out)
  {
    hide Run, Margins, Term.Step, RowsReady, ShowsFinal, Paired;
    AllShown(frame.scr, last, f, p, init);
    if !init || frame.y != f.cursorRow || frame.x != f.cursorCol {
      frame.AppendMove(f.cursorRow, f.cursorCol);
    }
    ComeToRest(frame, f.cursorVisible, init);
    SameGridFinal(old(frame.scr), frame.scr, last, f, p, init);
  }

  /** No row of the plan needs anything. */
  predicate Quiet(f: Snapshot, p: Plan, init: bool)
    requires f.Valid() && PlanOk(f, p)
  {
    forall y :: p.top <= y < f.rows ==> Silent(f.cells[y], p.model[y], init, 0)
  }

  method DrawAndFinish(init: bool, frame: FrameState, f: Snapshot, p: Plan, ghost last: Snapshot)
    requires f.Valid() && PlanOk(f, p)
    requires frame.Valid() && Sized(frame.scr, f) && frame.Located() && frame.x != f.cols
    requires RowsReady(frame.scr, last, f, p, init, p.top)
    requires !init ==> NoneMarked(frame.scr)
    modifies frame
    ensures frame.Tied() && frame.start == old(frame.start)
    ensures MarksWraps(frame.scr, f, p, init)
    ensures ShowsFinal(frame.scr, last, f, p, init) && AtRest(frame.scr, f.cursorVisible)
    ensures frame.scr.cur.row == f.cursorRow && !frame.scr.cur.pending
    ensures frame.scr.cur.col ==
            if EdgeUpTo(f, p, init, f.rows) == f.cursorRow && 0 < f.cursorCol && f.cols < f.cursorCol + 5 then f.cursorCol - 1
            else f.cursorCol
    ensures Margins(frame.out) == old(Margins(frame.out))
    ensures init && Quiet(f, p, init) && old(Rests(frame, f)) ==> frame.out == old(frame.out)
  {
    hide Run, Margins, ShowsFinal, RowsReady, EdgeUpTo, PlanOk, AtRest, Silent, Sized, Marked, NoneMarked, MarksWraps, Quiet;
    DrawRows(init, frame, f, p, last);
    ghost var drawn := frame.scr;
    Finish(frame, f, init, last, p);
    RestValid(frame.scr, f.cursorVisible);
    AllMarked(old(frame.scr), drawn, frame.scr, f, p, init);
  }

  lemma RestValid(t: Term, visible: bool)
    requires AtRest(t, visible)
    ensures t.Valid()
  {
  }

  lemma SameGridFinal(t: Term, u: Term, last: Snapshot, f: Snapshot, p: Plan, init: bool)
    requires f.Valid() && PlanOk(f, p) && ShowsFinal(t, last, f, p, init) && u.Valid() && t.SameShape(u) && u.scr.grid == t.scr.grid
    ensures ShowsFinal(u, last, f, p, init)
  {
    hide RowIs, FinalRow;
  }

  /** The same cells, wraps and cursor. */
  predicate SamePicture(last: Snapshot, f: Snapshot) {
    && last.rows == f.rows && last.cols == f.cols && last.cells == f.cells && last.wrapped == f.wrapped
    && last.cursorRow == f.cursorRow && last.cursorCol == f.cursorCol && last.cursorVisible == f.cursorVisible
  }

  lemma {:induction false} SameSilent(row: seq<Cell>, x: nat)
    ensures Silent(row, row, true, x)
    decreases |row| - x
  {
    if x < |row| {
      SameSilent(row, x + Max(row[x].width, 1));
    }
  }

  /** The same picture is not a scrolled one, and no row of it needs anything. */
  lemma SameQuiet(last: Snapshot, f: Snapshot, allowScroll: bool)
    requires last.Valid() && f.Valid() && SamePicture(last, f)
    ensures Comparable(last, f) && ScrollOf(last, f) == (0, 0)
    ensures var p := PlanOf(true, last, f, allowScroll);
            p.top == 0 && PlanOk(f, p) && Quiet(f, p, true)
  {
    hide Silent;
    assert SameRow(last, f, 0, 0);
    forall y | 0 <= y < f.rows
      ensures Silent(f.cells[y], f.cells[y], true, 0)
    {
      SameSilent(f.cells[y], 0);
    }
  }

  /** The terminal groups the rows that the frame wrapped as the session does. */
  predicate Grouped(u: Term, initialized: bool, last: Snapshot, f: Snapshot, allowScroll: bool)
    requires last.Valid() && f.Valid()
  {
    var init := initialized && last.rows == f.rows && last.cols == f.cols;
    MarksWraps(u, f, PlanOf(init, last, f, allowScroll), init)
  }

  /** After a repaint of three columns or more all rows are grouped as in the session. */
  lemma RepaintGroups(u: Term, initialized: bool, last: Snapshot, f: Snapshot, allowScroll: bool, y: nat)
    requires last.Valid() && f.Valid() && Grouped(u, initialized, last, f, allowScroll)
    requires !(initialized && last.rows == f.rows && last.cols == f.cols) && f.cols > 2 && y < f.rows
    ensures y < |u.scr.grid| && u.scr.grid[y].wrapped == (y + 1 < f.rows && f.wrapped[y])
  {
    hide WrapsOff;
    RepaintMarks(u, f, y);
  }

  /** Begin on a cleared screen, or where `last` left off, scrolled if that helps. */
  method Begin(init: bool, last: Snapshot, f: Snapshot, allowScroll: bool, ghost t: Term)
    returns (frame: FrameState, p: Plan)
    requires last.Valid() && f.Valid() && (init ==> Comparable(last, f))
    requires t.Valid() && t.scr.rows == f.rows && t.scr.cols == f.cols
    requires if init then Shows(t, last) else Drawable(t)
    ensures fresh(frame) && frame.start == t && p == PlanOf(init, last, f, allowScroll) && PlanOk(f, p)
    ensures frame.Valid() && Sized(frame.scr, f) && frame.Located() && frame.x != f.cols
    ensures RowsReady(frame.scr, last, f, p, init, p.top)
    ensures !init ==> NoneMarked(frame.scr)
    ensures init ==> Margins(frame.out) <= if allowScroll && ScrollOf(last, f).1 > 0 then 2 else 0
    ensures init && !(allowScroll && ScrollOf(last, f).1 > 0) ==>
              frame.Fields() == ([], last.cursorCol, last.cursorRow, DEFAULT_STYLE, 0, last.cursorVisible)
  {
    hide Run, Margins, RowsReady, ScrollOf, NoneMarked;
    frame := new FrameState(t, last.cursorVisible);
    MarginsNone([]);
    if !init {
      ClearScreen(frame, f, last);
      p := BlankPlan(f);
    } else {
      frame.x, frame.y := last.cursorCol, last.cursorRow;
      KnownShowsModel(t, last);
      p := ScrollShortcut(frame, last, f, allowScroll);
    }
  }

  /** One frame: from a terminal that shows `last` to one that shows `f`; with
      `initialized` false, or another size, from any terminal of `f`'s size that is
      `Drawable`.

      For every such terminal `t` the result is at rest again; it shows all of
      `f`'s cells exactly when the frame is not `Stale`, and has `f`'s cursor
      exactly when it is not `Short`. No region is set unless the picture moved up
      and that is allowed, and the picture that is there already takes nothing. */
  method NewFrameOpt(initialized: bool, last: Snapshot, f: Snapshot, allowScroll: bool, ghost t: Term)
    returns (out: seq<Action>)
    requires last.Valid() && f.Valid()
    requires t.Valid() && t.scr.rows == f.rows && t.scr.cols == f.cols
    requires if initialized && last.rows == f.rows && last.cols == f.cols then Shows(t, last) else Drawable(t)
    ensures ShowsCells(Run(t, out), f) <==> !Stale(initialized, last, f, allowScroll)
    ensures AtRest(Run(t, out), f.cursorVisible)
    ensures Run(t, out).cur.row == f.cursorRow && !Run(t, out).cur.pending
    ensures Run(t, out).cur.col == if Short(initialized, last, f, allowScroll) then f.cursorCol - 1 else f.cursorCol
    ensures Shows(Run(t, out), f) <==> !Stale(initialized, last, f, allowScroll) && !Short(initialized, last, f, allowScroll)
    ensures initialized && last.rows == f.rows && last.cols == f.cols ==>
              Margins(out) <= if allowScroll && ScrollOf(last, f).1 > 0 then 2 else 0
    ensures initialized && SamePicture(last, f) ==> out == []
    ensures Grouped(Run(t, out), initialized, last, f, allowScroll)
  {
    hide Run, Margins, ShowsCells, ShowsFinal, RowsReady, EdgeUpTo, ScrollOf, StaleIn, PlanOk, Quiet, NoneMarked, MarksWraps, Drawable;
    var init := initialized && last.rows == f.rows && last.cols == f.cols;
    var frame, p := Begin(init, last, f, allowScroll, t);
    if initialized && SamePicture(last, f) {
      SameQuiet(last, f, allowScroll);
    }
    DrawAndFinish(init, frame, f, p, last);
    FinalCells(frame.scr, last, f, p, init);
    out := frame.out;
  }

  /** A full repaint leaves nothing stale. */
  lemma RepaintNeverStale(initialized: bool, last: Snapshot, f: Snapshot, allowScroll: bool)
    requires last.Valid() && f.Valid() && !(initialized && last.rows == f.rows && last.cols == f.cols)
    ensures !Stale(initialized, last, f, allowScroll)
  {
    hide Skips, WrapsInto;
    var p := PlanOf(false, last, f, allowScroll);
    forall y: nat, x: nat | InPicture(f, y, x)
      ensures !Untouched(f, p, false, y, x)
    {
      var start := FirstWidth(f, y, WrapsInto(f, p, false, y));
      if Skips(f.cells[y], p.model[y], false, start, 0, x) {
        SkipsAhead(f.cells[y], p.model[y], false, start, 0, x);
      }
    }
  }

  /** Pictures that resolve the ids they carry alike leave nothing stale. */
  lemma SharedNeverStale(initialized: bool, last: Snapshot, f: Snapshot, allowScroll: bool)
    requires last.Valid() && f.Valid()
    requires forall y, x :: 0 <= y < f.rows && 0 <= x < f.cols ==> last.Uri(f.cells[y][x].link) == f.Uri(f.cells[y][x].link)
    ensures !Stale(initialized, last, f, allowScroll)
  {
    hide Untouched, Snapshot.Uri;
  }
}
