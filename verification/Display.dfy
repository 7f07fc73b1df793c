// The display diff: from the picture the outer terminal shows to the next one
// (crates/posh-proto/src/display.rs).

module Display {
  import opened Cells
  import opened Machine
  import opened Printing
  import opened RowDiff
  import opened Frame

  /** A frozen picture of a terminal. `links` resolves the hyperlink ids its
      cells carry; URI 0 is the empty one. */
  datatype Snapshot = Snapshot(
    rows: nat, cols: nat, cells: seq<seq<Cell>>, wrapped: seq<bool>,
    cursorRow: nat, cursorCol: nat, cursorVisible: bool, links: map<nat, nat>)
  {
    predicate Valid() {
      && rows >= 1 && cols >= 1
      && |cells| == rows && |wrapped| == rows
      && cursorRow < rows && cursorCol < cols
      && (forall y :: 0 <= y < rows ==> RowOk(cells[y], cols))
    }

    function Uri(id: nat): nat {
      if id == 0 || id !in links then 0 else links[id]
    }

    /** What a cell of this picture looks like on the outer terminal. */
    function LookOf(c: Cell): Cell {
      Look(c.(link := Uri(c.link)))
    }

    function Want(row: seq<Cell>): (w: seq<Cell>)
      ensures |w| == |row|
      ensures forall x :: 0 <= x < |row| ==> w[x] == LookOf(row[x])
    {
      seq(|row|, x requires 0 <= x < |row| => LookOf(row[x]))
    }

    /** `cells` is row `y` of this picture, on the outer terminal. */
    predicate RowShown(shown: seq<Cell>, y: nat)
      requires Valid() && y < rows
    {
      |shown| == cols && forall x :: 0 <= x < cols ==> Look(shown[x]) == LookOf(cells[y][x])
    }
  }

  /** The terminal is of the picture's size and shows all its cells. */
  predicate ShowsCells(t: Term, f: Snapshot)
    requires f.Valid()
  {
    && t.Valid() && t.scr.rows == f.rows && t.scr.cols == f.cols
    && forall y :: 0 <= y < f.rows ==> f.RowShown(t.scr.grid[y].cells, y)
  }

  /** A terminal between frames: default pen, no link, drawing modes normal. */
  predicate AtRest(t: Term, visible: bool) {
    && t.Valid()
    && t.modes == Modes(true, false, false, false, visible)
    && t.FullRegion()
    && t.cur.style == DEFAULT_STYLE && t.cur.link == 0
    && forall y :: 0 <= y < t.scr.rows ==> Paired(t.scr.grid[y].cells)
  }

  /** The outer terminal when a frame begins from a known picture. */
  predicate Shows(t: Term, f: Snapshot)
    requires f.Valid()
  {
    && ShowsCells(t, f) && AtRest(t, f.cursorVisible)
    && t.cur.row == f.cursorRow && t.cur.col == f.cursorCol && !t.cur.pending
  }

  // --- what the scan of a row will do, as a caller can compute it -----------

  /** Scanning on from column `x` with `run` blank cells pending, is the last
      cell of the row written (and not erased or skipped)? */
  function EndsPrinted(f: Snapshot, row: seq<Cell>, rowWrap: bool, model: seq<Cell>, init: bool, x: nat, run: nat): bool
    requires |row| == |model| && run <= x && |row| > 0
    decreases |row| - x
  {
    if x >= |row| then
      run > 0 && (rowWrap || row[|row| - 1].style != DEFAULT_STYLE || f.Uri(row[|row| - 1].link) != 0)
    else
      var c, w := row[x], Max(row[x].width, 1);
      if init && run == 0 && model[x] == c then EndsPrinted(f, row, rowWrap, model, init, x + w, 0)
      else if c.width == 0 then EndsPrinted(f, row, rowWrap, model, init, x + 1, run)
      else if IsBlank(c) && (run == 0 || (c.style == row[x - 1].style && c.link == row[x - 1].link)) then
        EndsPrinted(f, row, rowWrap, model, init, x + 1, run + 1)
      else if IsBlank(c) then EndsPrinted(f, row, rowWrap, model, init, x + 1, 1)
      else x + w >= |row| || EndsPrinted(f, row, rowWrap, model, init, x + w, 0)
  }

  /** Scanning on from column `x`, is every cell skipped? */
  function Silent(row: seq<Cell>, model: seq<Cell>, init: bool, x: nat): bool
    requires |row| == |model|
    decreases |row| - x
  {
    x >= |row| || (init && model[x] == row[x] && Silent(row, model, init, x + Max(row[x].width, 1)))
  }

  /** Scanning on from column `x` with `run` blank cells pending, is cell `k`
      passed over because the model has it already? */
  predicate Skips(row: seq<Cell>, model: seq<Cell>, init: bool, x: nat, run: nat, k: nat)
    requires |row| == |model| && run <= x
    decreases |row| - x
  {
    x < |row| &&
    var c, w := row[x], Max(row[x].width, 1);
    if init && run == 0 && model[x] == c then k == x || Skips(row, model, init, x + w, 0, k)
    else if c.width == 0 then Skips(row, model, init, x + 1, run, k)
    else if IsBlank(c) && (run == 0 || (c.style == row[x - 1].style && c.link == row[x - 1].link)) then
      Skips(row, model, init, x + 1, run + 1, k)
    else if IsBlank(c) then Skips(row, model, init, x + 1, 1, k)
    else Skips(row, model, init, x + w, 0, k)
  }

  /** Only cells still ahead that the model has are passed over. */
  lemma {:induction false} SkipsAhead(row: seq<Cell>, model: seq<Cell>, init: bool, x: nat, run: nat, k: nat)
    requires |row| == |model| && run <= x && Skips(row, model, init, x, run, k)
    ensures x <= k < |row| && init && model[k] == row[k]
    decreases |row| - x
  {
    hide IsBlank;
    var c, w := row[x], Max(row[x].width, 1);
    if init && run == 0 && model[x] == c {
      if k != x {
        SkipsAhead(row, model, init, x + w, 0, k);
      }
    } else if c.width == 0 {
      SkipsAhead(row, model, init, x + 1, run, k);
    } else if IsBlank(c) && (run == 0 || (c.style == row[x - 1].style && c.link == row[x - 1].link)) {
      SkipsAhead(row, model, init, x + 1, run + 1, k);
    } else if IsBlank(c) {
      SkipsAhead(row, model, init, x + 1, 1, k);
    } else {
      SkipsAhead(row, model, init, x + w, 0, k);
    }
  }

  // --- one row ---------------------------------------------------------------

  predicate Sized(t: Term, f: Snapshot) {
    t.Valid() && t.scr.rows == f.rows && t.scr.cols == f.cols && t.FullRegion()
  }

  /** A row before it is diffed: it shows `was` wherever its model and the new row
      agree. */
  predicate RowReady(cells: seq<Cell>, row: seq<Cell>, model: seq<Cell>, was: seq<Cell>, init: bool) {
    && |cells| == |row| == |model| == |was| && Paired(cells) && RowOk(row, |row|)
    && (init ==> forall x :: 0 <= x < |row| && model[x] == row[x] ==>
          Look(cells[x]) == was[x] && was[x].width == row[x].width)
  }

  /** The frame stands at the start of row `y`, the terminal at the end of the
      row above with the wrap pending. */
  ghost predicate AtWrap(frame: FrameState, y: nat)
    reads frame
  {
    && frame.x == 0 && frame.y == y && y > 0
    && Standing(frame.scr, frame.scr.scr.cols, y - 1)
  }

  /** Between rows: a position past the edge belongs to a row above. */
  ghost predicate Between(frame: FrameState, y: nat)
    reads frame
  {
    frame.Located() && (frame.x == frame.scr.scr.cols ==> frame.y < y)
  }

  function FirstWidth(f: Snapshot, y: nat, wrap: bool): nat
    requires f.Valid() && y < f.rows
  {
    if wrap then f.cells[y][0].width else 0
  }

  /** The goal is about row `y`. */
  predicate GoalFor(f: Snapshot, y: nat, g: Goal)
    requires f.Valid() && y < f.rows
  {
    g.row == f.cells[y] && |g.model| == |g.was| == |g.want| == f.cols
  }

  /** Columns `p..q` are wanted as the picture has them. */
  predicate Wants(f: Snapshot, g: Goal, p: nat, q: nat) {
    p <= q <= |g.row| == |g.want| && forall x :: p <= x < q ==> g.want[x] == f.LookOf(g.row[x])
  }

  ghost predicate RowLoop(frame: FrameState, f: Snapshot, y: nat, g: Goal, p: nat)
    requires f.Valid() && y < f.rows
    reads frame
  {
    && frame.Valid() && Sized(frame.scr, f) && GoalFor(f, y, g)
    && RowMid(frame.scr.scr.grid[y].cells, g, p)
    && frame.Located()
    && (frame.x == f.cols ==> frame.y <= y)
    && (frame.x == f.cols && frame.y == y ==> p == f.cols)
  }

  /** Only row `y` changed, and it does not come to wrap. */
  predicate SameOthers(t: Term, u: Term, y: nat) {
    && t.Valid() && u.Valid() && t.SameShape(u)
    && (forall i :: 0 <= i < t.scr.rows && i != y ==> u.scr.grid[i] == t.scr.grid[i])
    && (y < t.scr.rows && u.scr.grid[y].wrapped ==> t.scr.grid[y].wrapped)
  }

  /** The row above `y` wraps, if `wrap`. */
  function Flagged(t: Term, y: nat, wrap: bool): (u: Term)
    requires t.Valid()
    ensures u.Valid() && t.SameShape(u)
  {
    if wrap && 0 < y <= t.scr.rows then t.SetRow(y - 1, t.scr.grid[y - 1].(wrapped := true)) else t
  }

  lemma LookWant(f: Snapshot, c: Cell)
    ensures f.LookOf(c) == Look(c.(style := Plain(c.style), link := f.Uri(c.link)))
  {
  }

  /** The frame stands before column `p` of row `y` with the pen set. */
  ghost predicate Aimed(frame: FrameState, y: nat, p: nat, style: Style, uri: nat)
    reads frame
  {
    && frame.x == p && frame.y == y && frame.style == style && frame.link == uri
    && Standing(frame.scr, p, y)
  }

  method Aim(frame: FrameState, f: Snapshot, y: nat, p: nat, style: Style, link: nat, ghost g: Goal)
    requires f.Valid() && y < f.rows && p < f.cols
    requires RowLoop(frame, f, y, g, p)
    modifies frame
    ensures RowLoop(frame, f, y, g, p)
    ensures Aimed(frame, y, p, style, f.Uri(link))
    ensures Kept(old(frame.start), old(frame.scr), old(Margins(frame.out)), frame, y)
  {
    hide RowMid, Run, Margins, Term.Step;
    frame.AppendSilentMove(y, p);
    frame.UpdateStyle(style, false);
    frame.UpdateLink(f.Uri(link), false);
  }

  /** What drawing in row `y` leaves alone. */
  ghost predicate Kept(start: Term, t: Term, margins: nat, frame: FrameState, y: nat)
    reads frame
  {
    && frame.start == start && SameOthers(t, frame.scr, y) && Margins(frame.out) == margins
  }

  /** Draw cell `x` of row `y` where it belongs. */
  method DrawAt(frame: FrameState, f: Snapshot, y: nat, x: nat, ghost g: Goal)
    requires f.Valid() && y < f.rows && x < f.cols
    requires RowLoop(frame, f, y, g, x) && Wants(f, g, x, x + 1)
    modifies frame
    ensures x + f.cells[y][x].width <= f.cols
    ensures RowLoop(frame, f, y, g, x + f.cells[y][x].width)
    ensures frame.Tracked() && frame.y == y && frame.x == x + f.cells[y][x].width
    ensures Kept(old(frame.start), old(frame.scr), old(Margins(frame.out)), frame, y)
  {
    hide RowMid, AfterDraw, PutCell, Run, Margins, Term.Step;
    var cell := f.cells[y][x];
    RowMidShape(frame.scr.scr.grid[y].cells, g, x);
    Aim(frame, f, y, x, cell.style, cell.link, g);
    LookWant(f, cell);
    DrawAdvances(frame.scr.Cells(), g, x, frame.scr.cur.style, frame.scr.cur.link);
    AfterDrawFacts(frame.scr, cell);
    frame.AppendCell(cell);
    frame.x := frame.x + cell.width;
  }

  /** Columns `p..q` of row `y` are blanks of one style and link. */
  predicate Run1(row: seq<Cell>, p: nat, q: nat, style: Style, link: nat) {
    && p <= q <= |row|
    && forall x :: p <= x < q ==> IsBlank(row[x]) && row[x].width == 1 && row[x].style == style && row[x].link == link
  }

  lemma RunWanted(t: Term, f: Snapshot, g: Goal, p: nat, q: nat, style: Style, link: nat)
    requires Run1(g.row, p, q, style, link) && Wants(f, g, p, q)
    requires t.cur.style == Plain(style) && t.cur.link == f.Uri(link)
    ensures BlanksDue(t, g, p, q)
    ensures style == DEFAULT_STYLE && f.Uri(link) == 0 ==> BlankRun(g, p, q)
  {
  }

  /** Write a run of blanks out as spaces. */
  method PrintRun(frame: FrameState, f: Snapshot, y: nat, p: nat, n: nat, style: Style, link: nat,
                  ghost g: Goal)
    requires f.Valid() && y < f.rows && 0 < n && p + n <= f.cols
    requires RowLoop(frame, f, y, g, p) && Aimed(frame, y, p, style, f.Uri(link))
    requires Wants(f, g, p, p + n) && Run1(f.cells[y], p, p + n, style, link)
    modifies frame
    ensures RowLoop(frame, f, y, g, p + n)
    ensures frame.Tracked() && frame.y == y && frame.x == p + n
    ensures Kept(old(frame.start), old(frame.scr), old(Margins(frame.out)), frame, y)
  {
    hide RowMid, Run, Margins, Look;
    RunWanted(frame.scr, f, g, p, p + n, style, link);
    frame.AppendSpaces(n, g, p);
    frame.x := p + n;
  }

  /** Erase a run of blanks inside the row. */
  method EraseRun(frame: FrameState, f: Snapshot, y: nat, p: nat, n: nat, style: Style, link: nat,
                  ghost g: Goal)
    requires f.Valid() && y < f.rows && 0 < n && p + n < f.cols
    requires RowLoop(frame, f, y, g, p) && Aimed(frame, y, p, style, f.Uri(link)) && frame.CanUseErase()
    requires Wants(f, g, p, p + n) && Run1(f.cells[y], p, p + n, style, link) && f.cells[y][p + n].width != 0
    modifies frame
    ensures RowLoop(frame, f, y, g, p + n)
    ensures frame.Tracked() && frame.y == y && frame.x == p
    ensures Kept(old(frame.start), old(frame.scr), old(Margins(frame.out)), frame, y)
  {
    hide RowMid, Run, Margins, Term.Step, BlankRun, Look;
    RunWanted(frame.scr, f, g, p, p + n, style, link);
    EchFacts(frame.scr, n);
    EchAdvances(frame.scr.Cells(), g, p, p + n);
    frame.Append(Ech(n));
  }

  /** Erase the blank end of the row. */
  method EraseEnd(frame: FrameState, f: Snapshot, y: nat, p: nat, style: Style, link: nat,
                  ghost g: Goal)
    requires f.Valid() && y < f.rows && p < f.cols
    requires RowLoop(frame, f, y, g, p) && Aimed(frame, y, p, style, f.Uri(link)) && frame.CanUseErase()
    requires Wants(f, g, p, f.cols) && Run1(f.cells[y], p, f.cols, style, link)
    modifies frame
    ensures RowLoop(frame, f, y, g, f.cols)
    ensures frame.Tracked() && frame.y == y && frame.x == p
    ensures Kept(old(frame.start), old(frame.scr), old(Margins(frame.out)), frame, y)
  {
    hide RowMid, Run, Margins, Term.Step, BlankRun, Look;
    RunWanted(frame.scr, f, g, p, f.cols, style, link);
    ElFacts(frame.scr);
    ElFinishes(frame.scr.Cells(), g, p);
    frame.Append(El(0));
  }

  /** Flush a run of pending blanks that ends inside the row. */
  method FlushRun(frame: FrameState, f: Snapshot, y: nat, p: nat, n: nat, style: Style, link: nat,
                  ghost g: Goal)
    requires f.Valid() && y < f.rows && 0 < n && p + n < f.cols
    requires RowLoop(frame, f, y, g, p)
    requires Wants(f, g, p, p + n) && Run1(f.cells[y], p, p + n, style, link) && f.cells[y][p + n].width != 0
    modifies frame
    ensures RowLoop(frame, f, y, g, p + n)
    ensures frame.Tracked() && frame.y == y && frame.x <= p + n
    ensures Kept(old(frame.start), old(frame.scr), old(Margins(frame.out)), frame, y)
  {
    hide RowMid, Run, Margins, Run1;
    Aim(frame, f, y, p, style, link, g);
    if frame.CanUseErase() && n > 4 {
      EraseRun(frame, f, y, p, n, style, link, g);
    } else {
      PrintRun(frame, f, y, p, n, style, link, g);
    }
  }

  /** Flush the run of blanks that reaches the end of the row; true if the last
      cell was written rather than erased. */
  method FlushEnd(frame: FrameState, f: Snapshot, y: nat, p: nat, style: Style, link: nat,
                  ghost g: Goal) returns (wrote: bool)
    requires f.Valid() && y < f.rows && p < f.cols
    requires RowLoop(frame, f, y, g, p)
    requires Wants(f, g, p, f.cols) && Run1(f.cells[y], p, f.cols, style, link)
    modifies frame
    ensures RowLoop(frame, f, y, g, f.cols)
    ensures wrote == (f.wrapped[y] || style != DEFAULT_STYLE || f.Uri(link) != 0)
    ensures frame.Tracked() && frame.y == y && frame.x == if wrote then f.cols else p
    ensures Kept(old(frame.start), old(frame.scr), old(Margins(frame.out)), frame, y)
  {
    hide RowMid, Run, Margins, Run1;
    Aim(frame, f, y, p, style, link, g);
    wrote := !(frame.CanUseErase() && !f.wrapped[y]);
    if !wrote {
      EraseEnd(frame, f, y, p, style, link, g);
    } else {
      PrintRun(frame, f, y, p, f.cols - p, style, link, g);
    }
  }

  // --- the row scan ------------------------------------------------------------

  /** Where the frame's position is left past the right edge: that row, or -1. */
  ghost function EdgeRow(frame: FrameState): int
    reads frame
  {
    if frame.x == frame.scr.scr.cols then frame.y else -1
  }

  /** Does row `y`'s scan write the last cell? */
  function Ends(f: Snapshot, y: nat, model: seq<Cell>, init: bool, wrap: bool): bool
    requires f.Valid() && y < f.rows && |model| == f.cols
  {
    EndsPrinted(f, f.cells[y], f.wrapped[y], model, init, FirstWidth(f, y, wrap), 0)
  }

  /** How cell `x` of row `y` is shown in the end: if the scan passes over it, as it
      was; else as the picture has it. */
  function WantAt(f: Snapshot, y: nat, model: seq<Cell>, was: seq<Cell>, init: bool, wrap: bool, x: nat): Cell
    requires f.Valid() && y < f.rows && |model| == |was| == f.cols && x < f.cols
  {
    var row := f.cells[y];
    if row[x].width != 0 && Skips(row, model, init, FirstWidth(f, y, wrap), 0, x) then was[x] else f.LookOf(row[x])
  }

  function RowWant(f: Snapshot, y: nat, model: seq<Cell>, was: seq<Cell>, init: bool, wrap: bool): (w: seq<Cell>)
    requires f.Valid() && y < f.rows && |model| == |was| == f.cols
    ensures |w| == f.cols
    ensures forall x :: 0 <= x < f.cols ==> w[x] == WantAt(f, y, model, was, init, wrap, x)
  {
    seq(f.cols, x requires 0 <= x < f.cols => WantAt(f, y, model, was, init, wrap, x))
  }

  function RowGoal(f: Snapshot, y: nat, model: seq<Cell>, was: seq<Cell>, init: bool, wrap: bool): Goal
    requires f.Valid() && y < f.rows && |model| == |was| == f.cols
  {
    Goal(f.cells[y], model, was, RowWant(f, y, model, was, init, wrap), init)
  }

  /** Scanning on from column `x` with `run` blanks pending, the goal wants what the
      scan will leave. */
  predicate Ahead(f: Snapshot, g: Goal, x: nat, run: nat) {
    && |g.row| == |g.model| == |g.was| == |g.want| && run <= x <= |g.row|
    && forall k :: x - run <= k < |g.row| ==>
         g.want[k] == if g.row[k].width != 0 && Skips(g.row, g.model, g.init, x, run, k) then g.was[k] else f.LookOf(g.row[k])
  }

  /** Cells not passed over are wanted as the picture has them. */
  lemma AheadWants(f: Snapshot, g: Goal, x: nat, run: nat)
    requires Ahead(f, g, x, run)
    ensures Wants(f, g, x - run, x)
  {
    hide Skips, Snapshot.LookOf;
    forall k | x - run <= k < x
      ensures g.want[k] == f.LookOf(g.row[k])
    {
      if Skips(g.row, g.model, g.init, x, run, k) {
        SkipsAhead(g.row, g.model, g.init, x, run, k);
      }
    }
  }

  /** One step of the scan, for a cell that starts at `x`. */
  lemma AheadStep(f: Snapshot, g: Goal, x: nat, run: nat)
    requires Ahead(f, g, x, run) && x < |g.row| && 1 <= g.row[x].width && x + g.row[x].width <= |g.row|
    ensures var c, w := g.row[x], g.row[x].width;
            if g.init && run == 0 && g.model[x] == c then g.want[x] == g.was[x] && Ahead(f, g, x + w, 0)
            else if IsBlank(c) && (run == 0 || (c.style == g.row[x - 1].style && c.link == g.row[x - 1].link)) then
              Ahead(f, g, x + 1, run + 1)
            else if IsBlank(c) then Ahead(f, g, x + 1, 1)
            else Wants(f, g, x, x + 1) && Ahead(f, g, x + w, 0)
  {
    hide Skips, Snapshot.LookOf, IsBlank;
    var c, w := g.row[x], g.row[x].width;
    forall k | x - run <= k < |g.row|
      ensures Skips(g.row, g.model, g.init, x, run, k) ==
              if g.init && run == 0 && g.model[x] == c then k == x || Skips(g.row, g.model, g.init, x + w, 0, k)
              else if IsBlank(c) && (run == 0 || (c.style == g.row[x - 1].style && c.link == g.row[x - 1].link)) then
                Skips(g.row, g.model, g.init, x + 1, run + 1, k)
              else if IsBlank(c) then Skips(g.row, g.model, g.init, x + 1, 1, k)
              else Skips(g.row, g.model, g.init, x + w, 0, k)
    {
      SkipsStep(g.row, g.model, g.init, x, run, k);
    }
    if Skips(g.row, g.model, g.init, x + w, 0, x) {
      SkipsAhead(g.row, g.model, g.init, x + w, 0, x);
    }
  }

  lemma SkipsStep(row: seq<Cell>, model: seq<Cell>, init: bool, x: nat, run: nat, k: nat)
    requires |row| == |model| && run <= x < |row| && row[x].width >= 1
    ensures var c, w := row[x], row[x].width;
            Skips(row, model, init, x, run, k) ==
            if init && run == 0 && model[x] == c then k == x || Skips(row, model, init, x + w, 0, k)
            else if IsBlank(c) && (run == 0 || (c.style == row[x - 1].style && c.link == row[x - 1].link)) then
              Skips(row, model, init, x + 1, run + 1, k)
            else if IsBlank(c) then Skips(row, model, init, x + 1, 1, k)
            else Skips(row, model, init, x + w, 0, k)
  {
  }

  /** A row that is ready begins its goal. */
  lemma GoalStart(cells: seq<Cell>, f: Snapshot, y: nat, model: seq<Cell>, was: seq<Cell>, init: bool, wrap: bool)
    requires f.Valid() && y < f.rows && |model| == |was| == f.cols
    requires RowReady(cells, f.cells[y], model, was, init)
    ensures var g := RowGoal(f, y, model, was, init, wrap);
            && GoalFor(f, y, g) && RowMid(cells, g, 0)
            && (FirstWidth(f, y, wrap) <= f.cols ==> Ahead(f, g, FirstWidth(f, y, wrap), 0))
            && (wrap ==> Wants(f, g, 0, 1))
  {
    hide Skips, Look;
    var row, g := f.cells[y], RowGoal(f, y, model, was, init, wrap);
    var start := FirstWidth(f, y, wrap);
    assert !Orphan(row, 0);
    forall x | 0 <= x < f.cols
      ensures g.want[x].width == row[x].width
      ensures row[x].width == 0 ==> g.want[x] == Look(row[x])
    {
      LookWidth(row[x].(link := f.Uri(row[x].link)));
      if row[x].width == 0 {
        SpacerLook(row[x].(link := f.Uri(row[x].link)), row[x]);
      } else if Skips(row, model, init, start, 0, x) {
        SkipsAhead(row, model, init, start, 0, x);
      }
    }
    if wrap && Skips(row, model, init, start, 0, 0) {
      SkipsAhead(row, model, init, start, 0, 0);
    }
  }

  /** Where the position is left past the edge after row `y`, from before. */
  function EdgeAfter(f: Snapshot, y: nat, model: seq<Cell>, init: bool, wrap: bool, before: int): int
    requires f.Valid() && y < f.rows && |model| == f.cols
  {
    if Ends(f, y, model, init, wrap) then (if y + 1 == f.rows then y else -1)
    else if wrap && f.cells[y][0].width >= f.cols then y
    else if !wrap && Silent(f.cells[y], model, init, 0) then before
    else -1
  }

  /** The first cell of row `y`, drawn by the wrap off the row above. */
  lemma WrapDrawn(t: Term, f: Snapshot, y: nat, g: Goal)
    requires f.Valid() && 0 < y < f.rows && Sized(t, f) && GoalFor(f, y, g) && Wants(f, g, 0, 1)
    requires RowMid(t.scr.grid[y].cells, g, 0)
    requires t.modes.autowrap && !t.modes.insert && Standing(t, f.cols, y - 1)
    requires t.cur.style == Plain(f.cells[y][0].style) && t.cur.link == f.Uri(f.cells[y][0].link)
    ensures var c := f.cells[y][0];
            && CellOk(c) && 1 <= c.width <= f.cols
            && var u := AfterDraw(t.WrapLine(), c);
               && Run(t, Drawn(c)) == u && u.Valid() && SameOthers(Flagged(t, y, true), u, y) && Standing(u, c.width, y)
               && u == t.(scr := u.scr, cur := t.cur.(row := u.cur.row, col := u.cur.col, pending := u.cur.pending))
               && RowMid(u.scr.grid[y].cells, g, c.width)
  {
    hide RowMid, AfterDraw, PutCell, Run, Margins, Term.WrapLine, Look, Snapshot.LookOf;
    var c := f.cells[y][0];
    LookWant(f, c);
    WrapFull(t);
    var v := t.WrapLine();
    RowMidShape(v.Cells(), g, 0);
    DrawAdvances(v.Cells(), g, 0, v.cur.style, v.cur.link);
    DrawWrapped(t, c);
    AfterDrawFacts(v, c);
  }

  lemma PenAside(s: Term, t: Term, u: Term, y: nat)
    requires s.Valid() && t.Valid() && t == s.(cur := t.cur) && SameOthers(Flagged(t, y, true), u, y)
    ensures SameOthers(Flagged(s, y, true), u, y)
  {
  }

  /** The first cell of a row the previous one wrapped onto. */
  method WrapOnto(frame: FrameState, f: Snapshot, y: nat, ghost g: Goal)
    requires f.Valid() && y < f.rows
    requires frame.Valid() && Sized(frame.scr, f) && GoalFor(f, y, g) && Wants(f, g, 0, 1)
    requires RowMid(frame.scr.scr.grid[y].cells, g, 0)
    requires AtWrap(frame, y)
    modifies frame
    ensures f.cells[y][0].width <= f.cols
    ensures RowLoop(frame, f, y, g, f.cells[y][0].width)
    ensures frame.Tracked() && frame.y == y && frame.x == f.cells[y][0].width
    ensures Kept(old(frame.start), Flagged(old(frame.scr), y, true), old(Margins(frame.out)), frame, y)
  {
    hide RowMid, AfterDraw, Run, Margins, Term.Step, Term.WrapLine, Look, CellOk, Drawn, Wants, SameOthers, Flagged;
    var cell := f.cells[y][0];
    ghost var s := frame.scr;
    frame.UpdateStyle(cell.style, false);
    frame.UpdateLink(f.Uri(cell.link), false);
    ghost var t := frame.scr;
    WrapDrawn(t, f, y, g);
    DrawnPlain(cell);
    frame.AppendN(Drawn(cell));
    PenAside(s, t, frame.scr, y);
    frame.x := frame.x + cell.width;
  }

  lemma ScanStart(f: Snapshot, y: nat, x: nat)
    requires f.Valid() && y < f.rows && x < f.cols && f.cells[y][x].width != 0
    ensures 1 <= f.cells[y][x].width <= 2 && x + f.cells[y][x].width <= f.cols
    ensures IsBlank(f.cells[y][x]) ==> f.cells[y][x].width == 1
    ensures x + f.cells[y][x].width < f.cols ==> f.cells[y][x + f.cells[y][x].width].width != 0
  {
    NextStart(f.cells[y], x);
  }

  /** One step of the two scans above, for a cell that starts at `x`. */
  lemma ScanStep(f: Snapshot, row: seq<Cell>, rowWrap: bool, model: seq<Cell>, init: bool, x: nat, run: nat)
    requires |row| == |model| && run <= x < |row| && row[x].width >= 1
    ensures var c, w := row[x], row[x].width;
            EndsPrinted(f, row, rowWrap, model, init, x, run) ==
            if init && run == 0 && model[x] == c then EndsPrinted(f, row, rowWrap, model, init, x + w, 0)
            else if IsBlank(c) && (run == 0 || (c.style == row[x - 1].style && c.link == row[x - 1].link)) then
              EndsPrinted(f, row, rowWrap, model, init, x + 1, run + 1)
            else if IsBlank(c) then EndsPrinted(f, row, rowWrap, model, init, x + 1, 1)
            else x + w >= |row| || EndsPrinted(f, row, rowWrap, model, init, x + w, 0)
    ensures Silent(row, model, init, x) ==
            (init && model[x] == row[x] && Silent(row, model, init, x + row[x].width))
  {
  }

  lemma ScanEnd(f: Snapshot, row: seq<Cell>, rowWrap: bool, model: seq<Cell>, init: bool, run: nat)
    requires |row| == |model| && run <= |row| && |row| > 0
    ensures EndsPrinted(f, row, rowWrap, model, init, |row|, run) ==
            (run > 0 && (rowWrap || row[|row| - 1].style != DEFAULT_STYLE || f.Uri(row[|row| - 1].link) != 0))
    ensures Silent(row, model, init, |row|)
  {
  }

  /** What holds at column `x` of the scan of row `y`, `run` blanks pending. */
  ghost predicate Scanning(frame: FrameState, f: Snapshot, y: nat, g: Goal, x: nat,
                           run: nat, style: Style, link: nat, wrote: bool)
    requires f.Valid() && y < f.rows
    reads frame
  {
    && run <= x <= f.cols
    && RowLoop(frame, f, y, g, x - run) && Ahead(f, g, x, run)
    && Run1(f.cells[y], x - run, x, style, link)
    && (x < f.cols ==> f.cells[y][x].width != 0)
    && (wrote ==> run == 0 && x == f.cols && frame.Tracked() && frame.x == f.cols && frame.y == y)
  }

  /** Skipping keeps the scan going. */
  lemma SkipLoop(frame: FrameState, f: Snapshot, y: nat, g: Goal, p: nat)
    requires f.Valid() && y < f.rows && p < f.cols && RowLoop(frame, f, y, g, p)
    requires g.init && g.model[p] == f.cells[y][p] && g.want[p] == g.was[p]
    ensures RowLoop(frame, f, y, g, p + f.cells[y][p].width)
  {
    hide RowMid;
    SkipAdvances(frame.scr.scr.grid[y].cells, g, p);
  }

  lemma SameTrans(s: Term, t: Term, u: Term, y: nat)
    requires SameOthers(s, t, y) && SameOthers(t, u, y)
    ensures SameOthers(s, u, y)
  {
  }

  lemma RunEmpty(row: seq<Cell>, x: nat, style: Style, link: nat)
    requires x <= |row|
    ensures Run1(row, x, x, style, link)
  {
  }

  lemma RunGrow(row: seq<Cell>, p: nat, x: nat, style: Style, link: nat)
    requires Run1(row, p, x, style, link) && x < |row| && IsBlank(row[x]) && row[x].width == 1
    requires row[x].style == style && row[x].link == link
    ensures Run1(row, p, x + 1, style, link)
  {
  }

  lemma RunLast(row: seq<Cell>, p: nat, x: nat, style: Style, link: nat)
    requires Run1(row, p, x, style, link) && p < x
    ensures row[x - 1].style == style && row[x - 1].link == link
  {
  }

  lemma ScanValid(frame: FrameState, f: Snapshot, y: nat, g: Goal, p: nat)
    requires f.Valid() && y < f.rows && RowLoop(frame, f, y, g, p)
    ensures SameOthers(frame.scr, frame.scr, y) && frame.scr.scr.cols == f.cols && GoalFor(f, y, g)
  {
    hide RowMid, Run, Margins;
  }

  /** Forget the position, to force a full positioning. */
  method LosePosition(frame: FrameState, f: Snapshot, y: nat, ghost g: Goal, ghost p: nat)
    requires f.Valid() && y < f.rows && RowLoop(frame, f, y, g, p)
    modifies frame`x, frame`y
    ensures RowLoop(frame, f, y, g, p)
  {
    hide RowMid, Run, Margins;
    frame.x, frame.y := -1, -1;
  }

  /** Scan row `y` from column `start`, drawing what differs; blanks that reach
      the end of the row are left pending. */
  method ScanRow(init: bool, frame: FrameState, f: Snapshot, y: nat, model: seq<Cell>, start: nat, ghost g: Goal)
    returns (clearCount: nat, blankStyle: Style, blankLink: nat, wroteLastCell: bool, ghost moved: bool)
    requires f.Valid() && y < f.rows && |model| == f.cols && g.model == model && g.init == init
    requires Scanning(frame, f, y, g, start, 0, DEFAULT_STYLE, 0, false)
    modifies frame
    ensures Scanning(frame, f, y, g, f.cols, clearCount, blankStyle, blankLink, wroteLastCell)
    ensures Kept(old(frame.start), old(frame.scr), old(Margins(frame.out)), frame, y)
    ensures !moved ==> frame.Fields() == old(frame.Fields())
    ensures wroteLastCell ==> moved
    ensures moved && frame.x == f.cols ==> wroteLastCell
    ensures EndsPrinted(f, f.cells[y], f.wrapped[y], model, init, start, 0) ==
            (wroteLastCell || EndsPrinted(f, f.cells[y], f.wrapped[y], model, init, f.cols, clearCount))
    ensures Silent(f.cells[y], model, init, start) == (!moved && clearCount == 0)
  {
    hide RowMid, Run, Margins, Term.Step, EndsPrinted, Silent, RowLoop, SameOthers, Run1, Standing, Ahead, Wants, GoalFor;
    var row, rowWrap, width := f.cells[y], f.wrapped[y], f.cols;
    var frameX := start;
    ScanValid(frame, f, y, g, start);
    RunEmpty(row, start, DEFAULT_STYLE, 0);
    clearCount, blankStyle, blankLink, wroteLastCell, moved := 0, DEFAULT_STYLE, 0, false, false;
    while frameX < width
      invariant Scanning(frame, f, y, g, frameX, clearCount, blankStyle, blankLink, wroteLastCell)
      invariant Kept(old(frame.start), old(frame.scr), old(Margins(frame.out)), frame, y)
      invariant !moved ==> frame.Fields() == old(frame.Fields())
      invariant wroteLastCell ==> moved
      invariant moved && frame.x == width ==> wroteLastCell
      invariant EndsPrinted(f, row, rowWrap, model, init, start, 0) ==
                (wroteLastCell || EndsPrinted(f, row, rowWrap, model, init, frameX, clearCount))
      invariant Silent(row, model, init, start) == (!moved && clearCount == 0 && Silent(row, model, init, frameX))
    {
      var cell := row[frameX];
      ScanStart(f, y, frameX);
      ScanStep(f, row, rowWrap, model, init, frameX, clearCount);
      ScanValid(frame, f, y, g, frameX - clearCount);
      AheadSize(f, g, y, frameX, clearCount);
      AheadStep(f, g, frameX, clearCount);
      AheadWants(f, g, frameX, clearCount);

      // Already on the screen. With blanks pending the cell is treated like a new one.
      if init && clearCount == 0 && model[frameX] == cell {
        SkipLoop(frame, f, y, g, frameX);
        frameX := frameX + cell.width;
        RunEmpty(row, frameX, blankStyle, blankLink);
        continue;
      }
      // Collect a run of blanks of one style and link.
      if IsBlank(cell) {
        if clearCount == 0 {
          blankStyle, blankLink := cell.style, cell.link;
          RunEmpty(row, frameX, blankStyle, blankLink);
        } else {
          RunLast(row, frameX - clearCount, frameX, blankStyle, blankLink);
        }
        if cell.style == blankStyle && cell.link == blankLink {
          RunGrow(row, frameX - clearCount, frameX, blankStyle, blankLink);
          clearCount, frameX := clearCount + 1, frameX + 1;
          continue;
        }
      }
      // Flush the pending run; another blank restarts it.
      if clearCount > 0 {
        ghost var t := frame.scr;
        FlushRun(frame, f, y, frameX - clearCount, clearCount, blankStyle, blankLink, g);
        SameTrans(old(frame.scr), t, frame.scr, y);
        moved := true;
        clearCount := 0;
        if IsBlank(cell) {
          blankStyle, blankLink := cell.style, cell.link;
          RunEmpty(row, frameX, blankStyle, blankLink);
          RunGrow(row, frameX, frameX, blankStyle, blankLink);
          clearCount, frameX := 1, frameX + 1;
          continue;
        }
      }
      // Draw the cell. Before a wrap at the edge, force a full positioning.
      if rowWrap && frameX + cell.width >= width {
        LosePosition(frame, f, y, g, frameX);
      }
      ghost var t := frame.scr;
      DrawAt(frame, f, y, frameX, g);
      SameTrans(old(frame.scr), t, frame.scr, y);
      moved := true;
      frameX := frameX + cell.width;
      RunEmpty(row, frameX, blankStyle, blankLink);
      if frameX >= width {
        wroteLastCell := true;
      }
    }
    ScanEnd(f, row, rowWrap, model, init, clearCount);
  }

  lemma AheadSize(f: Snapshot, g: Goal, y: nat, x: nat, run: nat)
    requires f.Valid() && y < f.rows && GoalFor(f, y, g) && Ahead(f, g, x, run)
    ensures g.row == f.cells[y] && |g.row| == |g.model| == |g.was| == |g.want| == f.cols
  {
  }

  /** The row is shown as wanted. */
  predicate RowIs(cells: seq<Cell>, want: seq<Cell>) {
    |cells| == |want| && forall x :: 0 <= x < |want| ==> Look(cells[x]) == want[x]
  }

  lemma DoneShows(frame: FrameState, f: Snapshot, y: nat, g: Goal)
    requires f.Valid() && y < f.rows && RowLoop(frame, f, y, g, f.cols)
    ensures RowIs(frame.scr.scr.grid[y].cells, g.want)
  {
  }

  /** Go on to the next row after writing the last cell of this one: by the
      wrap, where the content wrapped, so that the terminal groups the line;
      else by a new line. */
  method LeaveRow(frame: FrameState, f: Snapshot, y: nat, wrapped: bool)
    requires frame.Valid() && Sized(frame.scr, f) && y + 1 < f.rows
    requires frame.Tracked() && frame.y == y && frame.x == f.cols
    modifies frame
    ensures frame.Valid() && Sized(frame.scr, f) && frame.x == 0
    ensures frame.scr.scr == old(frame.scr).scr && frame.start == old(frame.start)
    ensures SameOthers(old(frame.scr), frame.scr, y) && Margins(frame.out) == old(Margins(frame.out))
    ensures if wrapped then AtWrap(frame, y + 1) else Between(frame, y + 1)
  {
    hide Run, Margins, Term.Step;
    if !wrapped {
      StepCr(frame.scr);
      frame.Append(Cr);
      FeedDown(frame.scr);
      frame.Append(Lf);
    }
    frame.x, frame.y := 0, frame.y + 1;
  }

  lemma EdgeCases(f: Snapshot, y: nat, model: seq<Cell>, init: bool, wrap: bool, before: int, wrote: bool, fx: int, fy: int)
    requires f.Valid() && y < f.rows && |model| == f.cols
    requires wrote == Ends(f, y, model, init, wrap)
    requires wrote ==> fx == f.cols && fy == y
    requires !wrote && wrap ==> (fx == f.cols ==> fy == y) && (fx == f.cols <==> f.cells[y][0].width >= f.cols)
    requires !wrote && !wrap && Silent(f.cells[y], model, init, 0) ==> before == if fx == f.cols then fy else -1
    requires !wrote && !wrap && !Silent(f.cells[y], model, init, 0) ==> fx != f.cols
    ensures EdgeAfter(f, y, model, init, wrap, before) ==
            if wrote && y + 1 < f.rows then -1 else if fx == f.cols then fy else -1
  {
  }

  /** Where the scan of row `y` starts: past the cell that is forced onto the
      row when the previous one wrapped. */
  method StartRow(frame: FrameState, f: Snapshot, y: nat, wrap: bool, ghost g: Goal)
    returns (frameX: nat)
    requires f.Valid() && y < f.rows && GoalFor(f, y, g)
    requires frame.Valid() && Sized(frame.scr, f) && RowMid(frame.scr.scr.grid[y].cells, g, 0)
    requires FirstWidth(f, y, wrap) <= f.cols ==> Ahead(f, g, FirstWidth(f, y, wrap), 0)
    requires if wrap then AtWrap(frame, y) && Wants(f, g, 0, 1) else Between(frame, y)
    modifies frame
    ensures frameX == FirstWidth(f, y, wrap)
    ensures Scanning(frame, f, y, g, frameX, 0, DEFAULT_STYLE, 0, false)
    ensures Kept(old(frame.start), Flagged(old(frame.scr), y, wrap), old(Margins(frame.out)), frame, y)
    ensures if wrap then frame.x == frameX && frame.y == y else frame.Fields() == old(frame.Fields())
  {
    hide RowMid, Run, Margins, Term.Step, Standing, Ahead, Wants;
    RowMidShape(frame.scr.scr.grid[y].cells, g, 0);
    frameX := 0;
    if wrap {
      WrapOnto(frame, f, y, g);
      frameX := f.cells[y][0].width;
      ScanStart(f, y, 0);
    }
  }

  /** Draw everything row `y` needs; true if its last cell was written. */
  method FillRow(init: bool, frame: FrameState, f: Snapshot, y: nat, model: seq<Cell>, wrap: bool, ghost g: Goal)
    returns (wrote: bool)
    requires f.Valid() && y < f.rows && |model| == f.cols && g.model == model && g.init == init && GoalFor(f, y, g)
    requires frame.Valid() && Sized(frame.scr, f) && RowMid(frame.scr.scr.grid[y].cells, g, 0)
    requires FirstWidth(f, y, wrap) <= f.cols ==> Ahead(f, g, FirstWidth(f, y, wrap), 0)
    requires if wrap then AtWrap(frame, y) && Wants(f, g, 0, 1) else Between(frame, y)
    modifies frame
    ensures RowLoop(frame, f, y, g, f.cols)
    ensures Kept(old(frame.start), Flagged(old(frame.scr), y, wrap), old(Margins(frame.out)), frame, y)
    ensures wrote == Ends(f, y, model, init, wrap)
    ensures wrote ==> frame.Tracked() && frame.y == y && frame.x == f.cols
    ensures !wrap && Silent(f.cells[y], model, init, 0) ==> !wrote && frame.Fields() == old(frame.Fields())
    ensures EdgeAfter(f, y, model, init, wrap, old(EdgeRow(frame))) ==
            if wrote && y + 1 < f.rows then -1 else if frame.x == f.cols then frame.y else -1
  {
    hide RowMid, Run, Margins, Term.Step, EndsPrinted, Silent, SameOthers, EdgeAfter, RowLoop, Run1, Standing, Ahead, Wants, GoalFor;
    ghost var before := EdgeRow(frame);
    var frameX := StartRow(frame, f, y, wrap, g);
    ghost var t := frame.scr;
    var clearCount, style, link, done, moved := ScanRow(init, frame, f, y, model, frameX, g);
    SameTrans(Flagged(old(frame.scr), y, wrap), t, frame.scr, y);
    ScanEnd(f, f.cells[y], f.wrapped[y], model, init, clearCount);
    wrote := done;
    if clearCount > 0 {
      t := frame.scr;
      RunLast(f.cells[y], f.cols - clearCount, f.cols, style, link);
      AheadWants(f, g, f.cols, clearCount);
      wrote := FlushEnd(frame, f, y, f.cols - clearCount, style, link, g);
      SameTrans(Flagged(old(frame.scr), y, wrap), t, frame.scr, y);
    }
    EdgeCases(f, y, model, init, wrap, before, wrote, frame.x, frame.y);
  }

  /** Diff row `y`. Returns true when the terminal is left at the end of the row
      with the wrap pending, so that drawing the row below takes it. The cells that
      the scan passes over stay as they were shown, `was`. */
  method PutRow(init: bool, frame: FrameState, f: Snapshot, y: nat, model: seq<Cell>, wrap: bool, ghost was: seq<Cell>)
    returns (wrapped: bool)
    requires f.Valid() && y < f.rows && |model| == |was| == f.cols
    requires frame.Valid() && Sized(frame.scr, f)
    requires RowReady(frame.scr.scr.grid[y].cells, f.cells[y], model, was, init)
    requires if wrap then AtWrap(frame, y) else Between(frame, y)
    modifies frame
    ensures frame.Valid() && Sized(frame.scr, f)
    ensures RowIs(frame.scr.scr.grid[y].cells, RowWant(f, y, model, was, init, wrap))
    ensures Kept(old(frame.start), Flagged(old(frame.scr), y, wrap), old(Margins(frame.out)), frame, y)
    ensures wrapped == (y + 1 < f.rows && f.wrapped[y] && Ends(f, y, model, init, wrap))
    ensures if wrapped then AtWrap(frame, y + 1) else Between(frame, y + 1)
    ensures EdgeRow(frame) == EdgeAfter(f, y, model, init, wrap, old(EdgeRow(frame)))
    ensures !wrap && Silent(f.cells[y], model, init, 0) ==> !wrapped && frame.Fields() == old(frame.Fields())
  {
    hide RowMid, Run, Margins, Term.Step, EndsPrinted, Silent, SameOthers, EdgeAfter, RowReady, RowIs, Ahead, Wants, RowWant;
    ghost var g := RowGoal(f, y, model, was, init, wrap);
    GoalStart(frame.scr.scr.grid[y].cells, f, y, model, was, init, wrap);
    var wrote := FillRow(init, frame, f, y, model, wrap, g);
    DoneShows(frame, f, y, g);
    wrapped := wrote && y + 1 < f.rows && f.wrapped[y];
    if wrote && y + 1 < f.rows {
      ghost var t := frame.scr;
      LeaveRow(frame, f, y, wrapped);
      SameTrans(Flagged(old(frame.scr), y, wrap), t, frame.scr, y);
    }
  }
}
