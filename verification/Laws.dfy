// What each control does, cell by cell and row by row (crates/posh-term/src/csi.rs,
// terminal.rs and screen.rs), said once more without the functions that do it.

module Laws {
  import opened Cells
  import opened Machine

  // --- cells -------------------------------------------------------------------------

  /** Repair blanks the heads without a spacer and the spacers without a head, and
      leaves every other cell. */
  lemma RepairAt(cells: seq<Cell>, k: nat)
    requires k < |cells|
    ensures var lone := if cells[k].width == 2 then k + 1 == |cells| || cells[k + 1].width != 0
                        else cells[k].width == 0 && (k == 0 || cells[k - 1].width != 2);
            Repair(cells)[k] == if lone then BLANK else cells[k]
  {
  }

  /** The cells from `col` on move left by `n`, blanks come in at the end. */
  lemma {:induction false} DeleteAt(cells: seq<Cell>, col: nat, n: nat, k: nat)
    requires col < |cells| && k < |cells|
    ensures DeleteCells(cells, col, n)[k] ==
            if k < col then cells[k] else if k + n < |cells| then cells[k + n] else BLANK
    decreases n
  {
    if n > 0 {
      var next := cells[..col] + cells[col + 1..] + [BLANK];
      DeleteAt(next, col, n - 1, k);
      if k >= col && k + n - 1 < |cells| {
        assert next[k + n - 1] == if k + n < |cells| then cells[k + n] else BLANK;
      }
    }
  }

  /** The cells from `col` on move right by `n`, off the row's end; blanks fill in. */
  lemma {:induction false} InsertAt(cells: seq<Cell>, col: nat, n: nat, k: nat)
    requires col < |cells| && k < |cells|
    ensures InsertBlanks(cells, col, n)[k] ==
            if k < col then cells[k] else if k < col + n then BLANK else cells[k - n]
    decreases n
  {
    if n > 0 {
      var next := cells[..col] + [BLANK] + cells[col..|cells| - 1];
      InsertAt(next, col, n - 1, k);
      if k >= col + n - 1 {
        assert next[k - (n - 1)] == if k < col + n then BLANK else cells[k - n];
      }
    }
  }

  /** What was inserted and deleted again leaves all but what fell off the end. */
  lemma InsertDelete(cells: seq<Cell>, col: nat, n: nat)
    requires col + n < |cells|
    ensures DeleteCells(InsertBlanks(cells, col, n), col, n) ==
            cells[..|cells| - n] + seq(n, i => BLANK)
  {
    hide DeleteCells, InsertBlanks;
    var m := |cells|;
    var r := DeleteCells(InsertBlanks(cells, col, n), col, n);
    forall k | 0 <= k < m
      ensures r[k] == (cells[..m - n] + seq(n, i => BLANK))[k]
    {
      DeleteAt(InsertBlanks(cells, col, n), col, n, k);
      if k < col {
        InsertAt(cells, col, n, k);
      } else if k + n < m {
        InsertAt(cells, col, n, k + n);
      }
    }
  }

  // --- editing the cursor's row -------------------------------------------------------

  /** Only the cursor's row changed, its wrap flag aside, and a pending wrap went. */
  predicate OnlyCells(t: Term, u: Term) {
    && t.Valid() && u.Valid()
    && u == t.(scr := t.scr.(grid := u.scr.grid), cur := t.cur.(pending := false))
    && u.scr.grid == t.scr.grid[t.cur.row := Row(u.Cells(), t.scr.grid[t.cur.row].wrapped)]
  }

  /** From column `col` on, the cell `n` further right, then blanks. */
  function ShiftedLeft(cells: seq<Cell>, col: nat, n: nat): (r: seq<Cell>)
    ensures |r| == |cells|
  {
    seq(|cells|, k requires 0 <= k < |cells| => if k < col then cells[k] else if k + n < |cells| then cells[k + n] else BLANK)
  }

  /** From column `col` on, `n` blanks and then the cells from there. */
  function ShiftedRight(cells: seq<Cell>, col: nat, n: nat): (r: seq<Cell>)
    ensures |r| == |cells|
  {
    seq(|cells|, k requires 0 <= k < |cells| => if k < col then cells[k] else if k < col + n then BLANK else cells[k - n])
  }

  function Wiped(cells: seq<Cell>, from: nat, to: nat): (r: seq<Cell>)
    ensures |r| == |cells|
  {
    seq(|cells|, k requires 0 <= k < |cells| => if from <= k < to then BLANK else cells[k])
  }

  lemma ShiftsAre(cells: seq<Cell>, col: nat, n: nat)
    requires col < |cells|
    ensures DeleteCells(cells, col, Min(n, |cells|)) == ShiftedLeft(cells, col, n)
    ensures InsertBlanks(cells, col, Min(n, |cells|)) == ShiftedRight(cells, col, n)
  {
    hide DeleteCells, InsertBlanks;
    var m := Min(n, |cells|);
    forall k | 0 <= k < |cells|
      ensures DeleteCells(cells, col, m)[k] == ShiftedLeft(cells, col, n)[k]
      ensures InsertBlanks(cells, col, m)[k] == ShiftedRight(cells, col, n)[k]
    {
      DeleteAt(cells, col, m, k);
      InsertAt(cells, col, m, k);
    }
  }

  /** DCH: the row from the cursor on shifted left by as many cells as asked for, at
      least one, then repaired. */
  lemma CharsDeleted(t: Term, n: nat)
    requires t.Valid()
    ensures OnlyCells(t, t.Step(Dch(n))) && t.Step(Dch(n)).Cells() == Repair(ShiftedLeft(t.Cells(), t.cur.col, Max(n, 1)))
  {
    hide Repair, InsertBlanks, DeleteCells, ShiftedLeft, ShiftedRight;
    ShiftsAre(t.Cells(), t.cur.col, Arg(n));
  }

  /** ICH: shifted right, blanks filling in, then repaired. */
  lemma CharsInserted(t: Term, n: nat)
    requires t.Valid()
    ensures OnlyCells(t, t.Step(Ich(n))) && t.Step(Ich(n)).Cells() == Repair(ShiftedRight(t.Cells(), t.cur.col, Max(n, 1)))
  {
    hide Repair, InsertBlanks, DeleteCells, ShiftedLeft, ShiftedRight;
    ShiftsAre(t.Cells(), t.cur.col, Arg(n));
  }

  /** ECH: so many cells from the cursor on blanked, then repaired. */
  lemma CharsErased(t: Term, n: nat)
    requires t.Valid()
    ensures OnlyCells(t, t.Step(Ech(n)))
            && t.Step(Ech(n)).Cells() == Repair(Wiped(t.Cells(), t.cur.col, t.cur.col + Max(n, 1)))
  {
    hide Repair;
    assert Erase(t.Cells(), t.cur.col, t.cur.col + Arg(n)) == Wiped(t.Cells(), t.cur.col, t.cur.col + Max(n, 1));
  }

  // --- rows that move --------------------------------------------------------------------

  /** Row `i` after rows `top..=bot` went up by `n`. */
  function RaisedRow(grid: seq<Row>, top: nat, bot: nat, n: nat, cols: nat, i: nat): Row
    requires i < |grid| && bot < |grid|
  {
    if i < top || i > bot then grid[i] else if i + n <= bot then grid[i + n] else BlankRow(cols)
  }

  /** Row `i` after rows `top..=bot` went down by `n`. */
  function LoweredRow(grid: seq<Row>, top: nat, bot: nat, n: nat, cols: nat, i: nat): Row
    requires i < |grid| && bot < |grid|
  {
    if i < top || i > bot then grid[i] else if i >= top + n then grid[i - n] else BlankRow(cols)
  }

  /** Scrolling up: the rows of the region move, and when they are saved those that
      left are the newest of the ring and counted. */
  lemma ScrolledUp(s: Screen, top: nat, bot: nat, n: nat, save: bool, i: nat)
    requires s.Valid() && top <= bot < s.rows && i < s.rows
    ensures var u, k := s.ScrollUp(top, bot, n, save), Max(Min(n, bot - top + 1), 1);
            && u == s.(grid := u.grid, sb := u.sb, total := u.total)
            && u.grid[i] == RaisedRow(s.grid, top, bot, k, s.cols, i)
            && (if save && s.maxSb > 0
                then u.total == s.total + k && |u.sb| == Min(|s.sb| + k, s.maxSb) && u.sb == (s.sb + s.grid[top..top + k])[|s.sb| + k - |u.sb|..]
                else u.total == s.total && u.sb == s.sb)
  {
  }

  lemma ScrolledDown(s: Screen, top: nat, bot: nat, n: nat, i: nat)
    requires s.Valid() && top <= bot < s.rows && i < s.rows
    ensures var u, k := s.ScrollDown(top, bot, n), Max(Min(n, bot - top + 1), 1);
            u == s.(grid := u.grid) && u.grid[i] == LoweredRow(s.grid, top, bot, k, s.cols, i)
  {
  }

  /** SU and SD: the region moves, the cursor does not; only the whole screen feeds the
      ring, and only upward. */
  lemma Scrolls(t: Term, n: nat, i: nat)
    requires t.Valid() && i < t.scr.rows
    ensures var u, k := t.Step(Su(n)), Min(Max(n, 1), t.bot - t.top + 1);
            && u == t.(scr := u.scr) && u.scr.grid[i] == RaisedRow(t.scr.grid, t.top, t.bot, k, t.scr.cols, i)
            && (t.top != 0 || t.bot != t.scr.rows - 1 || t.scr.maxSb == 0 ==> u.scr.sb == t.scr.sb && u.scr.total == t.scr.total)
            && (t.top == 0 && t.bot == t.scr.rows - 1 && t.scr.maxSb > 0 ==> u.scr.total == t.scr.total + k)
    ensures var u, k := t.Step(Sd(n)), Min(Max(n, 1), t.bot - t.top + 1);
            && u == t.(scr := t.scr.(grid := u.scr.grid))
            && u.scr.grid[i] == LoweredRow(t.scr.grid, t.top, t.bot, k, t.scr.cols, i)
  {
    hide Screen.ScrollUp, Screen.ScrollDown;
    ScrolledUp(t.scr, t.top, t.bot, Arg(n), t.FullRegion(), i);
    ScrolledDown(t.scr, t.top, t.bot, Arg(n), i);
  }

  /** IL and DL: the rows from the cursor to the bottom margin move down or up and the
      cursor returns to the first column; outside the region nothing happens, and the
      ring is never fed. */
  lemma LinesEdited(t: Term, n: nat, i: nat)
    requires t.Valid() && i < t.scr.rows
    ensures t.cur.row < t.top || t.cur.row > t.bot ==> t.Step(Il(n)) == t && t.Step(Dl(n)) == t
    ensures t.top <= t.cur.row <= t.bot ==>
            var u, k := t.Step(Il(n)), Min(Max(n, 1), t.bot - t.cur.row + 1);
            && u == t.(scr := t.scr.(grid := u.scr.grid), cur := t.cur.(col := 0, pending := false))
            && u.scr.grid[i] == LoweredRow(t.scr.grid, t.cur.row, t.bot, k, t.scr.cols, i)
    ensures t.top <= t.cur.row <= t.bot ==>
            var u, k := t.Step(Dl(n)), Min(Max(n, 1), t.bot - t.cur.row + 1);
            && u == t.(scr := t.scr.(grid := u.scr.grid), cur := t.cur.(col := 0, pending := false))
            && u.scr.grid[i] == RaisedRow(t.scr.grid, t.cur.row, t.bot, k, t.scr.cols, i)
  {
    hide Screen.ScrollUp, Screen.ScrollDown;
    if t.top <= t.cur.row <= t.bot {
      ScrolledUp(t.scr, t.cur.row, t.bot, Arg(n), false, i);
      ScrolledDown(t.scr, t.cur.row, t.bot, Arg(n), i);
    }
  }

  /** LF: down a row; on the bottom margin the region goes up by one instead, and on
      the last row below it nothing moves. The column stays, but for LNM. */
  lemma LineFeed(t: Term, i: nat)
    requires t.Valid() && i < t.scr.rows
    ensures var u := t.Step(Lf);
            && u == t.(scr := u.scr, cur := u.cur)
            && u.cur == t.cur.(row := u.cur.row, col := if t.modes.lnm then 0 else t.cur.col, pending := false)
            && u.cur.row == (if t.cur.row != t.bot && t.cur.row + 1 < t.scr.rows then t.cur.row + 1 else t.cur.row)
            && (t.cur.row != t.bot ==> u.scr == t.scr)
            && (t.cur.row == t.bot ==> u.scr == t.Step(Su(1)).scr && u.scr.grid[i] == RaisedRow(t.scr.grid, t.top, t.bot, 1, t.scr.cols, i))
  {
    hide Screen.ScrollUp;
    ScrolledUp(t.scr, t.top, t.bot, 1, t.FullRegion(), i);
  }

  /** RI: up a row; on the top margin the region goes down by one instead, and on the
      first row above it nothing moves. */
  lemma ReverseLineFeed(t: Term, i: nat)
    requires t.Valid() && i < t.scr.rows
    ensures var u := t.Step(Ri);
            && u == t.(scr := t.scr.(grid := u.scr.grid), cur := t.cur.(row := u.cur.row, pending := false))
            && u.cur.row == (if t.cur.row != t.top && t.cur.row > 0 then t.cur.row - 1 else t.cur.row)
            && (t.cur.row != t.top ==> u.scr == t.scr)
            && (t.cur.row == t.top ==> u.scr.grid[i] == LoweredRow(t.scr.grid, t.top, t.bot, 1, t.scr.cols, i))
  {
    hide Screen.ScrollDown;
    ScrolledDown(t.scr, t.top, t.bot, 1, i);
  }

  // --- erasing ----------------------------------------------------------------------------

  /** Is the cell in column `k` of row `i` erased by part `part` of ED, or of EL if
      `line`? To the end, from the start, or all, both ends including the cursor. */
  predicate Erased(t: Term, part: nat, line: bool, i: nat, k: nat) {
    var after := i > t.cur.row || (i == t.cur.row && k >= t.cur.col);
    var before := i < t.cur.row || (i == t.cur.row && k <= t.cur.col);
    (line ==> i == t.cur.row) && ((part == 0 && after) || (part == 1 && before) || part == 2)
  }

  /** EL: the cells of the cursor's row, whose wrap flag goes unless only the start was
      erased; no repair. */
  lemma LineErased(t: Term, part: nat, i: nat, k: nat)
    requires t.Valid() && i < t.scr.rows && k < t.scr.cols
    ensures var u := t.Step(El(part));
            && u == t.(scr := t.scr.(grid := u.scr.grid), cur := t.cur.(pending := false))
            && (i != t.cur.row || part > 2 ==> u.scr.grid[i] == t.scr.grid[i])
            && u.scr.grid[i].cells[k] == (if Erased(t, part, true, i, k) then BLANK else t.scr.grid[i].cells[k])
            && (i == t.cur.row && (part == 0 || part == 2) ==> !u.scr.grid[i].wrapped)
            && (part == 1 ==> u.scr.grid[i].wrapped == t.scr.grid[i].wrapped)
  {
  }

  /** ED: the same over the screen, whole rows losing their wrap flag with their
      cells; part 3 empties the ring instead. */
  lemma DisplayErased(t: Term, part: nat, i: nat, k: nat)
    requires t.Valid() && i < t.scr.rows && k < t.scr.cols
    ensures var u := t.Step(Ed(part));
            && u == t.(scr := t.scr.(grid := u.scr.grid, sb := u.scr.sb), cur := t.cur.(pending := false))
            && u.scr.sb == (if part == 3 then [] else t.scr.sb)
            && u.scr.grid[i].cells[k] == (if Erased(t, part, false, i, k) then BLANK else t.scr.grid[i].cells[k])
            && (part > 2 ==> u.scr.grid == t.scr.grid)
            && ((part == 0 && i >= t.cur.row) || (part == 1 && i < t.cur.row) || part == 2 ==> !u.scr.grid[i].wrapped)
            && ((part == 0 && i < t.cur.row) || (part == 1 && i >= t.cur.row) ==> u.scr.grid[i].wrapped == t.scr.grid[i].wrapped)
  {
  }

  // --- moving ---------------------------------------------------------------------------

  /** The cursor at a place, no wrap pending. */
  function Placed(t: Term, row: nat, col: nat): Term {
    t.(cur := t.cur.(row := row, col := col, pending := false))
  }

  /** CR, BS, CHA and CUU move along the row or up; CUU from inside the region stops at
      its top. */
  lemma Moves(t: Term, n: nat)
    requires t.Valid()
    ensures t.Step(Cr) == Placed(t, t.cur.row, 0)
    ensures t.Step(Bs) == Placed(t, t.cur.row, if t.cur.col == 0 then 0 else t.cur.col - 1)
    ensures t.Step(Cha(n)) == Placed(t, t.cur.row, if n == 0 then 0 else if n > t.scr.cols then t.scr.cols - 1 else n - 1)
    ensures var up := if n == 0 then 1 else n;
            t.Step(Cuu(n)) == Placed(t, if t.cur.row >= t.top then (if t.cur.row >= t.top + up then t.cur.row - up else t.top)
                                        else (if t.cur.row >= up then t.cur.row - up else 0), t.cur.col)
  {
  }

  /** CUP counts from 1, from the region's top under origin mode, and stays on the
      screen or in the region. */
  lemma Addressed(t: Term, r: nat, c: nat)
    requires t.Valid()
    ensures var u := t.Step(Cup(r, c));
            && u == Placed(t, u.cur.row, u.cur.col)
            && (1 <= c <= t.scr.cols ==> u.cur.col == c - 1) && (c > t.scr.cols ==> u.cur.col == t.scr.cols - 1)
            && (!t.modes.origin && 1 <= r <= t.scr.rows ==> u.cur.row == r - 1)
            && (!t.modes.origin && r > t.scr.rows ==> u.cur.row == t.scr.rows - 1)
            && (t.modes.origin && 1 <= r <= t.bot - t.top + 1 ==> u.cur.row == t.top + r - 1)
            && (t.modes.origin && r > t.bot - t.top + 1 ==> u.cur.row == t.bot)
  {
  }

  /** Left out is 1. */
  lemma AddressedHome(t: Term, r: nat, c: nat)
    requires t.Valid()
    ensures t.Step(Cup(0, c)) == t.Step(Cup(1, c)) && t.Step(Cup(r, 0)) == t.Step(Cup(r, 1))
  {
    hide Term.MoveTo;
  }

  /** DECSTBM: a region of at least two rows on the screen is taken and the cursor goes
      home, to the region's under origin mode; any other is ignored. */
  lemma RegionTaken(t: Term, top: nat, bot: nat)
    requires t.Valid()
    ensures var first, last := if top == 0 then 1 else top, if bot == 0 || bot > t.scr.rows then t.scr.rows else bot;
            t.Step(Stbm(top, bot)) ==
            if first < last then Placed(t.(top := first - 1, bot := last - 1), if t.modes.origin then first - 1 else 0, 0) else t
  {
  }

  /** DECSC keeps the cursor and origin mode; DECRC brings them back, on a screen or a
      region that has meanwhile become smaller as near as there is room. */
  lemma SavedRestored(t: Term, u: Term)
    requires t.Valid() && u.Valid()
    ensures t.Step(Decsc) == t.(saved := t.cur, savedOrigin := t.modes.origin)
    ensures u.saved == t.cur && u.savedOrigin == t.modes.origin ==>
            var v := u.Step(Decrc);
            && v == u.(cur := v.cur, modes := u.modes.(origin := t.modes.origin))
            && v.cur == t.cur.(row := v.cur.row, col := v.cur.col)
            && (t.cur.col < u.scr.cols ==> v.cur.col == t.cur.col) && (t.cur.col >= u.scr.cols ==> v.cur.col == u.scr.cols - 1)
            && (!t.modes.origin && t.cur.row < u.scr.rows ==> v.cur.row == t.cur.row)
            && (!t.modes.origin && t.cur.row >= u.scr.rows ==> v.cur.row == u.scr.rows - 1)
            && (t.modes.origin && u.top <= t.cur.row <= u.bot ==> v.cur.row == t.cur.row)
            && (t.modes.origin && t.cur.row < u.top ==> v.cur.row == u.top)
            && (t.modes.origin && t.cur.row > u.bot ==> v.cur.row == u.bot)
  {
  }

  /** SGR leaves the DECSCA flag, which has a control of its own; links likewise. */
  lemma PenTaken(t: Term, s: Style, on: bool, l: nat)
    requires t.Valid()
    ensures t.Step(Sgr(s)) == t.(cur := t.cur.(style := s.(guarded := t.cur.style.guarded)))
    ensures t.Step(Decsca(on)) == t.(cur := t.cur.(style := t.cur.style.(guarded := on)))
    ensures t.Step(Hyperlink(l)) == t.(cur := t.cur.(link := l))
  {
  }

  /** Each mode is set by itself. Origin mode homes the cursor, and autowrap going off
      drops a pending wrap. */
  lemma ModeTaken(t: Term, m: Mode, on: bool)
    requires t.Valid()
    ensures var u := t.Step(SetMode(m, on));
            && u == t.(modes := u.modes, cur := u.cur)
            && u.modes == Modes(if m == Autowrap then on else t.modes.autowrap, if m == Insert then on else t.modes.insert,
                                if m == Origin then on else t.modes.origin, if m == Lnm then on else t.modes.lnm,
                                if m == Visible then on else t.modes.visible)
            && u.cur == (if m == Origin then t.cur.(row := if on then t.top else 0, col := 0, pending := false)
                         else if m == Autowrap && !on then t.cur.(pending := false) else t.cur)
  {
  }

  lemma TabStops(t: Term, k: nat)
    requires t.Valid() && k < t.scr.cols
    ensures var u := t.Step(Tbc); u == t.(tabs := u.tabs) && !u.tabs[k]
    ensures var u := t.Step(Hts); u == t.(tabs := u.tabs) && u.tabs[k] == (k == t.cur.col || t.tabs[k])
  {
  }

  // --- printing -----------------------------------------------------------------------------

  /** A character that fits, no wrap pending, replacing or in insert mode: the row, in
      insert mode first shifted right by the character's width and repaired, gets the
      character in the pen's style and link; the cursor goes behind it, or in the last
      column a wrap is pending if autowrap is on. */
  lemma Printed(t: Term, g: Glyph)
    requires t.Valid() && !t.cur.pending && GlyphWidth(g) != 0 && t.cur.col + GlyphWidth(g) <= t.scr.cols
    ensures var u, w := t.Step(Print(g)), GlyphWidth(g);
            var cells := if t.modes.insert then Repair(ShiftedRight(t.Cells(), t.cur.col, w)) else t.Cells();
            && u == t.(scr := t.scr.(grid := u.scr.grid), cur := u.cur)
            && u.scr.grid == t.scr.grid[t.cur.row := Row(u.Cells(), t.scr.grid[t.cur.row].wrapped)]
            && u.Cells() == WriteGlyph(cells, t.cur.col, g, t.cur.style, t.cur.link)
            && u.cur == (if t.cur.col + w < t.scr.cols then t.cur.(col := t.cur.col + w)
                         else t.cur.(col := t.scr.cols - 1, pending := t.modes.autowrap))
  {
    hide WriteGlyph, InsertBlanks, Repair, ShiftedRight;
    ShiftsAre(t.Cells(), t.cur.col, GlyphWidth(g));
  }

  /** What the write does to a row of whole pairs: the character and its spacer, and
      blanks for the halves it cuts off on either side. */
  lemma Written(cells: seq<Cell>, col: nat, g: Glyph, style: Style, link: nat, k: nat)
    requires Paired(cells) && GlyphWidth(g) != 0 && col + GlyphWidth(g) <= |cells| && k < |cells|
    ensures var w := GlyphWidth(g);
            WriteGlyph(cells, col, g, style, link)[k] ==
            if k == col then Cell(g, style, w, [], link)
            else if k == col + 1 && w == 2 then Cell(Nul, style, 0, [], link)
            else if k + 1 == col && cells[col].width == 0 then BLANK
            else if k == col + w && cells[k].width == 0 then BLANK
            else cells[k]
  {
    hide WriteGlyph;
    WriteEffect(cells, col, g, style, link);
  }

  /** With a wrap pending the row is marked as wrapped and left for the start of the
      next, where the character goes; without autowrap the wrap is forgotten. */
  lemma PrintedAfterWrap(t: Term, g: Glyph)
    requires t.Valid() && t.cur.pending && GlyphWidth(g) != 0
    ensures var row := t.scr.grid[t.cur.row].(wrapped := true);
            var left := t.(scr := t.scr.(grid := t.scr.grid[t.cur.row := row]), cur := t.cur.(col := 0, pending := false));
            && left.Valid()
            && t.Step(Print(g)) == if t.modes.autowrap then left.(modes := t.modes.(lnm := false)).Step(Lf).(modes := t.modes).Step(Print(g))
                                   else Placed(t, t.cur.row, t.cur.col).Step(Print(g))
  {
    hide Screen.ScrollUp, Term.MakeRoom, Term.Place, Term.Combine;
    var row := t.scr.grid[t.cur.row].(wrapped := true);
    var left := t.(scr := t.scr.(grid := t.scr.grid[t.cur.row := row]), cur := t.cur.(col := 0, pending := false));
    if t.modes.autowrap {
      WrapIsFeed(t);
      assert t.WrapLine().TakePending() == t.WrapLine();
    }
  }

  lemma WrapIsFeed(t: Term)
    requires t.Valid()
    ensures var row := t.scr.grid[t.cur.row].(wrapped := true);
            var left := t.(scr := t.scr.(grid := t.scr.grid[t.cur.row := row]), cur := t.cur.(col := 0, pending := false));
            && left.Valid() && left.(modes := t.modes.(lnm := false)).Valid()
            && t.WrapLine() == left.(modes := t.modes.(lnm := false)).Step(Lf).(modes := t.modes)
  {
    hide Screen.ScrollUp;
  }

  /** A wide character in the last column goes to the next row, the column it would
      have split being blanked. */
  lemma PrintedAtEdge(t: Term, g: Glyph)
    requires t.Valid() && !t.cur.pending && GlyphWidth(g) == 2 && t.cur.col + 1 == t.scr.cols
    requires t.modes.autowrap && t.scr.cols >= 2
    ensures var row := Row(t.Cells()[t.cur.col := BLANK], true);
            var left := t.(scr := t.scr.(grid := t.scr.grid[t.cur.row := row]), cur := t.cur.(col := 0));
            && left.Valid()
            && t.Step(Print(g)) == left.(modes := t.modes.(lnm := false)).Step(Lf).(modes := t.modes).Step(Print(g))
  {
    hide Screen.ScrollUp, Term.Place, Term.Combine;
    var cut := t.SetCells(t.Cells()[t.cur.col := BLANK]);
    var row := Row(t.Cells()[t.cur.col := BLANK], true);
    assert cut.scr.grid[t.cur.row := row] == t.scr.grid[t.cur.row := row];
    WrapIsFeed(cut);
    var next := cut.WrapLine();
    assert next.cur.col == 0 && !next.cur.pending && next.modes == t.modes;
    assert next.TakePending() == next && next.MakeRoom(g) == next;
  }

  /** Without autowrap it goes one column back, or on one column nowhere. */
  lemma PrintedBack(t: Term, g: Glyph)
    requires t.Valid() && !t.cur.pending && GlyphWidth(g) == 2 && t.cur.col + 1 == t.scr.cols && !t.modes.autowrap
    ensures t.Step(Print(g)) == if t.scr.cols >= 2 then Placed(t, t.cur.row, t.scr.cols - 2).Step(Print(g)) else t
  {
    hide Term.Place, Term.Combine, Term.WrapLine;
  }

  /** A mark joins the character before the cursor, or with a wrap pending the one under
      it; of a wide one the head; at the start of a row nothing. */
  lemma Marked(t: Term, g: Glyph)
    requires t.Valid() && GlyphWidth(g) == 0
    ensures t.cur.col == 0 && !t.cur.pending ==> t.Step(Print(g)) == t
    ensures t.cur.col > 0 || t.cur.pending ==>
            var c := if t.cur.pending then t.cur.col else t.cur.col - 1;
            var k := if c > 0 && t.Cells()[c].width == 0 then c - 1 else c;
            var u := t.Step(Print(g));
            && u == t.(scr := t.scr.(grid := u.scr.grid))
            && u.scr.grid == t.scr.grid[t.cur.row := Row(u.Cells(), t.scr.grid[t.cur.row].wrapped)]
            && u.Cells() == t.Cells()[k := t.Cells()[k].(extra := t.Cells()[k].extra + [g])]
  {
  }
}
