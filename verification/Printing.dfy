// What one printed cell does to the machine: the lemmas both printers share.

module Printing {
  import opened Cells
  import opened Machine

  /** The character a printer emits for a cell: a NUL shows as a space. */
  function Seen(g: Glyph): Glyph {
    if g == Nul then Space else g
  }

  const SPACER := Spacer(DEFAULT_STYLE, 0)

  /** What a cell looks like. A spacer renders nothing of its own. */
  function Shown(c: Cell): Cell {
    if c.width == 0 then SPACER else c.(ch := Seen(c.ch))
  }

  function Marks(extra: seq<Glyph>): (acts: seq<Action>)
    ensures |acts| == |extra|
  {
    if extra == [] then [] else Marks(extra[..|extra| - 1]) + [Print(extra[|extra| - 1])]
  }

  /** The controls that draw one cell. */
  function Drawn(c: Cell): seq<Action> {
    [Print(Seen(c.ch))] + Marks(c.extra)
  }

  /** The row after `c` is drawn at `col` with the pen `style`, `link`. */
  function PutCell(cells: seq<Cell>, col: nat, c: Cell, style: Style, link: nat): (r: seq<Cell>)
    requires col < |cells| && CellOk(c) && c.width != 0
    ensures |r| == |cells|
  {
    WriteGlyph(cells, col, Seen(c.ch), style, link)[col := Cell(Seen(c.ch), style, c.width, c.extra, link)]
  }

  /** The machine after `c` is drawn at the cursor, where it fits. */
  function AfterDraw(t: Term, c: Cell): (r: Term)
    requires t.Valid() && CellOk(c) && c.width != 0
    ensures r.Valid() && t.SameShape(r)
  {
    t.SetCells(PutCell(t.Cells(), t.cur.col, c, t.cur.style, t.cur.link))
    .At(t.cur.row, Min(t.cur.col + c.width, t.scr.cols - 1), t.cur.col + c.width >= t.scr.cols)
  }

  /** The cell fits; in insert mode it must end the row, where there is nothing
      left to push along. */
  predicate CanDraw(t: Term, c: Cell) {
    && t.Valid() && t.modes.autowrap
    && CellOk(c) && c.width != 0
    && t.cur.col + c.width <= t.scr.cols
    && (t.modes.insert ==> Paired(t.Cells()) && t.cur.col + c.width == t.scr.cols)
  }

  lemma InsertAtEnd(cells: seq<Cell>, col: nat, w: nat)
    requires Paired(cells) && 1 <= w <= 2 && col + w == |cells|
    ensures var r := Repair(InsertBlanks(cells, col, w));
            && |r| == |cells| && (forall k :: col <= k < |cells| ==> r[k] == BLANK)
            && (forall k :: 0 <= k < col - 1 ==> r[k] == cells[k])
            && (col > 0 ==> r[col - 1] == if cells[col].width == 0 then BLANK else cells[col - 1])
  {
    var one := cells[..col] + [BLANK] + cells[col..|cells| - 1];
    var ins := InsertBlanks(cells, col, w);
    if w == 1 {
      assert ins == one;
    } else {
      assert ins == one[..col] + [BLANK] + one[col..|one| - 1];
    }
    assert !Orphan(cells, col);
    forall k: nat | k < col
      ensures Orphan(ins, k) <==> k == col - 1 && cells[col].width == 0
    {
      assert !Orphan(cells, k);
    }
  }

  /** In insert mode a write that ends the row is the plain write. */
  lemma InsertWrite(cells: seq<Cell>, col: nat, g: Glyph, style: Style, link: nat)
    requires Paired(cells) && GlyphWidth(g) != 0 && col + GlyphWidth(g) == |cells|
    ensures WriteGlyph(Repair(InsertBlanks(cells, col, GlyphWidth(g))), col, g, style, link)
            == WriteGlyph(cells, col, g, style, link)
  {
    hide Repair, InsertBlanks;
    InsertAtEnd(cells, col, GlyphWidth(g));
    assert !Orphan(cells, col);
  }

  lemma DrawHead(t: Term, c: Cell)
    requires CanDraw(t, c) && !t.cur.pending
    ensures t.Step(Print(Seen(c.ch))) == AfterDraw(t, c.(extra := []))
  {
    hide Repair, InsertBlanks;
    var w := WriteGlyph(t.Cells(), t.cur.col, Seen(c.ch), t.cur.style, t.cur.link);
    assert w[t.cur.col] == Cell(Seen(c.ch), t.cur.style, c.width, [], t.cur.link);
    assert PutCell(t.Cells(), t.cur.col, c.(extra := []), t.cur.style, t.cur.link) == w;
    assert t.TakePending() == t;
    if t.modes.insert {
      InsertWrite(t.Cells(), t.cur.col, Seen(c.ch), t.cur.style, t.cur.link);
    }
  }

  lemma PutShape(cells: seq<Cell>, col: nat, c: Cell, style: Style, link: nat)
    requires CellOk(c) && c.width != 0 && col + c.width <= |cells|
    ensures var r := PutCell(cells, col, c, style, link);
            r[col].width == c.width && (c.width == 2 ==> r[col + 1].width == 0)
  {
  }

  lemma DrawMark(t: Term, c: Cell, m: Glyph)
    requires CanDraw(t, c) && m.Mark?
    ensures AfterDraw(t, c).Step(Print(m)) == AfterDraw(t, c.(extra := c.extra + [m]))
  {
    hide WriteGlyph;
    var u := AfterDraw(t, c);
    var v := AfterDraw(t, c.(extra := c.extra + [m]));
    PutShape(t.Cells(), t.cur.col, c, t.cur.style, t.cur.link);
    assert u.Cells()[t.cur.col].width == c.width;
    assert c.width == 2 ==> u.Cells()[t.cur.col + 1].width == 0;
    var k := t.cur.col;
    assert u.Cells()[k := u.Cells()[k].(extra := u.Cells()[k].extra + [m])] == v.Cells();
    assert u.Step(Print(m)).scr.grid == v.scr.grid;
  }

  lemma {:induction false} DrawMarks(t: Term, c: Cell, n: nat)
    requires CanDraw(t, c) && !t.cur.pending && n <= |c.extra|
    ensures Run(t, [Print(Seen(c.ch))] + Marks(c.extra[..n])) == AfterDraw(t, c.(extra := c.extra[..n]))
    decreases n
  {
    hide Term.Step, AfterDraw;
    if n == 0 {
      assert [Print(Seen(c.ch))] + Marks(c.extra[..0]) == [Print(Seen(c.ch))];
      RunOne(t, Print(Seen(c.ch)));
      DrawHead(t, c);
      assert c.extra[..0] == [];
    } else {
      DrawMarks(t, c, n - 1);
      assert c.extra[..n][..n - 1] == c.extra[..n - 1];
      var before := [Print(Seen(c.ch))] + Marks(c.extra[..n - 1]);
      assert [Print(Seen(c.ch))] + Marks(c.extra[..n]) == before + [Print(c.extra[n - 1])];
      RunSnoc(t, before, Print(c.extra[n - 1]));
      DrawMark(t, c.(extra := c.extra[..n - 1]), c.extra[n - 1]);
      assert c.extra[..n - 1] + [c.extra[n - 1]] == c.extra[..n];
    }
  }

  /** Drawing a cell that fits, with no wrap pending. */
  lemma {:induction false} DrawCell(t: Term, c: Cell)
    requires CanDraw(t, c) && !t.cur.pending
    ensures Run(t, Drawn(c)) == AfterDraw(t, c)
  {
    DrawMarks(t, c, |c.extra|);
    assert c.extra[..|c.extra|] == c.extra;
  }

  /** Two terminals that agree after the first control agree after all. */
  lemma SameFirst(t: Term, u: Term, a: Action, acts: seq<Action>)
    requires t.Valid() && u.Valid() && t.Step(a) == u.Step(a)
    ensures Run(t, [a] + acts) == Run(u, [a] + acts)
  {
    hide Run, Term.Step;
    RunOne(t, a);
    RunOne(u, a);
    RunAppend(t, [a], acts);
    RunAppend(u, [a], acts);
  }

  lemma WrapFacts(t: Term)
    requires t.Valid()
    ensures var u := t.WrapLine(); u.cur.col == 0 && !u.cur.pending && u.modes == t.modes
  {
  }

  lemma TakesWrap(t: Term, g: Glyph)
    requires t.Valid() && t.modes.autowrap && t.cur.pending && GlyphWidth(g) != 0
    ensures t.Step(Print(g)) == t.WrapLine().Step(Print(g))
  {
    assert t.WrapLine().TakePending() == t.WrapLine();
  }

  /** Drawing a cell with a wrap pending: the line is left by autowrap. */
  lemma {:induction false} DrawWrapped(t: Term, c: Cell)
    requires t.Valid() && t.modes.autowrap && !t.modes.insert && t.cur.pending
    requires CellOk(c) && 1 <= c.width <= t.scr.cols
    ensures t.WrapLine().cur.col == 0
    ensures Run(t, Drawn(c)) == AfterDraw(t.WrapLine(), c)
  {
    hide Term.WrapLine, Term.Step, AfterDraw;
    WrapFacts(t);
    TakesWrap(t, Seen(c.ch));
    SameFirst(t, t.WrapLine(), Print(Seen(c.ch)), Marks(c.extra));
    DrawCell(t.WrapLine(), c);
  }

  /** What drawing a cell changes in a row of whole pairs. */
  lemma PutEffect(cells: seq<Cell>, col: nat, c: Cell, style: Style, link: nat)
    requires Paired(cells) && CellOk(c) && c.width != 0 && col + c.width <= |cells|
    ensures var r := PutCell(cells, col, c, style, link);
            && Paired(r)
            && r[col] == Cell(Seen(c.ch), style, c.width, c.extra, link)
            && (c.width == 2 ==> r[col + 1] == Spacer(style, link))
            && (forall k :: 0 <= k < col - 1 ==> r[k] == cells[k])
            && (forall k :: col + c.width < k < |cells| ==> r[k] == cells[k])
            && (col > 0 ==> r[col - 1] == if cells[col].width == 0 then BLANK else cells[col - 1])
            && (col + c.width < |cells| ==>
                  r[col + c.width] == if cells[col + c.width].width == 0 then BLANK else cells[col + c.width])
  {
    WriteKeepsPairs(cells, col, Seen(c.ch), style, link);
    WriteEffect(cells, col, Seen(c.ch), style, link);
    var w, r := WriteGlyph(cells, col, Seen(c.ch), style, link), PutCell(cells, col, c, style, link);
    forall k: nat | k < |r|
      ensures !Orphan(r, k)
    {
      assert !Orphan(w, k);
    }
  }

  function Repeat(a: Action, n: nat): (acts: seq<Action>)
    ensures |acts| == n
  {
    if n == 0 then [] else Repeat(a, n - 1) + [a]
  }

  /** How many scroll regions are set. */
  function Margins(acts: seq<Action>): nat {
    if acts == [] then 0 else Margins(acts[..|acts| - 1]) + if acts[|acts| - 1].Stbm? then 1 else 0
  }

  lemma MarginsOne(acts: seq<Action>, a: Action)
    ensures Margins(acts + [a]) == Margins(acts) + if a.Stbm? then 1 else 0
  {
    assert (acts + [a])[..|acts|] == acts;
  }

  lemma {:induction false} MarginsBoth(a: seq<Action>, b: seq<Action>)
    ensures Margins(a + b) == Margins(a) + Margins(b)
    decreases |b|
  {
    if b == [] {
      assert a + b == a;
    } else {
      MarginsBoth(a, b[..|b| - 1]);
      assert (a + b)[..|a + b| - 1] == a + b[..|b| - 1];
    }
  }

  lemma {:induction false} MarginsNone(acts: seq<Action>)
    requires forall i :: 0 <= i < |acts| ==> !acts[i].Stbm?
    ensures Margins(acts) == 0
    decreases |acts|
  {
    if acts != [] {
      MarginsNone(acts[..|acts| - 1]);
    }
  }

  /** Drawing sets no region. */
  lemma {:induction false} DrawnPlain(c: Cell)
    ensures Margins(Drawn(c)) == 0
  {
    MarksPlain(c.extra);
    MarginsNone(Drawn(c));
  }

  lemma {:induction false} MarksPlain(extra: seq<Glyph>)
    ensures forall i :: 0 <= i < |Marks(extra)| ==> Marks(extra)[i].Print?
    decreases |extra|
  {
    if extra != [] {
      MarksPlain(extra[..|extra| - 1]);
    }
  }

  lemma {:induction false} RepeatPlain(a: Action, n: nat)
    requires !a.Stbm?
    ensures Margins(Repeat(a, n)) == 0
    decreases n
  {
    if n > 0 {
      RepeatPlain(a, n - 1);
      MarginsOne(Repeat(a, n - 1), a);
    }
  }

  lemma FeedDown(t: Term)
    requires t.Valid() && t.FullRegion() && !t.modes.lnm && t.cur.row + 1 < t.scr.rows
    ensures t.Step(Lf) == t.At(t.cur.row + 1, t.cur.col, false)
  {
  }

  /** A run of line feeds that stays above the bottom margin moves down. */
  lemma {:induction false} LineFeeds(t: Term, n: nat)
    requires t.Valid() && t.FullRegion() && !t.modes.lnm && t.cur.row + n < t.scr.rows
    ensures n > 0 ==> Run(t, Repeat(Lf, n)) == t.At(t.cur.row + n, t.cur.col, false)
    ensures n == 0 ==> Run(t, Repeat(Lf, n)) == t
  {
    hide Term.Step, Run;
    if n == 0 {
      RunNone(t);
    } else {
      LineFeeds(t, n - 1);
      RunSnoc(t, Repeat(Lf, n - 1), Lf);
      FeedDown(Run(t, Repeat(Lf, n - 1)));
    }
  }

  lemma {:induction false} Backspaces(t: Term, n: nat)
    requires t.Valid() && 1 <= n
    ensures Run(t, Repeat(Bs, n)) == t.At(t.cur.row, Max(t.cur.col - n, 0), false)
  {
    RunSnoc(t, Repeat(Bs, n - 1), Bs);
    if n > 1 {
      Backspaces(t, n - 1);
    } else {
      assert Repeat(Bs, 0) == [] && Run(t, []) == t;
    }
  }

  lemma FeedScrolls(t: Term)
    requires t.Valid() && !t.modes.lnm && t.cur.row == t.bot
    ensures t.Step(Lf) == t.ScrollUpN(1).At(t.cur.row, t.cur.col, false)
  {
  }

  lemma ScrollShape(t: Term, n: nat)
    requires t.Valid()
    ensures t.ScrollUpN(n) == t.(scr := t.ScrollUpN(n).scr)
    ensures t.ScrollUpN(n).scr == t.scr.ScrollUp(t.top, t.bot, n, t.FullRegion())
  {
  }

  /** Line feeds on the bottom margin scroll the region, one row each. */
  lemma {:induction false} ScrollFeeds(t: Term, n: nat)
    requires t.Valid() && !t.modes.lnm && t.cur.row == t.bot && 1 <= n <= t.bot - t.top + 1
    ensures Run(t, Repeat(Lf, n)) == t.ScrollUpN(n).At(t.cur.row, t.cur.col, false)
  {
    hide Run, Term.Step, Term.ScrollUpN, Screen.ScrollUp;
    RunSnoc(t, Repeat(Lf, n - 1), Lf);
    ScrollShape(t, n);
    if n > 1 {
      ScrollFeeds(t, n - 1);
      ScrollShape(t, n - 1);
      var u := t.ScrollUpN(n - 1).At(t.cur.row, t.cur.col, false);
      FeedScrolls(u);
      ScrollShape(u, 1);
      ScrollSplit(t.scr, t.top, t.bot, n - 1, t.FullRegion());
    } else {
      RunNone(t);
      FeedScrolls(t);
    }
  }

  /** The grid after `n` of the rows `top..=bot` have left at the top. */
  function Scrolled(grid: seq<Row>, top: nat, bot: nat, n: nat, cols: nat): (r: seq<Row>)
    requires top + n <= bot + 1 <= |grid|
    ensures |r| == |grid|
  {
    grid[..top] + grid[top + n..bot + 1] + BlankRows(n, cols) + grid[bot + 1..]
  }

  lemma ScrolledTwice(grid: seq<Row>, top: nat, bot: nat, n: nat, cols: nat)
    requires top + n <= bot < |grid|
    ensures Scrolled(Scrolled(grid, top, bot, n, cols), top, bot, 1, cols) == Scrolled(grid, top, bot, n + 1, cols)
    ensures Scrolled(grid, top, bot, n, cols)[top] == grid[top + n]
  {
  }

  lemma ScrollSplit(s: Screen, top: nat, bot: nat, n: nat, save: bool)
    requires s.Valid() && top <= bot < s.rows && 1 <= n <= bot - top
    ensures s.ScrollUp(top, bot, n, save).ScrollUp(top, bot, 1, save) == s.ScrollUp(top, bot, n + 1, save)
  {
    hide BlankRows, Newest, Scrolled, Screen.ScrollUp;
    ScrollIs(s, top, bot, n, save);
    ScrollIs(s, top, bot, n + 1, save);
    var a := s.ScrollUp(top, bot, n, save);
    ScrollIs(a, top, bot, 1, save);
    ScrolledTwice(s.grid, top, bot, n, s.cols);
    assert a.grid[top..top + 1] == [s.grid[top + n]];
    if save && s.maxSb > 0 {
      assert s.grid[top..top + n] + [s.grid[top + n]] == s.grid[top..top + n + 1];
      NewestPush(s.sb + s.grid[top..top + n], s.grid[top + n], s.maxSb);
      assert (s.sb + s.grid[top..top + n]) + [s.grid[top + n]] == s.sb + s.grid[top..top + n + 1];
    }
  }

  lemma ScrollIs(s: Screen, top: nat, bot: nat, n: nat, save: bool)
    requires s.Valid() && top <= bot < s.rows && 1 <= n <= bot - top + 1
    ensures s.ScrollUp(top, bot, n, save) ==
            (if save then s.Pushed(s.grid[top..top + n]) else s).(grid := Scrolled(s.grid, top, bot, n, s.cols))
  {
  }

  lemma NewestPush(s: seq<Row>, r: Row, n: nat)
    requires n > 0
    ensures Newest(Newest(s, n) + [r], n) == Newest(s + [r], n)
  {
  }
}
