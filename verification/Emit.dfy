// Emitting rows as a flow (`emit_row` and the row loops of
// crates/posh-term/src/dump.rs): one line of the target for every row.

module Emit {
  import opened Cells
  import opened Machine
  import opened Printing
  import opened Frame
  import opened Tape

  /** `cells` looks like `row` in full. */
  predicate LooksLike(cells: seq<Cell>, row: seq<Cell>) {
    && |cells| == |row|
    && Paired(cells)
    && forall x :: 0 <= x < |row| ==> Shown(cells[x]) == Shown(row[x])
  }

  /** A fresh line of which the first `p` columns have been printed. */
  predicate LineMid(cells: seq<Cell>, row: seq<Cell>, p: nat) {
    && |cells| == |row| && p <= |row|
    && Paired(cells)
    && (forall x :: 0 <= x < p ==> Shown(cells[x]) == Shown(row[x]))
    && (forall x :: p <= x < |row| ==> cells[x] == BLANK)
  }

  lemma ShownDrawn(c: Cell)
    requires c.width != 0
    ensures Shown(Cell(Seen(c.ch), c.style, c.width, c.extra, c.link)) == Shown(c)
  {
  }

  /** Printing the row's own cell at `p` extends what has been printed. */
  lemma PrintAdvances(cells: seq<Cell>, row: seq<Cell>, p: nat)
    requires LineMid(cells, row, p) && RowOk(row, |row|) && p < |row| && row[p].width != 0
    ensures p + row[p].width <= |row|
    ensures LineMid(PutCell(cells, p, row[p], row[p].style, row[p].link), row, p + row[p].width)
  {
    hide PutCell, Shown, CellOk;
    var c := row[p];
    CellShape(c);
    assert !Orphan(row, p);
    PutEffect(cells, p, c, c.style, c.link);
    ShownDrawn(c);
    if c.width == 2 {
      SpacerShown(PutCell(cells, p, c, c.style, c.link)[p + 1], row[p + 1]);
    }
  }

  lemma CellShape(c: Cell)
    requires CellOk(c)
    ensures c.width <= 2
  {
  }

  lemma SpacerShown(a: Cell, b: Cell)
    requires a.width == 0 && b.width == 0
    ensures Shown(a) == Shown(b)
  {
  }

  lemma SkippableShown(c: Cell)
    requires IsSkippable(c) && CellOk(c) && c.width != 0
    ensures Shown(c) == Shown(BLANK)
  {
  }

  function EmitEnd(row: Row): (e: nat)
    ensures e <= |row.cells|
  {
    if row.wrapped then |row.cells| else RowEnd(row.cells)
  }

  /** The column the printing stands at before cell `i`. */
  function ColumnAt(row: seq<Cell>, i: nat): nat
    requires i <= |row|
  {
    if i < |row| && row[i].width == 0 then i + 1 else i
  }

  /** A trimmed spacer would follow a trimmed head, and heads are not blank. */
  lemma NoSpacer(row: seq<Cell>, e: nat, x: nat)
    requires RowOk(row, |row|) && e <= |row| && ColumnAt(row, e) <= x < |row|
    requires forall k :: e <= k < |row| ==> IsSkippable(row[k])
    ensures row[x].width != 0
  {
    assert !Orphan(row, x);
    assert x > 0 ==> CellOk(row[x - 1]);
  }

  /** Once the trimmed cells are printed the line looks like the whole row. */
  lemma TrimmedLooks(cells: seq<Cell>, row: seq<Cell>, e: nat)
    requires RowOk(row, |row|) && e <= |row| && LineMid(cells, row, ColumnAt(row, e))
    requires forall x :: e <= x < |row| ==> IsSkippable(row[x])
    ensures LooksLike(cells, row)
  {
    hide Shown;
    forall x | ColumnAt(row, e) <= x < |row|
      ensures Shown(cells[x]) == Shown(row[x])
    {
      NoSpacer(row, e, x);
      SkippableShown(row[x]);
    }
  }

  /** The tape before a row is emitted: mid-wrap, or on a fresh line. */
  predicate RowDue(t: Term, lines: seq<Row>, ring: seq<Row>, afterWrap: bool) {
    && OnTape(t, lines, ring)
    && (if afterWrap then t.cur.pending && t.cur.col == t.scr.cols - 1
        else !t.cur.pending && t.cur.col == 0 && lines[|lines| - 1] == BlankRow(t.scr.cols))
  }

  /** The tape with its fresh last line opened. */
  function Opened(lines: seq<Row>, afterWrap: bool, cols: nat): (r: seq<Row>)
    requires |lines| >= 1
    ensures |r| == |lines| + if afterWrap then 1 else 0
  {
    if afterWrap then LastLine(lines, lines[|lines| - 1].(wrapped := true)) + [BlankRow(cols)] else lines
  }

  function PenSet(t: Term, style: Style, link: nat): Term {
    t.(cur := t.cur.(style := style, link := link))
  }

  /** Where a cell printed now would go. */
  function Base(t: Term): (u: Term)
    requires t.Valid()
    ensures u.Valid() && t.SameShape(u)
  {
    if t.cur.pending then t.WrapLine() else t
  }

  // --- printing with autowrap off, at the end of the row ------------------------

  /** Where a mark goes when the cursor is on the last column with no wrap pending:
      to the left neighbour, or its head. */
  function MarkCol(cells: seq<Cell>): (k: nat)
    requires |cells| > 1
    ensures k < |cells| - 1
  {
    var k := |cells| - 2;
    if cells[k].width == 0 && k > 0 then k - 1 else k
  }

  /** The row after marks are printed there; on a single column they are dropped. */
  function Marked(cells: seq<Cell>, extra: seq<Glyph>): (r: seq<Cell>)
    ensures |r| == |cells|
  {
    if |cells| <= 1 then cells
    else cells[MarkCol(cells) := cells[MarkCol(cells)].(extra := cells[MarkCol(cells)].extra + extra)]
  }

  /** The machine after `c` is drawn at the end of a row with autowrap off: the
      character is written, no wrap is pending, and so the marks go elsewhere. */
  function AfterFlat(t: Term, c: Cell): (r: Term)
    requires t.Valid() && CellOk(c) && c.width != 0
    ensures r.Valid() && t.SameShape(r)
  {
    t.SetCells(Marked(PutCell(t.Cells(), t.cur.col, c.(extra := []), t.cur.style, t.cur.link), c.extra))
    .At(t.cur.row, t.scr.cols - 1, false)
  }

  predicate CanFlat(t: Term, c: Cell) {
    && t.Valid() && !t.modes.autowrap && !t.cur.pending
    && CellOk(c) && c.width != 0 && t.cur.col + c.width == t.scr.cols && Paired(t.Cells())
  }

  lemma MarkedNone(cells: seq<Cell>)
    ensures Marked(cells, []) == cells
  {
    if |cells| > 1 {
      var c := cells[MarkCol(cells)];
      assert c.extra + [] == c.extra;
    }
  }

  lemma MarkedSnoc(cells: seq<Cell>, extra: seq<Glyph>, m: Glyph)
    ensures |cells| > 1 ==> MarkCol(Marked(cells, extra)) == MarkCol(cells)
    ensures Marked(Marked(cells, extra), [m]) == Marked(cells, extra + [m])
  {
    if |cells| > 1 {
      var k := MarkCol(cells);
      assert (cells[k].extra + extra) + [m] == cells[k].extra + (extra + [m]);
    }
  }

  /** One more mark, wherever marks go. */
  lemma FlatMark(t: Term, m: Glyph)
    requires t.Valid() && m.Mark? && !t.cur.pending && t.cur.col == t.scr.cols - 1
    ensures t.Step(Print(m)) == t.SetCells(Marked(t.Cells(), [m]))
  {
    if t.scr.cols == 1 {
      assert t.scr.grid[t.cur.row := t.scr.grid[t.cur.row]] == t.scr.grid;
    }
  }

  lemma FlatHead(t: Term, c: Cell)
    requires CanFlat(t, c)
    ensures t.Step(Print(Seen(c.ch))) == AfterFlat(t, c.(extra := []))
  {
    var w := WriteGlyph(t.Cells(), t.cur.col, Seen(c.ch), t.cur.style, t.cur.link);
    assert w[t.cur.col] == Cell(Seen(c.ch), t.cur.style, c.width, [], t.cur.link);
    assert PutCell(t.Cells(), t.cur.col, c.(extra := []), t.cur.style, t.cur.link) == w;
    MarkedNone(w);
    assert t.TakePending() == t;
    if t.modes.insert {
      InsertWrite(t.Cells(), t.cur.col, Seen(c.ch), t.cur.style, t.cur.link);
    }
  }

  lemma FlatStep(t: Term, c: Cell, m: Glyph)
    requires CanFlat(t, c) && m.Mark?
    ensures AfterFlat(t, c).Step(Print(m)) == AfterFlat(t, c.(extra := c.extra + [m]))
  {
    hide PutCell, Marked, Term.Step;
    var u := AfterFlat(t, c);
    FlatMark(u, m);
    MarkedSnoc(PutCell(t.Cells(), t.cur.col, c.(extra := []), t.cur.style, t.cur.link), c.extra, m);
    assert u.SetCells(Marked(u.Cells(), [m])).scr.grid == AfterFlat(t, c.(extra := c.extra + [m])).scr.grid;
  }

  lemma {:induction false} FlatMarks(t: Term, c: Cell, n: nat)
    requires CanFlat(t, c) && n <= |c.extra|
    ensures Run(t, [Print(Seen(c.ch))] + Marks(c.extra[..n])) == AfterFlat(t, c.(extra := c.extra[..n]))
    decreases n
  {
    hide Term.Step, AfterFlat;
    if n == 0 {
      assert [Print(Seen(c.ch))] + Marks(c.extra[..0]) == [Print(Seen(c.ch))];
      RunOne(t, Print(Seen(c.ch)));
      FlatHead(t, c);
      assert c.extra[..0] == [];
    } else {
      FlatMarks(t, c, n - 1);
      assert c.extra[..n][..n - 1] == c.extra[..n - 1];
      var before := [Print(Seen(c.ch))] + Marks(c.extra[..n - 1]);
      assert [Print(Seen(c.ch))] + Marks(c.extra[..n]) == before + [Print(c.extra[n - 1])];
      RunSnoc(t, before, Print(c.extra[n - 1]));
      FlatStep(t, c.(extra := c.extra[..n - 1]), c.extra[n - 1]);
      assert c.extra[..n - 1] + [c.extra[n - 1]] == c.extra[..n];
    }
  }

  /** Drawing a cell that ends the row, with autowrap off. */
  lemma {:induction false} DrawFlat(t: Term, c: Cell)
    requires CanFlat(t, c)
    ensures Run(t, Drawn(c)) == AfterFlat(t, c)
  {
    FlatMarks(t, c, |c.extra|);
    assert c.extra[..|c.extra|] == c.extra;
  }

  lemma FlatPen(t: Term, c: Cell)
    requires t.Valid() && CellOk(c) && c.width != 0
    ensures AfterFlat(t, c).cur == t.cur.(col := t.scr.cols - 1, pending := false)
  {
    hide PutCell, Marked;
  }

  lemma BaseCursor(t: Term)
    requires t.Valid()
    ensures Base(t).cur == t.cur.(row := Base(t).cur.row, col := if t.cur.pending then 0 else t.cur.col, pending := false)
    ensures Base(t).modes == t.modes
  {
  }

  lemma BaseOpened(t: Term, lines: seq<Row>, ring: seq<Row>, afterWrap: bool)
    requires RowDue(t, lines, ring, afterWrap)
    ensures var u := Base(t);
            && OnTape(u, Opened(lines, afterWrap, t.scr.cols), ring)
            && u.cur == t.cur.(row := u.cur.row, col := 0, pending := false)
            && SameRest(t, u)
            && u.Cells() == BlankCells(t.scr.cols)
  {
    hide OnTape, Term.WrapLine;
    TapeValid(t, lines, ring);
    if afterWrap {
      TapeWrap(t, lines, ring);
    }
    TapeCells(Base(t), Opened(lines, afterWrap, t.scr.cols), ring);
  }

  lemma DrawOnTape(u: Term, lines: seq<Row>, ring: seq<Row>, c: Cell)
    requires OnTape(u, lines, ring) && CanDraw(u, c)
    ensures var r := Row(PutCell(u.Cells(), u.cur.col, c, u.cur.style, u.cur.link), lines[|lines| - 1].wrapped);
            OnTape(AfterDraw(u, c), LastLine(lines, r), ring)
  {
    hide OnTape, PutCell;
    TapeCells(u, lines, ring);
    TapeValid(u, lines, ring);
    var r := Row(PutCell(u.Cells(), u.cur.col, c, u.cur.style, u.cur.link), lines[|lines| - 1].wrapped);
    TapeWrite(u, lines, ring, r);
    SetRowFacts(u, u.cur.row, r);
    TapeCursor(u.SetRow(u.cur.row, r), AfterDraw(u, c), LastLine(lines, r), ring);
  }

  // --- what is printed -----------------------------------------------------------

  /** The printer: what it has written, and the pen the target has. */
  datatype Printer = Printer(out: seq<Action>, style: Style, link: nat, afterWrap: bool)
  {
    function Plus(acts: seq<Action>): Printer {
      this.(out := out + acts)
    }

    function Guarded(on: bool): Printer {
      if on == style.guarded then this else Plus([Decsca(on)]).(style := style.(guarded := on))
    }

    function Styled(s: Style): Printer {
      if s == style then this else Plus([Sgr(s)]).(style := s)
    }

    function Linked(l: nat): Printer {
      if l == link then this else Plus([Hyperlink(l)]).(link := l)
    }

    function Penned(s: Style, l: nat): Printer {
      Guarded(s.guarded).Styled(s).Linked(l)
    }

    function Repenned(pen: Style): Printer {
      Styled(pen.(guarded := style.guarded)).Guarded(pen.guarded)
    }

    function CellOut(c: Cell): Printer {
      Penned(c.style, c.link).Plus(Drawn(c))
    }

    /** The first `n` cells, spacers coming with their heads. */
    function CellsOut(cells: seq<Cell>, n: nat): Printer
      requires n <= |cells|
      decreases n
    {
      if n == 0 then this
      else if cells[n - 1].width == 0 then CellsOut(cells, n - 1)
      else CellsOut(cells, n - 1).CellOut(cells[n - 1])
    }

    function RowOut(row: Row): Printer {
      var end := EmitEnd(row);
      if end == 0 && afterWrap then CellOut(BLANK).(afterWrap := row.wrapped)
      else this.(afterWrap := row.wrapped).CellsOut(row.cells, end)
    }
  }

  /** Pen state while emitting, for minimal transitions; as ghosts the target
      the stream starts on and what it has become. */
  class EmitState {
    var style: Style
    var link: nat
    var afterWrap: bool
    var out: seq<Action>
    ghost var start: Term
    ghost var scr: Term

    ghost predicate Valid()
      reads this
    {
      Tied() && scr.cur.style == style && scr.cur.link == link
    }

    /** The target is what the output makes of it. */
    ghost predicate Tied()
      reads this
    {
      start.Valid() && scr == Run(start, out)
    }

    /** The fields as a value. */
    function Now(): Printer
      reads this
    {
      Printer(out, style, link, afterWrap)
    }

    constructor Fresh(ghost t: Term)
      requires t.Valid() && t.cur.style == DEFAULT_STYLE && t.cur.link == 0
      ensures Valid() && start == t && scr == t && out == []
      ensures style == DEFAULT_STYLE && link == 0 && !afterWrap
    {
      style, link, afterWrap, out := DEFAULT_STYLE, 0, false, [];
      start, scr := t, t;
      new;
      RunNone(t);
    }

    method Write(a: Action)
      requires Tied()
      modifies this`out, this`scr
      ensures Tied() && out == old(out) + [a] && scr == old(scr).Step(a)
    {
      hide Run, Term.Step;
      RunSnoc(start, out, a);
      out := out + [a];
      scr := scr.Step(a);
    }

    /** One control that is not a pen change. */
    method Emit(a: Action)
      requires Valid()
      requires scr.Step(a).cur.style == style && scr.Step(a).cur.link == link
      modifies this`out, this`scr
      ensures Valid() && scr == old(scr).Step(a)
      ensures Now() == old(Now()).Plus([a])
    {
      hide Run, Term.Step;
      Write(a);
    }

    /** DECSCA first, so that the styles then differ only in SGR attributes. */
    method SetGuard(on: bool)
      requires Valid()
      modifies this`out, this`scr, this`style
      ensures Valid() && style == old(style).(guarded := on)
      ensures scr == PenSet(old(scr), style, link)
      ensures Now() == old(Now()).Guarded(on)
    {
      hide Run, Term.Step;
      if on != style.guarded {
        StepDecsca(scr, on);
        Write(Decsca(on));
        style := style.(guarded := on);
      }
    }

    method SetStyle(s: Style)
      requires Valid() && s.guarded == style.guarded
      modifies this`out, this`scr, this`style
      ensures Valid() && style == s && scr == PenSet(old(scr), style, link)
      ensures Now() == old(Now()).Styled(s)
    {
      hide Run, Term.Step;
      if s != style {
        StepSgr(scr, s);
        GuardSame(s, s.guarded);
        Write(Sgr(s));
        style := s;
      }
    }

    method SetLink(l: nat)
      requires Valid()
      modifies this`out, this`scr, this`link
      ensures Valid() && link == l && scr == PenSet(old(scr), style, link)
      ensures Now() == old(Now()).Linked(l)
    {
      hide Run, Term.Step;
      if l != link {
        StepLink(scr, l);
        Write(Hyperlink(l));
        link := l;
      }
    }

    method SetPen(s: Style, l: nat)
      requires Valid()
      modifies this`out, this`scr, this`style, this`link
      ensures Valid() && style == s && link == l && scr == PenSet(old(scr), s, l)
      ensures Now() == old(Now()).Penned(s, l)
    {
      hide Run, Term.Step;
      SetGuard(s.guarded);
      SetStyle(s);
      SetLink(l);
    }

    /** The same in the other order: back from a cell to the pen before it. */
    method RestorePen(pen: Style)
      requires Valid()
      modifies this`out, this`scr, this`style
      ensures Valid() && style == pen && scr == PenSet(old(scr), pen, link)
      ensures Now() == old(Now()).Repenned(pen)
    {
      hide Run, Term.Step;
      GuardSame(pen, style.guarded);
      SetStyle(pen.(guarded := style.guarded));
      SetGuard(pen.guarded);
    }

    method ResetPen()
      requires Valid()
      modifies this`out, this`scr, this`style, this`link
      ensures Valid() && style == DEFAULT_STYLE && link == 0 && scr == PenSet(old(scr), DEFAULT_STYLE, 0)
      ensures Now() == old(Now()).Penned(DEFAULT_STYLE, 0)
    {
      SetPen(DEFAULT_STYLE, 0);
    }

    /** Print one cell with the pen already set for it. */
    method PutChars(c: Cell)
      requires Valid() && c.style == style && c.link == link && CellOk(c) && c.width != 0
      requires if scr.modes.autowrap then CanDraw(Base(scr), c) && (scr.cur.pending ==> !scr.modes.insert)
               else CanFlat(scr, c)
      modifies this`out, this`scr
      ensures Valid()
      ensures scr == if old(scr).modes.autowrap then AfterDraw(Base(old(scr)), c) else AfterFlat(old(scr), c)
      ensures Now() == old(Now()).Plus(Drawn(c))
    {
      hide Run, AfterDraw, AfterFlat, Term.WrapLine, Drawn;
      RunAppend(start, out, Drawn(c));
      if !scr.modes.autowrap {
        DrawFlat(scr, c);
        FlatPen(scr, c);
      } else if scr.cur.pending {
        DrawWrapped(scr, c);
      } else {
        DrawCell(scr, c);
      }
      BaseCursor(scr);
      if scr.modes.autowrap {
        AfterDrawFacts(Base(scr), c);
      }
      out := out + Drawn(c);
      scr := Run(scr, Drawn(c));
    }

    /** Print the row's cell at column `p`. */
    method EmitCell(c: Cell, ghost lines: seq<Row>, ghost ring: seq<Row>, ghost wrap: bool,
                    ghost row: seq<Cell>, ghost p: nat, ghost cells: seq<Cell>) returns (ghost after: seq<Cell>)
      requires Valid() && RowOk(row, scr.scr.cols) && p < |row| && row[p] == c && c.width != 0
      requires Printed(scr, lines, ring, wrap, cells, row, p)
      modifies this`out, this`scr, this`style, this`link
      ensures Valid() && p + c.width <= |row|
      ensures Printed(scr, lines, ring, wrap, after, row, p + c.width)
      ensures SameRest(old(scr), scr)
      ensures Now() == old(Now()).CellOut(c)
    {
      hide Run, OnTape, AfterDraw, PutCell, LineMid, RowDue, Term.WrapLine;
      SetPen(c.style, c.link);
      ghost var t := scr;
      PrintedPen(old(scr), t, lines, ring, wrap, cells, row, p);
      PrintedBase(t, lines, ring, wrap, cells, row, p);
      PrintAdvances(cells, row, p);
      PutChars(c);
      after := PutCell(cells, p, c, c.style, c.link);
      DrawOnTape(Base(t), LastLine(Opened(lines, wrap, t.scr.cols), Row(cells, false)), ring, c);
      AfterDrawFacts(Base(t), c);
    }

    /** One default-pen space for the pending wrap to wrap onto. */
    method EmitSpace(ghost lines: seq<Row>, ghost ring: seq<Row>) returns (ghost cells: seq<Cell>)
      requires Valid() && RowDue(scr, lines, ring, true)
      modifies this`out, this`scr, this`style, this`link
      ensures Valid() && SameRest(old(scr), scr)
      ensures Printed(scr, lines, ring, true, cells, BlankCells(scr.scr.cols), 1)
      ensures Now() == old(Now()).CellOut(BLANK)
    {
      hide Run, OnTape, LineMid, RowDue, Shown;
      RowDueShape(scr, lines, ring, true, BlankCells(scr.scr.cols));
      cells := BlankCells(scr.scr.cols);
      ResetPen();
      PrintedPen(old(scr), scr, lines, ring, true, cells, cells, 0);
      cells := EmitCell(BLANK, lines, ring, true, cells, 0, cells);
    }

    /** The first `end` cells of a row, on a line of its own. */
    method EmitCells(row: seq<Cell>, end: nat, ghost lines: seq<Row>, ghost ring: seq<Row>, ghost wrap: bool)
      returns (ghost cells: seq<Cell>)
      requires Valid() && RowOk(row, scr.scr.cols) && end <= |row|
      requires Printed(scr, lines, ring, wrap, BlankCells(scr.scr.cols), row, ColumnAt(row, 0))
      modifies this`out, this`scr, this`style, this`link
      ensures Valid() && SameRest(old(scr), scr)
      ensures Printed(scr, lines, ring, wrap, cells, row, ColumnAt(row, end))
      ensures Now() == old(Now()).CellsOut(row, end)
    {
      hide Run, OnTape, Orphan, Printed, Printer.CellOut;
      cells := BlankCells(scr.scr.cols);
      for i := 0 to end
        invariant Valid() && SameRest(old(scr), scr)
        invariant Printed(scr, lines, ring, wrap, cells, row, ColumnAt(row, i))
        invariant Now() == old(Now()).CellsOut(row, i)
      {
        NextColumn(row, i);
        if row[i].width == 0 {
          continue; // the spacer came with its head
        }
        cells := EmitCell(row[i], lines, ring, wrap, row, i, cells);
      }
    }

    /** `emit_row`: the row's cells, trimmed unless it wraps. An empty
        one behind a wrapped one still prints a space, for the wrap to be taken. */
    method EmitRow(row: Row, ghost lines: seq<Row>, ghost ring: seq<Row>) returns (ghost cells: seq<Cell>)
      requires Valid() && RowOk(row.cells, scr.scr.cols)
      requires RowDue(scr, lines, ring, afterWrap)
      modifies this
      ensures Valid() && start == old(start) && SameRest(old(scr), scr)
      ensures LooksLike(cells, row.cells)
      ensures OnTape(scr, LastLine(Opened(lines, old(afterWrap), scr.scr.cols), Row(cells, false)), ring)
      ensures afterWrap == row.wrapped
      ensures row.wrapped ==> scr.cur.pending && scr.cur.col == scr.scr.cols - 1
      ensures Now() == old(Now()).RowOut(row)
    {
      hide Run, OnTape, RowDue, Orphan, Printed, LooksLike, Printer.CellOut, Printer.CellsOut;
      var end := EmitEnd(row);
      ghost var wrap := afterWrap;
      RowDueShape(scr, lines, ring, afterWrap, row.cells);
      if end == 0 && afterWrap {
        cells := EmitSpace(lines, ring);
        BlankLine(scr, lines, ring, wrap, cells, row.cells);
        afterWrap := row.wrapped;
        return;
      }
      PrintedNone(scr, lines, ring, wrap, row.cells);
      afterWrap := row.wrapped;
      StartColumn(row.cells);
      cells := EmitCells(row.cells, end, lines, ring, wrap);
      RowPrinted(scr, lines, ring, wrap, cells, row, end);
    }
  }

  /** The line of the row being emitted, printed up to column `p`. */
  predicate Printed(t: Term, lines: seq<Row>, ring: seq<Row>, wrap: bool, cells: seq<Cell>, row: seq<Cell>, p: nat) {
    && t.Valid() && |lines| >= 1 && LineMid(cells, row, p) && |row| == t.scr.cols
    && if p == 0 then RowDue(t, lines, ring, wrap) && cells == BlankCells(t.scr.cols)
       else OnTape(t, LastLine(Opened(lines, wrap, t.scr.cols), Row(cells, false)), ring) && Standing(t, p, t.cur.row)
  }

  lemma PrintedNone(t: Term, lines: seq<Row>, ring: seq<Row>, wrap: bool, row: seq<Cell>)
    requires RowDue(t, lines, ring, wrap) && |row| == t.scr.cols
    ensures Printed(t, lines, ring, wrap, BlankCells(t.scr.cols), row, 0)
  {
    RowDueShape(t, lines, ring, wrap, row);
    hide RowDue;
  }

  lemma TapePen(t: Term, u: Term, lines: seq<Row>, ring: seq<Row>)
    requires t.Valid() && u == PenSet(t, u.cur.style, u.cur.link)
    ensures OnTape(t, lines, ring) ==> OnTape(u, lines, ring)
  {
    hide RingOf;
  }

  lemma PrintedPen(t: Term, u: Term, lines: seq<Row>, ring: seq<Row>, wrap: bool, cells: seq<Cell>, row: seq<Cell>, p: nat)
    requires t.Valid() && u == PenSet(t, u.cur.style, u.cur.link)
    ensures Printed(t, lines, ring, wrap, cells, row, p) ==> Printed(u, lines, ring, wrap, cells, row, p)
    ensures RowDue(t, lines, ring, wrap) ==> RowDue(u, lines, ring, wrap)
  {
    hide OnTape, LineMid, Opened, LastLine;
    TapePen(t, u, lines, ring);
    if |lines| >= 1 {
      TapePen(t, u, LastLine(Opened(lines, wrap, t.scr.cols), Row(cells, false)), ring);
    }
  }

  /** Where the next cell goes: column `p` of the opened line. */
  lemma PrintedBase(t: Term, lines: seq<Row>, ring: seq<Row>, wrap: bool, cells: seq<Cell>, row: seq<Cell>, p: nat)
    requires Printed(t, lines, ring, wrap, cells, row, p) && RowOk(row, |row|) && p < |row| && row[p].width != 0
    ensures var u := Base(t);
            && OnTape(u, LastLine(Opened(lines, wrap, t.scr.cols), Row(cells, false)), ring)
            && CanDraw(u, row[p]) && !u.cur.pending && u.cur.col == p && u.Cells() == cells
            && SameRest(t, u) && u.cur.style == t.cur.style && u.cur.link == t.cur.link
            && t.modes.autowrap && !t.modes.insert
  {
    hide OnTape, Term.WrapLine, LineMid, Shown;
    CellShape(row[p]);
    assert !Orphan(row, p);
    var tape := Opened(lines, wrap, t.scr.cols);
    if p == 0 {
      BaseOpened(t, lines, ring, wrap);
      RowDueShape(t, lines, ring, wrap, row);
      TapeValid(Base(t), tape, ring);
      OpenedLast(t, lines, ring, wrap);
      assert LastLine(tape, Row(cells, false)) == tape;
    } else {
      TapeCells(t, LastLine(tape, Row(cells, false)), ring);
      TapeValid(t, LastLine(tape, Row(cells, false)), ring);
    }
  }

  lemma OpenedLast(t: Term, lines: seq<Row>, ring: seq<Row>, wrap: bool)
    requires RowDue(t, lines, ring, wrap)
    ensures var o := Opened(lines, wrap, t.scr.cols); o[|o| - 1] == BlankRow(t.scr.cols)
  {
  }

  lemma RowDueShape(t: Term, lines: seq<Row>, ring: seq<Row>, wrap: bool, row: seq<Cell>)
    requires RowDue(t, lines, ring, wrap)
    ensures Flowing(t) && |lines| >= 1
    ensures |row| == t.scr.cols ==> LineMid(BlankCells(t.scr.cols), row, 0)
  {
  }

  lemma StartColumn(row: seq<Cell>)
    requires RowOk(row, |row|) && |row| > 0
    ensures ColumnAt(row, 0) == 0
  {
    assert !Orphan(row, 0);
  }

  lemma NextColumn(row: seq<Cell>, i: nat)
    requires RowOk(row, |row|) && i < |row|
    ensures ColumnAt(row, i + 1) == if row[i].width == 0 then ColumnAt(row, i) else ColumnAt(row, i) + row[i].width
    ensures row[i].width != 0 ==> ColumnAt(row, i) == i
  {
    CellShape(row[i]);
    assert !Orphan(row, i);
    if i + 1 < |row| {
      assert !Orphan(row, i + 1);
    }
  }

  /** The space printed to wrap onto leaves the line blank. */
  lemma BlankLine(t: Term, lines: seq<Row>, ring: seq<Row>, wrap: bool, cells: seq<Cell>, row: seq<Cell>)
    requires Printed(t, lines, ring, wrap, cells, BlankCells(t.scr.cols), 1)
    requires RowOk(row, t.scr.cols) && forall x :: 0 <= x < |row| ==> IsSkippable(row[x])
    ensures LooksLike(cells, row)
    ensures OnTape(t, LastLine(Opened(lines, wrap, t.scr.cols), Row(cells, false)), ring)
  {
    hide OnTape, Shown;
    StartColumn(row);
    forall x | 0 <= x < |row|
      ensures Shown(cells[x]) == Shown(row[x])
    {
      NoSpacer(row, 0, x);
      SkippableShown(row[x]);
    }
  }

  /** After the last printed cell the line looks like the row. */
  lemma RowPrinted(t: Term, lines: seq<Row>, ring: seq<Row>, wrap: bool, cells: seq<Cell>, row: Row, end: nat)
    requires RowOk(row.cells, t.scr.cols) && end == EmitEnd(row) && (end > 0 || !wrap)
    requires Printed(t, lines, ring, wrap, cells, row.cells, ColumnAt(row.cells, end))
    ensures LooksLike(cells, row.cells)
    ensures OnTape(t, LastLine(Opened(lines, wrap, t.scr.cols), Row(cells, false)), ring)
    ensures row.wrapped ==> t.cur.pending && t.cur.col == t.scr.cols - 1
  {
    hide OnTape, Shown, LineMid;
    TrimmedLooks(cells, row.cells, end);
    if ColumnAt(row.cells, end) == 0 {
      TapeValid(t, lines, ring);
      OpenedLast(t, lines, ring, wrap);
      assert LastLine(lines, Row(cells, false)) == lines;
    }
  }

  lemma GuardSame(s: Style, on: bool)
    ensures s.guarded == on ==> s.(guarded := on) == s
    ensures s.(guarded := on).guarded == on && s.(guarded := on).(guarded := s.guarded) == s
  {
  }

  lemma StepDecsca(t: Term, on: bool)
    requires t.Valid()
    ensures t.Step(Decsca(on)) == t.(cur := t.cur.(style := t.cur.style.(guarded := on)))
  {
  }
}
