// The terminal as a program: the methods of `Terminal` in
// crates/posh-term/src/terminal.rs and csi.rs, each proved to make the step
// that `Machine.Term` specifies.

module Terminal {
  import opened Cells
  import opened Machine
  import opened ScreenBuffer

  /** The cells repaired up to column `i`. */
  function RepairedTo(cells: seq<Cell>, i: nat): (r: seq<Cell>)
    ensures |r| == |cells|
    ensures forall c: nat :: c < |cells| ==> r[c] == if c < i && Orphan(cells, c) then BLANK else cells[c]
  {
    seq(|cells|, c requires 0 <= c < |cells| => if c < i && Orphan(cells, c) then BLANK else cells[c])
  }

  lemma RepairStep(cells: seq<Cell>, i: nat)
    requires i < |cells|
    ensures RepairedTo(cells, i)[i].width == cells[i].width
    ensures Orphan(RepairedTo(cells, i), i) <==> Orphan(cells, i)
    ensures RepairedTo(cells, i + 1) == if Orphan(cells, i) then RepairedTo(cells, i)[i := BLANK] else RepairedTo(cells, i)
  {
    assert i > 0 && cells[i - 1].width == 2 && cells[i].width == 0 ==> !Orphan(cells, i - 1);
  }

  lemma RepairDone(cells: seq<Cell>)
    ensures RepairedTo(cells, 0) == cells && RepairedTo(cells, |cells|) == Repair(cells)
  {
  }

  /** `c0` after `i` rounds of blanking what a write at `col` would strand. */
  function Cleaned(c0: seq<Cell>, col: nat, i: nat): (r: seq<Cell>)
    ensures |r| == |c0|
  {
    if i == 0 then c0 else BlankAfterHead(Cleaned(c0, col, i - 1), col + i - 1)
  }

  function BlankBefore(cells: seq<Cell>, c: nat): (r: seq<Cell>)
    requires c < |cells|
    ensures |r| == |cells|
  {
    if cells[c].width == 0 && c > 0 then cells[c - 1 := BLANK] else cells
  }

  lemma CleanedAll(cells: seq<Cell>, col: nat, w: nat, i: nat)
    requires col < |cells| && 1 <= w <= 2 && i <= w && (i < w ==> col + i >= |cells|)
    ensures Cleaned(BlankBefore(cells, col), col, i) == CleanWide(cells, col, w)
  {
    var c0 := BlankBefore(cells, col);
    assert Cleaned(c0, col, 1) == BlankAfterHead(c0, col);
    assert w == 2 ==> Cleaned(c0, col, 2) == BlankAfterHead(Cleaned(c0, col, 1), col + 1);
  }

  /** Pop the last cell and insert a blank at `col`. */
  function InsertOne(cells: seq<Cell>, col: nat): (r: seq<Cell>)
    requires col < |cells|
    ensures |r| == |cells|
  {
    cells[..col] + [BLANK] + cells[col..|cells| - 1]
  }

  /** Remove the cell at `col` and push a blank. */
  function DeleteOne(cells: seq<Cell>, col: nat): (r: seq<Cell>)
    requires col < |cells|
    ensures |r| == |cells|
  {
    cells[..col] + cells[col + 1..] + [BLANK]
  }

  lemma {:induction false} InsertSnoc(cells: seq<Cell>, col: nat, n: nat)
    requires col < |cells|
    ensures InsertBlanks(cells, col, n + 1) == InsertOne(InsertBlanks(cells, col, n), col)
    ensures InsertBlanks(cells, col, 0) == cells
    decreases n
  {
    hide InsertOne;
    if n > 0 {
      InsertSnoc(InsertOne(cells, col), col, n - 1);
      InsertUnfold(cells, col, n);
    }
    InsertUnfold(cells, col, n + 1);
  }

  lemma InsertUnfold(cells: seq<Cell>, col: nat, n: nat)
    requires col < |cells| && n > 0
    ensures InsertBlanks(cells, col, n) == InsertBlanks(InsertOne(cells, col), col, n - 1)
  {
  }

  lemma {:induction false} DeleteSnoc(cells: seq<Cell>, col: nat, n: nat)
    requires col < |cells|
    ensures DeleteCells(cells, col, n + 1) == DeleteOne(DeleteCells(cells, col, n), col)
    ensures DeleteCells(cells, col, 0) == cells
    decreases n
  {
    hide DeleteOne;
    if n > 0 {
      DeleteSnoc(DeleteOne(cells, col), col, n - 1);
      DeleteUnfold(cells, col, n);
    }
    DeleteUnfold(cells, col, n + 1);
  }

  lemma DeleteUnfold(cells: seq<Cell>, col: nat, n: nat)
    requires col < |cells| && n > 0
    ensures DeleteCells(cells, col, n) == DeleteCells(DeleteOne(cells, col), col, n - 1)
  {
  }

  /** The cursor's row with room made for a glyph in insert mode. */
  function ShiftedRow(t: Term, w: nat): (r: seq<Cell>)
    requires t.Valid()
    ensures |r| == t.scr.cols
  {
    if t.modes.insert then Repair(InsertBlanks(t.Cells(), t.cur.col, w)) else t.Cells()
  }

  lemma PlaceIs(t: Term, g: Glyph)
    requires t.Valid() && GlyphWidth(g) != 0
    ensures var w := GlyphWidth(g);
            var u := t.SetCells(WriteGlyph(ShiftedRow(t, w), t.cur.col, g, t.cur.style, t.cur.link));
            t.Place(g) == u.(cur := if t.cur.col + w >= t.scr.cols then t.cur.(col := t.scr.cols - 1, pending := t.modes.autowrap)
                                    else t.cur.(col := t.cur.col + w, pending := false))
  {
    hide WriteGlyph, InsertBlanks, Repair;
  }

  lemma StuckGlyph(t: Term, g: Glyph)
    requires t.Valid() && t.Unfit(g) && !t.modes.autowrap && t.scr.cols < 2
    ensures t.MakeRoom(g) == t
  {
  }

  /** Rows `from..upto` of the grid blanked. */
  lemma BlankedOne(t: Term, from: nat, i: nat)
    requires t.Valid() && from <= i < t.scr.rows
    ensures t.EraseRows(from, i + 1) == t.EraseRows(from, i).SetRow(i, BlankRow(t.scr.cols))
    ensures t.EraseRows(from, from) == t
  {
    assert t.EraseRows(from, i + 1).scr.grid == t.EraseRows(from, i).SetRow(i, BlankRow(t.scr.cols)).scr.grid;
    assert t.EraseRows(from, from).scr.grid == t.scr.grid;
  }

  lemma NoRows(t: Term, from: nat)
    requires t.Valid() && from >= t.scr.rows
    ensures t.EraseRows(from, from) == t
  {
    assert t.EraseRows(from, from).scr.grid == t.scr.grid;
  }

  lemma EraseNone(cells: seq<Cell>, from: nat)
    ensures Erase(cells, from, from) == cells
  {
  }

  lemma EraseClamp(cells: seq<Cell>, from: nat, upto: nat)
    ensures Erase(cells, from, Min(upto, |cells|)) == Erase(cells, from, upto)
  {
  }

  lemma ErasedOne(cells: seq<Cell>, from: nat, i: nat)
    requires i < |cells|
    ensures from <= i ==> Erase(cells, from, i + 1) == Erase(cells, from, i)[i := BLANK]
    ensures Erase(cells, from, from) == cells
  {
  }

  lemma RowFacts(t: Term)
    requires t.Valid()
    ensures |t.Cells()| == t.scr.cols && t.SetCells(t.Cells()) == t
  {
    assert t.scr.grid[t.cur.row := t.scr.grid[t.cur.row]] == t.scr.grid;
  }

  /** Setting the row twice is setting it once. */
  lemma RowTwice(t: Term, cells: seq<Cell>)
    requires t.Valid() && |cells| == t.scr.cols
    ensures var u := t.SetCells(cells);
            && u.Valid() && u.Cells() == cells && u.scr.cols == t.scr.cols
            && forall more: seq<Cell> :: |more| == t.scr.cols ==> u.SetCells(more) == t.SetCells(more)
  {
    var u := t.SetCells(cells);
    forall more: seq<Cell> | |more| == t.scr.cols
      ensures u.SetCells(more) == t.SetCells(more)
    {
      assert u.SetCells(more).scr.grid == t.SetCells(more).scr.grid;
    }
  }

  class Emulator {
    const screen: Buffer
    var cursor: Cursor
    var saved: Cursor
    var savedOrigin: bool
    var modes: Modes
    var scrollTop: nat
    var scrollBot: nat
    var tabs: seq<bool>

    ghost function State(): Term
      reads this, screen
    {
      Term(screen.State(), cursor, saved, savedOrigin, modes, scrollTop, scrollBot, tabs)
    }

    ghost predicate Valid()
      reads this, screen
    {
      State().Valid()
    }

    constructor (rows: nat, cols: nat, maxScrollback: nat)
      ensures Valid() && fresh(screen)
      ensures State() == Term(Screen(Max(rows, 1), Max(cols, 1), BlankRows(Max(rows, 1), Max(cols, 1)), [], maxScrollback, 0),
                              HOME, HOME, false, DEFAULT_MODES, 0, Max(rows, 1) - 1,
                              seq(Max(cols, 1), i => i % 8 == 0))
    {
      screen := new Buffer(rows, cols, maxScrollback);
      cursor, saved, savedOrigin := HOME, HOME, false;
      modes := DEFAULT_MODES;
      scrollTop, scrollBot := 0, Max(rows, 1) - 1;
      tabs := seq(Max(cols, 1), i => i % 8 == 0);
    }

    /** The cursor's row. */
    function Here(): (r: seq<Cell>)
      requires Valid()
      reads this, screen
      ensures r == State().Cells() && |r| == screen.cols
    {
      screen.grid[cursor.row].cells
    }

    // --- plumbing -------------------------------------------------------------

    /** Write one cell of the cursor's row. */
    method PutCell(col: nat, c: Cell)
      requires Valid()
      modifies screen`grid
      ensures Valid()
      ensures State() == old(State()).SetCells(old(State()).Cells()[Min(col, screen.cols - 1) := c])
    {
      var r := screen.grid[cursor.row];
      screen.grid := screen.grid[cursor.row := r.(cells := r.cells[Min(col, screen.cols - 1) := c])];
    }

    method PutCells(cells: seq<Cell>)
      requires Valid() && |cells| == screen.cols
      modifies screen`grid
      ensures Valid() && State() == old(State()).SetCells(cells)
    {
      screen.grid := screen.grid[cursor.row := screen.grid[cursor.row].(cells := cells)];
    }

    method SetWrapped(on: bool)
      requires Valid()
      modifies screen`grid
      ensures Valid()
      ensures State() == old(State()).SetRow(cursor.row, old(screen.grid[cursor.row]).(wrapped := on))
    {
      screen.grid := screen.grid[cursor.row := screen.grid[cursor.row].(wrapped := on)];
    }

    method ScrollUpN(n: nat)
      requires Valid()
      modifies screen
      ensures State() == old(State()).ScrollUpN(n)
    {
      var save := scrollTop == 0 && scrollBot == screen.rows - 1;
      screen.ScrollUp(scrollTop, scrollBot, n, save);
    }

    method ScrollDownN(n: nat)
      requires Valid()
      modifies screen
      ensures State() == old(State()).(scr := old(State()).scr.ScrollDown(scrollTop, scrollBot, n))
    {
      screen.ScrollDown(scrollTop, scrollBot, n);
    }

    method Index()
      requires Valid()
      modifies this`cursor, screen
      ensures State() == old(State()).Index()
    {
      hide Screen.ScrollUp;
      cursor := cursor.(pending := false);
      if cursor.row == scrollBot {
        ScrollUpN(1);
      } else if cursor.row + 1 < screen.rows {
        cursor := cursor.(row := cursor.row + 1);
      }
    }

    method ReverseIndex()
      requires Valid()
      modifies this`cursor, screen
      ensures State() == old(State()).ReverseIndex()
    {
      hide Screen.ScrollDown;
      cursor := cursor.(pending := false);
      if cursor.row == scrollTop {
        ScrollDownN(1);
      } else if cursor.row > 0 {
        cursor := cursor.(row := cursor.row - 1);
      }
    }

    method Linefeed()
      requires Valid()
      modifies this`cursor, screen
      ensures State() == old(State()).Step(Lf)
    {
      hide Term.Index;
      Index();
      if modes.lnm {
        cursor := cursor.(col := 0);
      }
    }

    // --- printing ---------------------------------------------------------------

    /** Blank the spacer that a write over the head at `c` would strand. */
    method CleanAfter(c: nat)
      requires Valid() && c < screen.cols
      modifies screen`grid
      ensures Valid() && State() == old(State()).SetCells(BlankAfterHead(old(State()).Cells(), c))
    {
      hide Term.SetCells, Term.Cells;
      RowFacts(State());
      if Here()[c].width == 2 && c + 1 < screen.cols {
        PutCell(c + 1, BLANK);
      }
    }

    /** Blank the head that a write over its spacer at `c` would strand. */
    method CleanBefore(c: nat)
      requires Valid() && c < screen.cols
      modifies screen`grid
      ensures Valid() && State() == old(State()).SetCells(BlankBefore(old(State()).Cells(), c))
    {
      hide Term.SetCells, Term.Cells;
      RowFacts(State());
      if Here()[c].width == 0 && c > 0 {
        PutCell(c - 1, BLANK);
      }
    }

    /** Blank the halves of wide characters that a write would corrupt. */
    method CleanWideAt(col: nat, w: nat)
      requires Valid() && col < screen.cols && 1 <= w <= 2
      modifies screen`grid
      ensures Valid() && State() == old(State()).SetCells(CleanWide(old(State()).Cells(), col, w))
    {
      hide Term.SetCells, Term.Cells, BlankAfterHead, BlankBefore, CleanWide;
      ghost var t := State();
      RowFacts(t);
      CleanBefore(col);
      ghost var c0 := BlankBefore(t.Cells(), col);
      var i := 0;
      while i < w && col + i < screen.cols
        invariant i <= w && Valid()
        invariant State() == t.SetCells(Cleaned(c0, col, i))
      {
        RowTwice(t, Cleaned(c0, col, i));
        CleanAfter(col + i);
        i := i + 1;
      }
      CleanedAll(t.Cells(), col, w, i);
    }

    /** Blank every orphaned half in the cursor's row. */
    method RepairWideHalves()
      requires Valid()
      modifies screen`grid
      ensures Valid() && State() == old(State()).SetCells(Repair(old(State()).Cells()))
    {
      hide Term.SetCells, Term.Cells, RepairedTo, Repair, Orphan;
      ghost var t := State();
      RowFacts(t);
      RepairDone(t.Cells());
      var c := 0;
      while c < screen.cols
        invariant c <= screen.cols && Valid()
        invariant State() == t.SetCells(RepairedTo(t.Cells(), c))
      {
        RepairStep(t.Cells(), c);
        RowTwice(t, RepairedTo(t.Cells(), c));
        if Orphan(Here(), c) {
          PutCell(c, BLANK);
        }
        c := c + 1;
      }
    }

    /** Shift `n` blanks in at the cursor, cells off the right edge. */
    method InsertAt(n: nat)
      requires Valid()
      modifies screen`grid
      ensures Valid()
      ensures State() == old(State()).SetCells(InsertBlanks(old(State()).Cells(), cursor.col, n))
    {
      hide Term.SetCells, Term.Cells, InsertBlanks, InsertOne;
      ghost var t := State();
      RowFacts(t);
      var i := 0;
      InsertSnoc(t.Cells(), cursor.col, 0);
      while i < n
        invariant i <= n && Valid()
        invariant State() == t.SetCells(InsertBlanks(t.Cells(), cursor.col, i))
      {
        RowTwice(t, InsertBlanks(t.Cells(), cursor.col, i));
        InsertSnoc(t.Cells(), cursor.col, i);
        PutCells(InsertOne(Here(), cursor.col));
        i := i + 1;
      }
    }

    /** Delete `n` cells at the cursor; blanks come in at the right edge. */
    method DeleteAt(n: nat)
      requires Valid()
      modifies screen`grid
      ensures Valid()
      ensures State() == old(State()).SetCells(DeleteCells(old(State()).Cells(), cursor.col, n))
    {
      hide Term.SetCells, Term.Cells, DeleteCells, DeleteOne;
      ghost var t := State();
      RowFacts(t);
      var i := 0;
      DeleteSnoc(t.Cells(), cursor.col, 0);
      while i < n
        invariant i <= n && Valid()
        invariant State() == t.SetCells(DeleteCells(t.Cells(), cursor.col, i))
      {
        RowTwice(t, DeleteCells(t.Cells(), cursor.col, i));
        DeleteSnoc(t.Cells(), cursor.col, i);
        PutCells(DeleteOne(Here(), cursor.col));
        i := i + 1;
      }
    }

    /** Attach a combining mark to the cell printed last. */
    method Combine(g: Glyph)
      requires Valid()
      modifies screen`grid
      ensures Valid() && State() == old(State()).Combine(g)
    {
      hide Term.SetCells, Term.Cells;
      if !cursor.pending && cursor.col == 0 {
        return;
      }
      var col := if cursor.pending then cursor.col else cursor.col - 1;
      if Here()[col].width == 0 && col > 0 {
        col := col - 1;
      }
      PutCell(col, Here()[col].(extra := Here()[col].extra + [g]));
    }

    /** Leave the line by wrapping. */
    method WrapLine()
      requires Valid()
      modifies this`cursor, screen
      ensures Valid() && State() == old(State()).WrapLine()
    {
      hide Term.SetRow, Term.Index;
      SetWrapped(true);
      cursor := cursor.(col := 0, pending := false);
      Index();
    }

    /** Take the pending wrap, or drop it. */
    method TakePending()
      requires Valid()
      modifies this`cursor, screen
      ensures Valid() && State() == old(State()).TakePending()
    {
      hide Term.WrapLine;
      if cursor.pending && modes.autowrap {
        WrapLine();
      } else {
        cursor := cursor.(pending := false);
      }
    }

    /** Make room for a wide character in the last column: on the next row, or with
        autowrap off one column to the left. */
    method MakeRoom(g: Glyph) returns (ok: bool)
      requires Valid() && !cursor.pending
      modifies this`cursor, screen
      ensures Valid() && State() == old(State()).MakeRoom(g)
      ensures ok == !(old(State()).Unfit(g) && !modes.autowrap && screen.cols < 2)
    {
      hide Term.WrapLine, Term.SetCells, Term.Cells;
      ok := true;
      if GlyphWidth(g) == 2 && cursor.col + 1 >= screen.cols {
        if modes.autowrap {
          PutCell(cursor.col, BLANK);
          WrapLine();
        } else if screen.cols >= 2 {
          cursor := cursor.(col := screen.cols - 2, pending := false);
        } else {
          ok := false;
        }
      }
    }

    /** Print one character. */
    method Print(g: Glyph)
      requires Valid()
      modifies this`cursor, screen
      ensures Valid() && State() == old(State()).PrintGlyph(g)
    {
      hide Term.Combine, Term.TakePending, Term.MakeRoom, Term.Place;
      if GlyphWidth(g) == 0 {
        Combine(g);
      } else {
        TakePending();
        var ok := MakeRoom(g);
        if ok {
          PlaceGlyph(g);
        } else {
          StuckGlyph(old(State()).TakePending(), g);
        }
      }
    }

    /** Write the glyph into the cursor's row. */
    method WriteAt(g: Glyph)
      requires Valid() && GlyphWidth(g) != 0
      modifies screen`grid
      ensures Valid()
      ensures State() == old(State()).SetCells(WriteGlyph(old(State()).Cells(), cursor.col, g, cursor.style, cursor.link))
    {
      hide Term.SetCells, Term.Cells, CleanWide;
      var w, col := GlyphWidth(g), cursor.col;
      ghost var t := State();
      RowFacts(t);
      CleanWideAt(col, w);
      ghost var clean := CleanWide(t.Cells(), col, w);
      RowTwice(t, clean);
      PutCell(col, Cell(g, cursor.style, w, [], cursor.link));
      RowTwice(t, clean[col := Cell(g, cursor.style, w, [], cursor.link)]);
      if w == 2 {
        PutCell(col + 1, Spacer(cursor.style, cursor.link));
      }
    }

    /** In insert mode, make room for the glyph. */
    method ShiftFor(w: nat)
      requires Valid()
      modifies screen`grid
      ensures Valid()
      ensures State() == old(State()).SetCells(
        ShiftedRow(old(State()), w))
    {
      hide Term.SetCells, Term.Cells, InsertBlanks, Repair;
      ghost var t := State();
      RowFacts(t);
      if modes.insert {
        InsertAt(w);
        RowTwice(t, InsertBlanks(t.Cells(), cursor.col, w));
        RepairWideHalves();
      }
    }

    /** Write the glyph at the cursor and move on. */
    method PlaceGlyph(g: Glyph)
      requires Valid() && GlyphWidth(g) != 0
      modifies this`cursor, screen`grid
      ensures Valid() && State() == old(State()).Place(g)
    {
      hide Term.SetCells, Term.Cells, WriteGlyph, InsertBlanks, Repair, Term.Place;
      var w, col := GlyphWidth(g), cursor.col;
      ghost var t := State();
      RowFacts(t);
      PlaceIs(t, g);
      ShiftFor(w);
      RowTwice(t, ShiftedRow(t, w));
      WriteAt(g);
      if col + w >= screen.cols {
        cursor := cursor.(col := screen.cols - 1, pending := modes.autowrap);
      } else {
        cursor := cursor.(col := col + w, pending := false);
      }
    }

    // --- controls -----------------------------------------------------------------

    method MoveTo(row: nat, col: nat)
      requires Valid()
      modifies this`cursor
      ensures State() == old(State()).MoveTo(row, col)
    {
      var r := if modes.origin then Min(scrollTop + row, scrollBot) else Min(row, screen.rows - 1);
      cursor := cursor.(row := r, col := Min(col, screen.cols - 1), pending := false);
    }

    method CursorUp(n: nat)
      requires Valid()
      modifies this`cursor
      ensures State() == old(State()).CursorUp(n)
    {
      var limit := if cursor.row >= scrollTop then scrollTop else 0;
      cursor := cursor.(row := Max(Max(cursor.row - n, 0), limit), pending := false);
    }

    /** Blank the cells `from..upto` of the cursor's row. */
    method EraseCells(from: nat, upto: nat)
      requires Valid() && from <= upto <= screen.cols
      modifies screen`grid
      ensures Valid() && State() == old(State()).SetCells(Erase(old(State()).Cells(), from, upto))
    {
      hide Term.SetCells, Term.Cells, Erase;
      ghost var t := State();
      RowFacts(t);
      var c := from;
      if from < screen.cols {
        ErasedOne(t.Cells(), from, from);
      } else {
        EraseNone(t.Cells(), from);
      }
      while c < upto
        invariant from <= c <= upto && Valid()
        invariant State() == t.SetCells(Erase(t.Cells(), from, c))
      {
        RowTwice(t, Erase(t.Cells(), from, c));
        ErasedOne(t.Cells(), from, c);
        PutCell(c, BLANK);
        c := c + 1;
      }
    }

    /** EL. */
    method EraseLine(part: nat)
      requires Valid()
      modifies this`cursor, screen`grid
      ensures Valid() && State() == old(State()).EraseLine(part)
    {
      hide Erase;
      cursor := cursor.(pending := false);
      if part > 2 {
        return;
      }
      var from := if part == 0 then cursor.col else 0;
      var upto := if part == 1 then cursor.col + 1 else screen.cols;
      EraseCells(from, upto);
      if part != 1 {
        SetWrapped(false);
      }
    }

    /** Blank the rows `from..upto`. */
    method EraseRows(from: nat, upto: nat)
      requires Valid() && from <= upto <= screen.rows
      modifies screen`grid
      ensures Valid() && State() == old(State()).EraseRows(from, upto)
    {
      hide BlankRow;
      ghost var t := State();
      var r := from;
      if from < screen.rows {
        BlankedOne(t, from, from);
      } else {
        NoRows(t, from);
      }
      hide Term.EraseRows;
      while r < upto
        invariant from <= r <= upto && Valid()
        invariant State() == t.EraseRows(from, r)
      {
        BlankedOne(t, from, r);
        screen.grid := screen.grid[r := BlankRow(screen.cols)];
        r := r + 1;
      }
    }

    /** ED. */
    method EraseDisplay(part: nat)
      requires Valid()
      modifies this`cursor, screen`grid, screen`scrollback
      ensures Valid() && State() == old(State()).EraseDisplay(part)
    {
      hide Term.EraseLine, Term.EraseRows;
      var row := cursor.row;
      match part {
        case 0 =>
          EraseLine(0);
          EraseRows(row + 1, screen.rows);
        case 1 =>
          ghost var t := State();
          EraseLine(1);
          EraseRows(0, row);
        case 2 =>
          cursor := cursor.(pending := false);
          EraseRows(0, screen.rows);
        case 3 =>
          cursor := cursor.(pending := false);
          screen.scrollback := [];
        case _ =>
          cursor := cursor.(pending := false);
      }
    }

    method InsertChars(n: nat)
      requires Valid()
      modifies this`cursor, screen`grid
      ensures var t := old(State()); State() == t.Edited(InsertBlanks(t.Cells(), t.cur.col, Min(n, t.scr.cols)))
    {
      hide InsertBlanks, Repair, Term.SetCells, Term.Cells;
      ghost var t := State();
      var k := Min(n, screen.cols);
      RowFacts(t);
      InsertAt(k);
      RowTwice(t, InsertBlanks(t.Cells(), cursor.col, k));
      RepairWideHalves();
      cursor := cursor.(pending := false);
    }

    method DeleteChars(n: nat)
      requires Valid()
      modifies this`cursor, screen`grid
      ensures var t := old(State()); State() == t.Edited(DeleteCells(t.Cells(), t.cur.col, Min(n, t.scr.cols)))
    {
      hide DeleteCells, Repair, Term.SetCells, Term.Cells;
      ghost var t := State();
      var k := Min(n, screen.cols);
      RowFacts(t);
      DeleteAt(k);
      RowTwice(t, DeleteCells(t.Cells(), cursor.col, k));
      RepairWideHalves();
      cursor := cursor.(pending := false);
    }

    method EraseChars(n: nat)
      requires Valid()
      modifies this`cursor, screen`grid
      ensures var t := old(State()); State() == t.Edited(Erase(t.Cells(), t.cur.col, t.cur.col + n))
    {
      hide Erase, Repair, Term.SetCells, Term.Cells;
      ghost var t := State();
      var upto := Min(cursor.col + n, screen.cols);
      RowFacts(t);
      EraseCells(cursor.col, upto);
      EraseClamp(t.Cells(), cursor.col, cursor.col + n);
      RowTwice(t, Erase(t.Cells(), cursor.col, upto));
      RepairWideHalves();
      cursor := cursor.(pending := false);
    }

    method InsertLines(n: nat)
      requires Valid()
      modifies this`cursor, screen
      ensures State() == old(State()).LinesEdit(old(State()).scr.ScrollDown(old(cursor.row), scrollBot, n))
    {
      hide Screen.ScrollDown;
      if cursor.row < scrollTop || cursor.row > scrollBot {
        return;
      }
      screen.ScrollDown(cursor.row, scrollBot, n);
      cursor := cursor.(col := 0, pending := false);
    }

    method DeleteLines(n: nat)
      requires Valid()
      modifies this`cursor, screen
      ensures State() == old(State()).LinesEdit(old(State()).scr.ScrollUp(old(cursor.row), scrollBot, n, false))
    {
      hide Screen.ScrollUp;
      if cursor.row < scrollTop || cursor.row > scrollBot {
        return;
      }
      screen.ScrollUp(cursor.row, scrollBot, n, false);
      cursor := cursor.(col := 0, pending := false);
    }

    /** DECSTBM. */
    method SetRegion(t1: nat, b1: nat)
      requires Valid()
      modifies this
      ensures State() == old(State()).SetRegion(t1, b1)
    {
      var top := Arg(t1) - 1;
      var bot := Min((if b1 == 0 then screen.rows else b1) - 1, screen.rows - 1);
      if top < bot {
        scrollTop, scrollBot := top, bot;
        MoveTo(0, 0);
      }
    }

    method SetMode(mode: Mode, on: bool)
      requires Valid()
      modifies this
      ensures State() == old(State()).ModeSet(mode, on)
    {
      match mode {
        case Origin =>
          modes := modes.(origin := on);
          MoveTo(0, 0);
        case Autowrap =>
          modes := modes.(autowrap := on);
          if !on {
            cursor := cursor.(pending := false);
          }
        case Insert => modes := modes.(insert := on);
        case Lnm => modes := modes.(lnm := on);
        case Visible => modes := modes.(visible := on);
      }
    }

    method SaveCursor()
      requires Valid()
      modifies this
      ensures State() == old(State()).Step(Decsc)
    {
      saved, savedOrigin := cursor, modes.origin;
    }

    method RestoreCursor()
      requires Valid()
      modifies this
      ensures State() == old(State()).Step(Decrc)
    {
      modes := modes.(origin := savedOrigin);
      cursor := saved.(row := Min(saved.row, screen.rows - 1), col := Min(saved.col, screen.cols - 1));
      if modes.origin {
        cursor := cursor.(row := Max(scrollTop, Min(cursor.row, scrollBot)));
      }
    }

    method ClearTabs()
      requires Valid()
      modifies this`tabs
      ensures State() == old(State()).Step(Tbc)
    {
      var i := 0;
      while i < |tabs|
        invariant i <= |tabs| == screen.cols
        invariant forall k :: 0 <= k < i ==> !tabs[k]
      {
        tabs := tabs[i := false];
        i := i + 1;
      }
    }

    // --- dispatch -----------------------------------------------------------------

    predicate Moves(a: Action) {
      a.Print? || a.Cr? || a.Lf? || a.Bs? || a.Cup? || a.Cuu? || a.Cha?
    }

    predicate Edits(a: Action) {
      a.Ech? || a.Ich? || a.Dch? || a.El? || a.Ed?
    }

    predicate Scrolls(a: Action) {
      a.Su? || a.Sd? || a.Il? || a.Dl? || a.Ri?
    }

    method DispatchMove(a: Action)
      requires Valid() && Moves(a)
      modifies this`cursor, screen
      ensures Valid() && State() == old(State()).Step(a)
    {
      hide Term.Index, Term.PrintGlyph, Term.MoveTo, Term.CursorUp;
      match a {
        case Print(g) => Print(g);
        case Cr => cursor := cursor.(col := 0, pending := false);
        case Lf => Linefeed();
        case Bs => cursor := cursor.(col := Max(cursor.col - 1, 0), pending := false);
        case Cup(r, c) => MoveTo(Arg(r) - 1, Arg(c) - 1);
        case Cuu(n) => CursorUp(Arg(n));
        case Cha(n) => cursor := cursor.(col := Min(Arg(n) - 1, screen.cols - 1), pending := false);
      }
    }

    method DispatchEdit(a: Action)
      requires Valid() && Edits(a)
      modifies this`cursor, screen
      ensures Valid() && State() == old(State()).Step(a)
    {
      hide Term.EraseLine, Term.EraseDisplay, Term.Edited, InsertBlanks, DeleteCells, Erase, Term.Cells;
      match a {
        case Ech(n) => EraseChars(Arg(n));
        case Ich(n) => InsertChars(Arg(n));
        case Dch(n) => DeleteChars(Arg(n));
        case El(part) => EraseLine(part);
        case Ed(part) => EraseDisplay(part);
      }
    }

    method DispatchScroll(a: Action)
      requires Valid() && Scrolls(a)
      modifies this`cursor, screen
      ensures Valid() && State() == old(State()).Step(a)
    {
      hide Term.ReverseIndex, Term.ScrollUpN, Term.LinesEdit, Screen.ScrollUp, Screen.ScrollDown;
      match a {
        case Su(n) => ScrollUpN(Arg(n));
        case Sd(n) => ScrollDownN(Arg(n));
        case Il(n) => InsertLines(Arg(n));
        case Dl(n) => DeleteLines(Arg(n));
        case Ri => ReverseIndex();
      }
    }

    method DispatchSetting(a: Action)
      requires Valid() && !Moves(a) && !Edits(a) && !Scrolls(a)
      modifies this
      ensures Valid() && State() == old(State()).Step(a)
    {
      hide Term.SetRegion, Term.ModeSet, Term.Restored;
      match a {
        case Sgr(style) => cursor := cursor.(style := style.(guarded := cursor.style.guarded));
        case Decsca(on) => cursor := cursor.(style := cursor.style.(guarded := on));
        case Hyperlink(link) => cursor := cursor.(link := link);
        case Stbm(top, bot) => SetRegion(top, bot);
        case Decsc => SaveCursor();
        case Decrc => RestoreCursor();
        case SetMode(mode, on) => SetMode(mode, on);
        case Tbc => ClearTabs();
        case Hts => tabs := tabs[cursor.col := true];
      }
    }

    /** One control makes one step of the machine. */
    method Dispatch(a: Action)
      requires Valid()
      modifies this, screen
      ensures Valid() && State() == old(State()).Step(a)
    {
      hide Term.Step;
      if Moves(a) {
        DispatchMove(a);
      } else if Edits(a) {
        DispatchEdit(a);
      } else if Scrolls(a) {
        DispatchScroll(a);
      } else {
        DispatchSetting(a);
      }
    }

    /** A whole stream of controls runs the machine, so every theorem about
        `Run` is one about this terminal. */
    method Process(acts: seq<Action>)
      requires Valid()
      modifies this, screen
      ensures Valid() && State() == Run(old(State()), acts)
    {
      hide Term.Step;
      ghost var t := State();
      RunNone(t);
      assert acts[..0] == [];
      var i := 0;
      while i < |acts|
        invariant i <= |acts| && Valid()
        invariant State() == Run(t, acts[..i])
      {
        RunSnoc(t, acts[..i], acts[i]);
        assert acts[..i + 1] == acts[..i] + [acts[i]];
        Dispatch(acts[i]);
        i := i + 1;
      }
      assert acts[..i] == acts;
    }
  }
}
