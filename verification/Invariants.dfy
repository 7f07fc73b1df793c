// What every control keeps: wide pairs whole, marks on real cells, a pending
// wrap only in the last column. EL, ED and a wide character that does not fit
// keep the pairs exactly when they do not cut one.

module Invariants {
  import opened Cells
  import opened Machine

  predicate ScreenOk(s: Screen) {
    && s.Valid()
    && (forall i :: 0 <= i < |s.grid| ==> RowOk(s.grid[i].cells, s.cols))
    && (forall i :: 0 <= i < |s.sb| ==> RowOk(s.sb[i].cells, s.cols))
  }

  predicate CursorOk(c: Cursor, cols: nat) {
    c.pending ==> c.col == cols - 1
  }

  predicate WellFormed(t: Term) {
    && t.Valid()
    && ScreenOk(t.scr)
    && CursorOk(t.cur, t.scr.cols) && CursorOk(t.saved, t.scr.cols)
  }

  /** The control cuts a wide pair in two and leaves the halves in a row that
      the terminal keeps. */
  predicate Splits(t: Term, a: Action)
    requires t.Valid()
  {
    var here := t.Cells()[t.cur.col].width;
    match a
    case El(part) => (part == 0 && here == 0) || (part == 1 && here == 2)
    case Ed(part) => (part == 0 && here == 0) || (part == 1 && here == 2)
    case Print(Wide(_)) =>
      t.modes.autowrap &&
      (t.scr.cols == 1 ||
       (!t.cur.pending && t.cur.col == t.scr.cols - 1 && here == 0 && CutSurvives(t)))
    case _ => false
  }

  /** After a wrap off the cursor's row, that row still shows what was cut:
      it is on another line or in the ring, or the cursor could not leave it
      and the next write neither repairs it nor reaches its end. */
  predicate CutSurvives(t: Term)
    requires t.Valid()
  {
    if t.cur.row == t.bot then t.top < t.bot || (t.FullRegion() && t.scr.maxSb > 0)
    else t.cur.row + 1 < t.scr.rows || (!t.modes.insert && t.scr.cols >= 4)
  }

  // --- rows ---------------------------------------------------------------

  lemma BlankRowOk(cols: nat)
    ensures RowOk(BlankRow(cols).cells, cols)
  {
  }

  lemma RepairOk(cells: seq<Cell>)
    requires forall c :: 0 <= c < |cells| ==> CellOk(cells[c])
    ensures RowOk(Repair(cells), |cells|)
  {
    RepairPairs(cells);
  }

  lemma {:induction false} InsertCellsOk(cells: seq<Cell>, col: nat, n: nat)
    requires col < |cells| && forall c :: 0 <= c < |cells| ==> CellOk(cells[c])
    ensures forall c :: 0 <= c < |cells| ==> CellOk(InsertBlanks(cells, col, n)[c])
    decreases n
  {
    if n > 0 {
      InsertCellsOk(cells[..col] + [BLANK] + cells[col..|cells| - 1], col, n - 1);
    }
  }

  lemma {:induction false} DeleteCellsOk(cells: seq<Cell>, col: nat, n: nat)
    requires col < |cells| && forall c :: 0 <= c < |cells| ==> CellOk(cells[c])
    ensures forall c :: 0 <= c < |cells| ==> CellOk(DeleteCells(cells, col, n)[c])
    decreases n
  {
    if n > 0 {
      DeleteCellsOk(cells[..col] + cells[col + 1..] + [BLANK], col, n - 1);
    }
  }

  lemma WriteOk(cells: seq<Cell>, col: nat, g: Glyph, style: Style, link: nat)
    requires RowOk(cells, |cells|) && GlyphWidth(g) != 0 && col + GlyphWidth(g) <= |cells|
    ensures RowOk(WriteGlyph(cells, col, g, style, link), |cells|)
  {
    WriteKeepsPairs(cells, col, g, style, link);
  }

  /** Erasing `from..to` keeps a row's pairs whole exactly when neither end of
      the range falls inside a pair. */
  lemma EraseOk(cells: seq<Cell>, from: nat, to: nat)
    requires RowOk(cells, |cells|) && from < to <= |cells|
    ensures RowOk(Erase(cells, from, to), |cells|) <==>
            cells[from].width != 0 && cells[to - 1].width != 2
  {
    var r := Erase(cells, from, to);
    assert !Orphan(cells, from) && !Orphan(cells, to - 1);
    if cells[from].width == 0 {
      assert Orphan(r, from - 1);
    } else if cells[to - 1].width == 2 {
      assert Orphan(r, to);
    } else {
      assert to < |cells| ==> !Orphan(cells, to);
      assert from > 0 ==> !Orphan(cells, from - 1);
      forall c: nat | c < |r|
        ensures !Orphan(r, c)
      {
        assert !Orphan(cells, c);
      }
    }
  }

  // --- screens --------------------------------------------------------------

  lemma PushedOk(s: Screen, rs: seq<Row>)
    requires ScreenOk(s) && forall i :: 0 <= i < |rs| ==> RowOk(rs[i].cells, s.cols)
    ensures ScreenOk(s.Pushed(rs))
  {
    hide RowOk;
  }

  lemma ScrollUpOk(s: Screen, top: nat, bot: nat, n: nat, save: bool)
    requires ScreenOk(s)
    ensures ScreenOk(s.ScrollUp(top, bot, n, save))
  {
    hide RowOk;
    var b := Min(bot, s.rows - 1);
    if top <= b {
      var k := Max(Min(n, b - top + 1), 1);
      PushedOk(s, s.grid[top..top + k]);
      BlankRowOk(s.cols);
    }
  }

  lemma ScrollDownOk(s: Screen, top: nat, bot: nat, n: nat)
    requires ScreenOk(s)
    ensures ScreenOk(s.ScrollDown(top, bot, n))
  {
    hide RowOk;
    BlankRowOk(s.cols);
  }

  lemma SetRowOk(t: Term, row: nat, r: Row)
    requires WellFormed(t) && row < t.scr.rows && |r.cells| == t.scr.cols
    ensures WellFormed(t.SetRow(row, r)) <==> RowOk(r.cells, t.scr.cols)
    ensures t.SetRow(row, r).scr.grid[row] == r
  {
    var u := t.SetRow(row, r);
    assert u.scr.grid[row] == r;
  }

  lemma IndexOk(t: Term)
    requires WellFormed(t)
    ensures WellFormed(t.Index()) && !t.Index().cur.pending
  {
    ScrollUpOk(t.scr, t.top, t.bot, 1, t.FullRegion());
  }

  lemma WrapLineOk(t: Term)
    requires WellFormed(t)
    ensures WellFormed(t.WrapLine())
  {
    var u := t.SetRow(t.cur.row, t.scr.grid[t.cur.row].(wrapped := true));
    SetRowOk(t, t.cur.row, t.scr.grid[t.cur.row].(wrapped := true));
    IndexOk(u.At(u.cur.row, 0, false));
  }

  // --- printing ---------------------------------------------------------------

  lemma CombineOk(t: Term, g: Glyph)
    requires WellFormed(t) && g.Mark?
    ensures WellFormed(t.Combine(g))
  {
    if t.cur.pending || t.cur.col > 0 {
      var cells := t.Cells();
      var c := if t.cur.pending then t.cur.col else t.cur.col - 1;
      var k := if cells[c].width == 0 && c > 0 then c - 1 else c;
      assert !Orphan(cells, c);
      var r := cells[k := cells[k].(extra := cells[k].extra + [g])];
      forall x: nat | x < |r|
        ensures !Orphan(r, x)
      {
        assert !Orphan(cells, x);
      }
      assert RowOk(r, t.scr.cols);
      SetRowOk(t, t.cur.row, t.scr.grid[t.cur.row].(cells := r));
    }
  }

  lemma PlaceOk(t: Term, g: Glyph)
    requires WellFormed(t) && GlyphWidth(g) != 0 && t.cur.col + GlyphWidth(g) <= t.scr.cols
    ensures WellFormed(t.Place(g))
  {
    var w, cells := GlyphWidth(g), t.Cells();
    if t.modes.insert {
      InsertCellsOk(cells, t.cur.col, w);
      cells := Repair(InsertBlanks(cells, t.cur.col, w));
      RepairOk(InsertBlanks(t.Cells(), t.cur.col, w));
    }
    WriteOk(cells, t.cur.col, g, t.cur.style, t.cur.link);
    SetRowOk(t, t.cur.row, t.scr.grid[t.cur.row].(cells := WriteGlyph(cells, t.cur.col, g, t.cur.style, t.cur.link)));
  }

  lemma TakePendingOk(t: Term)
    requires WellFormed(t)
    ensures WellFormed(t.TakePending())
  {
    if t.cur.pending && t.modes.autowrap {
      WrapLineOk(t);
    }
  }

  /** Blanking the last cell before a wrap hurts only if a pair ended there. */
  lemma MakeRoomOk(t: Term, g: Glyph)
    requires WellFormed(t) && t.scr.cols >= 2 && t.Unfit(g) && t.modes.autowrap
    requires t.Cells()[t.cur.col].width != 0
    ensures WellFormed(t.MakeRoom(g)) && t.MakeRoom(g).cur.col == 0
  {
    var cells := t.Cells();
    EraseOk(cells, t.cur.col, t.cur.col + 1);
    assert !Orphan(cells, t.cur.col);
    assert cells[t.cur.col := BLANK] == Erase(cells, t.cur.col, t.cur.col + 1);
    SetRowOk(t, t.cur.row, t.scr.grid[t.cur.row].(cells := cells[t.cur.col := BLANK]));
    WrapLineOk(t.SetCells(cells[t.cur.col := BLANK]));
  }

  /** Where IND takes the cursor's row: one up, into the ring, or nowhere. */
  lemma IndexRows(t: Term)
    requires t.Valid()
    ensures t.cur.row == t.bot && t.top < t.bot ==>
              t.Index().cur.row == t.bot && t.Index().scr.grid[t.cur.row - 1] == t.scr.grid[t.cur.row]
    ensures t.cur.row == t.bot && t.FullRegion() && t.scr.rows == 1 && t.scr.maxSb > 0 ==>
              |t.Index().scr.sb| > 0 && t.Index().scr.sb[|t.Index().scr.sb| - 1] == t.scr.grid[0]
    ensures t.cur.row != t.bot && t.cur.row + 1 < t.scr.rows ==>
              t.Index().cur.row == t.cur.row + 1 && t.Index().scr == t.scr
  {
  }

  /** The row a wrap left, if the wrap left it: one up, or in the ring. */
  lemma WrappedRowKept(t: Term) returns (inRing: bool, i: nat)
    requires t.Valid() && CutSurvives(t) && (t.cur.row == t.bot || t.cur.row + 1 < t.scr.rows)
    ensures !inRing ==> i < t.scr.rows && i != t.WrapLine().cur.row && t.WrapLine().scr.grid[i].cells == t.Cells()
    ensures inRing ==> i < |t.WrapLine().scr.sb| && t.WrapLine().scr.sb[i].cells == t.Cells()
  {
    hide Term.Index;
    IndexRows(t.SetRow(t.cur.row, t.scr.grid[t.cur.row].(wrapped := true)).At(t.cur.row, 0, false));
    inRing, i := false, t.cur.row;
    if t.cur.row == t.bot {
      if t.top < t.bot {
        i := t.cur.row - 1;
      } else {
        inRing, i := true, |t.WrapLine().scr.sb| - 1;
      }
    }
  }

  /** An unfit wide print cuts the pair, wraps, and writes. */
  lemma UnfitPrint(t: Term, g: Glyph)
    requires t.Valid() && t.Unfit(g) && t.modes.autowrap && !t.cur.pending
    ensures t.PrintGlyph(g) == t.SetCells(t.Cells()[t.cur.col := BLANK]).WrapLine().Place(g)
  {
    assert t.TakePending() == t;
  }

  lemma StuckWrap(t: Term, cut: seq<Cell>)
    requires t.Valid() && t.cur.row != t.bot && t.cur.row + 1 >= t.scr.rows && |cut| == t.scr.cols
    ensures t.SetCells(cut).WrapLine() == t.SetRow(t.cur.row, Row(cut, true)).At(t.cur.row, 0, false)
  {
    assert t.SetCells(cut).SetRow(t.cur.row, Row(cut, true)).scr.grid == t.SetRow(t.cur.row, Row(cut, true)).scr.grid;
  }

  lemma UnfitSplits(t: Term, g: Glyph)
    requires WellFormed(t) && t.scr.cols >= 2 && t.Unfit(g) && t.modes.autowrap
    requires !t.cur.pending && t.Cells()[t.cur.col].width == 0
    ensures WellFormed(t.PrintGlyph(g)) <==> !CutSurvives(t)
  {
    hide Term.PrintGlyph, Term.Place, WellFormed, Term.Index;
    CursorRowOk(t);
    UnfitPrint(t, g);
    if t.cur.row != t.bot && t.cur.row + 1 >= t.scr.rows {
      var cut := t.Cells()[t.cur.col := BLANK];
      StuckWrap(t, cut);
      StuckPlace(t, t.SetCells(cut).WrapLine(), g, cut);
    } else if CutSurvives(t) {
      CutStays(t, g);
    } else {
      CutGone(t, g);
    }
  }

  lemma SameSurvival(t: Term, c: Term)
    requires t.Valid() && c.Valid() && c == t.(scr := t.scr.(grid := c.scr.grid))
    ensures CutSurvives(c) == CutSurvives(t)
  {
  }

  lemma CutStays(t: Term, g: Glyph)
    requires WellFormed(t) && t.scr.cols >= 2 && g.Wide? && t.cur.col == t.scr.cols - 1
    requires t.Cells()[t.cur.col].width == 0 && CutSurvives(t)
    requires t.cur.row == t.bot || t.cur.row + 1 < t.scr.rows
    ensures !WellFormed(t.SetCells(t.Cells()[t.cur.col := BLANK]).WrapLine().Place(g))
  {
    hide Term.WrapLine, Term.Place, CutSurvives;
    var cut := t.Cells()[t.cur.col := BLANK];
    CutRow(t.Cells());
    var c := t.SetCells(cut);
    assert c.Cells() == cut;
    SameSurvival(t, c);
    var inRing, i := WrappedRowKept(c);
    PlaceElsewhere(c.WrapLine(), g);
  }

  /** On a one-row screen without a ring the cut row is scrolled away. */
  lemma CutGone(t: Term, g: Glyph)
    requires WellFormed(t) && t.scr.cols >= 2 && g.Wide? && t.cur.row == t.bot && !CutSurvives(t)
    ensures WellFormed(t.SetCells(t.Cells()[t.cur.col := BLANK]).WrapLine().Place(g))
  {
    hide RowOk, ScreenOk;
    WrapLineOk(t);
    var u := t.SetCells(t.Cells()[t.cur.col := BLANK]).WrapLine();
    assert u.scr.grid == t.WrapLine().scr.grid;
    assert u == t.WrapLine();
    PlaceOk(u, g);
  }

  lemma CutRow(cells: seq<Cell>)
    requires RowOk(cells, |cells|) && |cells| >= 2 && cells[|cells| - 1].width == 0
    ensures var cut := cells[|cells| - 1 := BLANK];
            && Orphan(cut, |cells| - 2)
            && !RowOk(cut, |cells|)
            && forall c: nat :: c < |cells| - 2 ==> !Orphan(cut, c)
  {
    var cut := cells[|cells| - 1 := BLANK];
    assert !Orphan(cells, |cells| - 1);
    forall c: nat | c < |cells| - 2
      ensures !Orphan(cut, c)
    {
      assert !Orphan(cells, c);
    }
    assert Orphan(cut, |cells| - 2);
  }

  /** Placing a glyph touches the cursor's row alone. */
  lemma PlaceElsewhere(t: Term, g: Glyph)
    requires t.Valid() && GlyphWidth(g) != 0
    ensures t.Place(g).scr.sb == t.scr.sb
    ensures forall i :: 0 <= i < t.scr.rows && i != t.cur.row ==> t.Place(g).scr.grid[i] == t.scr.grid[i]
  {
  }

  /** A wide write at the start of a row whose last pair lost its spacer
      mends it only when the row is that short. */
  lemma StuckRow(cells: seq<Cell>, g: Glyph, style: Style, link: nat)
    requires RowOk(cells, |cells|) && |cells| >= 2 && cells[|cells| - 1].width == 0 && g.Wide?
    ensures RowOk(WriteGlyph(cells[|cells| - 1 := BLANK], 0, g, style, link), |cells|) <==> |cells| < 4
  {
    var n, cut := |cells|, cells[|cells| - 1 := BLANK];
    CutRow(cells);
    var r := WriteGlyph(cut, 0, g, style, link);
    assert !Orphan(cells, n - 1);
    if n >= 4 {
      assert !Orphan(cells, 1) && !Orphan(cells, 2);
      assert r[n - 2] == cut[n - 2] && r[n - 1] == BLANK;
      assert Orphan(r, n - 2);
    } else {
      assert r[0].width == 2 && r[1].width == 0 && (n == 3 ==> r[2] == BLANK);
      forall c: nat | c < n
        ensures !Orphan(r, c)
      {
      }
    }
  }

  /** The cursor is stuck on the cut row and the glyph goes to its start. */
  lemma StuckPlace(t: Term, u: Term, g: Glyph, cut: seq<Cell>)
    requires WellFormed(t) && t.scr.cols >= 2 && g.Wide? && t.cur.col == t.scr.cols - 1
    requires t.Cells()[t.cur.col].width == 0 && cut == t.Cells()[t.cur.col := BLANK]
    requires u == t.SetRow(t.cur.row, Row(cut, true)).At(t.cur.row, 0, false)
    ensures WellFormed(u.Place(g)) <==> t.modes.insert || t.scr.cols < 4
  {
    var cells := if t.modes.insert then Repair(InsertBlanks(cut, 0, 2)) else cut;
    var r := WriteGlyph(cells, 0, g, u.cur.style, u.cur.link);
    if t.modes.insert {
      InsertCellsOk(cut, 0, 2);
      RepairOk(InsertBlanks(cut, 0, 2));
      WriteOk(cells, 0, g, u.cur.style, u.cur.link);
    } else {
      StuckRow(t.Cells(), g, u.cur.style, u.cur.link);
    }
    StuckTerm(t, u, g, r);
  }

  lemma StuckTerm(t: Term, u: Term, g: Glyph, r: seq<Cell>)
    requires WellFormed(t) && GlyphWidth(g) != 0
    requires u.Valid() && |r| == t.scr.cols && u.Place(g).scr == t.SetRow(t.cur.row, Row(r, true)).scr
    requires u.saved == t.saved
    ensures WellFormed(u.Place(g)) <==> RowOk(r, t.scr.cols)
  {
    SetRowOk(t, t.cur.row, Row(r, true));
  }

  lemma OneColumn(t: Term, g: Glyph)
    requires t.Valid() && t.scr.cols == 1 && g.Wide?
    ensures !WellFormed(t.Place(g))
  {
    var v := t.Place(g);
    assert Orphan(v.Cells(), 0);
    assert !RowOk(v.scr.grid[v.cur.row].cells, 1);
  }

  lemma PrintOk(t: Term, g: Glyph)
    requires WellFormed(t)
    ensures WellFormed(t.PrintGlyph(g)) <==> !Splits(t, Print(g))
  {
    hide Term.Combine, Term.Place, Term.MakeRoom, Term.TakePending, ScreenOk, CursorOk, CutSurvives;
    if GlyphWidth(g) == 0 {
      CombineOk(t, g);
      return;
    }
    TakePendingOk(t);
    TakePendingCol(t);
    var u := t.TakePending();
    if !u.Unfit(g) {
      Fits(u, g);
      PlaceOk(u, g);
    } else if u.scr.cols == 1 {
      if u.modes.autowrap {
        OneColumn(u.MakeRoom(g), g);
      }
    } else if !u.modes.autowrap {
      BackUp(u, g);
      PlaceOk(u.MakeRoom(g), g);
    } else if t.Cells()[t.cur.col].width == 0 {
      UnfitSplits(t, g);
    } else {
      MakeRoomOk(u, g);
      PlaceOk(u.MakeRoom(g), g);
    }
  }

  lemma Fits(t: Term, g: Glyph)
    requires t.Valid() && !t.Unfit(g)
    ensures t.MakeRoom(g) == t
  {
  }

  lemma BackUp(t: Term, g: Glyph)
    requires WellFormed(t) && t.Unfit(g) && !t.modes.autowrap && t.scr.cols >= 2 && !t.cur.pending
    ensures WellFormed(t.MakeRoom(g)) && t.MakeRoom(g).cur.col + 2 == t.scr.cols
  {
  }

  lemma TakePendingCol(t: Term)
    requires t.Valid()
    ensures !t.TakePending().cur.pending && t.TakePending().modes == t.modes
    ensures if t.cur.pending && t.modes.autowrap then t.TakePending().cur.col == 0
            else t.TakePending() == t.(cur := t.cur.(pending := false))
  {
  }

  // --- erasing and editing ----------------------------------------------------

  lemma CursorRowOk(t: Term)
    requires WellFormed(t)
    ensures t.Valid() && RowOk(t.Cells(), t.scr.cols)
  {
  }

  lemma CursorQuiet(t: Term)
    requires WellFormed(t)
    ensures WellFormed(t.(cur := t.cur.(pending := false)))
  {
  }

  lemma EraseLineOk(t: Term, part: nat)
    requires WellFormed(t)
    ensures WellFormed(t.EraseLine(part)) <==> !Splits(t, El(part))
    ensures Splits(t, El(part)) ==> !RowOk(t.EraseLine(part).scr.grid[t.cur.row].cells, t.scr.cols)
  {
    hide WellFormed, Term.SetRow;
    CursorRowOk(t);
    CursorQuiet(t);
    var cells, u := t.Cells(), t.(cur := t.cur.(pending := false));
    assert !Orphan(cells, 0) && !Orphan(cells, t.scr.cols - 1);
    var from := if part == 0 then t.cur.col else 0;
    var to := if part == 1 then t.cur.col + 1 else t.scr.cols;
    if part <= 2 {
      EraseOk(cells, from, to);
      SetRowOk(u, t.cur.row, Row(Erase(cells, from, to), part == 1 && t.scr.grid[t.cur.row].wrapped));
    }
  }

  lemma EraseDisplayOk(t: Term, part: nat)
    requires WellFormed(t)
    ensures WellFormed(t.EraseDisplay(part)) <==> !Splits(t, Ed(part))
  {
    BlankRowOk(t.scr.cols);
    EraseLineOk(t, part);
    var u := t.EraseDisplay(part);
    if part <= 1 {
      assert u.scr.grid[t.cur.row] == t.EraseLine(part).scr.grid[t.cur.row];
      if Splits(t, Ed(part)) {
        assert !RowOk(u.scr.grid[t.cur.row].cells, t.scr.cols);
      }
    }
  }

  lemma EditOk(t: Term, cells: seq<Cell>)
    requires WellFormed(t) && |cells| == t.scr.cols
    requires forall c :: 0 <= c < |cells| ==> CellOk(cells[c])
    ensures WellFormed(t.Edited(cells))
  {
    RepairOk(cells);
    SetRowOk(t, t.cur.row, t.scr.grid[t.cur.row].(cells := Repair(cells)));
  }

  // --- every control, every run -------------------------------------------------

  lemma RowCells(cells: seq<Cell>, cols: nat)
    requires RowOk(cells, cols)
    ensures |cells| == cols && forall c :: 0 <= c < |cells| ==> CellOk(cells[c])
  {
  }

  /** Controls that leave every row alone. */
  lemma QuietOk(t: Term, a: Action)
    requires WellFormed(t)
    requires a.Cr? || a.Bs? || a.Cup? || a.Cuu? || a.Cha? || a.Sgr? || a.Decsca? || a.Hyperlink?
             || a.Stbm? || a.Decsc? || a.Decrc? || a.SetMode? || a.Tbc? || a.Hts?
    ensures WellFormed(t.Step(a))
  {
    assert t.Step(a).scr == t.scr;
  }

  lemma ScrollingOk(t: Term, a: Action)
    requires WellFormed(t)
    requires a.Su? || a.Sd? || a.Il? || a.Dl? || a.Ri? || a.Lf?
    ensures WellFormed(t.Step(a))
  {
    hide ScreenOk, Screen.ScrollUp, Screen.ScrollDown, Term.Index;
    match a
    case Lf => IndexOk(t);
    case Su(n) => ScrollUpOk(t.scr, t.top, t.bot, Arg(n), t.FullRegion());
    case Sd(n) => ScrollDownOk(t.scr, t.top, t.bot, Arg(n));
    case Il(n) => ScrollDownOk(t.scr, t.cur.row, t.bot, Arg(n));
    case Dl(n) => ScrollUpOk(t.scr, t.cur.row, t.bot, Arg(n), false);
    case Ri => ScrollDownOk(t.scr, t.top, t.bot, 1);
  }

  lemma EditingOk(t: Term, a: Action)
    requires WellFormed(t)
    requires a.Ech? || a.Ich? || a.Dch?
    ensures WellFormed(t.Step(a))
  {
    hide ScreenOk, Term.Edited, RowOk;
    CursorRowOk(t);
    RowCells(t.Cells(), t.scr.cols);
    match a
    case Ech(n) => EditOk(t, Erase(t.Cells(), t.cur.col, t.cur.col + Arg(n)));
    case Ich(n) =>
      InsertCellsOk(t.Cells(), t.cur.col, Min(Arg(n), t.scr.cols));
      EditOk(t, InsertBlanks(t.Cells(), t.cur.col, Min(Arg(n), t.scr.cols)));
    case Dch(n) =>
      DeleteCellsOk(t.Cells(), t.cur.col, Min(Arg(n), t.scr.cols));
      EditOk(t, DeleteCells(t.Cells(), t.cur.col, Min(Arg(n), t.scr.cols)));
  }

  /** A control keeps a well-formed terminal well formed if and only if it does
      not cut a wide pair. */
  lemma StepKeepsWellFormed(t: Term, a: Action)
    requires WellFormed(t)
    ensures WellFormed(t.Step(a)) <==> !Splits(t, a)
  {
    hide WellFormed, Term.PrintGlyph, Term.EraseLine, Term.EraseDisplay, CutSurvives;
    match a
    case Print(g) => PrintOk(t, g);
    case El(part) => EraseLineOk(t, part);
    case Ed(part) => EraseDisplayOk(t, part);
    case Ech(_) => EditingOk(t, a);
    case Ich(_) => EditingOk(t, a);
    case Dch(_) => EditingOk(t, a);
    case Su(_) => ScrollingOk(t, a);
    case Sd(_) => ScrollingOk(t, a);
    case Il(_) => ScrollingOk(t, a);
    case Dl(_) => ScrollingOk(t, a);
    case Ri => ScrollingOk(t, a);
    case Lf => ScrollingOk(t, a);
    case _ => QuietOk(t, a);
  }

  /** No control of the run cuts a pair. */
  predicate NeverSplits(t: Term, acts: seq<Action>)
    requires t.Valid()
    decreases |acts|
  {
    acts == [] ||
    (NeverSplits(t, acts[..|acts| - 1]) && !Splits(Run(t, acts[..|acts| - 1]), acts[|acts| - 1]))
  }

  /** Safety over whole runs. */
  lemma {:induction false} RunKeepsWellFormed(t: Term, acts: seq<Action>)
    requires WellFormed(t) && NeverSplits(t, acts)
    ensures WellFormed(Run(t, acts))
    decreases |acts|
  {
    if acts != [] {
      RunKeepsWellFormed(t, acts[..|acts| - 1]);
      StepKeepsWellFormed(Run(t, acts[..|acts| - 1]), acts[|acts| - 1]);
    }
  }
}
