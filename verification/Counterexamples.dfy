// Inputs on which the source does less than its comments say. The lemmas whose
// exact conditions these inputs break are named with each.

module Counterexamples {
  import opened Wrappers
  import opened Bytes
  import opened Wire
  import F = Frames
  import opened Cells
  import opened Machine
  import opened Printing
  import opened Invariants
  import opened Display
  import opened NewFrame
  import opened Dump
  import opened Frame
  import Replay
  import Resize
  import opened Reflow
  import opened Rewrap
  import opened Relines

  const LETTER := Cell(Narrow(7), DEFAULT_STYLE, 1, [], 0)
  const MARKED := LETTER.(extra := [Mark(9)])
  const HEAD := Cell(Wide(7), DEFAULT_STYLE, 2, [], 0)

  function Line(cells: seq<Cell>): Row {
    Row(cells, false)
  }

  /** A terminal with the given rows, the cursor where asked. */
  function Showing(grid: seq<Row>, cols: nat, sb: seq<Row>, row: nat, col: nat): Term
    requires grid != [] && cols >= 1
  {
    Term(Screen(|grid|, cols, grid, sb, |sb|, 0), HOME.(row := row, col := col), HOME, false,
         DEFAULT_MODES, 0, |grid| - 1, DefaultTabs(cols))
  }

  /** EL behind a wide character on two columns, the cursor being on its second half,
      leaves the first half alone (`Invariants.StepKeepsWellFormed`). */
  lemma EraseSplits(t: Term)
    requires t == FreshTerm(1, 2, 0)
    ensures var u := Run(t, [Print(Wide(7))]); WellFormed(u) && Splits(u, El(0)) && !WellFormed(u.Step(El(0)))
  {
    hide Run;
    RunOne(t, Print(Wide(7)));
    WideTyped(t);
    hide FreshTerm, Term.Step, WellFormed;
    var u := Typed([HEAD, SPACER], 1, true);
    WholePair();
    StepKeepsWellFormed(u, El(0));
  }

  lemma WideTyped(t: Term)
    requires t == FreshTerm(1, 2, 0)
    ensures t.Step(Print(Wide(7))) == Typed([HEAD, SPACER], 1, true)
  {
    var cells := [BLANK, BLANK];
    TypedFresh(2);
    assert BlankCells(2) == cells;
    assert WriteGlyph(cells, 0, Wide(7), DEFAULT_STYLE, 0) == [HEAD, SPACER];
    assert t.scr.grid[0 := Line([HEAD, SPACER])] == [Line([HEAD, SPACER])];
  }

  lemma WholePair()
    ensures var u := Typed([HEAD, SPACER], 1, true); WellFormed(u) && Splits(u, El(0))
  {
    assert RowOk(Typed([HEAD, SPACER], 1, true).scr.grid[0].cells, 2);
  }

  /** A picture of one row, the cursor in its last column. */
  function Picture(cells: seq<Cell>): Snapshot
    requires cells != []
  {
    Snapshot(1, |cells|, [cells], [false], 0, |cells| - 1, true, map[])
  }

  /** Two letters typed on a blank row of two: the frame leaves the cursor one
      column short (`NewFrame.NewFrameOpt`). */
  lemma FrameFallsShort()
    ensures var last, f := Picture([BLANK, BLANK]), Picture([LETTER, LETTER]);
            last.Valid() && f.Valid() && Short(true, last, f, false)
  {
    var last, f := Picture([BLANK, BLANK]), Picture([LETTER, LETTER]);
    assert RowOk(last.cells[0], 2) && RowOk(f.cells[0], 2);
    var p := PlanOf(true, last, f, false);
    assert EndsPrinted(f, f.cells[0], false, last.cells[0], true, 1, 0);
    assert Ends(f, 0, p.model[0], true, WrapsInto(f, p, true, 0));
    assert EdgeUpTo(f, p, true, 1) == 0;
  }

  /** Print in the last column, DECSC, autowrap off, DECRC. */
  const LOSE_WRAP := [Print(Narrow(7)), Decsc, SetMode(Autowrap, false), Decrc]

  /** One linked letter, its id naming another URI than before: nothing is drawn and
      the old link stays (`NewFrame.NewFrameOpt`). */
  lemma OldLinkStays()
    ensures var cells := [LETTER.(link := 1)];
            var last, f := Picture(cells).(links := map[1 := 5]), Picture(cells).(links := map[1 := 6]);
            last.Valid() && f.Valid() && Stale(true, last, f, false)
  {
    var cells := [LETTER.(link := 1)];
    var last, f := Picture(cells).(links := map[1 := 5]), Picture(cells).(links := map[1 := 6]);
    assert RowOk(last.cells[0], 1);
    var p := PlanOf(true, last, f, false);
    assert Skips(f.cells[0], p.model[0], true, 0, 0, 0);
    assert InPicture(f, 0, 0) && Untouched(f, p, true, 0, 0);
    assert StaleIn(last, f, p, true);
  }

  /** DECRC brings a pending wrap back after autowrap went off, and printing does
      not arm it again (`Replay.DumpVtTail`). */
  lemma WrapNotRearmed(t: Term)
    requires CanDraw(t, LETTER) && !t.cur.pending && t.cur.col + 1 == t.scr.cols
    ensures Run(t, LOSE_WRAP).cur.pending && !Rearmable(Run(t, LOSE_WRAP))
  {
    hide Run, Term.Step, CanDraw;
    PrintArms(t);
    RunFour(t, Print(Narrow(7)), Decsc, SetMode(Autowrap, false), Decrc);
    SavedBack(t.Step(Print(Narrow(7))));
  }

  /** One such run, on a terminal of one cell. */
  lemma WrapLost()
    ensures var s := Run(FreshTerm(1, 1, 0), LOSE_WRAP); s.cur.pending && !Rearmable(s)
  {
    hide Run, CanDraw;
    FreshDraws();
    WrapNotRearmed(FreshTerm(1, 1, 0));
  }

  lemma PrintArms(t: Term)
    requires CanDraw(t, LETTER) && !t.cur.pending && t.cur.col + 1 == t.scr.cols
    ensures t.Valid() && t.Step(Print(Narrow(7))).cur == t.cur.(pending := true)
  {
    hide Term.Step, PutCell, Term.Valid, CellOk;
    DrawHead(t, LETTER);
  }

  /** A fresh terminal of one cell is such a one. */
  lemma FreshDraws()
    ensures CanDraw(FreshTerm(1, 1, 0), LETTER)
  {
    hide BlankRows, DefaultTabs;
  }

  /** After DECSC, autowrap off and DECRC the terminal is as before, but for the
      mode and what is saved. */
  lemma SavedBack(t: Term)
    requires t.Valid() && t.cur.pending
    ensures var u := t.Step(Decsc).Step(SetMode(Autowrap, false)).Step(Decrc); u.cur.pending && !u.modes.autowrap
    ensures !t.modes.origin ==>
              t.Step(Decsc).Step(SetMode(Autowrap, false)).Step(Decrc) ==
              t.(saved := t.cur, savedOrigin := false, modes := t.modes.(autowrap := false))
  {
  }

  // --- sources whose replays differ from them -------------------------------------------

  /** `u` replayed `s` with `k` ring rows, on `h` rows. */
  predicate ReplayOn(u: Term, s: Term, k: nat, h: nat) {
    Dumpable(s) && k <= |s.scr.sb| && Replayed(u, s, k) && u.scr.rows == h
  }

  predicate RowShows(t: Term, y: nat, cells: seq<Cell>) {
    y < |t.scr.grid| && ShownRow(t.scr.grid[y].cells) == cells
  }

  /** A terminal of one row, as letters typed on it leave it. */
  function Typed(cells: seq<Cell>, col: nat, pending: bool): Term
    requires cells != []
  {
    var t := Showing([Line(cells)], |cells|, [], 0, col);
    t.(cur := t.cur.(pending := pending))
  }

  predicate Narrows(cells: seq<Cell>) {
    forall x :: 0 <= x < |cells| ==> cells[x].width == 1 && CellOk(cells[x])
  }

  lemma TypedFresh(n: nat)
    requires n >= 1
    ensures FreshTerm(1, n, 0) == Typed(BlankCells(n), 0, false) && Narrows(BlankCells(n))
  {
    assert BlankRows(1, n) == [Line(BlankCells(n))];
  }

  lemma TypedOk(cells: seq<Cell>, col: nat, pending: bool)
    requires Narrows(cells) && col < |cells| && (pending ==> col == |cells| - 1)
    ensures Dumpable(Typed(cells, col, pending))
  {
    assert RowOk(Typed(cells, col, pending).scr.grid[0].cells, |cells|);
  }

  lemma TypedLetter(cells: seq<Cell>, col: nat)
    requires Narrows(cells) && col < |cells|
    ensures var next := cells[col := LETTER];
            && Narrows(next) && Typed(cells, col, false).Valid()
            && Typed(cells, col, false).Step(Print(Narrow(7))) ==
               if col + 1 < |cells| then Typed(next, col + 1, false) else Typed(next, col, true)
  {
    var t := Typed(cells, col, false);
    assert WriteGlyph(cells, col, Narrow(7), DEFAULT_STYLE, 0) == cells[col := LETTER];
    assert t.scr.grid[0 := Line(cells[col := LETTER])] == [Line(cells[col := LETTER])];
  }

  lemma TypedMark(cells: seq<Cell>, col: nat)
    requires Narrows(cells) && col < |cells|
    ensures var next := cells[col := cells[col].(extra := cells[col].extra + [Mark(9)])];
            && Narrows(next) && Typed(cells, col, true).Valid()
            && Typed(cells, col, true).Step(Print(Mark(9))) == Typed(next, col, true)
  {
    var t := Typed(cells, col, true);
    var next := cells[col := cells[col].(extra := cells[col].extra + [Mark(9)])];
    assert t.scr.grid[0 := Line(next)] == [Line(next)];
  }

  /** Letters typed one after the other. */
  lemma TypedTwo(t: Term)
    requires t == FreshTerm(1, 2, 0)
    ensures Run(t, [Print(Narrow(7)), Print(Narrow(7))]) == Typed([LETTER, LETTER], 1, true)
  {
    hide Run, Term.Step, FreshTerm, Typed;
    TypedFresh(2);
    assert BlankCells(2) == [BLANK, BLANK] && [BLANK, BLANK][0 := LETTER] == [LETTER, BLANK];
    assert [LETTER, BLANK][1 := LETTER] == [LETTER, LETTER];
    TypedLetter([BLANK, BLANK], 0);
    TypedLetter([LETTER, BLANK], 1);
    RunTwo(t, Print(Narrow(7)), Print(Narrow(7)));
  }

  /** Two letters and a mark on two columns, then DECSC, autowrap off and DECRC. */
  const LOSE_MARK := [Print(Narrow(7)), Print(Narrow(7)), Print(Mark(9)), Decsc, SetMode(Autowrap, false), Decrc]

  function MarkLost(): (s: Term)
    ensures Dumpable(s)
  {
    TypedOk([LETTER, MARKED], 1, true);
    var t := Typed([LETTER, MARKED], 1, true);
    t.(saved := t.cur, modes := DEFAULT_MODES.(autowrap := false))
  }

  lemma MarkLostReached(t: Term)
    requires t == FreshTerm(1, 2, 0)
    ensures Run(t, LOSE_MARK) == MarkLost()
  {
    hide Run, Term.Step, FreshTerm, Typed;
    var a, b := [Print(Narrow(7)), Print(Narrow(7))], [Print(Mark(9)), Decsc, SetMode(Autowrap, false), Decrc];
    TypedTwo(t);
    TypedMark([LETTER, LETTER], 1);
    assert [] + [Mark(9)] == [Mark(9)];
    assert [LETTER, LETTER][1 := MARKED] == [LETTER, MARKED];
    RunAppend(t, a, b);
    assert a + b == LOSE_MARK;
    RunFour(Typed([LETTER, LETTER], 1, true), b[0], b[1], b[2], b[3]);
    TypedSaved([LETTER, MARKED], 1);
  }

  lemma TypedSaved(cells: seq<Cell>, col: nat)
    requires Narrows(cells) && col < |cells|
    ensures var t := Typed(cells, col, true);
            && t.Valid()
            && t.Step(Decsc).Step(SetMode(Autowrap, false)).Step(Decrc) ==
               t.(saved := t.cur, modes := DEFAULT_MODES.(autowrap := false))
  {
    SavedBack(Typed(cells, col, true));
  }

  /** A run whose last cell carries a mark and the pen's own link: every replay on a
      terminal of that height has the mark on the left neighbour (`Mirror.GridKept`). */
  lemma MarkMoves(t: Term, u: Term)
    requires t == FreshTerm(1, 2, 0) && ReplayOn(u, MarkLost(), 0, 1)
    ensures Run(t, LOSE_MARK) == MarkLost() && MARKED.link == MarkLost().cur.link
    ensures RowShows(MarkLost(), 0, [LETTER, MARKED]) && RowShows(u, 0, [MARKED, LETTER])
  {
    hide Run, FreshTerm, Replayed, ShownRow, Dumpable, Reprinted, ImageRow;
    MarkLostReached(t);
    MarkReprinted();
    RowImage(MarkLost(), [LETTER, MARKED]);
    RowReplayed(u, MarkLost());
  }

  /** One row replayed on one row is its image. */
  lemma RowReplayed(u: Term, s: Term)
    requires Dumpable(s) && s.scr.rows == 1 && Replayed(u, s, 0) && u.scr.rows == 1
    ensures |u.scr.grid| == 1 && ShownRow(u.scr.grid[0].cells) == ImageRow(s, 1, 0, 0)
  {
    hide ImageRow, ImageWrap, CursorRow, ScreenOk;
  }

  /** The image of one row of narrow cells with the cursor behind the last one. */
  lemma RowImage(s: Term, cells: seq<Cell>)
    requires Dumpable(s) && s.scr.grid == [Line(cells)] && Narrows(cells) && s.scr.rows == 1 && s.scr.cols == |cells|
    requires s.cur.row == 0 && s.cur.col == |cells| - 1 && s.cur.pending
    ensures ImageRow(s, 1, 0, 0) ==
            Reprinted(ShownRow(cells), |cells| - 1, cells[|cells| - 1].(link := s.cur.link), s.modes.autowrap)
  {
    hide ScreenOk, Reprinted, ShownRow;
    assert FlowRows(s, 0)[0] == Line(cells);
    assert CursorRow(s, 1, 0) == 0;
  }

  lemma MarkReprinted()
    ensures ShownRow([LETTER, MARKED]) == [LETTER, MARKED]
    ensures Reprinted(ShownRow([LETTER, MARKED]), 1, MARKED, false) == [MARKED, LETTER]
  {
    assert ShownRow([LETTER, MARKED]) == [LETTER, MARKED];
    assert Redrawn([LETTER, MARKED], 1, LETTER) == [LETTER, LETTER];
    assert [] + [Mark(9)] == [Mark(9)];
  }

  /** A letter on one column, then a link opened. */
  const LINK_PEN := [Print(Narrow(7)), Hyperlink(5)]

  function PenLinked(): (s: Term)
    ensures Dumpable(s)
  {
    TypedOk([LETTER], 0, true);
    var t := Typed([LETTER], 0, true);
    t.(cur := t.cur.(link := 5))
  }

  lemma PenLinkedReached(t: Term)
    requires t == FreshTerm(1, 1, 0)
    ensures Run(t, LINK_PEN) == PenLinked()
  {
    hide Run, Term.Step, FreshTerm, Typed;
    TypedFresh(1);
    assert BlankCells(1) == [BLANK] && [BLANK][0 := LETTER] == [LETTER];
    TypedLetter([BLANK], 0);
    TypedOk([LETTER], 0, true);
    StepLink(Typed([LETTER], 0, true), 5);
    RunTwo(t, Print(Narrow(7)), Hyperlink(5));
  }

  /** A run whose last cell was printed without a link: every replay on a terminal of
      that height has it with the pen's link, since printing it has to arm the
      pending wrap (`Mirror.GridKept`). */
  lemma PenLinksCell(t: Term, u: Term)
    requires t == FreshTerm(1, 1, 0) && ReplayOn(u, PenLinked(), 0, 1)
    ensures Run(t, LINK_PEN) == PenLinked()
    ensures RowShows(PenLinked(), 0, [LETTER]) && RowShows(u, 0, [LETTER.(link := 5)])
  {
    hide Run, FreshTerm, Replayed, ShownRow, Dumpable, Reprinted, ImageRow;
    PenLinkedReached(t);
    LinkReprinted();
    RowImage(PenLinked(), [LETTER]);
    RowReplayed(u, PenLinked());
  }

  lemma LinkReprinted()
    ensures ShownRow([LETTER]) == [LETTER]
    ensures Reprinted(ShownRow([LETTER]), 0, LETTER.(link := 5), true) == [LETTER.(link := 5)]
  {
    assert ShownRow([LETTER]) == [LETTER];
    assert Redrawn([LETTER], 0, LETTER.(link := 5)) == [LETTER.(link := 5)];
  }

  /** On three rows and two columns: one line scrolled off, a region of the two upper
      rows, origin mode, and a letter on the lower of them. */
  const SET_ORIGIN := [Cup(3, 1), Lf, Stbm(1, 2), SetMode(Origin, true), Cup(2, 1), Print(Narrow(7))]

  function OriginSet(): (s: Term)
    ensures Dumpable(s)
  {
    var blank := BlankRow(2);
    BlankRowOk(2);
    assert RowOk([LETTER, BLANK], 2);
    Term(Screen(3, 2, [blank, Line([LETTER, BLANK]), blank], [blank], 1, 1), HOME.(row := 1, col := 1), HOME, false,
         DEFAULT_MODES.(origin := true), 0, 1, DefaultTabs(2))
  }

  /** Three rows, the upper one on the ring, and where the cursor stands. */
  function Scrolled3(row: nat, bot: nat, origin: bool): Term {
    var blank := BlankRow(2);
    Term(Screen(3, 2, [blank, blank, blank], [blank], 1, 1), HOME.(row := row), HOME, false,
         DEFAULT_MODES.(origin := origin), 0, bot, DefaultTabs(2))
  }

  lemma LineScrolled(t: Term)
    requires t == FreshTerm(3, 2, 1)
    ensures t.Step(Cup(3, 1)).Step(Lf) == Scrolled3(2, 2, false)
  {
    hide BlankCells, DefaultTabs;
    StepCup(t, 2, 0);
    assert t.scr.grid == [BlankRow(2), BlankRow(2), BlankRow(2)];
    var u := t.At(2, 0, false);
    assert u.scr.grid[..0] + u.scr.grid[1..3] + BlankRows(1, 2) + u.scr.grid[3..] == [BlankRow(2), BlankRow(2), BlankRow(2)];
    assert u.scr.sb + u.scr.grid[0..1] == [BlankRow(2)];
  }

  lemma OriginSetReached(t: Term)
    requires t == FreshTerm(3, 2, 1)
    ensures Run(t, SET_ORIGIN) == OriginSet()
  {
    hide Run, Term.Step, FreshTerm;
    var a, b := [Cup(3, 1), Lf], [Stbm(1, 2), SetMode(Origin, true), Cup(2, 1), Print(Narrow(7))];
    LineScrolled(t);
    RunTwo(t, Cup(3, 1), Lf);
    RunAppend(t, a, b);
    assert a + b == SET_ORIGIN;
    RunFour(Scrolled3(2, 2, false), b[0], b[1], b[2], b[3]);
    RegionSet();
    LetterBelow();
  }

  lemma RegionSet()
    ensures var t := Scrolled3(2, 2, false);
            t.Valid() && t.Step(Stbm(1, 2)).Step(SetMode(Origin, true)).Step(Cup(2, 1)) == Scrolled3(1, 1, true)
  {
    hide BlankCells, DefaultTabs, Term.Step;
    StepStbm(Scrolled3(2, 2, false), 0, 1);
    OriginOn(Scrolled3(0, 1, false));
    Replay.StepCupAny(Scrolled3(0, 1, true), 1, 0);
  }

  lemma OriginOn(t: Term)
    requires t.Valid() && t.top == 0 && t.cur.row == 0 && t.cur.col == 0 && !t.cur.pending
    ensures t.Step(SetMode(Origin, true)) == t.(modes := t.modes.(origin := true))
  {
  }

  lemma LetterBelow()
    ensures Scrolled3(1, 1, true).Valid() && Scrolled3(1, 1, true).Step(Print(Narrow(7))) == OriginSet()
  {
    hide DefaultTabs;
    var t, cells := Scrolled3(1, 1, true), [BLANK, BLANK];
    assert BlankCells(2) == cells;
    assert WriteGlyph(cells, 0, Narrow(7), DEFAULT_STYLE, 0) == cells[0 := LETTER] == [LETTER, BLANK];
    assert t.scr.grid[1 := Line([LETTER, BLANK])] == OriginSet().scr.grid;
  }

  /** The letter is on the third of four rows, and the cursor that stood behind it on
      the second (`Mirror.CursorOnItsLine`). */
  lemma OriginMovesCursor(t: Term, u: Term)
    requires t == FreshTerm(3, 2, 1) && ReplayOn(u, OriginSet(), 1, 4)
    ensures Run(t, SET_ORIGIN) == OriginSet()
    ensures RowShows(OriginSet(), OriginSet().cur.row, [LETTER, BLANK]) && RowShows(u, 2, [LETTER, BLANK])
    ensures RowShows(u, u.cur.row, [BLANK, BLANK]) && u.cur.row == 1
  {
    hide Run, FreshTerm;
    OriginSetReached(t);
    var s := OriginSet();
    assert ShownRow(s.Cells()) == [LETTER, BLANK];
    assert FlowRows(s, 1)[2] == Line([LETTER, BLANK]) && FlowRows(s, 1)[1] == BlankRow(2);
    assert BaseRow(s, 4, 1, 2) == [LETTER, BLANK] && BaseRow(s, 4, 1, 1) == [BLANK, BLANK];
  }

  /** Shrinking to one row with the cursor on the upper of two full ones pushes
      the cursor's own row off the screen (`Resize.CursorRowKept`). */
  lemma ShrinkLosesCursorRow()
    ensures var a, b := Line([LETTER]), Line([LETTER.(ch := Narrow(8))]);
            Resize.Shrunk(Resize.Body([a, b], [], 0, 0), 9, 1, true) == Resize.Body([b], [a], 1, 0)
  {
    var a, b := Line([LETTER]), Line([LETTER.(ch := Narrow(8))]);
    var s := Resize.Body([a, b], [], 0, 0);
    assert !IsSkippable(s.grid[1].cells[0]);
    assert !Resize.DropsBottom(s);
    assert Resize.PushRow(s, 9) == Resize.Body([b], [a], 1, 0);
  }

  lemma OtherModes(u: Term, s: Term)
    requires Dumpable(s) && u.modes != s.modes
    ensures !Replayed(u, s, 0)
  {
    hide ScreenOk, ImageRow, ImageWrap, CursorRow, RegionOf;
  }

  lemma OneCell()
    ensures Dumpable(FreshTerm(1, 1, 0))
  {
    BlankRowOk(1);
    assert FreshTerm(1, 1, 0).scr.grid[0] == BlankRow(1);
  }

  /** Any source with LNM on: no terminal that a screen switch leaves with LNM off
      is a replay of it (`Repaint.DumpScreenSwitch`). */
  lemma SwitchDropsLnm(t: Term, u: Term)
    requires Dumpable(t) && !u.modes.lnm
    ensures var s := t.Step(SetMode(Lnm, true)); Dumpable(s) && !Replayed(u, s, 0)
  {
    hide Replayed, ScreenOk;
    var s := t.(modes := t.modes.(lnm := true));
    assert t.Step(SetMode(Lnm, true)) == s;
    OtherModes(u, s);
  }

  /** A target with a hidden cursor: the attach replay of a source that shows its
      cursor leaves it hidden (`Repaint.DumpVtFlat`). */
  lemma CursorStaysHidden(u: Term)
    requires u.modes == DEFAULT_MODES.(visible := false)
    ensures Dumpable(FreshTerm(1, 1, 0)) && !Replayed(u, FreshTerm(1, 1, 0), 0)
  {
    OneCell();
    OtherModes(u, FreshTerm(1, 1, 0));
  }

  /** A letter and a wide character (its spacer trimmed off the line's end) rewrapped
      to two columns: the padding behind the letter reads back as a cell of the line
      (`Reread.ReadsBack`). */
  lemma PaddingStays()
    ensures var line := [LETTER, HEAD];
            && LineOk(line) && LineRows(line, 2) == [[LETTER, BLANK], [HEAD, SPACER]]
            && Trimmed(Joined(LineRows(line, 2)), -1) == [LETTER, BLANK, HEAD]
  {
    hide Wrapped, Heads, LineRows, Joined, LineOk;
    PaddedRows();
    JoinedTwo([LETTER, BLANK], [HEAD, SPACER]);
    var cells := [LETTER, BLANK, HEAD, SPACER];
    assert [LETTER, BLANK] + [HEAD, SPACER] == cells;
    assert cells[..3] == [LETTER, BLANK, HEAD];
    assert IsSkippable(cells[3]) && !IsSkippable(cells[2]);
  }

  lemma JoinedTwo(a: seq<Cell>, b: seq<Cell>)
    ensures Joined([a, b]) == a + b
  {
    assert [a, b][1..] == [b] && [b][1..] == [];
    assert Joined([]) == [];
    assert b + [] == b;
  }

  lemma WrappedNext(hs: seq<Cell>, width: nat, n: nat)
    requires Chars(hs, width) && 0 < n <= |hs| && |Flat(hs[..n])| <= width
    requires n < |hs| ==> |Flat(hs[..n + 1])| > width
    ensures Wrapped(hs, width) == [Pad(Flat(hs[..n]), width)] + if n == |hs| then [] else Wrapped(hs[n..], width)
  {
    FitUnique(hs, width, n);
    assert hs[..|hs|] == hs;
  }

  lemma PairHeads()
    ensures LineOk([LETTER, HEAD]) && LineChars([LETTER, HEAD], 2) == [LETTER, HEAD]
  {
    hide Heads;
    HeadsEnd([], LETTER);
    HeadsEnd([LETTER], HEAD);
    assert [] + [LETTER] == [LETTER] && [LETTER] + [HEAD] == [LETTER, HEAD];
  }

  lemma PairFlat()
    ensures Flat([LETTER]) == [LETTER] && Flat([HEAD]) == [HEAD, SPACER] && Flat([LETTER, HEAD]) == [LETTER, HEAD, SPACER]
  {
    FlatOne(LETTER);
    FlatOne(HEAD);
    FlatAppend([LETTER], [HEAD]);
    assert [LETTER] + [HEAD] == [LETTER, HEAD];
  }

  lemma PaddedRows()
    ensures LineOk([LETTER, HEAD])
    ensures LineRows([LETTER, HEAD], 2) == [[LETTER, BLANK], [HEAD, SPACER]]
  {
    hide Fit, Flat, Heads, Wrapped, LineOk, LineChars;
    var hs := [LETTER, HEAD];
    PairHeads();
    CharsOk(hs, 2);
    PairFlat();
    assert hs[..1] == [LETTER] && hs[1..] == [HEAD] && hs[..2] == hs && [HEAD][..1] == [HEAD];
    WrappedNext(hs, 2, 1);
    WrappedNext([HEAD], 2, 1);
    assert Pad([LETTER], 2) == [LETTER, BLANK];
    assert Pad([HEAD, SPACER], 2) == [HEAD, SPACER];
  }

  /** A scrollback row of 64 KiB: its length is written as 0, and without any error
      the decoder reads an empty row (`Frames.FrameRoundTrip`). */
  lemma LongRowEmptied(f: F.Frame, base: nat, row: seq<Byte>)
    requires |row| == 0x1_0000 && F.FrameTyped(f) && f.body == F.Scrollback(base, [row])
    ensures F.Decode(F.Encode(f)) == Ok(f.(body := F.Scrollback(base, [[]])))
  {
    hide F.Encode, F.Decode, F.EncodeHead, F.DecodeBody, F.BodyAt, F.FrameTyped;
    BaseTyped(f, base, row);
    F.BodyReached(f);
    LongBody(F.Encode(f), |F.EncodeHead(f)| + 24, base, row);
  }

  lemma BaseTyped(f: F.Frame, base: nat, row: seq<Byte>)
    requires F.FrameTyped(f) && f.body == F.Scrollback(base, [row])
    ensures base < F.U64 && !F.Extended(f.flags)
  {
  }

  lemma LongBody(data: seq<Byte>, at: nat, base: nat, row: seq<Byte>)
    requires |row| == 0x1_0000 && base < F.U64 && F.BodyAt(data, at, F.Scrollback(base, [row]))
    ensures at < |data| && F.DecodeBody(data, at) == Ok(F.Scrollback(base, [[]]))
  {
    hide Stands, Le, FromLe, F.Num, F.EncodeRows, F.DecodeCounted;
    Widths();
    var counted := Le(1, 4) + F.EncodeRows([row]);
    StandsSplit(data, at, [F.BODY_SCROLLBACK], Le(base, 8) + counted);
    F.ByteStands(data, at, F.BODY_SCROLLBACK);
    StandsSplit(data, at + 1, Le(base, 8), counted);
    F.NumStands(data, at + 1, base, 8);
    LongCounted(data, at + 9, row);
  }

  lemma LongCounted(data: seq<Byte>, at: nat, row: seq<Byte>)
    requires |row| == 0x1_0000 && Stands(data, at, Le(1, 4) + F.EncodeRows([row]))
    ensures at + 4 <= |data| && F.DecodeCounted(data, at) == Ok([[]])
  {
    hide Stands, Le, FromLe, F.Num, F.EncodeRows, F.DecodeRows;
    Widths();
    StandsSplit(data, at, Le(1, 4), F.EncodeRows([row]));
    F.NumStands(data, at, 1, 4);
    LongRowRead(data, at + 4, row);
  }

  lemma LongRowRead(data: seq<Byte>, p: nat, row: seq<Byte>)
    requires |row| == 0x1_0000 && Stands(data, p, F.EncodeRows([row]))
    ensures p + 2 <= |data| && F.DecodeRows(data, p, 1) == Ok([[]])
  {
    hide FromLe, Le;
    StandsSplit(data, p, Le(0x1_0000, 2) + row, F.EncodeRows([row][1..]));
    StandsSplit(data, p, Le(0x1_0000, 2), row);
    LeTwo();
    F.StandsIs(data, p, Le(0x1_0000, 2));
    assert F.Num(data, p, 2) == 0;
    var none := data[p + 2..p + 2];
    assert none == [];
    assert F.DecodeRows(data, p + 2, 0) == Ok([]);
    assert F.DecodeRows(data, p, 1) == Ok([none] + []);
    assert [none] + [] == [[]];
  }

  lemma LeTwo()
    ensures Le(0x1_0000, 2) == [0, 0] && FromLe([0, 0]) == 0
  {
    assert [0, 0][1..] == [0] && [0][1..] == [];
  }
}
