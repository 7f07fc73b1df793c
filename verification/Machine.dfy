// The terminal as a value: one screen with its scrollback ring, the cursor
// with its pen, the modes that matter to drawing, and one step per control
// (crates/posh-term/src/terminal.rs, csi.rs and screen.rs).

module Machine {
  import opened Cells

  datatype Screen = Screen(
    rows: nat, cols: nat, grid: seq<Row>,
    sb: seq<Row>, maxSb: nat, total: nat)
  {
    predicate Valid() {
      && rows >= 1 && cols >= 1
      && |grid| == rows
      && |sb| <= maxSb
      && (forall i :: 0 <= i < |grid| ==> |grid[i].cells| == cols)
    }

    /** Rows pushed on a ring of at most `maxSb`, the oldest dropped. */
    function Pushed(rs: seq<Row>): Screen {
      if maxSb == 0 then this else this.(sb := Newest(sb + rs, maxSb), total := total + |rs|)
    }

    /** `scroll_up`: rows `top..=bot` move up by `n`, blanks come in below. */
    function ScrollUp(top: nat, bot: nat, n: nat, save: bool): (s: Screen)
      requires Valid()
      ensures s.Valid() && s.rows == rows && s.cols == cols && s.maxSb == maxSb
    {
      var b := Min(bot, rows - 1);
      if top > b then this else
        var k := Max(Min(n, b - top + 1), 1);
        var s := if save then Pushed(grid[top..top + k]) else this;
        s.(grid := grid[..top] + grid[top + k..b + 1] + BlankRows(k, cols) + grid[b + 1..])
    }

    function ScrollDown(top: nat, bot: nat, n: nat): (s: Screen)
      requires Valid()
      ensures s.Valid() && s.rows == rows && s.cols == cols && s.maxSb == maxSb
    {
      var b := Min(bot, rows - 1);
      if top > b then this else
        var k := Max(Min(n, b - top + 1), 1);
        this.(grid := grid[..top] + BlankRows(k, cols) + grid[top..b + 1 - k] + grid[b + 1..])
    }
  }

  /** The newest `n` rows of `s`. */
  function Newest(s: seq<Row>, n: nat): (r: seq<Row>)
    ensures |r| == Min(|s|, n)
  {
    if |s| <= n then s else s[|s| - n..]
  }

  function BlankRows(n: nat, cols: nat): (r: seq<Row>)
    ensures |r| == n
    ensures forall i :: 0 <= i < n ==> r[i] == BlankRow(cols)
  {
    seq(n, i => BlankRow(cols))
  }

  datatype Cursor = Cursor(row: nat, col: nat, pending: bool, style: Style, link: nat)

  const HOME := Cursor(0, 0, false, DEFAULT_STYLE, 0)

  datatype Modes = Modes(autowrap: bool, insert: bool, origin: bool, lnm: bool, visible: bool)

  const DEFAULT_MODES := Modes(true, false, false, false, true)

  datatype Mode = Autowrap | Insert | Origin | Lnm | Visible

  /** One parsed control. Counts and positions are the emitted parameters:
      1-based, and 0 where the parameter is missing. */
  datatype Action =
    | Print(g: Glyph)
    | Cr | Lf | Bs
    | Cup(row: nat, col: nat) | Cuu(n: nat) | Cha(n: nat)
    | Ech(n: nat) | Ich(n: nat) | Dch(n: nat)
    | El(part: nat) | Ed(part: nat)
    | Su(n: nat) | Sd(n: nat) | Il(n: nat) | Dl(n: nat) | Ri
    | Sgr(style: Style) | Decsca(guarded: bool) | Hyperlink(link: nat)
    | Stbm(top: nat, bot: nat)
    | Decsc | Decrc
    | SetMode(mode: Mode, on: bool)
    | Tbc | Hts

  function Arg(n: nat): (r: nat)
    ensures r >= 1
  {
    if n == 0 then 1 else n
  }

  datatype Term = Term(
    scr: Screen, cur: Cursor, saved: Cursor, savedOrigin: bool,
    modes: Modes, top: nat, bot: nat, tabs: seq<bool>)
  {
    predicate Valid() {
      && scr.Valid()
      && cur.row < scr.rows && cur.col < scr.cols
      && top <= bot < scr.rows
      && |tabs| == scr.cols
    }

    predicate SameShape(t: Term) {
      t.scr.rows == scr.rows && t.scr.cols == scr.cols && t.scr.maxSb == scr.maxSb
    }

    predicate FullRegion() {
      top == 0 && bot == scr.rows - 1
    }

    // --- plumbing ---------------------------------------------------------

    function Cells(): seq<Cell>
      requires Valid()
    {
      scr.grid[cur.row].cells
    }

    function SetRow(row: nat, r: Row): (t: Term)
      requires Valid() && row < scr.rows && |r.cells| == scr.cols
      ensures t.Valid() && SameShape(t)
    {
      this.(scr := scr.(grid := scr.grid[row := r]))
    }

    function SetCells(cells: seq<Cell>): (t: Term)
      requires Valid() && |cells| == scr.cols
      ensures t.Valid() && SameShape(t)
    {
      SetRow(cur.row, scr.grid[cur.row].(cells := cells))
    }

    function At(row: nat, col: nat, pending: bool): (t: Term)
      requires Valid() && row < scr.rows && col < scr.cols
      ensures t.Valid() && SameShape(t)
    {
      this.(cur := cur.(row := row, col := col, pending := pending))
    }

    // --- movement ---------------------------------------------------------

    function ScrollUpN(n: nat): (t: Term)
      requires Valid()
      ensures t.Valid() && SameShape(t)
    {
      this.(scr := scr.ScrollUp(top, bot, n, FullRegion()))
    }

    /** IND: the cursor goes down, or on the bottom margin the region goes up. */
    function Index(): (t: Term)
      requires Valid()
      ensures t.Valid() && SameShape(t)
    {
      var t := this.(cur := cur.(pending := false));
      if cur.row == bot then t.ScrollUpN(1)
      else if cur.row + 1 < scr.rows then t.At(cur.row + 1, cur.col, false)
      else t
    }

    function ReverseIndex(): (t: Term)
      requires Valid()
      ensures t.Valid() && SameShape(t)
    {
      var t := this.(cur := cur.(pending := false));
      if cur.row == top then t.(scr := scr.ScrollDown(top, bot, 1))
      else if cur.row > 0 then t.At(cur.row - 1, cur.col, false)
      else t
    }

    /** CUP, relative to the region under origin mode; `r`, `c` from 0. */
    function MoveTo(r: nat, c: nat): (t: Term)
      requires Valid()
      ensures t.Valid() && SameShape(t)
    {
      At(if modes.origin then Min(top + r, bot) else Min(r, scr.rows - 1),
         Min(c, scr.cols - 1), false)
    }

    function CursorUp(n: nat): (t: Term)
      requires Valid()
      ensures t.Valid() && SameShape(t)
    {
      var limit := if cur.row >= top then top else 0;
      At(Max(Max(cur.row - n, 0), limit), cur.col, false)
    }

    // --- printing ---------------------------------------------------------

    /** A combining mark joins the cell printed last. */
    function Combine(g: Glyph): (t: Term)
      requires Valid()
      ensures t.Valid() && SameShape(t)
    {
      if !cur.pending && cur.col == 0 then this else
        var c := if cur.pending then cur.col else cur.col - 1;
        var k := if Cells()[c].width == 0 && c > 0 then c - 1 else c;
        SetCells(Cells()[k := Cells()[k].(extra := Cells()[k].extra + [g])])
    }

    /** Leave the line by wrapping: mark it, then go to the next one. */
    function WrapLine(): (t: Term)
      requires Valid()
      ensures t.Valid() && SameShape(t)
    {
      SetRow(cur.row, scr.grid[cur.row].(wrapped := true)).At(cur.row, 0, false).Index()
    }

    /** The pending wrap is taken (or, without autowrap, dropped). */
    function TakePending(): (t: Term)
      requires Valid()
      ensures t.Valid() && SameShape(t) && !t.cur.pending
    {
      if cur.pending && modes.autowrap then WrapLine() else this.(cur := cur.(pending := false))
    }

    predicate Unfit(g: Glyph) {
      GlyphWidth(g) == 2 && cur.col + 1 >= scr.cols
    }

    /** Room for a wide character at the right edge. */
    function MakeRoom(g: Glyph): (t: Term)
      requires Valid()
      ensures t.Valid() && SameShape(t)
    {
      if !Unfit(g) then this
      else if modes.autowrap then SetCells(Cells()[cur.col := BLANK]).WrapLine()
      else if scr.cols >= 2 then At(cur.row, scr.cols - 2, false)
      else this
    }

    function Place(g: Glyph): (t: Term)
      requires Valid() && GlyphWidth(g) != 0
      ensures t.Valid() && SameShape(t)
    {
      var w := GlyphWidth(g);
      var cells := if modes.insert then Repair(InsertBlanks(Cells(), cur.col, w)) else Cells();
      var t := SetCells(WriteGlyph(cells, cur.col, g, cur.style, cur.link));
      if cur.col + w >= scr.cols then t.At(cur.row, scr.cols - 1, modes.autowrap)
      else t.At(cur.row, cur.col + w, false)
    }

    function PrintGlyph(g: Glyph): (t: Term)
      requires Valid()
      ensures t.Valid() && SameShape(t)
    {
      if GlyphWidth(g) == 0 then Combine(g) else
        var t := TakePending();
        if t.Unfit(g) && !modes.autowrap && scr.cols < 2 then t
        else t.MakeRoom(g).Place(g)
    }

    // --- erasing ----------------------------------------------------------

    function EraseLine(mode: nat): (t: Term)
      requires Valid()
      ensures t.Valid() && SameShape(t)
    {
      var row, t := scr.grid[cur.row], this.(cur := cur.(pending := false));
      match mode
      case 0 => t.SetRow(cur.row, Row(Erase(row.cells, cur.col, scr.cols), false))
      case 1 => t.SetRow(cur.row, Row(Erase(row.cells, 0, cur.col + 1), row.wrapped))
      case 2 => t.SetRow(cur.row, Row(Erase(row.cells, 0, scr.cols), false))
      case _ => t
    }

    /** The grid with rows `from..to` blanked. */
    function EraseRows(from: nat, to: nat): (t: Term)
      requires Valid()
      ensures t.Valid() && SameShape(t)
      ensures forall i :: 0 <= i < scr.rows ==> t.scr.grid[i] == if from <= i < to then BlankRow(scr.cols) else scr.grid[i]
    {
      var g := seq(scr.rows, i requires 0 <= i < scr.rows => if from <= i < to then BlankRow(scr.cols) else scr.grid[i]);
      assert forall i :: 0 <= i < |g| ==> g[i] == if from <= i < to then BlankRow(scr.cols) else scr.grid[i];
      this.(scr := scr.(grid := g))
    }

    function EraseDisplay(mode: nat): (t: Term)
      requires Valid()
      ensures t.Valid() && SameShape(t)
    {
      var t := this.(cur := cur.(pending := false));
      match mode
      case 0 => EraseLine(0).EraseRows(cur.row + 1, scr.rows)
      case 1 => EraseLine(1).EraseRows(0, cur.row)
      case 2 => t.EraseRows(0, scr.rows)
      case 3 => t.(scr := scr.(sb := []))
      case _ => t
    }

    /** ICH, DCH and ECH edit the row, then repair it. */
    function Edited(cells: seq<Cell>): (t: Term)
      requires Valid() && |cells| == scr.cols
      ensures t.Valid() && SameShape(t)
    {
      SetCells(Repair(cells)).(cur := cur.(pending := false))
    }

    function LinesEdit(s: Screen): (t: Term)
      requires Valid() && s.Valid() && s.rows == scr.rows && s.cols == scr.cols && s.maxSb == scr.maxSb
      ensures t.Valid() && SameShape(t)
    {
      if cur.row < top || cur.row > bot then this
      else this.(scr := s, cur := cur.(col := 0, pending := false))
    }

    // --- modes, regions, saved cursor ---------------------------------------

    function SetRegion(t1: nat, b1: nat): (t: Term)
      requires Valid()
      ensures t.Valid() && SameShape(t)
    {
      var nt := Arg(t1) - 1;
      var nb := Min((if b1 == 0 then scr.rows else b1) - 1, scr.rows - 1);
      if nt < nb then this.(top := nt, bot := nb).MoveTo(0, 0) else this
    }

    function ModeSet(mode: Mode, on: bool): (t: Term)
      requires Valid()
      ensures t.Valid() && SameShape(t)
    {
      match mode
      case Origin => this.(modes := modes.(origin := on)).MoveTo(0, 0)
      case Autowrap => this.(modes := modes.(autowrap := on), cur := cur.(pending := cur.pending && on))
      case Insert => this.(modes := modes.(insert := on))
      case Lnm => this.(modes := modes.(lnm := on))
      case Visible => this.(modes := modes.(visible := on))
    }

    function Restored(): (t: Term)
      requires Valid()
      ensures t.Valid() && SameShape(t)
    {
      var r := Min(saved.row, scr.rows - 1);
      this.(modes := modes.(origin := savedOrigin),
      cur := saved.(row := if savedOrigin then Max(top, Min(r, bot)) else r,
      col := Min(saved.col, scr.cols - 1)))
    }

    // --- one step -----------------------------------------------------------

    function Step(a: Action): (t: Term)
      requires Valid()
      ensures t.Valid() && SameShape(t)
    {
      match a
      case Print(g) => PrintGlyph(g)
      case Cr => At(cur.row, 0, false)
      case Lf => var t := Index(); if modes.lnm then t.At(t.cur.row, 0, t.cur.pending) else t
      case Bs => At(cur.row, Max(cur.col - 1, 0), false)
      case Cup(r, c) => MoveTo(Arg(r) - 1, Arg(c) - 1)
      case Cuu(n) => CursorUp(Arg(n))
      case Cha(n) => At(cur.row, Min(Arg(n) - 1, scr.cols - 1), false)
      case Ech(n) => Edited(Erase(Cells(), cur.col, cur.col + Arg(n)))
      case Ich(n) => Edited(InsertBlanks(Cells(), cur.col, Min(Arg(n), scr.cols)))
      case Dch(n) => Edited(DeleteCells(Cells(), cur.col, Min(Arg(n), scr.cols)))
      case El(mode) => EraseLine(mode)
      case Ed(mode) => EraseDisplay(mode)
      case Su(n) => ScrollUpN(Arg(n))
      case Sd(n) => this.(scr := scr.ScrollDown(top, bot, Arg(n)))
      case Il(n) => LinesEdit(scr.ScrollDown(cur.row, bot, Arg(n)))
      case Dl(n) => LinesEdit(scr.ScrollUp(cur.row, bot, Arg(n), false))
      case Ri => ReverseIndex()
      case Sgr(style) => this.(cur := cur.(style := style.(guarded := cur.style.guarded)))
      case Decsca(p) => this.(cur := cur.(style := cur.style.(guarded := p)))
      case Hyperlink(l) => this.(cur := cur.(link := l))
      case Stbm(t1, b1) => SetRegion(t1, b1)
      case Decsc => this.(saved := cur, savedOrigin := modes.origin)
      case Decrc => Restored()
      case SetMode(m, on) => ModeSet(m, on)
      case Tbc => this.(tabs := seq(scr.cols, i => false))
      case Hts => this.(tabs := tabs[cur.col := true])
    }
  }

  function Run(t: Term, acts: seq<Action>): (r: Term)
    requires t.Valid()
    ensures r.Valid() && t.SameShape(r)
    decreases |acts|
  {
    if acts == [] then t else Run(t, acts[..|acts| - 1]).Step(acts[|acts| - 1])
  }

  lemma {:induction false} RunAppend(t: Term, a: seq<Action>, b: seq<Action>)
    requires t.Valid()
    ensures Run(t, a + b) == Run(Run(t, a), b)
    decreases |b|
  {
    if b == [] {
      assert a + b == a;
    } else {
      RunAppend(t, a, b[..|b| - 1]);
      assert (a + b)[..|a + b| - 1] == a + b[..|b| - 1];
    }
  }

  lemma RunNone(t: Term)
    requires t.Valid()
    ensures Run(t, []) == t
  {
  }

  lemma RunSnoc(t: Term, acts: seq<Action>, a: Action)
    requires t.Valid()
    ensures Run(t, acts + [a]) == Run(t, acts).Step(a)
  {
    assert (acts + [a])[..|acts|] == acts;
  }

  lemma RunOne(t: Term, a: Action)
    requires t.Valid()
    ensures Run(t, [a]) == t.Step(a)
  {
    assert [a][..0] == [];
    assert Run(t, []) == t;
  }

  lemma RunTwo(t: Term, a: Action, b: Action)
    requires t.Valid()
    ensures Run(t, [a, b]) == t.Step(a).Step(b)
  {
    hide Run, Term.Step;
    RunOne(t, a);
    RunSnoc(t, [a], b);
    assert [a] + [b] == [a, b];
  }

  lemma RunFour(t: Term, a: Action, b: Action, c: Action, d: Action)
    requires t.Valid()
    ensures Run(t, [a, b, c, d]) == t.Step(a).Step(b).Step(c).Step(d)
  {
    hide Run, Term.Step;
    RunTwo(t, a, b);
    RunTwo(Run(t, [a, b]), c, d);
    RunAppend(t, [a, b], [c, d]);
    assert [a, b] + [c, d] == [a, b, c, d];
  }
}
