// Cells, rows and the pairing of wide characters (crates/posh-term/src/cell.rs
// and the row helpers of screen.rs, terminal.rs and csi.rs).

module Cells {
  import opened Bytes

  datatype Color = DefaultColor | Indexed(index: Byte) | Rgb(r: Byte, g: Byte, b: Byte)

  datatype Underline = NoUnderline | Single | Double | Curly | Dotted | Dashed

  datatype Style = Style(
    fg: Color, bg: Color, underlineColor: Color,
    bold: bool, dim: bool, italic: bool, underline: Underline,
    blink: bool, inverse: bool, invisible: bool, strikethrough: bool,
    guarded: bool) // DECSCA, called `protected` in the source

  const DEFAULT_STYLE := Style(DefaultColor, DefaultColor, DefaultColor,
                               false, false, false, NoUnderline, false, false, false, false, false)

  /** A character, sorted by what `wcwidth` says of it: a blank, a one-column
      glyph, a two-column glyph, or a combining mark of width 0. */
  datatype Glyph = Nul | Space | Narrow(code: nat) | Wide(code: nat) | Mark(code: nat)

  function GlyphWidth(g: Glyph): nat {
    match g
    case Mark(_) => 0
    case Wide(_) => 2
    case _ => 1
  }

  /** One grid cell. Width 2 is the head of a wide pair and width 0 the spacer
      after it. A link stands for its hyperlink slot; 0 is no link. */
  datatype Cell = Cell(ch: Glyph, style: Style, width: nat, extra: seq<Glyph>, link: nat)

  const BLANK := Cell(Space, DEFAULT_STYLE, 1, [], 0)

  function Spacer(style: Style, link: nat): Cell {
    Cell(Nul, style, 0, [], link)
  }

  predicate IsBlank(c: Cell) {
    (c.ch == Space || c.ch == Nul) && c.extra == []
  }

  predicate IsSkippable(c: Cell) {
    IsBlank(c) && c.style == DEFAULT_STYLE && c.link == 0
  }

  datatype Row = Row(cells: seq<Cell>, wrapped: bool)

  function BlankCells(n: nat): (r: seq<Cell>)
    ensures |r| == n
    ensures forall i :: 0 <= i < n ==> r[i] == BLANK
  {
    seq(n, i => BLANK)
  }

  function BlankRow(cols: nat): Row {
    Row(BlankCells(cols), false)
  }

  /** The index past the last cell that is not skippable. */
  function RowEnd(cells: seq<Cell>): (e: nat)
    ensures e <= |cells|
    ensures e > 0 ==> !IsSkippable(cells[e - 1])
    ensures forall x :: e <= x < |cells| ==> IsSkippable(cells[x])
  {
    if cells == [] then 0
    else if !IsSkippable(cells[|cells| - 1]) then |cells|
    else RowEnd(cells[..|cells| - 1])
  }

  /** A cell whose recorded width is the one its character has. */
  predicate CellOk(c: Cell) {
    && (forall k :: 0 <= k < |c.extra| ==> c.extra[k].Mark?)
    && (if c.width == 0 then c.ch == Nul && c.extra == []
        else if c.width == 1 then c.ch.Nul? || c.ch.Space? || c.ch.Narrow?
        else c.width == 2 && c.ch.Wide?)
  }

  // --- wide pairs ---------------------------------------------------------

  predicate Orphan(cells: seq<Cell>, c: nat)
    requires c < |cells|
  {
    if cells[c].width == 2 then c + 1 >= |cells| || cells[c + 1].width != 0
    else if cells[c].width == 0 then c == 0 || cells[c - 1].width != 2
    else false
  }

  /** Every width-2 head is followed by its spacer, and conversely. */
  predicate Paired(cells: seq<Cell>) {
    forall c: nat :: c < |cells| ==> !Orphan(cells, c)
  }

  predicate RowOk(cells: seq<Cell>, cols: nat) {
    && |cells| == cols
    && Paired(cells)
    && forall c :: 0 <= c < |cells| ==> CellOk(cells[c])
  }

  /** `repair_wide_halves`: blank both kinds of orphan. */
  function Repair(cells: seq<Cell>): (r: seq<Cell>)
    ensures |r| == |cells|
    ensures forall c: nat :: c < |cells| ==> r[c] == if Orphan(cells, c) then BLANK else cells[c]
  {
    seq(|cells|, c requires 0 <= c < |cells| => if Orphan(cells, c) then BLANK else cells[c])
  }

  lemma RepairPairs(cells: seq<Cell>)
    ensures Paired(Repair(cells))
  {
    var r := Repair(cells);
    forall c: nat | c < |r|
      ensures !Orphan(r, c)
    {
      if r[c].width == 2 {
        assert !Orphan(cells, c) && cells[c + 1].width == 0;
        assert !Orphan(cells, c + 1);
      } else if r[c].width == 0 {
        assert !Orphan(cells, c) && cells[c - 1].width == 2;
        assert !Orphan(cells, c - 1);
      }
    }
  }

  /** Repair changes nothing exactly on the rows that need none. */
  lemma RepairIdentity(cells: seq<Cell>)
    ensures Repair(cells) == cells <==> Paired(cells)
    ensures Repair(Repair(cells)) == Repair(cells)
  {
    if Repair(cells) == cells {
      RepairPairs(cells);
    }
    RepairPairs(cells);
    if Paired(cells) {
      assert Repair(cells) == cells;
    }
    assert Repair(Repair(cells)) == Repair(cells);
  }

  // --- row edits ----------------------------------------------------------

  function Erase(cells: seq<Cell>, from: nat, to: nat): (r: seq<Cell>)
    ensures |r| == |cells|
    ensures forall c :: 0 <= c < |cells| ==> r[c] == if from <= c < to then BLANK else cells[c]
  {
    seq(|cells|, c requires 0 <= c < |cells| => if from <= c < to then BLANK else cells[c])
  }

  function InsertBlanks(cells: seq<Cell>, col: nat, n: nat): (r: seq<Cell>)
    requires col < |cells|
    ensures |r| == |cells|
    decreases n
  {
    if n == 0 then cells
    else InsertBlanks(cells[..col] + [BLANK] + cells[col..|cells| - 1], col, n - 1)
  }

  function DeleteCells(cells: seq<Cell>, col: nat, n: nat): (r: seq<Cell>)
    requires col < |cells|
    ensures |r| == |cells|
    decreases n
  {
    if n == 0 then cells
    else DeleteCells(cells[..col] + cells[col + 1..] + [BLANK], col, n - 1)
  }

  /** Blank the spacer that a write over the head at `c` would strand. */
  function BlankAfterHead(cells: seq<Cell>, c: nat): (r: seq<Cell>)
    ensures |r| == |cells|
  {
    if c + 1 < |cells| && cells[c].width == 2 then cells[c + 1 := BLANK] else cells
  }

  /** `clean_wide`: blank the halves of wide characters that a write of width
      `w` at `col` would corrupt. */
  function CleanWide(cells: seq<Cell>, col: nat, w: nat): (r: seq<Cell>)
    requires col < |cells| && 1 <= w <= 2
    ensures |r| == |cells|
  {
    var c0 := if cells[col].width == 0 && col > 0 then cells[col - 1 := BLANK] else cells;
    var c1 := BlankAfterHead(c0, col);
    if w == 2 then BlankAfterHead(c1, col + 1) else c1
  }

  function Min(a: int, b: int): int { if a < b then a else b }

  function Max(a: int, b: int): int { if a < b then b else a }

  /** The write of one glyph, clamped to the row as `cell_mut` clamps. */
  function WriteGlyph(cells: seq<Cell>, col: nat, g: Glyph, style: Style, link: nat): (r: seq<Cell>)
    requires col < |cells| && GlyphWidth(g) != 0
    ensures |r| == |cells|
  {
    var w := GlyphWidth(g);
    var c := CleanWide(cells, col, w)[col := Cell(g, style, w, [], link)];
    if w == 2 then c[Min(col + 1, |cells| - 1) := Spacer(style, link)] else c
  }

  /** A write that fits keeps every pair whole. */
  lemma WriteKeepsPairs(cells: seq<Cell>, col: nat, g: Glyph, style: Style, link: nat)
    requires Paired(cells) && GlyphWidth(g) != 0 && col + GlyphWidth(g) <= |cells|
    ensures Paired(WriteGlyph(cells, col, g, style, link))
  {
    var r := WriteGlyph(cells, col, g, style, link);
    var w := GlyphWidth(g);
    assert !Orphan(cells, col);
    assert w == 2 ==> !Orphan(cells, col + 1);
    assert col + w < |cells| ==> !Orphan(cells, col + w);
    forall c: nat | c < |r|
      ensures !Orphan(r, c)
    {
      assert !Orphan(cells, c);
      assert c > 0 ==> !Orphan(cells, c - 1);
      assert c + 1 < |cells| ==> !Orphan(cells, c + 1);
    }
  }

  /** What a fitting write changes: its own columns, and the other half of a
      pair it cuts on either side. */
  lemma WriteEffect(cells: seq<Cell>, col: nat, g: Glyph, style: Style, link: nat)
    requires Paired(cells) && GlyphWidth(g) != 0 && col + GlyphWidth(g) <= |cells|
    ensures var r, w := WriteGlyph(cells, col, g, style, link), GlyphWidth(g);
            && r[col] == Cell(g, style, w, [], link)
            && (w == 2 ==> r[col + 1] == Spacer(style, link))
            && (forall c :: 0 <= c < col - 1 ==> r[c] == cells[c])
            && (forall c :: col + w < c < |cells| ==> r[c] == cells[c])
            && (col > 0 ==> r[col - 1] == if cells[col].width == 0 then BLANK else cells[col - 1])
            && (col + w < |cells| ==> r[col + w] == if cells[col + w].width == 0 then BLANK else cells[col + w])
  {
    var w := GlyphWidth(g);
    assert !Orphan(cells, col);
    assert w == 2 ==> !Orphan(cells, col + 1);
    assert col + w < |cells| ==> !Orphan(cells, col + w);
  }
}
