// The rewrap as a program (`reflow_width` in crates/posh-term/src/screen.rs),
// line by line, with the cursor that follows its cell.

module Rewrap {
  import opened Cells
  import opened Machine
  import opened Reflow

  /** A half without its other half; a head may end the line, where trimming
      cut its spacer. */
  predicate Stray(line: seq<Cell>, x: nat)
    requires x < |line|
  {
    if line[x].width == 0 then x == 0 || line[x - 1].width != 2
    else line[x].width == 2 && x + 1 < |line| && line[x + 1].width != 0
  }

  predicate LineOk(line: seq<Cell>) {
    && (forall x :: 0 <= x < |line| ==> CellOk(line[x]))
    && (forall x: nat :: x < |line| ==> !Stray(line, x))
  }

  function LineChars(line: seq<Cell>, width: nat): seq<Cell> {
    FittedAll(Heads(line), width)
  }

  lemma CharsOk(line: seq<Cell>, width: nat)
    requires LineOk(line) && width >= 1
    ensures Chars(LineChars(line, width), width)
  {
    var hs := Heads(line);
    forall i | 0 <= i < |hs|
      ensures 1 <= hs[i].width <= 2 && CellOk(hs[i])
    {
      var x :| 0 <= x < |line| && line[x] == hs[i];
    }
  }

  /** The rows of a line at the new width. */
  function LineRows(line: seq<Cell>, width: nat): (rows: seq<seq<Cell>>)
    requires LineOk(line) && width >= 1
    ensures |rows| >= 1
    ensures forall r :: 0 <= r < |rows| ==> |rows[r]| == width
  {
    CharsOk(line, width);
    Wrapped(LineChars(line, width), width)
  }

  /** The character that cell `off` of the line belongs to. */
  function CharAt(line: seq<Cell>, off: nat): (i: nat)
    requires LineOk(line) && off < |line|
    ensures i < |Heads(line)|
  {
    CharAtBound(line, off);
    |Heads(line[..off + 1])| - 1
  }

  lemma CharAtBound(line: seq<Cell>, off: nat)
    requires LineOk(line) && off < |line|
    ensures 1 <= |Heads(line[..off + 1])| <= |Heads(line)|
    ensures line[off].width == 0 ==> off > 0 && line[off - 1].width == 2
  {
    assert !Stray(line, off);
    assert line == line[..off + 1] + line[off + 1..];
    HeadsAppend(line[..off + 1], line[off + 1..]);
    hide LineOk;
    if line[off].width == 0 {
      assert line[..off + 1][..off] == line[..off];
      assert line[..off][..off - 1] == line[..off - 1];
    }
  }

  /** Where the cursor's cell goes: row of the line and column. */
  function CursorIn(line: seq<Cell>, off: nat, width: nat): (p: (nat, nat))
    requires LineOk(line) && width >= 1 && off < |line|
  {
    CharsOk(line, width);
    var p := Place(LineChars(line, width), width, CharAt(line, off));
    (p.0, p.1 + if line[off].width == 0 && width >= 2 then 1 else 0)
  }

  /** The cursor stays on its cell: a character it was on, or the second half of
      a wide one. Only a wide character that no column can hold is lost. */
  lemma CursorFollows(line: seq<Cell>, off: nat, width: nat)
    requires LineOk(line) && width >= 1 && off < |line|
    ensures var (r, c), rows := CursorIn(line, off, width), LineRows(line, width);
            && r < |rows| && c < width
            && (line[off].width == 0 ==> off > 0)
            && (width >= 2 ==> rows[r][c] == if line[off].width == 0 then Spacer(line[off - 1].style, line[off - 1].link) else line[off])
            && (width == 1 && line[off].width == 1 ==> rows[r][c] == line[off])
  {
    hide Heads, Place, Wrapped, Chars;
    CharsOk(line, width);
    CharAtBound(line, off);
    assert CellOk(line[off]);
    var i, hs := CharAt(line, off), LineChars(line, width);
    PlacedThere(hs, width, i);
    CharIs(line, off);
  }

  lemma HeadsSnoc(line: seq<Cell>, n: nat)
    requires n < |line|
    ensures Heads(line[..n + 1]) == Heads(line[..n]) + if line[n].width == 0 then [] else [line[n]]
  {
    assert line[..n + 1][..n] == line[..n];
  }

  /** The last character up to `off` is the one `off` belongs to. */
  lemma LastHead(line: seq<Cell>, off: nat)
    requires LineOk(line) && off < |line|
    ensures line[off].width == 0 ==> off > 0
    ensures var a := Heads(line[..off + 1]);
            |a| > 0 && a[|a| - 1] == if line[off].width == 0 then line[off - 1] else line[off]
  {
    hide Heads, CellOk;
    assert !Stray(line, off);
    HeadsSnoc(line, off);
    if line[off].width == 0 {
      HeadsSnoc(line, off - 1);
    }
  }

  lemma {:induction false} CharIs(line: seq<Cell>, off: nat)
    requires LineOk(line) && off < |line|
    ensures line[off].width == 0 ==> off > 0
    ensures Heads(line)[CharAt(line, off)] == if line[off].width == 0 then line[off - 1] else line[off]
  {
    hide Heads, LineOk;
    LastHead(line, off);
    assert line == line[..off + 1] + line[off + 1..];
    HeadsAppend(line[..off + 1], line[off + 1..]);
  }

  // --- one line ------------------------------------------------------------------

  /** Progress of the rewrap at cell `j`: `rows` are out, `cur` is being filled. */
  predicate Rewrapping(line: seq<Cell>, width: nat, j: nat, rows: seq<seq<Cell>>, cur: seq<Cell>) {
    && LineOk(line) && width >= 1 && j <= |line| && |cur| <= width
    && (j < |line| ==> line[j].width != 0 && |cur| < width)
    && Chars(LineChars(line[j..], width), width)
    && LineRows(line, width) == rows + WrapOn(cur, LineChars(line[j..], width), width)
  }

  /** Where the cursor's character will go, while it is still ahead. */
  predicate CursorAhead(line: seq<Cell>, off: nat, width: nat, j: nat, rows: nat, cur: seq<Cell>) {
    && LineOk(line) && width >= 1 && j <= off < |line|
    && Chars(LineChars(line[j..], width), width)
    && |Heads(line[..j])| <= CharAt(line, off) < |Heads(line[..j])| + |Heads(line[j..])|
    && var p := PlaceOn(cur, LineChars(line[j..], width), width, CharAt(line, off) - |Heads(line[..j])|);
       CursorIn(line, off, width) == (rows + p.0, p.1 + if line[off].width == 0 && width >= 2 then 1 else 0)
  }

  lemma StartRewrap(line: seq<Cell>, width: nat)
    requires LineOk(line) && width >= 1
    ensures Rewrapping(line, width, 0, [], [])
    ensures forall off :: 0 <= off < |line| ==> CursorAhead(line, off, width, 0, 0, [])
  {
    hide Heads, WrapOn, PlaceOn, Wrapped, Place, Flat, Chars;
    CharsOk(line, width);
    assert |line| > 0 ==> !Stray(line, 0);
    assert line[0..] == line && line[..0] == [];
    NoHeads();
    var hs := LineChars(line, width);
    assert [] + hs == hs;
    FlatNone();
    WrapOnIs([], hs, width);
    forall off | 0 <= off < |line|
      ensures CursorAhead(line, off, width, 0, 0, [])
    {
      PlaceOnIs([], hs, width, CharAt(line, off));
    }
  }

  lemma NoHeads()
    ensures Heads([]) == []
  {
  }

  /** How many cells the character at `j` takes in the line. */
  function Skip(line: seq<Cell>, j: nat): nat
    requires j < |line|
  {
    if j + 1 < |line| && line[j + 1].width == 0 then 2 else 1
  }

  lemma NextChar(line: seq<Cell>, width: nat, j: nat)
    requires LineOk(line) && width >= 1 && j < |line| && line[j].width != 0
    ensures j + Skip(line, j) <= |line|
    ensures j + Skip(line, j) < |line| ==> line[j + Skip(line, j)].width != 0
    ensures LineChars(line[j..], width) == [Fitted(line[j], width)] + LineChars(line[j + Skip(line, j)..], width)
    ensures Chars(LineChars(line[j..], width), width) ==> Chars(LineChars(line[j + Skip(line, j)..], width), width)
    ensures |Heads(line[..j + Skip(line, j)])| == |Heads(line[..j])| + 1
    ensures |Heads(line[j..])| == 1 + |Heads(line[j + Skip(line, j)..])|
    ensures Skip(line, j) == 2 ==> line[j].width == 2
  {
    hide Heads, Chars;
    var n := j + Skip(line, j);
    SkipSpan(line, j);
    assert line[j..] == line[j..n] + line[n..];
    HeadsAppend(line[j..n], line[n..]);
    assert line[..n] == line[..j] + line[j..n];
    HeadsAppend(line[..j], line[j..n]);
    OneHead(line, j);
    FittedSplit(line[j], Heads(line[n..]), width);
    CharsTail(Fitted(line[j], width), LineChars(line[n..], width), width);
  }

  lemma SkipSpan(line: seq<Cell>, j: nat)
    requires LineOk(line) && j < |line| && line[j].width != 0
    ensures j + Skip(line, j) <= |line|
    ensures j + Skip(line, j) < |line| ==> line[j + Skip(line, j)].width != 0
    ensures Skip(line, j) == 2 ==> line[j].width == 2
    ensures line[j].width == 2 && j + 1 < |line| ==> Skip(line, j) == 2
  {
    assert !Stray(line, j);
    if j + 1 < |line| {
      assert !Stray(line, j + 1);
      if j + 2 < |line| {
        assert !Stray(line, j + 2);
      }
    }
  }

  lemma FittedSplit(h: Cell, hs: seq<Cell>, width: nat)
    ensures FittedAll([h] + hs, width) == [Fitted(h, width)] + FittedAll(hs, width)
  {
  }

  lemma CharsTail(h: Cell, hs: seq<Cell>, width: nat)
    ensures Chars([h] + hs, width) ==> Chars(hs, width)
  {
    if Chars([h] + hs, width) {
      forall i | 0 <= i < |hs|
        ensures 1 <= hs[i].width <= 2 && hs[i].width <= width && CellOk(hs[i])
      {
        assert ([h] + hs)[i + 1] == hs[i];
      }
    }
  }

  lemma OneHead(line: seq<Cell>, j: nat)
    requires j < |line| && line[j].width != 0
    ensures Heads(line[j..j + Skip(line, j)]) == [line[j]]
  {
    var s := line[j..j + Skip(line, j)];
    if |s| == 2 {
      assert s[..1] == [line[j]];
    }
    assert [line[j]][..0] == [];
    assert Heads([]) == [];
  }

  lemma BreakHere(cur: seq<Cell>, hs: seq<Cell>, width: nat)
    requires Chars(hs, width) && hs != [] && |cur| + hs[0].width > width
    ensures WrapOn(cur, hs, width) == [Pad(cur, width)] + WrapOn([], hs, width)
    ensures forall i :: 0 <= i < |hs| ==>
      PlaceOn(cur, hs, width, i) == (PlaceOn([], hs, width, i).0 + 1, PlaceOn([], hs, width, i).1)
  {
  }

  /** No room for the next character: the row is padded and goes out. */
  lemma StepBreak(line: seq<Cell>, width: nat, j: nat, rows: seq<seq<Cell>>, cur: seq<Cell>)
    requires Rewrapping(line, width, j, rows, cur) && j < |line| && |cur| + Fitted(line[j], width).width > width
    ensures Rewrapping(line, width, j, rows + [Pad(cur, width)], [])
  {
    hide LineOk, LineRows, Chars, LineChars, WrapOn, PlaceOn, Pad;
    NextCharRow(line, width, j);
    var hs := LineChars(line[j..], width);
    BreakHere(cur, hs, width);
    assert (rows + [Pad(cur, width)]) + WrapOn([], hs, width) == rows + ([Pad(cur, width)] + WrapOn([], hs, width));
  }

  lemma CursorBreak(line: seq<Cell>, off: nat, width: nat, j: nat, rows: nat, cur: seq<Cell>)
    requires CursorAhead(line, off, width, j, rows, cur) && line[j].width != 0 && |cur| + Fitted(line[j], width).width > width
    ensures CursorAhead(line, off, width, j, rows + 1, [])
  {
    hide LineOk, Chars, Heads, CursorIn, PlaceOn, WrapOn, CharAt;
    NextCharRow(line, width, j);
    BreakHere(cur, LineChars(line[j..], width), width);
  }

  lemma NextCharRow(line: seq<Cell>, width: nat, j: nat)
    requires LineOk(line) && width >= 1 && j < |line| && line[j].width != 0
    requires Chars(LineChars(line[j..], width), width)
    ensures var hs, n := LineChars(line[j..], width), j + Skip(line, j);
            && hs != [] && hs[0] == Fitted(line[j], width) && n <= |line| && hs[1..] == LineChars(line[n..], width)
            && Chars(hs[1..], width)
  {
    NextChar(line, width, j);
  }

  /** As `Rewrapping`, but the row may just have become full. */
  predicate MaybeFull(line: seq<Cell>, width: nat, n: nat, rows: seq<seq<Cell>>, next: seq<Cell>) {
    && LineOk(line) && width >= 1 && n <= |line| && |next| <= width
    && (n < |line| ==> line[n].width != 0)
    && Chars(LineChars(line[n..], width), width)
    && LineRows(line, width) == rows + WrapOn(next, LineChars(line[n..], width), width)
  }

  /** The next character joins the row. */
  lemma StepPut(line: seq<Cell>, width: nat, j: nat, rows: seq<seq<Cell>>, cur: seq<Cell>)
    requires Rewrapping(line, width, j, rows, cur) && j < |line| && |cur| + Fitted(line[j], width).width <= width
    ensures MaybeFull(line, width, j + Skip(line, j), rows, cur + CellsOf(Fitted(line[j], width)))
  {
    hide LineOk, LineRows, Chars, Heads;
    SkipSpan(line, j);
    NextCharRow(line, width, j);
    FittedWidth(line[j], line, j, width);
  }

  lemma StepKeep(line: seq<Cell>, width: nat, n: nat, rows: seq<seq<Cell>>, next: seq<Cell>)
    requires MaybeFull(line, width, n, rows, next) && (|next| < width || n == |line|)
    ensures Rewrapping(line, width, n, rows, next)
  {
  }

  lemma FittedWidth(h: Cell, line: seq<Cell>, j: nat, width: nat)
    requires LineOk(line) && j < |line| && h == line[j] && h.width != 0 && width >= 1
    ensures 1 <= Fitted(h, width).width <= 2 && |CellsOf(Fitted(h, width))| == Fitted(h, width).width
    ensures Fitted(h, width).width <= width
  {
    assert CellOk(line[j]);
  }

  /** A full row with more to come goes out at once. */
  lemma StepFull(line: seq<Cell>, width: nat, n: nat, rows: seq<seq<Cell>>, next: seq<Cell>)
    requires MaybeFull(line, width, n, rows, next) && n < |line| && |next| == width
    ensures Rewrapping(line, width, n, rows + [next], [])
  {
    hide LineRows, Heads, LineOk, Chars;
    NextCharRow(line, width, n);
    FittedWidth(line[n], line, n, width);
    assert Pad(next, width) == next + BlankCells(0) == next;
    assert (rows + [next]) + WrapOn([], LineChars(line[n..], width), width)
        == rows + ([next] + WrapOn([], LineChars(line[n..], width), width));
  }

  // --- the cursor's character ------------------------------------------------------

  /** Cell `off` belongs to the character at `j` exactly if it is one of its cells. */
  lemma CharHere(line: seq<Cell>, j: nat, off: nat)
    requires LineOk(line) && j <= off < |line| && line[j].width != 0
    ensures CharAt(line, off) >= |Heads(line[..j])|
    ensures CharAt(line, off) == |Heads(line[..j])| <==> off < j + Skip(line, j)
  {
    hide Heads, LineOk;
    HeadsSnoc(line, j);
    if off > j {
      SkipSpan(line, j);
      HeadsGrow(line, j + 1, off + 1);
      if off == j + 1 {
        HeadsSnoc(line, off);
      } else {
        HeadsSnoc(line, j + 1);
        HeadsGrow(line, j + 2, off + 1);
        if Skip(line, j) == 2 {
          HeadsSnoc(line, j + 2);
          HeadsGrow(line, j + 3, off + 1);
        }
      }
    }
  }

  lemma HeadsGrow(line: seq<Cell>, a: nat, b: nat)
    requires a <= b <= |line|
    ensures |Heads(line[..a])| <= |Heads(line[..b])|
  {
    assert line[..b] == line[..a] + line[a..b];
    HeadsAppend(line[..a], line[a..b]);
  }

  /** The cursor's character joins the row: its place is here. */
  lemma CursorHere(line: seq<Cell>, off: nat, width: nat, j: nat, rows: nat, cur: seq<Cell>)
    requires CursorAhead(line, off, width, j, rows, cur) && line[j].width != 0 && off < j + Skip(line, j)
    requires |cur| + Fitted(line[j], width).width <= width
    ensures CursorIn(line, off, width) == (rows, |cur| + if width >= 2 then off - j else 0)
  {
    hide CursorIn, Heads, LineOk, Chars;
    CharHere(line, j, off);
    NextCharRow(line, width, j);
    SkipSpan(line, j);
  }

  /** Another character joins the row: the cursor's is still ahead. */
  lemma CursorLater(line: seq<Cell>, off: nat, width: nat, j: nat, rows: nat, cur: seq<Cell>)
    requires CursorAhead(line, off, width, j, rows, cur) && line[j].width != 0 && off >= j + Skip(line, j)
    requires |cur| + Fitted(line[j], width).width <= width
    ensures CursorAhead(line, off, width, j + Skip(line, j), rows, cur + CellsOf(Fitted(line[j], width)))
  {
    hide CursorIn, Heads, LineOk, Chars;
    CharHere(line, j, off);
    NextChar(line, width, j);
    NextCharRow(line, width, j);
  }

  lemma CursorFull(line: seq<Cell>, off: nat, width: nat, n: nat, rows: nat, next: seq<Cell>)
    requires CursorAhead(line, off, width, n, rows, next) && line[n].width != 0 && |next| == width
    ensures CursorAhead(line, off, width, n, rows + 1, [])
  {
    hide CursorIn, Heads, LineOk, Chars;
    NextCharRow(line, width, n);
    FittedWidth(line[n], line, n, width);
  }

  /** Rewrap one logical line; `off` is the cursor's cell in it, or -1. */
  method RewrapLine(line: seq<Cell>, off: int, width: nat) returns (rows: seq<seq<Cell>>, cursor: (nat, nat))
    requires LineOk(line) && width >= 1 && -1 <= off < |line|
    ensures rows == LineRows(line, width)
    ensures off >= 0 ==> cursor == CursorIn(line, off, width)
  {
    hide Rewrapping, CursorAhead, LineRows, CursorIn, LineOk;
    rows, cursor := [], (0, 0);
    var cur: seq<Cell>, j := [], 0;
    StartRewrap(line, width);
    while j < |line|
      invariant j <= |line| && Rewrapping(line, width, j, rows, cur)
      invariant off >= 0 ==> if off < j then cursor == CursorIn(line, off, width)
                             else CursorAhead(line, off, width, j, |rows|, cur)
    {
      rows, cur, j, cursor := RewrapChar(line, off, width, rows, cur, j, cursor);
    }
    LastRow(line, width, rows, cur);
    rows := rows + [Pad(cur, width)];
  }

  lemma LastRow(line: seq<Cell>, width: nat, rows: seq<seq<Cell>>, cur: seq<Cell>)
    requires Rewrapping(line, width, |line|, rows, cur)
    ensures LineRows(line, width) == rows + [Pad(cur, width)]
  {
    assert line[|line|..] == [];
    NoHeads();
  }

  /** One step of the rewrap: the character at `j`. */
  method RewrapChar(line: seq<Cell>, off: int, width: nat, rows0: seq<seq<Cell>>, cur0: seq<Cell>, j0: nat, cursor0: (nat, nat))
    returns (rows: seq<seq<Cell>>, cur: seq<Cell>, j: nat, cursor: (nat, nat))
    requires Rewrapping(line, width, j0, rows0, cur0) && j0 < |line| && -1 <= off < |line|
    requires off >= 0 ==> if off < j0 then cursor0 == CursorIn(line, off, width)
                          else CursorAhead(line, off, width, j0, |rows0|, cur0)
    ensures j0 < j <= |line| && Rewrapping(line, width, j, rows, cur)
    ensures off >= 0 ==> if off < j then cursor == CursorIn(line, off, width)
                         else CursorAhead(line, off, width, j, |rows|, cur)
  {
    hide Rewrapping, MaybeFull, CursorAhead, CursorIn, LineOk;
    RewrapFacts(line, width, j0, rows0, cur0);
    rows, cur, j, cursor := rows0, cur0, j0, cursor0;
    SkipSpan(line, j);
    FittedWidth(line[j], line, j, width);
    var cell := line[j];
    var w := cell.width;
    if w <= width && |cur| + w > width {
      // No room left for both halves: the row goes out as it is, padded.
      StepBreak(line, width, j, rows, cur);
      if off >= j {
        CursorBreak(line, off, width, j, |rows|, cur);
      }
      rows, cur := rows + [Pad(cur, width)], [];
    }
    if off == j || (w == 2 && off == j + 1) {
      CursorHere(line, off, width, j, |rows|, cur);
      cursor := (|rows|, |cur| + if w <= width then off - j else 0);
    } else if off > j {
      CursorLater(line, off, width, j, |rows|, cur);
    }
    StepPut(line, width, j, rows, cur);
    // A wide character that cannot fit anywhere becomes a blank.
    cur := cur + if w > width then [BLANK] else CellsOf(cell);
    j := j + Skip(line, j);
    if |cur| == width && j < |line| {
      StepFull(line, width, j, rows, cur);
      if off >= j {
        CursorFull(line, off, width, j, |rows|, cur);
      }
      rows, cur := rows + [cur], [];
    } else {
      FullFacts(line, width, j, rows, cur);
      StepKeep(line, width, j, rows, cur);
    }
  }

  lemma RewrapFacts(line: seq<Cell>, width: nat, j: nat, rows: seq<seq<Cell>>, cur: seq<Cell>)
    requires Rewrapping(line, width, j, rows, cur) && j < |line|
    ensures LineOk(line) && width >= 1 && |cur| < width && line[j].width != 0
  {
  }

  lemma FullFacts(line: seq<Cell>, width: nat, n: nat, rows: seq<seq<Cell>>, next: seq<Cell>)
    requires MaybeFull(line, width, n, rows, next)
    ensures n <= |line| && |next| <= width && (n < |line| ==> line[n].width != 0)
  {
  }
}
