// Reading a reflowed tape back: its logical lines are the ones it was made from,
// the cursor is on the same character of the same line, and a second reflow
// undoes the first (`reflow_width` in crates/posh-term/src/screen.rs).

module Rejoin {
  import opened Cells
  import opened Machine
  import opened Reflow
  import opened Rewrap
  import opened Relines

  // --- lines of a tape ------------------------------------------------------------

  /** How many logical lines from row `i` on end before `row`. */
  function LineNo(rows: seq<Row>, i: nat, row: nat): nat
    requires i <= row < |rows|
    decreases |rows| - i
  {
    if row < LineEnd(rows, i) then 0 else 1 + LineNo(rows, LineEnd(rows, i), row)
  }

  /** The first row of the logical line that holds `row`. */
  function LineStart(rows: seq<Row>, i: nat, row: nat): (s: nat)
    requires i <= row < |rows|
    ensures i <= s <= row < LineEnd(rows, s)
    decreases |rows| - i
  {
    if row < LineEnd(rows, i) then i else LineStart(rows, LineEnd(rows, i), row)
  }

  /** Rows that all wrap but the last are one line. */
  lemma {:induction false} BlockEnd(a: seq<Row>, cells: seq<seq<Cell>>, rest: seq<Row>, q: nat)
    requires q < |cells|
    ensures LineEnd(a + (AsRows(cells) + rest), |a| + q) == |a| + |cells|
    decreases |cells| - q
  {
    var rows := a + (AsRows(cells) + rest);
    assert rows[|a| + q] == AsRows(cells)[q];
    if q + 1 < |cells| {
      BlockEnd(a, cells, rest, q + 1);
    }
  }

  /** The line `s..e` of a tape and the cursor's cell in it. */
  function LineAt(rows: seq<Row>, cols: nat, s: nat, row: nat, col: nat): (seq<Cell>, int)
    requires RowsGood(rows, cols) && s < |rows| && col < cols
  {
    var e := LineEnd(rows, s);
    (LogicalLine(rows, cols, s, e, row, col), CursorOff(rows, s, e, row, col))
  }

  /** Rows `s..` of `out` are the line at `width`. */
  predicate HoldsLine(out: seq<Row>, s: nat, line: seq<Cell>, width: nat)
    requires s < |out| && LineOk(line) && width >= 1
  {
    out[s..LineEnd(out, s)] == AsRows(LineRows(line, width))
  }

  /** In the reflowed tape the cursor is on the line with the same number, which is
      the source line rewrapped, where the rewrap of that line takes it. */
  predicate SameLine(rows: seq<Row>, cols: nat, i: nat, row: nat, col: nat, out: seq<Row>, i2: nat, width: nat, r: nat, c: nat)
    requires RowsGood(rows, cols) && i <= row < |rows| && col < cols && width >= 1 && i2 <= r < |out|
  {
    var s, s2 := LineStart(rows, i, row), LineStart(out, i2, r);
    var (line, off) := LineAt(rows, cols, s, row, col);
    && LineNo(out, i2, r) == LineNo(rows, i, row)
    && LineOk(line) && 0 <= off < |line| && HoldsLine(out, s2, line, width)
    && (r - s2, c) == CursorIn(line, off, width)
  }

  /** One line further back both tapes have one more line. */
  lemma LineAfter(rows: seq<Row>, cols: nat, i: nat, row: nat, col: nat, out: seq<Row>, i2: nat, width: nat, r: nat, c: nat)
    requires RowsGood(rows, cols) && i < |rows| && LineEnd(rows, i) <= row < |rows| && col < cols && width >= 1
    requires i2 < |out| && LineEnd(out, i2) <= r < |out|
    requires SameLine(rows, cols, LineEnd(rows, i), row, col, out, LineEnd(out, i2), width, r, c)
    ensures SameLine(rows, cols, i, row, col, out, i2, width, r, c)
  {
    hide HoldsLine, LineAt, CursorIn, LineOk, RowsGood, LineEnd;
  }

  /** The cursor's own line comes first in both tapes. */
  lemma LineHere(a: seq<Row>, rows: seq<Row>, cols: nat, i: nat, row: nat, col: nat, width: nat, rest: seq<Row>)
    requires RowsGood(rows, cols) && i <= row < |rows| && row < LineEnd(rows, i) && col < cols && width >= 1
    ensures var line, off := LogicalLine(rows, cols, i, LineEnd(rows, i), row, col), CursorOff(rows, i, LineEnd(rows, i), row, col);
            var out := a + (AsRows(LineRows(line, width)) + rest);
            && 0 <= off < |line|
            && var p := CursorIn(line, off, width);
               |a| + p.0 < |out| && SameLine(rows, cols, i, row, col, out, |a|, width, |a| + p.0, p.1)
  {
    hide LogicalLine, LineRows, RowsGood, LineOk, CursorIn, CursorOff, AsRows, LineEnd;
    var j := LineEnd(rows, i);
    var line, off := LogicalLine(rows, cols, i, j, row, col), CursorOff(rows, i, j, row, col);
    var block := AsRows(LineRows(line, width));
    OffPlus(rows, cols, i, j, row, col);
    CursorFollows(line, off, width);
    BlockEnd(a, LineRows(line, width), rest, 0);
    assert (a + (block + rest))[|a|..|a| + |block|] == block;
  }

  lemma {:induction false} LineFound(a: seq<Row>, rows: seq<Row>, cols: nat, i: nat, row: nat, col: nat, width: nat)
    requires RowsGood(rows, cols) && i <= row < |rows| && col < cols && width >= 1
    ensures var p := CursorTo(rows, cols, i, row, col, width);
            var out := a + Relined(rows, cols, i, row, col, width);
            |a| + p.0 < |out| && SameLine(rows, cols, i, row, col, out, |a|, width, |a| + p.0, p.1)
    decreases |rows| - i
  {
    hide LogicalLine, LineRows, RowsGood, LineOk, CursorIn, CursorOff, AsRows, SameLine, LineEnd;
    var j := LineEnd(rows, i);
    var line := LogicalLine(rows, cols, i, j, row, col);
    var block, rest := AsRows(LineRows(line, width)), Relined(rows, cols, j, row, col, width);
    if row < j {
      LineHere(a, rows, cols, i, row, col, width, rest);
    } else {
      LineFound(a + block, rows, cols, j, row, col, width);
      assert (a + block) + rest == a + (block + rest);
      BlockEnd(a, LineRows(line, width), rest, 0);
      var p := CursorTo(rows, cols, j, row, col, width);
      LineAfter(rows, cols, i, row, col, a + (block + rest), |a|, width, |a + block| + p.0, p.1);
    }
  }

  lemma OffPlus(rows: seq<Row>, cols: nat, i: nat, j: nat, row: nat, col: nat)
    requires RowsGood(rows, cols) && i <= row < j <= |rows| && col < cols
    ensures 0 <= CursorOff(rows, i, j, row, col) < |LogicalLine(rows, cols, i, j, row, col)|
    ensures CursorOff(rows, i, j, row, col) == (row - i) * cols + col
  {
    hide RowOk, RowCells, LineOk;
    RowCellsOk(rows[i..row], cols);
    RowLength(RowCells(rows[i..row]), (row - i) * cols);
  }

  // --- characters of a line ---------------------------------------------------------

  /** The characters of each row of the wrap. */
  function Segments(hs: seq<Cell>, width: nat): (segs: seq<seq<Cell>>)
    requires Chars(hs, width)
    decreases |hs|
  {
    var n := Fit(hs, width);
    if n == |hs| then [hs] else [hs[..n]] + Segments(hs[n..], width)
  }

  lemma JoinedFirst(a: seq<Cell>, rest: seq<seq<Cell>>)
    ensures Joined([a] + rest) == a + Joined(rest)
    ensures Joined([]) == []
  {
    assert ([a] + rest)[1..] == rest;
  }

  /** The rows are the segments, padded; the segments together are the line. */
  lemma {:induction false} SegmentsAre(hs: seq<Cell>, width: nat)
    requires Chars(hs, width)
    ensures var segs, rows := Segments(hs, width), Wrapped(hs, width);
            && |segs| == |rows| && Joined(segs) == hs
            && forall r :: 0 <= r < |segs| ==> rows[r] == Pad(Flat(segs[r]), width)
    decreases |hs|
  {
    hide Flat, Pad, Fit, Joined;
    var n := Fit(hs, width);
    JoinedFirst(hs[..n], []);
    if n == |hs| {
      assert hs[..n] == hs;
      assert [hs] + [] == [hs];
    } else {
      var rest := Segments(hs[n..], width);
      SegmentsAre(hs[n..], width);
      JoinedFirst(hs[..n], rest);
      assert hs == hs[..n] + hs[n..];
    }
  }

  /** The number, in its line, of the character that column `c` of row `r` belongs
      to; padding at the end of a row does not count. */
  function CharNo(segs: seq<seq<Cell>>, r: nat, c: nat): int
    requires r < |segs| && c < |Flat(segs[r])|
  {
    |Joined(segs[..r])| + |Heads(Flat(segs[r])[..c + 1])| - 1
  }

  lemma {:induction false} HeadsFlat(hs: seq<Cell>)
    requires forall i :: 0 <= i < |hs| ==> 1 <= hs[i].width <= 2
    ensures Heads(Flat(hs)) == hs
    decreases |hs|
  {
    hide Heads;
    if hs == [] {
      HeadsEnd([], BLANK);
      FlatNone();
    } else {
      var n := |hs| - 1;
      HeadsFlat(hs[..n]);
      HeadsCell(Flat(hs[..n]), hs[n]);
    }
  }

  lemma HeadsCell(a: seq<Cell>, h: Cell)
    requires 1 <= h.width <= 2
    ensures Heads(a + [h]) == Heads(a) + [h] && Heads(a + CellsOf(h)) == Heads(a) + [h]
  {
    hide Heads;
    HeadsEnd(a, h);
    HeadsEnd(a + [h], Spacer(h.style, h.link));
    if h.width == 2 {
      assert a + CellsOf(h) == (a + [h]) + [Spacer(h.style, h.link)];
    }
  }

  /** Columns up to the cells of character `i` hold `i + 1` characters. */
  lemma HeadsUpTo(hs: seq<Cell>, i: nat, c: nat)
    requires i < |hs| && forall k :: 0 <= k < |hs| ==> 1 <= hs[k].width <= 2
    requires var at := |Flat(hs[..i])|; at <= c < at + hs[i].width
    ensures c < |Flat(hs)| && |Heads(Flat(hs)[..c + 1])| == i + 1
  {
    hide Heads, Flat;
    var at := |Flat(hs[..i])|;
    InFlat(hs, i);
    assert hs == hs[..i] + hs[i..];
    FlatAppend(hs[..i], hs[i..]);
    assert Flat(hs)[..at] == Flat(hs[..i]);
    HeadsFlat(hs[..i]);
    HeadsCell(Flat(hs[..i]), hs[i]);
    var upto := Flat(hs)[..c + 1];
    assert upto == Flat(hs)[..at] + Flat(hs)[at..at + |CellsOf(hs[i])|][..c + 1 - at];
    assert c == at ==> upto == Flat(hs[..i]) + [hs[i]];
    assert c == at + 1 ==> upto == Flat(hs[..i]) + CellsOf(hs[i]);
  }

  /** The wrap puts character `i` where the count of characters is `i`. */
  lemma {:induction false} PlaceCounts(hs: seq<Cell>, width: nat, i: nat, half: nat)
    requires Chars(hs, width) && i < |hs| && half < hs[i].width
    ensures var (r, c), segs := Place(hs, width, i), Segments(hs, width);
            r < |segs| && c + half < |Flat(segs[r])| && CharNo(segs, r, c + half) == i
    decreases |hs|
  {
    hide Flat, Heads, Fit;
    var n, segs := Fit(hs, width), Segments(hs, width);
    if i < n {
      assert hs[..n][..i] == hs[..i] && hs[..n][i] == hs[i];
      HeadsUpTo(hs[..n], i, |Flat(hs[..i])| + half);
      assert n == |hs| ==> hs[..n] == hs;
      assert segs[..0] == [] && segs[0] == hs[..n];
    } else {
      PlaceCounts(hs[n..], width, i - n, half);
      var r, rest := Place(hs[n..], width, i - n).0, Segments(hs[n..], width);
      assert segs == [hs[..n]] + rest;
      assert segs[..r + 1][1..] == rest[..r];
    }
  }

  /** In its rewrapped line the cursor is on the character with the number it had. */
  lemma CharKept(line: seq<Cell>, off: nat, width: nat)
    requires LineOk(line) && width >= 1 && off < |line| && Chars(LineChars(line, width), width)
    ensures var (r, c), segs := CursorIn(line, off, width), Segments(LineChars(line, width), width);
            r < |segs| && c < |Flat(segs[r])| && CharNo(segs, r, c) == |Heads(line[..off + 1])| - 1
  {
    hide Heads, Segments, Place, CharNo, Chars, Flat;
    CharAtBound(line, off);
    CharIs(line, off);
    assert CellOk(line[off]);
    var i := CharAt(line, off);
    FittedHead(line, width, i);
    PlaceCounts(LineChars(line, width), width, i, if line[off].width == 0 && width >= 2 then 1 else 0);
  }

  lemma FittedHead(line: seq<Cell>, width: nat, i: nat)
    requires LineOk(line) && width >= 1 && i < |Heads(line)|
    ensures Chars(LineChars(line, width), width)
    ensures LineChars(line, width)[i] == Fitted(Heads(line)[i], width) && LineChars(line, width)[i].width >= 1
    ensures width >= 2 ==> LineChars(line, width)[i].width == Heads(line)[i].width
  {
    CharsOk(line, width);
    assert Heads(line)[i] in line;
  }

  // --- the cursor keeps its logical place ---------------------------------------------

  /** A line of narrow cells is its own list of characters. */
  lemma NarrowChars(line: seq<Cell>, width: nat)
    requires LineOk(line) && AllNarrow(line) && width >= 1
    ensures LineChars(line, width) == line && Chars(line, width)
  {
    HeadsNarrow(line);
    CharsOk(line, width);
    assert LineChars(line, width) == line;
  }

  lemma NarrowCell(line: seq<Cell>, off: nat)
    requires AllNarrow(line) && off < |line|
    ensures line[off].width == 1 && AllNarrow(line[..off + 1])
  {
  }

  lemma NarrowCursor(line: seq<Cell>, off: nat, width: nat)
    requires LineOk(line) && AllNarrow(line) && width >= 1 && off < |line|
    ensures var (r, c) := CursorIn(line, off, width); r * width + c == off
  {
    hide LineOk, LineChars, Heads, Place, Chars;
    NarrowChars(line, width);
    NarrowCell(line, off);
    HeadsNarrow(line[..off + 1]);
    NarrowOffset(line, width, off);
  }

  /** Column `c` of row `r` of the rewrapped line belongs to the character with the
      number of the one that cell `off` belongs to; in a narrow line it is at the
      same offset. */
  predicate SameChar(line: seq<Cell>, off: nat, width: nat, r: nat, c: nat)
    requires LineOk(line) && off < |line| && width >= 1
  {
    && Chars(LineChars(line, width), width)
    && var segs := Segments(LineChars(line, width), width);
       && r < |segs| && c < |Flat(segs[r])|
       && CharNo(segs, r, c) == |Heads(line[..off + 1])| - 1
       && (AllNarrow(line) ==> r * width + c == off)
  }

  lemma CharStays(line: seq<Cell>, off: nat, width: nat)
    requires LineOk(line) && off < |line| && width >= 1
    ensures var p := CursorIn(line, off, width); SameChar(line, off, width, p.0, p.1)
  {
    hide Heads, Segments, CharNo, Chars, Flat, AllNarrow, CursorIn, LineOk;
    CharsOk(line, width);
    CharKept(line, off, width);
    if AllNarrow(line) {
      NarrowCursor(line, off, width);
    }
  }

  /** The cursor of the reflowed tape is on the logical line with the number of its
      own, on the character with the number of its own, on the same half of it (two
      columns or more), and in a narrow line at its own offset. */
  predicate SamePlace(rows: seq<Row>, cols: nat, row: nat, col: nat, out: seq<Row>, width: nat, r: nat, c: nat)
    requires RowsGood(rows, cols) && row < |rows| && col < cols && width >= 1
  {
    && r < |out| && SameLine(rows, cols, 0, row, col, out, 0, width, r, c)
    && var s, s2 := LineStart(rows, 0, row), LineStart(out, 0, r);
       var (line, off) := LineAt(rows, cols, s, row, col);
       && off == (row - s) * cols + col && line[off] == rows[row].cells[col]
       && SameChar(line, off, width, r - s2, c)
       && (width >= 2 ==> SameHalf(rows[row].cells, col, out[r].cells, c))
  }

  /** Both cells are spacers or neither is. */
  predicate SameHalf(cells: seq<Cell>, col: nat, now: seq<Cell>, c: nat)
    requires col < |cells|
  {
    c < |now| && (now[c].width == 0 <==> cells[col].width == 0)
  }

  lemma CursorLocated(rows: seq<Row>, cols: nat, row: nat, col: nat, width: nat)
    requires RowsGood(rows, cols) && row < |rows| && col < cols && width >= 1
    ensures var p := CursorTo(rows, cols, 0, row, col, width);
            SamePlace(rows, cols, row, col, Relined(rows, cols, 0, row, col, width), width, p.0, p.1)
  {
    hide RowsGood, Relined, CursorTo, LogicalLine, LineOk, SameChar, CursorIn, HoldsLine, LineNo, CursorOff, LineStart;
    var p, out := CursorTo(rows, cols, 0, row, col, width), Relined(rows, cols, 0, row, col, width);
    LineFound([], rows, cols, 0, row, col, width);
    assert [] + out == out;
    var s := LineStart(rows, 0, row);
    var (line, off) := LineAt(rows, cols, s, row, col);
    OffPlus(rows, cols, s, LineEnd(rows, s), row, col);
    CursorCell(rows, cols, s, LineEnd(rows, s), row, col);
    CharStays(line, off, width);
    if width >= 2 {
      CursorKept(rows, cols, 0, row, col, width);
    }
  }
}
