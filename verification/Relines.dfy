// Reflowing a whole tape of rows: unwrap each logical line, trim it, rewrap it,
// and follow the cursor (`reflow_width` in crates/posh-term/src/screen.rs).

module Relines {
  import opened Cells
  import opened Machine
  import opened Reflow
  import opened Rewrap

  predicate RowsGood(rows: seq<Row>, cols: nat) {
    cols >= 1 && forall i :: 0 <= i < |rows| ==> RowOk(rows[i].cells, cols)
  }

  function RowCells(rows: seq<Row>): (c: seq<Cell>)
  {
    if rows == [] then [] else RowCells(rows[..|rows| - 1]) + rows[|rows| - 1].cells
  }

  lemma {:induction false} RowCellsOk(rows: seq<Row>, cols: nat)
    requires RowsGood(rows, cols)
    ensures RowOk(RowCells(rows), |rows| * cols)
    decreases |rows|
  {
    if rows != [] {
      var a, b := RowCells(rows[..|rows| - 1]), rows[|rows| - 1].cells;
      RowCellsOk(rows[..|rows| - 1], cols);
      assert |rows| * cols == (|rows| - 1) * cols + cols;
      forall c: nat | c < |a + b|
        ensures !Orphan(a + b, c)
      {
        if c < |a| {
          assert !Orphan(a, c);
        } else {
          assert !Orphan(b, c - |a|);
        }
      }
    }
  }

  /** A prefix of whole pairs is a line that trimming may have cut. */
  lemma PrefixLineOk(cells: seq<Cell>, n: nat)
    requires RowOk(cells, |cells|) && n <= |cells|
    ensures LineOk(cells[..n])
  {
    forall x: nat | x < n
      ensures !Stray(cells[..n], x)
    {
      assert !Orphan(cells, x);
    }
  }

  /** The row after the logical line that begins at `i`. */
  function LineEnd(rows: seq<Row>, i: nat): (j: nat)
    requires i < |rows|
    ensures i < j <= |rows|
    decreases |rows| - i
  {
    if !rows[i].wrapped || i + 1 == |rows| then i + 1 else LineEnd(rows, i + 1)
  }

  /** The cursor's cell in the line `i..j`, or -1 if it is on another line. */
  function CursorOff(rows: seq<Row>, i: nat, j: nat, row: nat, col: nat): int
    requires i <= j <= |rows|
  {
    if i <= row < j then |RowCells(rows[i..row])| + col else -1
  }

  /** The line without its trailing blanks, but never short of the cursor. */
  function Trimmed(cells: seq<Cell>, off: int): (r: seq<Cell>)
    requires -1 <= off < |cells|
    ensures off < |r| <= |cells| && r == cells[..|r|]
    ensures |r| == off + 1 || !IsSkippable(r[|r| - 1])
    ensures forall x :: |r| <= x < |cells| ==> IsSkippable(cells[x])
  {
    cells[..Max(RowEnd(cells), off + 1)]
  }

  lemma SpanBound(i: nat, row: nat, j: nat, cols: nat)
    requires i <= row < j
    ensures (row - i) * cols + cols <= (j - i) * cols
  {
    assert (j - i) * cols == (row - i) * cols + (j - row) * cols;
    assert (j - row) * cols == (j - row - 1) * cols + cols;
  }

  lemma OffBound(rows: seq<Row>, cols: nat, i: nat, j: nat, row: nat, col: nat)
    requires RowsGood(rows, cols) && i < j <= |rows| && col < cols
    ensures -1 <= CursorOff(rows, i, j, row, col) < |RowCells(rows[i..j])|
  {
    hide RowOk, RowCells;
    RowCellsOk(rows[i..j], cols);
    RowLength(RowCells(rows[i..j]), (j - i) * cols);
    SpanBound(i, i, j, cols);
    if i <= row < j {
      RowCellsOk(rows[i..row], cols);
      RowLength(RowCells(rows[i..row]), (row - i) * cols);
      SpanBound(i, row, j, cols);
    }
  }

  /** The trimmed logical line `i..j`. */
  function LogicalLine(rows: seq<Row>, cols: nat, i: nat, j: nat, row: nat, col: nat): (r: seq<Cell>)
    requires RowsGood(rows, cols) && i < j <= |rows| && col < cols
    ensures LineOk(r) && -1 <= CursorOff(rows, i, j, row, col) < |r|
  {
    OffBound(rows, cols, i, j, row, col);
    RowCellsOk(rows[i..j], cols);
    var r := Trimmed(RowCells(rows[i..j]), CursorOff(rows, i, j, row, col));
    PrefixLineOk(RowCells(rows[i..j]), |r|);
    r
  }

  /** The rows of one line: all but the last wrap. */
  function AsRows(cells: seq<seq<Cell>>): (r: seq<Row>)
    ensures |r| == |cells|
    ensures forall k :: 0 <= k < |r| ==> r[k] == Row(cells[k], k + 1 < |cells|)
  {
    seq(|cells|, k requires 0 <= k < |cells| => Row(cells[k], k + 1 < |cells|))
  }

  /** Every line from row `i` on, rewrapped. */
  function Relined(rows: seq<Row>, cols: nat, i: nat, row: nat, col: nat, width: nat): seq<Row>
    requires RowsGood(rows, cols) && i <= |rows| && col < cols && width >= 1
    decreases |rows| - i
  {
    if i == |rows| then [] else
      var j := LineEnd(rows, i);
      AsRows(LineRows(LogicalLine(rows, cols, i, j, row, col), width)) + Relined(rows, cols, j, row, col, width)
  }

  /** The cursor's new row, counted in the rows from line `i` on, and column. */
  function CursorTo(rows: seq<Row>, cols: nat, i: nat, row: nat, col: nat, width: nat): (nat, nat)
    requires RowsGood(rows, cols) && i <= row < |rows| && col < cols && width >= 1
    decreases |rows| - i
  {
    var j := LineEnd(rows, i);
    var line := LogicalLine(rows, cols, i, j, row, col);
    if row < j then CursorIn(line, CursorOff(rows, i, j, row, col), width)
    else var p := CursorTo(rows, cols, j, row, col, width); (|LineRows(line, width)| + p.0, p.1)
  }

  predicate BlankEnd(r: Row) {
    !r.wrapped && forall x :: 0 <= x < |r.cells| ==> IsSkippable(r.cells[x])
  }

  /** Without the trailing all-blank rows after row `keep - 1`. */
  function DropTail(rows: seq<Row>, keep: nat): (r: seq<Row>)
    ensures r <= rows && (|rows| >= keep ==> |r| >= keep)
    ensures forall k :: |r| <= k < |rows| ==> BlankEnd(rows[k])
    decreases |rows|
  {
    if |rows| > keep && BlankEnd(rows[|rows| - 1]) then DropTail(rows[..|rows| - 1], keep) else rows
  }

  // --- what reflow keeps --------------------------------------------------------------

  /** Every new row has exactly the new width and splits no wide character. */
  lemma {:induction false} RelinedRows(rows: seq<Row>, cols: nat, i: nat, row: nat, col: nat, width: nat)
    requires RowsGood(rows, cols) && i <= |rows| && col < cols && width >= 1
    ensures RowsGood(Relined(rows, cols, i, row, col, width), width)
    decreases |rows| - i
  {
    hide LogicalLine, LineRows, RowOk, LineOk;
    if i < |rows| {
      var j := LineEnd(rows, i);
      var line := LogicalLine(rows, cols, i, j, row, col);
      LineRowsOk(line, width);
      RelinedRows(rows, cols, j, row, col, width);
    }
  }

  lemma LineRowsOk(line: seq<Cell>, width: nat)
    requires LineOk(line) && width >= 1
    ensures forall r :: 0 <= r < |LineRows(line, width)| ==> RowOk(LineRows(line, width)[r], width)
  {
    CharsOk(line, width);
    WrappedRows(LineChars(line, width), width);
  }

  lemma {:induction false} HeadsNarrow(line: seq<Cell>)
    requires AllNarrow(line)
    ensures Heads(line) == line
    decreases |line|
  {
    hide Heads;
    var n := |line| - 1;
    HeadsEnd([], BLANK);
    if line != [] {
      HeadsNarrow(line[..n]);
      HeadsEnd(line[..n], line[n]);
      assert line[..n] + [line[n]] == line;
    }
  }

  /** A logical line of narrow cells is unchanged up to its trailing blanks,
      whatever the width, and its cells follow each other as before. */
  lemma NarrowLineKept(rows: seq<Row>, cols: nat, i: nat, row: nat, col: nat, width: nat)
    requires RowsGood(rows, cols) && i < |rows| && col < cols && width >= 1
    requires AllNarrow(RowCells(rows[i..LineEnd(rows, i)]))
    ensures var j := LineEnd(rows, i);
            var line := LogicalLine(rows, cols, i, j, row, col);
            var was, now, n := RowCells(rows[i..j]), Joined(LineRows(line, width)), |line|;
            && n <= |was| && n <= |now| && now[..n] == was[..n]
            && (forall x :: n <= x < |was| ==> IsSkippable(was[x]))
            && (forall x :: n <= x < |now| ==> now[x] == BLANK)
  {
    hide RowCells, Wrapped, Joined, RowEnd, CursorOff, LineEnd;
    var j := LineEnd(rows, i);
    OffBound(rows, cols, i, j, row, col);
    var was, line := RowCells(rows[i..j]), LogicalLine(rows, cols, i, j, row, col);
    assert line == was[..|line|];
    HeadsNarrow(line);
    var hs := LineChars(line, width);
    assert hs == line;
    CharsOk(line, width);
    NarrowKept(hs, width);
  }

  /** The cursor lands on the cell it was on. */
  lemma {:induction false} CursorKept(rows: seq<Row>, cols: nat, i: nat, row: nat, col: nat, width: nat)
    requires RowsGood(rows, cols) && i <= row < |rows| && col < cols && width >= 2
    ensures var (r, c), out := CursorTo(rows, cols, i, row, col, width), Relined(rows, cols, i, row, col, width);
            && r < |out| && c < width && |out[r].cells| == width
            && (rows[row].cells[col].width != 0 ==> out[r].cells[c] == rows[row].cells[col])
            && (rows[row].cells[col].width == 0 ==> out[r].cells[c].width == 0)
    decreases |rows| - i
  {
    hide LogicalLine, LineRows, RowOk, LineOk, CursorIn, RowCells;
    var j := LineEnd(rows, i);
    var line := LogicalLine(rows, cols, i, j, row, col);
    if row < j {
      var off := CursorOff(rows, i, j, row, col);
      CursorCell(rows, cols, i, j, row, col);
      CursorFollows(line, off, width);
      var (r, c) := CursorIn(line, off, width);
      assert Relined(rows, cols, i, row, col, width)[r] == AsRows(LineRows(line, width))[r];
    } else {
      CursorKept(rows, cols, j, row, col, width);
    }
  }

  /** The cell at the cursor's offset in its line is the cursor's cell. */
  lemma CursorCell(rows: seq<Row>, cols: nat, i: nat, j: nat, row: nat, col: nat)
    requires RowsGood(rows, cols) && i <= row < j <= |rows| && col < cols
    ensures LogicalLine(rows, cols, i, j, row, col)[CursorOff(rows, i, j, row, col)] == rows[row].cells[col]
  {
    hide RowOk, LineOk;
    OffBound(rows, cols, i, j, row, col);
    var cells, off := RowCells(rows[i..j]), CursorOff(rows, i, j, row, col);
    SpanCell(rows, i, j, row);
    assert RowOk(rows[row].cells, cols);
    RowLength(rows[row].cells, cols);
    assert cells[off] == cells[off - col..off - col + |rows[row].cells|][col];
  }

  lemma RowLength(cells: seq<Cell>, cols: nat)
    requires RowOk(cells, cols)
    ensures |cells| == cols
  {
  }

  lemma {:induction false} SpanCell(rows: seq<Row>, i: nat, j: nat, row: nat)
    requires i <= row < j <= |rows|
    ensures var n := |RowCells(rows[i..row])|;
            && n + |rows[row].cells| <= |RowCells(rows[i..j])|
            && RowCells(rows[i..j])[n..n + |rows[row].cells|] == rows[row].cells
    decreases j - row
  {
    assert rows[i..row + 1][..row - i] == rows[i..row];
    if row + 1 < j {
      SpanCell(rows, i, j - 1, row);
      assert rows[i..j][..j - i - 1] == rows[i..j - 1];
    }
  }
}
