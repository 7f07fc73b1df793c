// One reflow after another: when the rows of a line read back as the line they were
// made from (`reflow_width` in crates/posh-term/src/screen.rs).

module Reread {
  import opened Cells
  import opened Machine
  import opened Reflow
  import opened Rewrap
  import opened Relines
  import opened Rejoin

  // --- lines without padding --------------------------------------------------------

  /** No row but the last had to be padded. */
  predicate Padless(hs: seq<Cell>, width: nat)
    requires Chars(hs, width)
  {
    var segs := Segments(hs, width);
    forall r :: 0 <= r < |segs| - 1 ==> |Flat(segs[r])| == width
  }

  lemma PadlessNext(hs: seq<Cell>, width: nat)
    requires Chars(hs, width) && Fit(hs, width) < |hs|
    ensures var n := Fit(hs, width); Padless(hs, width) <==> |Flat(hs[..n])| == width && Padless(hs[n..], width)
  {
    hide Flat, Fit;
    var n := Fit(hs, width);
    var segs, rest := Segments(hs, width), Segments(hs[n..], width);
    assert segs[0] == hs[..n] && segs[1..] == rest;
    if |Flat(hs[..n])| == width && Padless(hs[n..], width) {
      forall r | 0 <= r < |segs| - 1
        ensures |Flat(segs[r])| == width
      {
        if r > 0 {
          assert segs[r] == rest[r - 1];
        }
      }
    }
    if Padless(hs, width) {
      forall r | 0 <= r < |rest| - 1
        ensures |Flat(rest[r])| == width
      {
        assert segs[r + 1] == rest[r];
      }
    }
  }

  /** The character that did not fit a row is wide if the row has a column left. */
  lemma PaddedFor(hs: seq<Cell>, width: nat)
    requires Chars(hs, width) && Fit(hs, width) < |hs|
    ensures var n := Fit(hs, width);
            && Flat(hs) == Flat(hs[..n]) + Flat(hs[n..]) && Flat(hs[n..]) != [] && Flat(hs[n..])[0] == hs[n]
            && (|Flat(hs[..n])| < width ==> |Flat(hs[..n])| == width - 1 && hs[n].width == 2)
  {
    hide Flat, Fit;
    var n := Fit(hs, width);
    assert hs == hs[..n] + hs[n..] && hs[n..] == [hs[n]] + hs[n + 1..] && hs[..n + 1] == hs[..n] + [hs[n]];
    FlatAppend(hs[..n], hs[n..]);
    FlatAppend([hs[n]], hs[n + 1..]);
    FlatAppend(hs[..n], [hs[n]]);
    FlatOne(hs[n]);
  }

  /** Rewrapped characters read back as they were, but for blanks behind them, if and
      only if no row but the last was padded. */
  lemma {:induction false} ReadsBack(hs: seq<Cell>, width: nat)
    requires Chars(hs, width)
    ensures var f, j := Flat(hs), Joined(Wrapped(hs, width));
            && |f| <= |j| && (j[..|f|] == f <==> Padless(hs, width))
            && (Padless(hs, width) ==> forall x :: |f| <= x < |j| ==> j[x] == BLANK)
    decreases |hs|
  {
    hide Flat, Fit, Padless;
    var n, rows := Fit(hs, width), Wrapped(hs, width);
    var f, j := Flat(hs), Joined(rows);
    if n == |hs| {
      assert hs[..n] == hs;
      assert rows[1..] == [] && Joined(rows[1..]) == [];
      assert j == Pad(f, width) + [] == Pad(f, width);
      PadlessLast(hs, width);
    } else {
      var a, g, k := Flat(hs[..n]), Flat(hs[n..]), Joined(rows[1..]);
      assert rows[1..] == Wrapped(hs[n..], width) && j == Pad(a, width) + k;
      ReadsBack(hs[n..], width);
      PadlessNext(hs, width);
      PaddedFor(hs, width);
      if |a| == width {
        assert j[..|f|] == a + k[..|g|];
        assert j[..|f|] == f ==> j[..|f|][|a|..] == f[|a|..];
      } else {
        assert j[..|f|][|a|] == BLANK && f[|a|] == hs[n];
      }
    }
  }

  lemma PadlessLast(hs: seq<Cell>, width: nat)
    requires Chars(hs, width) && Fit(hs, width) == |hs|
    ensures Padless(hs, width)
  {
  }

  /** Without padding a character is as many cells down the rows as down the line. */
  lemma {:induction false} PadlessOffset(hs: seq<Cell>, width: nat, i: nat)
    requires Chars(hs, width) && Padless(hs, width) && i < |hs|
    ensures var (r, c) := Place(hs, width, i); r * width + c == |Flat(hs[..i])|
    decreases |hs|
  {
    hide Flat, Fit, Padless;
    var n := Fit(hs, width);
    if i < n {
      assert hs[..n][..i] == hs[..i];
    } else {
      PadlessNext(hs, width);
      PadlessOffset(hs[n..], width, i - n);
      NextRow(Place(hs[n..], width, i - n), width, |Flat(hs[n..][..i - n])|);
      assert hs[..i] == hs[..n] + hs[n..][..i - n];
      FlatAppend(hs[..n], hs[n..][..i - n]);
    }
  }

  lemma {:induction false} NarrowPadless(hs: seq<Cell>, width: nat)
    requires Chars(hs, width) && AllNarrow(hs)
    ensures Padless(hs, width)
    decreases |hs|
  {
    hide Flat, Padless;
    var n := Fit(hs, width);
    if n == |hs| {
      PadlessLast(hs, width);
    } else {
      FlatNarrow(hs[..n]);
      FlatNarrow(hs[..n + 1]);
      NarrowPadless(hs[n..], width);
      PadlessNext(hs, width);
    }
  }

  // --- a line and what it reads back as --------------------------------------------

  /** Every character of the line fits a row, and only the last row has padding. */
  predicate Whole(line: seq<Cell>, width: nat)
    requires LineOk(line)
  {
    Chars(Heads(line), width) && Padless(Heads(line), width)
  }

  /** The line ends with the cursor or with a cell that is not skippable. */
  predicate Ends(line: seq<Cell>, off: int) {
    |line| == off + 1 || (line != [] && !IsSkippable(line[|line| - 1]))
  }

  /** The same characters with the cursor on the same half of the same one; the
      spacers may differ. */
  predicate SameText(line: seq<Cell>, off: int, next: seq<Cell>, off2: int)
    requires LineOk(line) && LineOk(next) && -1 <= off < |line|
  {
    && -1 <= off2 < |next| && Heads(next) == Heads(line) && (off == -1 <==> off2 == -1)
    && (off >= 0 ==> CharAt(next, off2) == CharAt(line, off) && (next[off2].width == 0 <==> line[off].width == 0))
  }

  /** Lines of the same text are rewrapped alike. */
  lemma SameRewrap(line: seq<Cell>, off: int, next: seq<Cell>, off2: int, width: nat)
    requires LineOk(line) && LineOk(next) && -1 <= off < |line| && SameText(line, off, next, off2) && width >= 1
    ensures LineRows(next, width) == LineRows(line, width)
    ensures off >= 0 ==> CursorIn(next, off2, width) == CursorIn(line, off, width)
  {
    hide LineOk, Heads, Wrapped, CharAt, Chars;
    CharsOk(line, width);
  }

  lemma WholeChars(line: seq<Cell>, width: nat)
    requires LineOk(line) && width >= 1 && Whole(line, width)
    ensures LineChars(line, width) == Heads(line) && Chars(Heads(line), width) && Padless(Heads(line), width)
  {
    hide Padless, Heads;
    assert FittedAll(Heads(line), width) == Heads(line);
  }

  /** The last character of a line. */
  lemma LastChar(line: seq<Cell>)
    requires LineOk(line) && line != []
    ensures var hs, n := Heads(line), |line|;
            && hs != [] && (line[n - 1].width == 0 ==> n >= 2)
            && hs[|hs| - 1] == (if line[n - 1].width == 0 then line[n - 2] else line[n - 1])
            && (line[n - 1].width == 0 ==> hs[|hs| - 1].width == 2)
  {
    hide Heads;
    LastHead(line, |line| - 1);
    CharAtBound(line, |line| - 1);
    assert line[..|line|] == line;
  }

  /** Where cell `off` is among the cells of the characters. */
  function FlatOff(line: seq<Cell>, off: nat): nat
    requires LineOk(line) && off < |line|
  {
    |Flat(Heads(line)[..CharAt(line, off)])| + if line[off].width == 0 then 1 else 0
  }

  lemma FlatOffIs(line: seq<Cell>, off: nat)
    requires LineOk(line) && off < |line|
    ensures var f, o, i := Flat(Heads(line)), FlatOff(line, off), CharAt(line, off);
            && o < |f| && |Heads(f[..o + 1])| == i + 1 && (f[o].width == 0 <==> line[off].width == 0)
            && (off == |line| - 1 ==> i == |Heads(line)| - 1)
  {
    hide Heads, Flat;
    var hs, i := Heads(line), CharAt(line, off);
    CharsOk(line, 2);
    HeadsFit(line);
    CharIs(line, off);
    CharAtBound(line, off);
    HeadsUpTo(hs, i, FlatOff(line, off));
    InFlat(hs, i);
    var at := |Flat(hs[..i])|;
    assert Flat(hs)[at..at + |CellsOf(hs[i])|][0] == CellsOf(hs[i])[0];
    if line[off].width == 0 {
      assert Flat(hs)[at..at + |CellsOf(hs[i])|][1] == CellsOf(hs[i])[1];
    }
    assert line[..|line|] == line;
  }

  lemma HeadsFit(line: seq<Cell>)
    requires LineOk(line)
    ensures forall k :: 0 <= k < |Heads(line)| ==> 1 <= Heads(line)[k].width <= 2 && CellOk(Heads(line)[k])
  {
    hide Heads;
    forall k | 0 <= k < |Heads(line)|
      ensures 1 <= Heads(line)[k].width <= 2 && CellOk(Heads(line)[k])
    {
      assert Heads(line)[k] in line;
    }
  }

  /** The cells of the characters, cut behind the last one's first cell at the
      earliest, still hold all characters. */
  lemma CutHeads(hs: seq<Cell>, n: nat)
    requires hs != [] && forall k :: 0 <= k < |hs| ==> 1 <= hs[k].width <= 2
    requires |Flat(hs[..|hs| - 1])| < n <= |Flat(hs)|
    ensures Heads(Flat(hs)[..n]) == hs
  {
    hide Heads, Flat;
    var m := |hs| - 1;
    var a, h := Flat(hs[..m]), hs[m];
    HeadsFlat(hs[..m]);
    HeadsCell(a, h);
    assert hs == hs[..m] + [h];
    FlatAppend(hs[..m], [h]);
    FlatOne(h);
    assert Flat(hs) == a + CellsOf(h);
    if n == |a| + 1 {
      assert Flat(hs)[..n] == a + [h];
    } else {
      assert Flat(hs)[..n] == a + CellsOf(h);
    }
  }

  /** The cursor of a rewrapped line, counted in cells from its first row. */
  lemma CursorFlat(line: seq<Cell>, off: nat, width: nat)
    requires LineOk(line) && off < |line| && width >= 1 && Whole(line, width)
    ensures var (r, c) := CursorIn(line, off, width); r * width + c == FlatOff(line, off)
  {
    hide Heads, Flat, Place, Padless, LineOk;
    WholeChars(line, width);
    PadlessOffset(Heads(line), width, CharAt(line, off));
    if line[off].width == 0 {
      SpacerFits(line, off, width);
    }
  }

  lemma SpacerFits(line: seq<Cell>, off: nat, width: nat)
    requires LineOk(line) && off < |line| && line[off].width == 0 && width >= 1 && Whole(line, width)
    ensures width >= 2
  {
    hide Heads, Padless;
    CharAtBound(line, off);
    CharIs(line, off);
  }

  /** The last character is not trimmed off what its line became. */
  lemma LastStays(line: seq<Cell>, off: int, off2: int, next: seq<Cell>, joined: seq<Cell>)
    requires LineOk(line) && line != [] && -1 <= off < |line| && Ends(line, off)
    requires off2 == if off < 0 then -1 else FlatOff(line, off)
    requires var f := Flat(Heads(line)); |f| <= |joined| && joined[..|f|] == f
    requires off2 < |joined| && next == Trimmed(joined, off2)
    ensures Heads(line) != [] && |Flat(Heads(line)[..|Heads(line)| - 1])| < |next|
  {
    hide Heads, Flat;
    LastChar(line);
    HeadsFit(line);
    var hs := Heads(line);
    var q := |Flat(hs[..|hs| - 1])|;
    InFlat(hs, |hs| - 1);
    var f := Flat(hs);
    assert f[q..q + |CellsOf(hs[|hs| - 1])|][0] == hs[|hs| - 1];
    assert joined[q] == joined[..|f|][q] == hs[|hs| - 1];
    if |next| <= q {
      assert IsSkippable(joined[q]);
      assert line[|line| - 1].width != 0 && off == |line| - 1;
      FlatOffIs(line, off);
    }
  }

  /** The rows of a line, joined and trimmed, have its text and its cursor. */
  lemma TextBack(line: seq<Cell>, off: int, width: nat, off2: int, joined: seq<Cell>)
    requires LineOk(line) && -1 <= off < |line| && Ends(line, off) && width >= 1 && Whole(line, width)
    requires off2 == if off < 0 then -1 else FlatOff(line, off)
    requires joined == Joined(LineRows(line, width)) && off2 < |joined| && LineOk(Trimmed(joined, off2))
    ensures SameText(line, off, Trimmed(joined, off2), off2)
  {
    hide Heads, Flat, Joined, Wrapped, Padless, LineOk, IsSkippable;
    var hs, next := Heads(line), Trimmed(joined, off2);
    var f := Flat(hs);
    WholeChars(line, width);
    ReadsBack(hs, width);
    if off >= 0 {
      FlatOffIs(line, off);
    }
    NotBeyond(joined, |f|, off2);
    assert next == f[..|next|];
    if line == [] {
      NoHeads();
    } else {
      HeadsFit(line);
      LastChar(line);
      LastStays(line, off, off2, next, joined);
      CutHeads(hs, |next|);
    }
    if off >= 0 {
      assert next[..off2 + 1] == f[..off2 + 1];
    }
  }

  lemma NoHeads()
    ensures Heads([]) == [] && Flat([]) == []
  {
  }

  /** Trimming goes as far as the blanks behind the text. */
  lemma NotBeyond(joined: seq<Cell>, n: nat, off: int)
    requires -1 <= off < n <= |joined| || (off == -1 && n <= |joined|)
    requires forall x :: n <= x < |joined| ==> joined[x] == BLANK
    ensures |Trimmed(joined, off)| <= n
  {
    assert IsSkippable(BLANK);
  }

  // --- tapes -----------------------------------------------------------------------

  lemma {:induction false} BlockCells(cells: seq<seq<Cell>>, n: nat)
    requires n <= |cells|
    ensures RowCells(AsRows(cells)[..n]) == Joined(cells[..n])
    decreases n
  {
    if n > 0 {
      BlockCells(cells, n - 1);
      assert AsRows(cells)[..n][..n - 1] == AsRows(cells)[..n - 1];
      JoinedSnoc(cells[..n - 1], cells[n - 1]);
      assert cells[..n - 1] + [cells[n - 1]] == cells[..n];
    }
  }

  lemma {:induction false} JoinedSnoc(a: seq<seq<Cell>>, b: seq<Cell>)
    ensures Joined(a + [b]) == Joined(a) + b
    decreases |a|
  {
    if a == [] {
      assert [b][1..] == [];
      assert a + [b] == [b];
    } else {
      JoinedSnoc(a[1..], b);
      assert (a + [b])[1..] == a[1..] + [b];
    }
  }

  /** Where the cursor is in the reflowed tape behind the rows `a`: as `CursorTo`
      says while its line is ahead, else among `a`. */
  predicate CursorAt(a: seq<Row>, rows: seq<Row>, cols: nat, i: nat, row: nat, col: nat, width: nat, r: nat, c: nat)
    requires RowsGood(rows, cols) && i <= |rows| && row < |rows| && col < cols && width >= 1
  {
    c < width && if i <= row then (r, c) == (|a| + CursorTo(rows, cols, i, row, col, width).0, CursorTo(rows, cols, i, row, col, width).1)
                 else r < |a|
  }

  lemma BlockSpan(a: seq<Row>, cells: seq<seq<Cell>>, rest: seq<Row>)
    requires cells != []
    ensures var out, n := a + (AsRows(cells) + rest), |cells|;
            LineEnd(out, |a|) == |a| + n && |a| + n <= |out| && RowCells(out[|a|..|a| + n]) == Joined(cells)
  {
    hide RowCells, Joined, LineEnd, AsRows;
    var n := |cells|;
    BlockEnd(a, cells, rest, 0);
    assert (a + (AsRows(cells) + rest))[|a|..|a| + n] == AsRows(cells) == AsRows(cells)[..n];
    BlockCells(cells, n);
    assert cells[..n] == cells;
  }

  /** The first line of the reflowed tape reads back as one of the same text. */
  lemma LineBack(a: seq<Row>, rest: seq<Row>, line: seq<Cell>, off: int, width: nat, r: nat, c: nat)
    requires LineOk(line) && width >= 1 && -1 <= off < |line| && Ends(line, off) && Whole(line, width) && c < width
    requires var block := AsRows(LineRows(line, width));
             && RowsGood(a + (block + rest), width)
             && (if off >= 0 then |a| <= r < |a| + |block| && (r - |a|, c) == CursorIn(line, off, width)
                 else r < |a| || r >= |a| + |block|)
    ensures var out, n := a + (AsRows(LineRows(line, width)) + rest), |LineRows(line, width)|;
            && LineEnd(out, |a|) == |a| + n
            && SameText(line, off, LogicalLine(out, width, |a|, |a| + n, r, c), CursorOff(out, |a|, |a| + n, r, c))
  {
    hide RowsGood, LineOk, RowCells, CursorIn, CursorOff, Joined, Trimmed, LineEnd, LineRows, AsRows, SameText, Whole, Ends,
      FlatOff;
    var cells := LineRows(line, width);
    var out, j := a + (AsRows(cells) + rest), |a| + |cells|;
    BlockSpan(a, cells, rest);
    OffBound(out, width, |a|, j, r, c);
    OffBack(out, width, |a|, j, line, off, r, c);
    assert LogicalLine(out, width, |a|, j, r, c) == Trimmed(Joined(cells), CursorOff(out, |a|, j, r, c));
    TextBack(line, off, width, CursorOff(out, |a|, j, r, c), Joined(cells));
  }

  lemma OffBack(out: seq<Row>, width: nat, i: nat, j: nat, line: seq<Cell>, off: int, r: nat, c: nat)
    requires RowsGood(out, width) && i < j <= |out| && c < width && LineOk(line) && -1 <= off < |line| && Whole(line, width)
    requires if off >= 0 then i <= r < j && (r - i, c) == CursorIn(line, off, width) else r < i || r >= j
    ensures CursorOff(out, i, j, r, c) == if off < 0 then -1 else FlatOff(line, off)
  {
    hide RowsGood, LineOk, CursorIn, Whole, FlatOff;
    if off >= 0 {
      CursorFlat(line, off, width);
      OffPlus(out, width, i, j, r, c);
    }
  }

  /** Every line of the tape from row `i` on is whole at the width. */
  predicate LinesWhole(rows: seq<Row>, cols: nat, i: nat, row: nat, col: nat, width: nat)
    requires RowsGood(rows, cols) && i <= |rows| && col < cols
    decreases |rows| - i
  {
    i < |rows| ==>
      var j := LineEnd(rows, i);
      Whole(LogicalLine(rows, cols, i, j, row, col), width) && LinesWhole(rows, cols, j, row, col, width)
  }

  lemma LineEnds(rows: seq<Row>, cols: nat, i: nat, j: nat, row: nat, col: nat)
    requires RowsGood(rows, cols) && i < j <= |rows| && col < cols
    ensures Ends(LogicalLine(rows, cols, i, j, row, col), CursorOff(rows, i, j, row, col))
  {
    hide RowsGood, RowCells, CursorOff, LineOk;
    OffBound(rows, cols, i, j, row, col);
  }

  /** Line by line, reflowing the reflowed tape is reflowing the tape. */
  lemma {:induction false} ReflowTwice(a: seq<Row>, out: seq<Row>, rows: seq<Row>, cols: nat, i: nat, row: nat, col: nat,
                                       width: nat, other: nat, r: nat, c: nat)
    requires RowsGood(rows, cols) && i <= |rows| && row < |rows| && col < cols && LinesWhole(rows, cols, i, row, col, width)
    requires width >= 1 && RowsGood(out, width) && out == a + Relined(rows, cols, i, row, col, width)
    requires other >= 1 && CursorAt(a, rows, cols, i, row, col, width, r, c)
    ensures Relined(out, width, |a|, r, c, other) == Relined(rows, cols, i, row, col, other)
    ensures i <= row ==> r < |out| && CursorTo(out, width, |a|, r, c, other) == CursorTo(rows, cols, i, row, col, other)
    decreases |rows| - i
  {
    hide LogicalLine, LineRows, RowsGood, LineOk, CursorIn, CursorOff, LineEnd, AsRows, Whole, Ends, SameText;
    if i < |rows| {
      var j := LineEnd(rows, i);
      var line, off := LogicalLine(rows, cols, i, j, row, col), CursorOff(rows, i, j, row, col);
      var block, rest := AsRows(LineRows(line, width)), Relined(rows, cols, j, row, col, width);
      assert out == a + (block + rest) == (a + block) + rest;
      LineEnds(rows, cols, i, j, row, col);
      TwiceCursor(a, rows, cols, i, row, col, width, r, c);
      LineBack(a, rest, line, off, width, r, c);
      SameRewrap(line, off, LogicalLine(out, width, |a|, |a + block|, r, c), CursorOff(out, |a|, |a + block|, r, c), other);
      ReflowTwice(a + block, out, rows, cols, j, row, col, width, other, r, c);
    }
  }

  /** The cursor's place in the reflowed tape, line by line. */
  lemma TwiceCursor(a: seq<Row>, rows: seq<Row>, cols: nat, i: nat, row: nat, col: nat, width: nat, r: nat, c: nat)
    requires RowsGood(rows, cols) && i < |rows| && row < |rows| && col < cols && width >= 1
    requires CursorAt(a, rows, cols, i, row, col, width, r, c)
    ensures var j := LineEnd(rows, i);
            var line, off := LogicalLine(rows, cols, i, j, row, col), CursorOff(rows, i, j, row, col);
            var block := AsRows(LineRows(line, width));
            && (if off >= 0 then i <= row < j && |a| <= r < |a + block| && (r - |a|, c) == CursorIn(line, off, width)
                else !(i <= row < j) && (r < |a| || r >= |a| + |block|))
            && CursorAt(a + block, rows, cols, j, row, col, width, r, c)
  {
    hide LogicalLine, LineRows, RowsGood, LineOk, CursorIn, RowCells;
    var j := LineEnd(rows, i);
    if i <= row < j {
      OffPlus(rows, cols, i, j, row, col);
      CursorFollows(LogicalLine(rows, cols, i, j, row, col), CursorOff(rows, i, j, row, col), width);
    }
  }

  /** Reflowing to one width and then to another is reflowing to the other: row for
      row, and the cursor in the same place. */
  predicate TwiceIsOnce(rows: seq<Row>, cols: nat, row: nat, col: nat, width: nat, other: nat)
    requires RowsGood(rows, cols) && row < |rows| && col < cols && width >= 1 && other >= 1
  {
    var out, p := Relined(rows, cols, 0, row, col, width), CursorTo(rows, cols, 0, row, col, width);
    && RowsGood(out, width) && p.0 < |out| && p.1 < width
    && Relined(out, width, 0, p.0, p.1, other) == Relined(rows, cols, 0, row, col, other)
    && CursorTo(out, width, 0, p.0, p.1, other) == CursorTo(rows, cols, 0, row, col, other)
  }

  /** The path of widths does not matter for a tape whose lines are whole at the first
      width. */
  lemma WidthPathFree(rows: seq<Row>, cols: nat, row: nat, col: nat, width: nat, other: nat)
    requires RowsGood(rows, cols) && row < |rows| && col < cols && width >= 1 && other >= 1
    requires LinesWhole(rows, cols, 0, row, col, width)
    ensures TwiceIsOnce(rows, cols, row, col, width, other)
  {
    hide Relined, CursorTo, RowOk, LinesWhole;
    var out, p := Relined(rows, cols, 0, row, col, width), CursorTo(rows, cols, 0, row, col, width);
    RelinedRows(rows, cols, 0, row, col, width);
    CursorInLine(rows, cols, 0, row, col, width);
    assert [] + out == out;
    ReflowTwice([], out, rows, cols, 0, row, col, width, other, p.0, p.1);
  }

  // --- and only there ------------------------------------------------------------------

  lemma {:induction false} FlatSize(line: seq<Cell>)
    ensures |Flat(Heads(line))| <= 2 * |line|
    decreases |line|
  {
    hide Heads, Flat;
    if line == [] {
      NoHeads();
    } else {
      var n := |line| - 1;
      FlatSize(line[..n]);
      assert line[..n] + [line[n]] == line;
      HeadsEnd(line[..n], line[n]);
      if line[n].width != 0 {
        FlatAppend(Heads(line[..n]), [line[n]]);
        FlatOne(line[n]);
      } else {
        assert Heads(line[..n]) + [] == Heads(line[..n]);
      }
    }
  }

  lemma OneRow(hs: seq<Cell>, width: nat)
    requires Chars(hs, width) && |Flat(hs)| <= width
    ensures Wrapped(hs, width) == [Pad(Flat(hs), width)]
  {
    hide Fit, Flat;
    assert hs[..|hs|] == hs;
    FitUnique(hs, width, |hs|);
  }

  /** The characters of a padded row. */
  lemma PaddedHeads(hs: seq<Cell>, width: nat)
    requires |Flat(hs)| <= width && forall k :: 0 <= k < |hs| ==> 1 <= hs[k].width <= 2
    ensures Heads(Pad(Flat(hs), width)) == hs + BlankCells(width - |Flat(hs)|)
  {
    hide Heads, Flat;
    HeadsFlat(hs);
    HeadsAppend(Flat(hs), BlankCells(width - |Flat(hs)|));
    HeadsNarrow(BlankCells(width - |Flat(hs)|));
  }

  /** One row tells its characters, but for blanks at the end. */
  lemma RowTells(hs: seq<Cell>, gs: seq<Cell>, width: nat, m: nat)
    requires |Flat(hs)| <= width && forall k :: 0 <= k < |hs| ==> 1 <= hs[k].width <= 2
    requires |Flat(gs)| <= width && forall k :: 0 <= k < |gs| ==> 1 <= gs[k].width <= 2
    requires Pad(Flat(hs), width) == Pad(Flat(gs), width) && m < |hs|
    ensures hs[m] == if m < |gs| then gs[m] else BLANK
  {
    hide Heads, Flat;
    PaddedHeads(hs, width);
    PaddedHeads(gs, width);
    var b := hs + BlankCells(width - |Flat(hs)|);
    assert b == gs + BlankCells(width - |Flat(gs)|);
    assert b[m] == hs[m];
  }

  lemma FirstHead(cells: seq<Cell>)
    requires cells != [] && cells[0].width != 0
    ensures Heads(cells) != [] && Heads(cells)[0] == cells[0]
  {
    hide Heads;
    assert cells == [cells[0]] + cells[1..];
    HeadsAppend([cells[0]], cells[1..]);
    HeadsEnd([], cells[0]);
    assert [] + [cells[0]] == [cells[0]];
  }

  lemma FirstWrapped(hs: seq<Cell>, width: nat)
    requires Chars(hs, width) && hs != []
    ensures var j := Joined(Wrapped(hs, width)); j != [] && j[0] == hs[0]
  {
    hide Flat, Fit;
    var n := Fit(hs, width);
    var rows := Wrapped(hs, width);
    InFlat(hs[..n], 0);
    assert hs[..n][..0] == [];
    NoHeads();
    assert hs[..|hs|] == hs;
    assert rows[0] == Pad(Flat(hs[..n]), width);
    assert Flat(hs[..n])[0..|CellsOf(hs[0])|][0] == hs[0];
    assert Joined(rows) == rows[0] + Joined(rows[1..]);
  }

  /** The padding of a row is a blank before a wide character. */
  lemma {:induction false} PadShows(hs: seq<Cell>, width: nat) returns (m: nat)
    requires Chars(hs, width) && !Padless(hs, width)
    ensures var gs := Heads(Joined(Wrapped(hs, width)));
            m < |hs| && m + 1 < |gs| && hs[m].width == 2 && gs[m] == BLANK && gs[m + 1] == hs[m]
    decreases |hs|
  {
    hide Flat, Fit, Heads, Padless;
    var n, rows := Fit(hs, width), Wrapped(hs, width);
    if n == |hs| {
      PadlessLast(hs, width);
      assert false;
    }
    var a, rest := Flat(hs[..n]), Joined(rows[1..]);
    assert rows[1..] == Wrapped(hs[n..], width) && Joined(rows) == Pad(a, width) + rest;
    PadlessNext(hs, width);
    PaddedFor(hs, width);
    PaddedHeads(hs[..n], width);
    HeadsAppend(Pad(a, width), rest);
    if |a| == width {
      m := PadShows(hs[n..], width);
      assert hs[..n] + BlankCells(0) == hs[..n];
      m := n + m;
    } else {
      m := n;
      FirstWrapped(hs[n..], width);
      FirstHead(rest);
      assert BlankCells(1) == [BLANK];
    }
  }

  /** A character that is not skippable is not trimmed. */
  lemma HeadsTrimmed(joined: seq<Cell>, off: int, m: nat)
    requires -1 <= off < |joined| && m < |Heads(joined)| && !IsSkippable(Heads(joined)[m])
    ensures var gs := Heads(Trimmed(joined, off)); m < |gs| && gs <= Heads(joined)
  {
    hide Heads, IsSkippable;
    var next := Trimmed(joined, off);
    var rest := joined[|next|..];
    assert joined == next + rest;
    HeadsAppend(next, rest);
    assert forall x :: 0 <= x < |rest| ==> rest[x] == joined[|next| + x];
  }

  lemma HeadsAtTwo(line: seq<Cell>, width: nat)
    requires LineOk(line) && width >= 2
    ensures LineChars(line, width) == Heads(line) && Chars(Heads(line), width)
  {
    hide Heads;
    HeadsFit(line);
    assert FittedAll(Heads(line), width) == Heads(line);
  }

  /** At one column every character is narrow afterwards. */
  lemma NarrowAtOne(line: seq<Cell>, off: int)
    requires LineOk(line) && -1 <= off < |Joined(LineRows(line, 1))|
    ensures var gs := Heads(Trimmed(Joined(LineRows(line, 1)), off)); forall k :: 0 <= k < |gs| ==> gs[k].width == 1
  {
    hide Heads, Wrapped, Joined;
    var hs, j := LineChars(line, 1), Joined(LineRows(line, 1));
    CharsOk(line, 1);
    NarrowKept(hs, 1);
    forall x | 0 <= x < |j|
      ensures j[x].width == 1
    {
      if x < |hs| {
        assert j[x] == j[..|hs|][x];
      }
    }
    var next := Trimmed(j, off);
    forall k | 0 <= k < |Heads(next)|
      ensures Heads(next)[k].width == 1
    {
      assert Heads(next)[k] in next;
    }
  }

  /** What a line that is not whole reads back as is another line, and one long row
      tells the difference. */
  lemma RowsDiffer(line: seq<Cell>, width: nat, off: int, long: nat)
    requires LineOk(line) && width >= 1 && !Whole(line, width) && -1 <= off < |Joined(LineRows(line, width))|
    requires LineOk(Trimmed(Joined(LineRows(line, width)), off))
    requires long >= 2 && |Flat(Heads(line))| <= long
    requires |Flat(Heads(Trimmed(Joined(LineRows(line, width)), off)))| <= long
    ensures LineRows(Trimmed(Joined(LineRows(line, width)), off), long) != LineRows(line, long)
  {
    hide Heads, Flat, Joined, Wrapped, LineOk, Padless;
    var joined := Joined(LineRows(line, width));
    var next := Trimmed(joined, off);
    var hs, gs := Heads(line), Heads(next);
    HeadsAtTwo(line, long);
    HeadsAtTwo(next, long);
    OneRow(hs, long);
    OneRow(gs, long);
    HeadsFit(line);
    HeadsFit(next);
    if LineRows(next, long) == LineRows(line, long) {
      assert [Pad(Flat(gs), long)][0] == [Pad(Flat(hs), long)][0];
      TextDiffers(line, width, off, long);
    }
  }

  lemma TextDiffers(line: seq<Cell>, width: nat, off: int, long: nat)
    requires LineOk(line) && width >= 1 && !Whole(line, width) && -1 <= off < |Joined(LineRows(line, width))|
    requires LineOk(Trimmed(Joined(LineRows(line, width)), off))
    requires |Flat(Heads(line))| <= long && |Flat(Heads(Trimmed(Joined(LineRows(line, width)), off)))| <= long
    ensures Pad(Flat(Heads(Trimmed(Joined(LineRows(line, width)), off))), long) != Pad(Flat(Heads(line)), long)
  {
    hide Heads, Flat, Joined, Wrapped, LineOk, Padless, Pad;
    var joined := Joined(LineRows(line, width));
    var next := Trimmed(joined, off);
    var hs, gs := Heads(line), Heads(next);
    HeadsFit(line);
    HeadsFit(next);
    if Pad(Flat(gs), long) == Pad(Flat(hs), long) {
      if Chars(hs, width) {
        assert FittedAll(hs, width) == hs;
        var m := PadShows(hs, width);
        HeadsTrimmed(joined, off, m + 1);
        RowTells(hs, gs, long, m);
      } else {
        var m :| 0 <= m < |hs| && !(1 <= hs[m].width <= 2 && hs[m].width <= width && CellOk(hs[m]));
        NarrowAtOne(line, off);
        RowTells(hs, gs, long, m);
      }
    }
  }

  lemma LineSize(rows: seq<Row>, cols: nat, i: nat, j: nat, row: nat, col: nat)
    requires RowsGood(rows, cols) && i < j <= |rows| && col < cols
    ensures |Flat(Heads(LogicalLine(rows, cols, i, j, row, col)))| <= 2 * (|rows| * cols)
  {
    hide RowOk, RowCells, Heads, Flat, CursorOff, LineOk;
    var line := LogicalLine(rows, cols, i, j, row, col);
    RowCellsOk(rows[i..j], cols);
    RowLength(RowCells(rows[i..j]), (j - i) * cols);
    FlatSize(line);
    Shorter(i, j, |rows|, cols);
  }

  lemma Shorter(i: nat, j: nat, n: nat, cols: nat)
    requires i <= j <= n
    ensures (j - i) * cols <= n * cols
  {
    assert n * cols == (j - i) * cols + (n - (j - i)) * cols;
  }

  lemma LongRow(line: seq<Cell>, long: nat)
    requires LineOk(line) && long >= 2 && |Flat(Heads(line))| <= long
    ensures |LineRows(line, long)| == 1
  {
    hide Heads, Flat, LineOk;
    HeadsAtTwo(line, long);
    OneRow(Heads(line), long);
  }

  /** The line of the reflowed tape comes out as the line it was made from only if
      that was whole. */
  lemma LineTells(out: seq<Row>, width: nat, i: nat, j: nat, r: nat, c: nat, line: seq<Cell>, long: nat)
    requires RowsGood(out, width) && i < j <= |out| && c < width && LineOk(line) && width >= 1
    requires RowCells(out[i..j]) == Joined(LineRows(line, width))
    requires long >= 2 && |Flat(Heads(line))| <= long && |Flat(Heads(LogicalLine(out, width, i, j, r, c)))| <= long
    requires LineRows(LogicalLine(out, width, i, j, r, c), long) == LineRows(line, long)
    ensures Whole(line, width)
  {
    hide RowsGood, LineOk, RowCells, CursorOff, Joined, LineRows, Whole, Heads, Flat, Trimmed;
    OffBound(out, width, i, j, r, c);
    var off := CursorOff(out, i, j, r, c);
    assert LogicalLine(out, width, i, j, r, c) == Trimmed(Joined(LineRows(line, width)), off);
    if !Whole(line, width) {
      RowsDiffer(line, width, off, long);
    }
  }

  lemma RelinedFirst(rows: seq<Row>, cols: nat, i: nat, row: nat, col: nat, long: nat)
    requires RowsGood(rows, cols) && i < |rows| && col < cols && long >= 2 && long >= 2 * (|rows| * cols)
    ensures var j := LineEnd(rows, i);
            var cells := LineRows(LogicalLine(rows, cols, i, j, row, col), long);
            |cells| == 1 && Relined(rows, cols, i, row, col, long) == [Row(cells[0], false)] + Relined(rows, cols, j, row, col, long)
  {
    hide LogicalLine, LineRows, RowOk, LineOk, LineEnd, Heads, Flat;
    var j := LineEnd(rows, i);
    LineSize(rows, cols, i, j, row, col);
    LongRow(LogicalLine(rows, cols, i, j, row, col), long);
    var cells := LineRows(LogicalLine(rows, cols, i, j, row, col), long);
    assert AsRows(cells) == [Row(cells[0], false)];
  }

  lemma FirstSame(x: Row, a: seq<Row>, y: Row, b: seq<Row>)
    requires [x] + a == [y] + b
    ensures x == y && a == b
  {
    assert ([x] + a)[0] == x && ([x] + a)[1..] == a;
    assert ([y] + b)[0] == y && ([y] + b)[1..] == b;
  }

  lemma RelinedNext(rows: seq<Row>, cols: nat, i: nat, row: nat, col: nat, width: nat)
    requires RowsGood(rows, cols) && i < |rows| && col < cols && width >= 1
    ensures var j := LineEnd(rows, i);
            Relined(rows, cols, i, row, col, width) ==
            AsRows(LineRows(LogicalLine(rows, cols, i, j, row, col), width)) + Relined(rows, cols, j, row, col, width)
  {
    hide LogicalLine, LineRows, RowsGood, LineOk, LineEnd;
  }

  /** If one long row per line comes out the same, every line was whole. */
  lemma {:induction false} TellsWhole(a: seq<Row>, out: seq<Row>, rows: seq<Row>, cols: nat, i: nat, row: nat, col: nat,
                                      width: nat, long: nat, r: nat, c: nat)
    requires RowsGood(rows, cols) && i <= |rows| && row < |rows| && col < cols && width >= 1
    requires RowsGood(out, width) && out == a + Relined(rows, cols, i, row, col, width)
    requires CursorAt(a, rows, cols, i, row, col, width, r, c)
    requires long >= 2 && long >= 2 * (|rows| * cols) && long >= 2 * (|out| * width)
    requires Relined(out, width, |a|, r, c, long) == Relined(rows, cols, i, row, col, long)
    ensures LinesWhole(rows, cols, i, row, col, width)
    decreases |rows| - i
  {
    hide LogicalLine, LineRows, RowOk, LineOk, CursorIn, CursorOff, LineEnd, AsRows, Whole, RowCells,
      Joined, Relined, Heads, Flat;
    if i < |rows| {
      var j := LineEnd(rows, i);
      var line := LogicalLine(rows, cols, i, j, row, col);
      var block, rest := AsRows(LineRows(line, width)), Relined(rows, cols, j, row, col, width);
      RelinedNext(rows, cols, i, row, col, width);
      assert out == a + (block + rest) == (a + block) + rest;
      var next := LogicalLine(out, width, |a|, |a + block|, r, c);
      TwiceCursor(a, rows, cols, i, row, col, width, r, c);
      BlockSpan(a, LineRows(line, width), rest);
      RelinedFirst(rows, cols, i, row, col, long);
      RelinedFirst(out, width, |a|, r, c, long);
      FirstSame(Row(LineRows(next, long)[0], false), Relined(out, width, |a + block|, r, c, long),
                Row(LineRows(line, long)[0], false), Relined(rows, cols, j, row, col, long));
      assert LineRows(next, long) == [LineRows(next, long)[0]] == LineRows(line, long);
      LineSize(rows, cols, i, j, row, col);
      LineSize(out, width, |a|, |a + block|, r, c);
      LineTells(out, width, |a|, |a + block|, r, c, line, long);
      TellsWhole(a + block, out, rows, cols, j, row, col, width, long, r, c);
    }
  }

  /** The path of widths does not matter, whatever the second width, if and only if
      every line is whole at the first: each of its characters fits a row, and no row
      but its last is padded. */
  lemma WidthPathExactly(rows: seq<Row>, cols: nat, row: nat, col: nat, width: nat)
    requires RowsGood(rows, cols) && row < |rows| && col < cols && width >= 1
    ensures LinesWhole(rows, cols, 0, row, col, width) <==>
            forall other: nat :: other >= 1 ==> TwiceIsOnce(rows, cols, row, col, width, other)
  {
    hide Relined, CursorTo, RowsGood, LinesWhole;
    if LinesWhole(rows, cols, 0, row, col, width) {
      forall other: nat | other >= 1
        ensures TwiceIsOnce(rows, cols, row, col, width, other)
      {
        WidthPathFree(rows, cols, row, col, width, other);
      }
    }
    if forall other: nat :: other >= 1 ==> TwiceIsOnce(rows, cols, row, col, width, other) {
      var out, p := Relined(rows, cols, 0, row, col, width), CursorTo(rows, cols, 0, row, col, width);
      var a, b := 2 * (|rows| * cols), 2 * (|out| * width);
      var long: nat := 2 + Max(Max(a, b), 0);
      assert TwiceIsOnce(rows, cols, row, col, width, long);
      assert [] + out == out;
      TellsWhole([], out, rows, cols, 0, row, col, width, long, p.0, p.1);
    }
  }

  predicate NarrowTape(rows: seq<Row>) {
    forall i :: 0 <= i < |rows| ==> AllNarrow(rows[i].cells)
  }

  lemma {:induction false} NarrowSpan(rows: seq<Row>)
    requires NarrowTape(rows)
    ensures AllNarrow(RowCells(rows))
    decreases |rows|
  {
    if rows != [] {
      NarrowSpan(rows[..|rows| - 1]);
    }
  }

  /** Narrow lines are whole at every width. */
  lemma {:induction false} NarrowWhole(rows: seq<Row>, cols: nat, i: nat, row: nat, col: nat, width: nat)
    requires RowsGood(rows, cols) && NarrowTape(rows) && i <= |rows| && col < cols && width >= 1
    ensures LinesWhole(rows, cols, i, row, col, width)
    decreases |rows| - i
  {
    hide LogicalLine, RowOk, LineOk, LineEnd, NarrowTape, Padless, Heads, Chars;
    if i < |rows| {
      var j := LineEnd(rows, i);
      var line := LogicalLine(rows, cols, i, j, row, col);
      NarrowLogical(rows, cols, i, j, row, col);
      HeadsNarrow(line);
      NarrowChars(line, width);
      NarrowPadless(line, width);
      NarrowWhole(rows, cols, j, row, col, width);
    }
  }

  lemma NarrowLogical(rows: seq<Row>, cols: nat, i: nat, j: nat, row: nat, col: nat)
    requires RowsGood(rows, cols) && NarrowTape(rows) && i < j <= |rows| && col < cols
    ensures AllNarrow(LogicalLine(rows, cols, i, j, row, col))
  {
    hide RowCells, CursorOff, RowOk, RowEnd;
    NarrowSpan(rows[i..j]);
    OffBound(rows, cols, i, j, row, col);
  }

  lemma {:induction false} CursorInLine(rows: seq<Row>, cols: nat, i: nat, row: nat, col: nat, width: nat)
    requires RowsGood(rows, cols) && i <= row < |rows| && col < cols && width >= 1
    ensures CursorTo(rows, cols, i, row, col, width).1 < width
    decreases |rows| - i
  {
    hide LogicalLine, LineRows, RowsGood, LineOk, CursorIn, RowCells, CursorOff;
    var j := LineEnd(rows, i);
    if row < j {
      OffPlus(rows, cols, i, j, row, col);
      CursorFollows(LogicalLine(rows, cols, i, j, row, col), CursorOff(rows, i, j, row, col), width);
    } else {
      CursorInLine(rows, cols, j, row, col, width);
    }
  }
}
