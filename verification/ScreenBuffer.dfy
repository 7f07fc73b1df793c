// The screen as a program: `Screen` in crates/posh-term/src/screen.rs, whose
// methods move rows between the grid and the ring one at a time.

module ScreenBuffer {
  import opened Cells
  import opened Machine
  import opened Rewrap
  import opened Relines
  import opened Resize
  import I = Invariants
  import P = Printing

  class Buffer {
    var rows: nat
    var cols: nat
    var grid: seq<Row>
    var scrollback: seq<Row>
    const maxScrollback: nat
    var total: nat

    ghost function State(): Screen
      reads this
    {
      Screen(rows, cols, grid, scrollback, maxScrollback, total)
    }

    constructor (rows0: nat, cols0: nat, max: nat)
      ensures I.ScreenOk(State())
      ensures State() == Screen(Max(rows0, 1), Max(cols0, 1), BlankRows(Max(rows0, 1), Max(cols0, 1)), [], max, 0)
    {
      rows, cols := Max(rows0, 1), Max(cols0, 1);
      grid, scrollback := BlankRows(Max(rows0, 1), Max(cols0, 1)), [];
      maxScrollback, total := max, 0;
      I.BlankRowOk(Max(cols0, 1));
    }

    /** The newest row of the ring is `row`; the oldest leaves a full ring. */
    method PushScrollback(row: Row)
      requires |scrollback| <= maxScrollback
      modifies `scrollback, `total
      ensures State() == old(State()).Pushed([row])
      ensures |scrollback| <= maxScrollback
    {
      if maxScrollback > 0 {
        if |scrollback| >= maxScrollback {
          scrollback := scrollback[1..];
        }
        scrollback := scrollback + [row];
        total := total + 1;
      }
    }

    /** Rows `top..=bot` up by `n`. */
    method ScrollUp(top: nat, bot0: nat, n0: nat, save: bool)
      requires State().Valid()
      modifies `grid, `scrollback, `total
      ensures State() == old(State()).ScrollUp(top, bot0, n0, save)
    {
      hide Newest, BlankRow, AfterUp, Screen.ScrollUp, Screen.Pushed;
      var bot := Min(bot0, |grid| - 1);
      ghost var s := State();
      ScrollUpIs(s, top, bot0, n0, save);
      if top > bot {
        return;
      }
      var n := Max(Min(n0, bot - top + 1), 1);
      var i := 0;
      while i < n
        invariant i <= n <= bot - top + 1 && |grid| == |s.grid|
        invariant State() == AfterUp(s, top, bot, i, save) && |scrollback| <= maxScrollback
      {
        ScrollStep(s, top, bot, i, save);
        var row := grid[top];
        grid := grid[..top] + grid[top + 1..];
        if save {
          PushScrollback(row);
        }
        grid := grid[..bot] + [BlankRow(cols)] + grid[bot..];
        i := i + 1;
      }
    }

    /** Rows `top..=bot` down by `n`. */
    method ScrollDown(top: nat, bot0: nat, n0: nat)
      requires State().Valid()
      modifies `grid
      ensures State() == old(State()).ScrollDown(top, bot0, n0)
    {
      hide BlankRow, Sunk;
      var bot := Min(bot0, |grid| - 1);
      ghost var s := State();
      ScrollDownIs(s, top, bot0, n0);
      hide Screen.ScrollDown;
      if top > bot {
        return;
      }
      var n := Max(Min(n0, bot - top + 1), 1);
      var i := 0;
      while i < n
        invariant i <= n <= bot - top + 1
        invariant |grid| == |s.grid| && grid == Sunk(s.grid, top, bot, i, cols)
      {
        SinkStep(s.grid, top, bot, i, cols);
        grid := grid[..bot] + grid[bot + 1..];
        grid := grid[..top] + [BlankRow(cols)] + grid[top..];
        i := i + 1;
      }
    }

    ghost function Seen(row: nat): Body
      reads this
    {
      Body(grid, scrollback, total, row)
    }

    /** Give up rows: blank ones below the cursor, else off the top. */
    method ShrinkTo(target: nat, row0: nat, reflow: bool) returns (row: nat)
      requires |scrollback| <= maxScrollback
      modifies `grid, `scrollback, `total
      ensures Seen(row) == Shrunk(old(Seen(row0)), maxScrollback, target, reflow)
      ensures |scrollback| <= maxScrollback
    {
      hide AllBlank, Newest, RowEnd, Shrunk;
      row := row0;
      ghost var goal := Shrunk(Seen(row), maxScrollback, target, reflow);
      while |grid| > target
        invariant Shrunk(Seen(row), maxScrollback, target, reflow) == goal
        invariant |scrollback| <= maxScrollback
        decreases |grid|
      {
        var cursorAtEnd := row >= |grid| - 1;
        var bottomBlank := RowEnd(grid[|grid| - 1].cells) == 0;
        BlankByEnd(grid[|grid| - 1]);
        ShrunkStep(Seen(row), maxScrollback, target, reflow);
        if bottomBlank && !cursorAtEnd {
          grid := grid[..|grid| - 1];
        } else if reflow {
          var first := grid[0];
          grid := grid[1..];
          PushScrollback(first);
          row := Max(row - 1, 0);
        } else {
          grid := grid[..|grid| - 1];
        }
      }
      ShrunkDone(Seen(row), maxScrollback, target, reflow);
    }

    /** Take rows back from the ring, else add blank ones below. */
    method GrowTo(target: nat, row0: nat, reflow: bool) returns (row: nat)
      requires |scrollback| <= maxScrollback
      modifies `grid, `scrollback
      ensures Seen(row) == Grown(old(Seen(row0)), cols, target, reflow)
      ensures |scrollback| <= maxScrollback
    {
      row := row0;
      ghost var goal := Grown(Seen(row), cols, target, reflow);
      while |grid| < target
        invariant Grown(Seen(row), cols, target, reflow) == goal
        invariant |scrollback| <= maxScrollback
        decreases target - |grid|
      {
        if reflow && scrollback != [] {
          var last := scrollback[|scrollback| - 1];
          scrollback := scrollback[..|scrollback| - 1];
          grid := [last] + grid;
          row := row + 1;
        } else {
          grid := grid + [BlankRow(cols)];
        }
      }
    }

    /** Unwrap the logical line at `i0`: its cells, the cursor's place in it (or
        -1) and the row after it. */
    static method Unwrap(old_: seq<Row>, i0: nat, cursorAbs: nat, cursorCol: nat)
      returns (line: seq<Cell>, off: int, i: nat)
      requires i0 < |old_|
      ensures i == LineEnd(old_, i0)
      ensures line == RowCells(old_[i0..i]) && off == CursorOff(old_, i0, i, cursorAbs, cursorCol)
    {
      hide RowCells, CursorOff, LineEnd;
      RowCellsNone();
      assert old_[i0..i0] == [];
      OffNone(old_, i0, cursorAbs, cursorCol);
      line, off, i := [], -1, i0;
      var more := true;
      while more
        invariant i0 <= i <= |old_|
        invariant line == RowCells(old_[i0..i]) && off == CursorOff(old_, i0, i, cursorAbs, cursorCol)
        invariant if more then i < |old_| && LineEnd(old_, i) == LineEnd(old_, i0) else i == LineEnd(old_, i0)
        decreases |old_| - i, more
      {
        if i == cursorAbs {
          off := |line| + cursorCol;
        }
        SpanSnoc(old_, i0, i);
        OffSnoc(old_, i0, i, cursorAbs, cursorCol);
        EndStep(old_, i);
        line := line + old_[i].cells;
        more := old_[i].wrapped && i + 1 < |old_|;
        i := i + 1;
      }
    }

    /** Rewrap every logical line, and follow the cursor. */
    static method RewrapAll(old_: seq<Row>, was: nat, cursorAbs: nat, col0: nat, width: nat)
      returns (newRows: seq<Row>, cursor: (nat, nat))
      requires RowsGood(old_, was) && cursorAbs < |old_| && col0 < was && width >= 1
      ensures newRows == Relined(old_, was, 0, cursorAbs, col0, width)
      ensures cursor == CursorTo(old_, was, 0, cursorAbs, col0, width)
    {
      hide RowsGood, Relined, CursorTo, RowCells, LogicalLine, LineRows, LineEnd, CursorIn, LineOk, Trimmed, CursorOff;
      ghost var goal := CursorTo(old_, was, 0, cursorAbs, col0, width);
      ghost var out := Relined(old_, was, 0, cursorAbs, col0, width);
      var i := 0;
      newRows, cursor := [], (0, 0);
      while i < |old_|
        invariant i <= |old_| && newRows + Relined(old_, was, i, cursorAbs, col0, width) == out
        invariant if i <= cursorAbs
                  then (var p := CursorTo(old_, was, i, cursorAbs, col0, width); (|newRows| + p.0, p.1)) == goal
                  else cursor == goal
      {
        ghost var from := i;
        var line, off;
        line, off, i := Unwrap(old_, i, cursorAbs, col0);
        RelinedNext(old_, was, from, cursorAbs, col0, width);
        LineIs(old_, was, from, i, cursorAbs, col0);
        var wrapped, p := RewrapLine(Trimmed(line, off), off, width);
        if off >= 0 {
          cursor := (|newRows| + p.0, p.1);
        }
        assert newRows + AsRows(wrapped) + Relined(old_, was, i, cursorAbs, col0, width) == out;
        newRows := newRows + AsRows(wrapped);
      }
      RelinedEnd(old_, was, cursorAbs, col0, width);
    }

    /** Rewrap the whole screen, ring included, to `width`. */
    method ReflowWidth(width: nat, row0: nat, col0: nat) returns (row: nat, col: nat)
      requires ViewOk(View(State(), row0, col0)) && width >= 1
      modifies `grid, `scrollback, `cols
      ensures View(State(), row, col) == Reflowed(old(View(State(), row0, col0)), width)
    {
      hide RowsGood, Relined, CursorTo;
      var cursorAbs := |scrollback| + row0;
      var old_ := DropTail(scrollback + grid, cursorAbs + 1);
      TapeGood(View(State(), row0, col0));
      CursorInGrid(old_, cols, 0, cursorAbs, col0, width);
      var newRows, cursor := RewrapAll(old_, cols, cursorAbs, col0, width);
      Window(newRows, cursor.0, width);
      row, col := cursor.0 - WindowStart(|newRows|, rows, cursor.0), cursor.1;
    }

    /** Cut the rewrapped rows into grid and ring, never with the
        cursor's row in the ring: then rows at the bottom go instead. */
    method Window(rows0: seq<Row>, cursor: nat, width: nat)
      requires cursor < |rows0|
      modifies `grid, `scrollback, `cols
      ensures State() == Windowed(old(State()), rows0, cursor, 0, width).scr
    {
      hide Newest;
      var newRows := rows0;
      var start := Max(|newRows| - rows, 0);
      if cursor < start {
        start := cursor;
        newRows := newRows[..start + rows];
      }
      grid := newRows[start..];
      scrollback := newRows[..start];
      assert scrollback == rows0[..start];
      while |scrollback| > maxScrollback
        invariant Newest(scrollback, maxScrollback) == Newest(rows0[..start], maxScrollback)
        invariant grid == newRows[start..]
      {
        NewestRest(scrollback, maxScrollback);
        scrollback := scrollback[1..];
      }
      NewestAll(scrollback, maxScrollback);
      cols := width;
      ghost var win := grid;
      while |grid| < rows
        invariant |win| <= |grid| <= Max(rows, |win|)
        invariant grid == win + BlankRows(|grid| - |win|, width)
        invariant scrollback == Newest(rows0[..start], maxScrollback) && cols == width
      {
        grid := grid + [BlankRow(width)];
      }
    }

    /** Cut or pad every row. */
    static method CutAll(rs: seq<Row>, width: nat) returns (out: seq<Row>)
      ensures out == CutRows(rs, width)
    {
      hide CutRow;
      out := rs;
      var i := 0;
      while i < |out|
        invariant |out| == |rs| && i <= |rs|
        invariant forall k :: 0 <= k < i ==> out[k] == CutRow(rs[k], width)
        invariant forall k :: i <= k < |rs| ==> out[k] == rs[k]
      {
        out := out[i := CutRow(out[i], width)];
        i := i + 1;
      }
    }

    /** Resize the screen; the cursor follows. */
    method Resize(rows0: nat, cols0: nat, row0: nat, col0: nat, reflow: bool) returns (row: nat, col: nat)
      requires ViewOk(View(State(), row0, col0))
      modifies this
      ensures View(State(), row, col) == Resized(old(View(State(), row0, col0)), rows0, cols0, reflow)
      ensures ViewOk(View(State(), row, col))
    {
      hide Reflowed, Shrunk, Grown, ViewOk, CursorStays;
      ghost var v := View(State(), row0, col0);
      ResizedOk(v, rows0, cols0, reflow);
      ViewRing(v);
      var newRows, newCols := Max(rows0, 1), Max(cols0, 1);
      row, col := row0, col0;
      if newCols != cols {
        if reflow {
          ReflowedOk(v, newCols);
          row, col := ReflowWidth(newCols, row, col);
          ViewRing(View(State(), row, col));
        } else {
          grid := CutAll(grid, newCols);
          scrollback := CutAll(scrollback, newCols);
          cols := newCols;
        }
        col := Min(col, newCols - 1);
      }
      row := ShrinkTo(newRows, row, reflow);
      row := GrowTo(newRows, row, reflow);
      rows := newRows;
      row := Min(row, newRows - 1);
    }
  }

  lemma ViewRing(v: View)
    requires ViewOk(v)
    ensures |v.scr.sb| <= v.scr.maxSb && v.col < v.scr.cols
  {
  }

  lemma NewestRest(s: seq<Row>, m: nat)
    requires |s| > m
    ensures Newest(s[1..], m) == Newest(s, m)
  {
  }

  lemma NewestAll(s: seq<Row>, m: nat)
    requires |s| <= m
    ensures Newest(s, m) == s
  {
  }

  lemma RowCellsNone()
    ensures RowCells([]) == []
  {
  }

  lemma SpanSnoc(rows: seq<Row>, i: nat, j: nat)
    requires i <= j < |rows|
    ensures RowCells(rows[i..j + 1]) == RowCells(rows[i..j]) + rows[j].cells
  {
    assert rows[i..j + 1][..j - i] == rows[i..j];
  }

  lemma OffNone(rows: seq<Row>, i: nat, row: nat, col: nat)
    requires i <= |rows|
    ensures CursorOff(rows, i, i, row, col) == -1
  {
  }

  lemma OffSnoc(rows: seq<Row>, i: nat, j: nat, row: nat, col: nat)
    requires i <= j < |rows|
    ensures CursorOff(rows, i, j + 1, row, col) ==
            if j == row then |RowCells(rows[i..j])| + col else CursorOff(rows, i, j, row, col)
  {
    hide RowCells;
  }

  lemma EndStep(rows: seq<Row>, i: nat)
    requires i < |rows|
    ensures LineEnd(rows, i) == if rows[i].wrapped && i + 1 < |rows| then LineEnd(rows, i + 1) else i + 1
  {
  }

  lemma ShrunkStep(b: Body, maxSb: nat, target: nat, reflow: bool)
    requires |b.grid| > target
    ensures Shrunk(b, maxSb, target, reflow) ==
            Shrunk(if DropsBottom(b) || !reflow then b.(grid := b.grid[..|b.grid| - 1]) else PushRow(b, maxSb), maxSb, target, reflow)
  {
    hide DropsBottom, PushRow;
  }

  lemma ShrunkDone(b: Body, maxSb: nat, target: nat, reflow: bool)
    requires |b.grid| <= target
    ensures Shrunk(b, maxSb, target, reflow) == b
  {
  }

  lemma BlankByEnd(r: Row)
    ensures RowEnd(r.cells) == 0 <==> AllBlank(r)
  {
  }

  lemma LineIs(rows: seq<Row>, cols: nat, i: nat, j: nat, row: nat, col: nat)
    requires RowsGood(rows, cols) && i < j <= |rows| && col < cols
    ensures -1 <= CursorOff(rows, i, j, row, col) < |RowCells(rows[i..j])|
    ensures LogicalLine(rows, cols, i, j, row, col) == Trimmed(RowCells(rows[i..j]), CursorOff(rows, i, j, row, col))
    ensures CursorOff(rows, i, j, row, col) >= 0 <==> i <= row < j
  {
    hide RowOk, RowCells, RowEnd, LineOk;
    OffBound(rows, cols, i, j, row, col);
  }

  lemma {:induction false} RelinedNext(rows: seq<Row>, cols: nat, i: nat, row: nat, col: nat, width: nat)
    requires RowsGood(rows, cols) && i < |rows| && col < cols && width >= 1
    ensures var j := LineEnd(rows, i);
            var line := LogicalLine(rows, cols, i, j, row, col);
            && Relined(rows, cols, i, row, col, width) == AsRows(LineRows(line, width)) + Relined(rows, cols, j, row, col, width)
            && (i <= row < |rows| ==>
                  CursorTo(rows, cols, i, row, col, width) ==
                  if row < j then CursorIn(line, CursorOff(rows, i, j, row, col), width)
                  else var p := CursorTo(rows, cols, j, row, col, width); (|LineRows(line, width)| + p.0, p.1))
  {
    hide LogicalLine, LineRows, LineEnd, CursorIn, RowOk, LineOk;
  }

  lemma RelinedEnd(rows: seq<Row>, cols: nat, row: nat, col: nat, width: nat)
    requires RowsGood(rows, cols) && col < cols && width >= 1
    ensures Relined(rows, cols, |rows|, row, col, width) == []
  {
  }

  /** The grid after `i` of the rows `top..=bot` have left at the bottom. */
  function Sunk(g: seq<Row>, top: nat, bot: nat, i: nat, cols: nat): (r: seq<Row>)
    requires top + i <= bot + 1 <= |g|
    ensures |r| == |g|
  {
    g[..top] + BlankRows(i, cols) + g[top..bot + 1 - i] + g[bot + 1..]
  }

  /** The screen after `i` rows scrolled up. */
  function AfterUp(s: Screen, top: nat, bot: nat, i: nat, save: bool): Screen
    requires top + i <= bot + 1 <= |s.grid|
  {
    (if save then s.Pushed(s.grid[top..top + i]) else s).(grid := P.Scrolled(s.grid, top, bot, i, s.cols))
  }

  lemma ScrollUpIs(s: Screen, top: nat, bot0: nat, n0: nat, save: bool)
    requires s.Valid()
    ensures var bot := Min(bot0, s.rows - 1);
            if top > bot then s.ScrollUp(top, bot0, n0, save) == s else
              s.ScrollUp(top, bot0, n0, save) == AfterUp(s, top, bot, Max(Min(n0, bot - top + 1), 1), save)
              && AfterUp(s, top, bot, 0, save) == s
  {
    hide Newest, BlankRow, BlankRows, Screen.Pushed;
    if top <= Min(bot0, s.rows - 1) {
      AfterNone(s, top, Min(bot0, s.rows - 1), save);
    }
  }

  lemma AfterNone(s: Screen, top: nat, bot: nat, save: bool)
    requires top <= bot < |s.grid| && |s.sb| <= s.maxSb
    ensures AfterUp(s, top, bot, 0, save) == s
  {
    hide Newest, BlankRow, Screen.Pushed;
    assert s.grid[top..top + 0] == [];
    PushedNone(s);
    var g := s.grid;
    assert g[..top] + g[top..bot + 1] + BlankRows(0, s.cols) + g[bot + 1..] == g;
  }

  lemma ScrollStep(s: Screen, top: nat, bot: nat, i: nat, save: bool)
    requires top + i <= bot < |s.grid|
    ensures var u := AfterUp(s, top, bot, i, save);
            && |u.grid| == |s.grid|
            && var c := u.(grid := u.grid[..top] + u.grid[top + 1..]);
               var p := if save then c.Pushed([u.grid[top]]) else c;
               p.(grid := c.grid[..bot] + [BlankRow(s.cols)] + c.grid[bot..]) == AfterUp(s, top, bot, i + 1, save)
  {
    hide Newest, BlankRow, P.Scrolled, Screen.Pushed;
    RiseStep(s.grid, top, bot, i, s.cols);
    if save {
      PushedSnoc(s, s.grid[top..top + i], s.grid[top + i]);
      assert s.grid[top..top + i] + [s.grid[top + i]] == s.grid[top..top + i + 1];
      PushedGrid(s.Pushed(s.grid[top..top + i]), AfterUp(s, top, bot, i, save), s.grid[top + i]);
    }
  }

  lemma ScrollDownIs(s: Screen, top: nat, bot0: nat, n0: nat)
    requires s.Valid()
    ensures var bot := Min(bot0, s.rows - 1);
            if top > bot then s.ScrollDown(top, bot0, n0) == s else
              var n := Max(Min(n0, bot - top + 1), 1);
              && s.ScrollDown(top, bot0, n0) == s.(grid := Sunk(s.grid, top, bot, n, s.cols))
              && Sunk(s.grid, top, bot, 0, s.cols) == s.grid
  {
  }

  /** Pushing does not look at the grid. */
  lemma PushedGrid(s: Screen, u: Screen, r: Row)
    requires u == s.(grid := u.grid)
    ensures forall g, h :: u.(grid := g).Pushed([r]).(grid := h) == s.Pushed([r]).(grid := h)
  {
  }

  lemma PushedNone(s: Screen)
    requires |s.sb| <= s.maxSb
    ensures s.Pushed([]) == s
  {
    assert s.sb + [] == s.sb;
  }

  /** Rows pushed one at a time are the rows pushed together. */
  lemma PushedSnoc(s: Screen, rs: seq<Row>, r: Row)
    ensures s.Pushed(rs).Pushed([r]) == s.Pushed(rs + [r])
  {
    assert s.sb + (rs + [r]) == (s.sb + rs) + [r];
  }

  lemma RiseStep(g: seq<Row>, top: nat, bot: nat, i: nat, cols: nat)
    requires top + i <= bot < |g|
    ensures var was := P.Scrolled(g, top, bot, i, cols);
            var cut := was[..top] + was[top + 1..];
            && was[top] == g[top + i]
            && cut[..bot] + [BlankRow(cols)] + cut[bot..] == P.Scrolled(g, top, bot, i + 1, cols)
  {
    hide BlankRow;
    var was := P.Scrolled(g, top, bot, i, cols);
    var a, b, c := g[..top], g[top + i + 1..bot + 1], g[bot + 1..];
    var cut := was[..top] + was[top + 1..];
    assert cut == a + b + BlankRows(i, cols) + c;
    assert cut[..bot] == a + b + BlankRows(i, cols);
    assert BlankRows(i, cols) + [BlankRow(cols)] == BlankRows(i + 1, cols);
  }

  lemma SinkStep(g: seq<Row>, top: nat, bot: nat, i: nat, cols: nat)
    requires top + i <= bot < |g|
    ensures var was := Sunk(g, top, bot, i, cols);
            var cut := was[..bot] + was[bot + 1..];
            cut[..top] + [BlankRow(cols)] + cut[top..] == Sunk(g, top, bot, i + 1, cols)
  {
    hide BlankRow;
    var was := Sunk(g, top, bot, i, cols);
    var a, b, c := g[..top], g[top..bot - i], g[bot + 1..];
    var cut := was[..bot] + was[bot + 1..];
    assert cut == a + BlankRows(i, cols) + b + c;
    assert cut[top..] == BlankRows(i, cols) + b + c;
    assert [BlankRow(cols)] + BlankRows(i, cols) == BlankRows(i + 1, cols);
  }
}
