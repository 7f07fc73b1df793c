// Resizing a screen: what `Screen::resize` in crates/posh-term/src/screen.rs
// computes, and what it keeps of the rows and the cursor.

module Resize {
  import opened Cells
  import opened Machine
  import I = Invariants
  import opened Reflow
  import opened Rewrap
  import opened Relines
  import opened Rejoin

  // --- height --------------------------------------------------------------------

  /** A screen in the middle of a height change. */
  datatype Body = Body(grid: seq<Row>, sb: seq<Row>, total: nat, row: nat)

  /** The ring and the grid as one sequence of rows, oldest first. */
  function Tape(b: Body): seq<Row> {
    b.sb + b.grid
  }

  predicate AllBlank(r: Row) {
    forall x :: 0 <= x < |r.cells| ==> IsSkippable(r.cells[x])
  }

  function PushRow(b: Body, maxSb: nat): Body
    requires |b.grid| > 0
  {
    var row := Max(b.row - 1, 0);
    if maxSb == 0 then b.(grid := b.grid[1..], row := row)
    else b.(grid := b.grid[1..], sb := Newest(b.sb + [b.grid[0]], maxSb), total := b.total + 1, row := row)
  }

  /** Is the bottom row blank and below the cursor? */
  predicate DropsBottom(b: Body) {
    |b.grid| > 0 && AllBlank(b.grid[|b.grid| - 1]) && b.row < |b.grid| - 1
  }

  /** Give up rows until `target` are left: blank ones below the cursor, else
      (with `reflow`) the top row goes to the ring, else the bottom row goes. */
  function Shrunk(b: Body, maxSb: nat, target: nat, reflow: bool): (r: Body)
    ensures |r.grid| == Min(|b.grid|, target)
    decreases |b.grid|
  {
    if |b.grid| <= target then b
    else if DropsBottom(b) || !reflow then Shrunk(b.(grid := b.grid[..|b.grid| - 1]), maxSb, target, reflow)
    else Shrunk(PushRow(b, maxSb), maxSb, target, reflow)
  }

  /** Take rows until there are `target`: from the ring (with `reflow`), else
      blank ones at the bottom. */
  function Grown(b: Body, cols: nat, target: nat, reflow: bool): (r: Body)
    ensures |r.grid| == Max(|b.grid|, target)
    decreases target - |b.grid|
  {
    if |b.grid| >= target then b
    else if reflow && b.sb != [] then
      Grown(b.(grid := [b.sb[|b.sb| - 1]] + b.grid, sb := b.sb[..|b.sb| - 1], row := b.row + 1), cols, target, reflow)
    else Grown(b.(grid := b.grid + [BlankRow(cols)]), cols, target, reflow)
  }

  /** Blank rows at the bottom of the grid, strictly below the cursor. */
  function BlankBelow(grid: seq<Row>, row: nat): (n: nat)
    ensures n <= |grid|
    ensures forall k :: |grid| - n <= k < |grid| ==> AllBlank(grid[k])
    decreases |grid|
  {
    if |grid| > 0 && AllBlank(grid[|grid| - 1]) && row < |grid| - 1 then 1 + BlankBelow(grid[..|grid| - 1], row) else 0
  }

  /** Rows pushed off the top by a shrink: what blank rows below do not cover. */
  function Pushes(b: Body, target: nat): nat {
    Max(|b.grid| - target - BlankBelow(b.grid, b.row), 0)
  }

  /** Rows that leave the ring for good: those past its capacity, and with no
      ring every row pushed. */
  function Evicted(b: Body, maxSb: nat, pushes: nat): nat {
    Max(|b.sb| + pushes - maxSb, 0)
  }

  /** Rows dropped at the bottom by a shrink. */
  function Dropped(b: Body, target: nat): (d: nat)
    ensures d <= |b.grid|
  {
    Max(Min(BlankBelow(b.grid, b.row), |b.grid| - target), 0)
  }

  lemma PushTape(b: Body, maxSb: nat)
    requires |b.grid| > 0 && |b.sb| <= maxSb
    ensures var p := PushRow(b, maxSb);
            && Tape(p) == Tape(b)[Evicted(b, maxSb, 1)..] && |p.sb| <= maxSb
            && |p.sb| + Evicted(b, maxSb, 1) == |b.sb| + 1
  {
    assert b.grid == [b.grid[0]] + b.grid[1..];
    assert Tape(b) == (b.sb + [b.grid[0]]) + b.grid[1..];
  }

  lemma PushCounts(b: Body, maxSb: nat)
    requires |b.grid| > 0
    ensures var p := PushRow(b, maxSb);
            && |p.grid| == |b.grid| - 1 && p.row == Max(b.row - 1, 0)
            && p.total == b.total + (if maxSb == 0 then 0 else 1)
  {
  }

  /** Pushing changes nothing at the bottom. */
  lemma PushKeepsBottom(b: Body, maxSb: nat)
    requires |b.grid| > 1 && !DropsBottom(b)
    ensures !DropsBottom(PushRow(b, maxSb))
  {
  }

  lemma {:induction false} ShrunkPushing(b: Body, maxSb: nat, target: nat)
    requires 1 <= target && |b.sb| <= maxSb && !DropsBottom(b)
    ensures var r, p := Shrunk(b, maxSb, target, true), Max(|b.grid| - target, 0);
            var e := Evicted(b, maxSb, p);
            && Tape(r) == Tape(b)[e..] && |r.sb| <= maxSb && |r.sb| + e == |b.sb| + p
            && r.row == Max(b.row - p, 0)
            && r.total == b.total + (if maxSb == 0 then 0 else p)
    decreases |b.grid|
  {
    hide DropsBottom, PushRow;
    if |b.grid| > target {
      var c := PushRow(b, maxSb);
      PushTape(b, maxSb);
      PushCounts(b, maxSb);
      PushKeepsBottom(b, maxSb);
      ShrunkPushing(c, maxSb, target);
      var e1, e2 := Evicted(b, maxSb, 1), Evicted(c, maxSb, |c.grid| - target);
      assert Tape(b)[e1..][e2..] == Tape(b)[e1 + e2..];
    } else {
      assert Tape(b)[0..] == Tape(b);
    }
  }

  /** Dropping one blank row leaves one fewer to drop and as many to push. */
  lemma DropStep(b: Body, maxSb: nat, target: nat)
    requires |b.grid| > target && DropsBottom(b)
    ensures var c := b.(grid := b.grid[..|b.grid| - 1]);
            && Shrunk(b, maxSb, target, true) == Shrunk(c, maxSb, target, true)
            && Pushes(b, target) == Pushes(c, target) && Dropped(b, target) == Dropped(c, target) + 1
            && |Tape(b)| == |Tape(c)| + 1 && Tape(c) == Tape(b)[..|Tape(b)| - 1] && AllBlank(Tape(b)[|Tape(b)| - 1])
  {
    var c := b.(grid := b.grid[..|b.grid| - 1]);
    assert Tape(b)[|Tape(b)| - 1] == b.grid[|b.grid| - 1];
    assert Tape(c) == Tape(b)[..|Tape(b)| - 1];
  }

  /** Nothing blank to drop: every row over the target is pushed. */
  lemma NothingDropped(b: Body, target: nat)
    requires |b.grid| > target ==> !DropsBottom(b)
    ensures Pushes(b, target) == Max(|b.grid| - target, 0) && Dropped(b, target) == 0
  {
  }

  /** A reflowing shrink conserves the rows: the tape loses only rows evicted
      from the ring's far end and blank rows below the cursor. */
  lemma {:induction false} ShrunkConserves(b: Body, maxSb: nat, target: nat)
    requires 1 <= target && |b.sb| <= maxSb
    ensures var r, p, d := Shrunk(b, maxSb, target, true), Pushes(b, target), Dropped(b, target);
            var e := Evicted(b, maxSb, p);
            && e + d <= |Tape(b)| && Tape(r) == Tape(b)[e..|Tape(b)| - d]
            && (forall k :: |Tape(b)| - d <= k < |Tape(b)| ==> AllBlank(Tape(b)[k]))
            && |r.sb| <= maxSb && |r.sb| + e == |b.sb| + p
            && r.row == Max(b.row - p, 0)
            && r.total == b.total + (if maxSb == 0 then 0 else p)
    decreases |b.grid|
  {
    hide AllBlank, Pushes, Dropped, Tape, Shrunk;
    if |b.grid| > target && DropsBottom(b) {
      var c := b.(grid := b.grid[..|b.grid| - 1]);
      ShrunkConserves(c, maxSb, target);
      DropStep(b, maxSb, target);
      var n, d, e := |Tape(b)|, Dropped(b, target), Evicted(b, maxSb, Pushes(b, target));
      assert Tape(c)[e..n - d] == Tape(b)[e..n - d];
      forall k | n - d <= k < n
        ensures AllBlank(Tape(b)[k])
      {
        assert k < n - 1 ==> Tape(c)[k] == Tape(b)[k];
      }
    } else {
      NothingDropped(b, target);
      ShrunkRest(b, maxSb, target);
    }
  }

  lemma ShrunkRest(b: Body, maxSb: nat, target: nat)
    requires 1 <= target && |b.sb| <= maxSb && (|b.grid| > target ==> !DropsBottom(b))
    ensures var r, p := Shrunk(b, maxSb, target, true), Max(|b.grid| - target, 0);
            var e := Evicted(b, maxSb, p);
            && e <= |Tape(b)| && Tape(r) == Tape(b)[e..|Tape(b)|] && |r.sb| <= maxSb && |r.sb| + e == |b.sb| + p
            && r.row == Max(b.row - p, 0)
            && r.total == b.total + (if maxSb == 0 then 0 else p)
  {
    hide AllBlank;
    if |b.grid| > target {
      ShrunkPushing(b, maxSb, target);
    } else {
      assert Tape(b)[0..|Tape(b)|] == Tape(b);
    }
  }

  /** The cursor stays on its own row of the tape, and that row on the screen,
      if and only if no more rows are pushed than stand above it. */
  lemma CursorRowKept(b: Body, maxSb: nat, target: nat)
    requires 1 <= target && |b.sb| <= maxSb && b.row < |b.grid|
    ensures var r, p := Shrunk(b, maxSb, target, true), Pushes(b, target);
            |r.sb| + r.row + Evicted(b, maxSb, p) == |b.sb| + b.row <==> p <= b.row
  {
    ShrunkConserves(b, maxSb, target);
  }

  /** Growing conserves the rows, appends only blanks, and the cursor keeps its
      row of the tape. */
  lemma {:induction false} GrownConserves(b: Body, cols: nat, target: nat)
    ensures var r := Grown(b, cols, target, true);
            var n := Max(target - |b.grid| - |b.sb|, 0);
            && Tape(r) == Tape(b) + BlankRows(n, cols)
            && |r.sb| + r.row == |b.sb| + b.row && |r.sb| <= |b.sb| && r.total == b.total
            && (n > 0 ==> r.sb == [])
    decreases target - |b.grid|
  {
    if |b.grid| < target {
      if b.sb != [] {
        var c := b.(grid := [b.sb[|b.sb| - 1]] + b.grid, sb := b.sb[..|b.sb| - 1], row := b.row + 1);
        GrownConserves(c, cols, target);
        assert Tape(c) == Tape(b);
      } else {
        var c := b.(grid := b.grid + [BlankRow(cols)]);
        GrownConserves(c, cols, target);
        assert Tape(c) == Tape(b) + [BlankRow(cols)];
        var n := target - |b.grid|;
        assert [BlankRow(cols)] + BlankRows(n - 1, cols) == BlankRows(n, cols);
      }
    } else {
      assert Tape(b) + BlankRows(0, cols) == Tape(b);
    }
  }

  /** Without reflow a shrink drops the bottom rows and a growth adds blanks. */
  lemma {:induction false} PlainHeight(b: Body, maxSb: nat, cols: nat, target: nat)
    ensures Shrunk(b, maxSb, target, false) == b.(grid := b.grid[..Min(|b.grid|, target)])
    ensures Grown(b, cols, target, false) == b.(grid := b.grid + BlankRows(Max(target - |b.grid|, 0), cols))
    decreases |b.grid| + Max(target - |b.grid|, 0)
  {
    if |b.grid| > target {
      PlainHeight(b.(grid := b.grid[..|b.grid| - 1]), maxSb, cols, target);
    } else {
      assert b.grid[..|b.grid|] == b.grid;
    }
    PlainGrown(b, cols, target);
  }

  lemma {:induction false} PlainGrown(b: Body, cols: nat, target: nat)
    ensures Grown(b, cols, target, false) == b.(grid := b.grid + BlankRows(Max(target - |b.grid|, 0), cols))
    decreases target - |b.grid|
  {
    if |b.grid| < target {
      var n := target - |b.grid|;
      PlainGrown(b.(grid := b.grid + [BlankRow(cols)]), cols, target);
      assert b.grid + [BlankRow(cols)] + BlankRows(n - 1, cols) == b.grid + BlankRows(n, cols);
    } else {
      assert b.grid + BlankRows(0, cols) == b.grid;
    }
  }

  // --- width ------------------------------------------------------------------------

  /** A screen and the cursor that a resize carries along. */
  datatype View = View(scr: Screen, row: nat, col: nat)

  predicate ViewOk(v: View) {
    I.ScreenOk(v.scr) && v.row < v.scr.rows && v.col < v.scr.cols
  }

  /** The rows a reflow works on: everything but trailing blank rows below the
      cursor. */
  function ReflowTape(v: View): (r: seq<Row>)
    ensures r <= v.scr.sb + v.scr.grid
    ensures v.row < |v.scr.grid| ==> |v.scr.sb| + v.row < |r|
    ensures forall k :: |r| <= k < |v.scr.sb + v.scr.grid| ==> BlankEnd((v.scr.sb + v.scr.grid)[k])
  {
    DropTail(v.scr.sb + v.scr.grid, |v.scr.sb| + v.row + 1)
  }

  lemma TapeGood(v: View)
    requires ViewOk(v)
    ensures RowsGood(ReflowTape(v), v.scr.cols) && |v.scr.sb| + v.row < |ReflowTape(v)|
    ensures ReflowTape(v)[|v.scr.sb| + v.row] == v.scr.grid[v.row]
  {
    hide RowOk, DropTail;
    var all := v.scr.sb + v.scr.grid;
    assert forall i :: 0 <= i < |ReflowTape(v)| ==> ReflowTape(v)[i] == all[i];
  }

  /** The first rewrapped row that stays on the screen: the last screenful, or
      the cursor's row when that is higher up. */
  function WindowStart(total: nat, rows: nat, cursor: nat): (start: nat)
    ensures start <= cursor && (start < cursor ==> start + rows >= total)
  {
    Min(cursor, Max(total - rows, 0))
  }

  /** The rewrapped rows cut into ring, screen, and what overflows below it. */
  function Windowed(s: Screen, out: seq<Row>, row: nat, col: nat, width: nat): View
    requires row < |out|
  {
    var start := WindowStart(|out|, s.rows, row);
    var win := out[start..Min(start + s.rows, |out|)];
    View(s.(cols := width, grid := win + BlankRows(s.rows - |win|, width), sb := Newest(out[..start], s.maxSb)),
      row - start, col)
  }

  lemma WindowedOk(s: Screen, out: seq<Row>, row: nat, col: nat, width: nat)
    requires s.Valid() && RowsGood(out, width) && row < |out| && col < width
    ensures ViewOk(Windowed(s, out, row, col, width))
    ensures Windowed(s, out, row, col, width).scr.grid[Windowed(s, out, row, col, width).row] == out[row]
  {
    hide RowsGood, I.ScreenOk, Newest, BlankRows, RowOk;
    var start := WindowStart(|out|, s.rows, row);
    var u := Windowed(s, out, row, col, width).scr;
    var win := out[start..Min(start + s.rows, |out|)];
    SpanGood(out, width, start, |win|);
    SpanGood(out, width, 0, start);
    NewestGood(out[..start], s.maxSb, width);
    BlanksGood(s.rows - |win|, width);
    JoinGood(win, BlankRows(s.rows - |win|, width), width);
    GoodScreen(u);
  }

  lemma SpanGood(rows: seq<Row>, width: nat, i: nat, n: nat)
    requires RowsGood(rows, width) && i + n <= |rows|
    ensures RowsGood(rows[i..i + n], width)
  {
    hide RowOk;
  }

  lemma NewestGood(rows: seq<Row>, n: nat, width: nat)
    requires RowsGood(rows, width)
    ensures RowsGood(Newest(rows, n), width)
  {
    hide RowOk;
  }

  lemma BlanksGood(n: nat, width: nat)
    requires width >= 1
    ensures RowsGood(BlankRows(n, width), width)
  {
    hide RowOk;
    I.BlankRowOk(width);
  }

  lemma JoinGood(a: seq<Row>, b: seq<Row>, width: nat)
    requires RowsGood(a, width) && RowsGood(b, width)
    ensures RowsGood(a + b, width)
  {
    hide RowOk;
  }

  lemma GoodScreen(s: Screen)
    requires s.rows >= 1 && |s.grid| == s.rows && |s.sb| <= s.maxSb
    requires RowsGood(s.grid, s.cols) && RowsGood(s.sb, s.cols)
    ensures I.ScreenOk(s)
  {
    forall i | 0 <= i < |s.grid|
      ensures |s.grid[i].cells| == s.cols
    {
      RowLength(s.grid[i].cells, s.cols);
    }
  }

  /** What survives is one contiguous window of the rewrapped rows, with blanks
      behind it; it loses rows at the bottom only to keep the cursor's on the
      screen, and at the top only those the ring has no room for. */
  lemma WindowIs(s: Screen, out: seq<Row>, row: nat, col: nat, width: nat)
    requires row < |out|
    ensures var u := Windowed(s, out, row, col, width);
            var start := WindowStart(|out|, s.rows, row);
            var e, b := Max(start - s.maxSb, 0), Min(start + s.rows, |out|);
            && e <= b && u.scr.sb + u.scr.grid == out[e..b] + BlankRows(start + s.rows - b, width)
            && (b < |out| ==> start == row)
            && |u.scr.sb| + u.row + e == row
  {
    hide Newest, BlankRows;
    var start := WindowStart(|out|, s.rows, row);
    var b := Min(start + s.rows, |out|);
    WindowRows(out, start, b, s.maxSb, BlankRows(start + s.rows - b, width));
  }

  lemma WindowRows(out: seq<Row>, start: nat, b: nat, m: nat, blank: seq<Row>)
    requires start <= b <= |out|
    ensures Newest(out[..start], m) + (out[start..b] + blank) == out[Max(start - m, 0)..b] + blank
  {
    var e := Max(start - m, 0);
    assert Newest(out[..start], m) == out[e..start];
    assert out[e..start] + out[start..b] == out[e..b];
    assert out[e..start] + (out[start..b] + blank) == (out[e..start] + out[start..b]) + blank;
  }

  /** Where a reflow takes the rows and the cursor. */
  function Reflowed(v: View, width: nat): View
    requires ViewOk(v) && width >= 1
  {
    TapeGood(v);
    var at := |v.scr.sb| + v.row;
    var p := CursorTo(ReflowTape(v), v.scr.cols, 0, at, v.col, width);
    CursorInGrid(ReflowTape(v), v.scr.cols, 0, at, v.col, width);
    Windowed(v.scr, Relined(ReflowTape(v), v.scr.cols, 0, at, v.col, width), p.0, p.1, width)
  }

  lemma {:induction false} CursorInGrid(rows: seq<Row>, cols: nat, i: nat, row: nat, col: nat, width: nat)
    requires RowsGood(rows, cols) && i <= row < |rows| && col < cols && width >= 1
    ensures var (r, c) := CursorTo(rows, cols, i, row, col, width);
            r < |Relined(rows, cols, i, row, col, width)| && c < width
    decreases |rows| - i
  {
    hide LogicalLine, LineRows, RowOk, LineOk, CursorIn, RowCells;
    var j := LineEnd(rows, i);
    var line := LogicalLine(rows, cols, i, j, row, col);
    if row < j {
      CursorFollows(line, CursorOff(rows, i, j, row, col), width);
    } else {
      CursorInGrid(rows, cols, j, row, col, width);
    }
  }

  /** In `u` the cursor is where it was in `v`: the rows of `u`, ring first, are a
      window of the rewrapped tape, and the cursor's row and column there are the
      same character of the same logical line as before. */
  predicate CursorStays(v: View, u: View, width: nat)
    requires ViewOk(v) && width >= 1
  {
    TapeGood(v);
    var at, tape := |v.scr.sb| + v.row, ReflowTape(v);
    var out, p := Relined(tape, v.scr.cols, 0, at, v.col, width), CursorTo(tape, v.scr.cols, 0, at, v.col, width);
    var start := WindowStart(|out|, v.scr.rows, p.0);
    var e, b := Max(start - v.scr.maxSb, 0), Min(start + v.scr.rows, |out|);
    && SamePlace(tape, v.scr.cols, at, v.col, out, width, p.0, p.1)
    && e <= b && u.scr.sb + u.scr.grid == out[e..b] + BlankRows(start + v.scr.rows - b, width)
    && |u.scr.sb| + u.row + e == p.0 && u.col == p.1
  }

  /** A reflow leaves whole rows of the new width, the cursor on the screen and on
      its own character (two columns or more: on a cell of the same value), and the
      count of rows ever pushed as it was. */
  lemma ReflowedOk(v: View, width: nat)
    requires ViewOk(v) && width >= 1
    ensures var u := Reflowed(v, width);
            && ViewOk(u) && u.scr.rows == v.scr.rows && u.scr.cols == width
            && u.scr.maxSb == v.scr.maxSb && u.scr.total == v.scr.total
            && CursorStays(v, u, width)
            && (width >= 2 && v.scr.grid[v.row].cells[v.col].width != 0 ==>
                  u.scr.grid[u.row].cells[u.col] == v.scr.grid[v.row].cells[v.col])
  {
    hide Relined, CursorTo, RowsGood, RowOk, I.ScreenOk, ReflowTape, CursorStays;
    TapeGood(v);
    GoodFacts(v);
    ReflowStays(v, width);
    var at := |v.scr.sb| + v.row;
    var out := Relined(ReflowTape(v), v.scr.cols, 0, at, v.col, width);
    var p := CursorTo(ReflowTape(v), v.scr.cols, 0, at, v.col, width);
    CursorInGrid(ReflowTape(v), v.scr.cols, 0, at, v.col, width);
    RelinedRows(ReflowTape(v), v.scr.cols, 0, at, v.col, width);
    WindowedOk(v.scr, out, p.0, p.1, width);
    if width >= 2 {
      CursorKept(ReflowTape(v), v.scr.cols, 0, at, v.col, width);
    }
  }

  lemma GoodFacts(v: View)
    requires ViewOk(v)
    ensures v.scr.Valid() && |v.scr.grid[v.row].cells| == v.scr.cols
  {
    hide RowOk;
  }

  lemma ReflowStays(v: View, width: nat)
    requires ViewOk(v) && width >= 1
    ensures CursorStays(v, Reflowed(v, width), width)
  {
    hide Relined, CursorTo, RowsGood, RowOk, I.ScreenOk, ReflowTape, SamePlace, WindowStart, BlankRows, Newest;
    TapeGood(v);
    var at := |v.scr.sb| + v.row;
    var out := Relined(ReflowTape(v), v.scr.cols, 0, at, v.col, width);
    var p := CursorTo(ReflowTape(v), v.scr.cols, 0, at, v.col, width);
    CursorInGrid(ReflowTape(v), v.scr.cols, 0, at, v.col, width);
    WindowIs(v.scr, out, p.0, p.1, width);
    CursorLocated(ReflowTape(v), v.scr.cols, at, v.col, width);
  }

  /** `resize_width`, without reflow: cut or pad, and blank a wide head that
      lost its spacer. */
  function CutRow(r: Row, width: nat): Row {
    if width < |r.cells| then
      var c := r.cells[..width];
      r.(cells := if width > 0 && c[width - 1].width == 2 then c[width - 1 := BLANK] else c)
    else r.(cells := Pad(r.cells, width))
  }

  lemma CutRowOk(r: Row, cols: nat, width: nat)
    requires RowOk(r.cells, cols)
    ensures RowOk(CutRow(r, width).cells, width)
  {
    var q := CutRow(r, width).cells;
    forall c: nat | c < |q|
      ensures !Orphan(q, c)
    {
      if c < cols {
        assert !Orphan(r.cells, c);
      }
      assert 0 < c <= cols ==> !Orphan(r.cells, c - 1);
    }
  }

  function CutRows(rows: seq<Row>, width: nat): (r: seq<Row>)
    ensures |r| == |rows|
    ensures forall i :: 0 <= i < |r| ==> r[i] == CutRow(rows[i], width)
  {
    seq(|rows|, i requires 0 <= i < |rows| => CutRow(rows[i], width))
  }

  // --- a whole resize ---------------------------------------------------------------

  function WidthSet(v: View, cols: nat, reflow: bool): View
    requires ViewOk(v) && cols >= 1
  {
    if cols == v.scr.cols then v
    else if reflow then Reflowed(v, cols)
    else View(v.scr.(cols := cols, grid := CutRows(v.scr.grid, cols), sb := CutRows(v.scr.sb, cols)), v.row, Min(v.col, cols - 1))
  }

  function HeightSet(v: View, rows: nat, reflow: bool): View {
    var b := Shrunk(Body(v.scr.grid, v.scr.sb, v.scr.total, v.row), v.scr.maxSb, rows, reflow);
    var r := Grown(b, v.scr.cols, rows, reflow);
    View(v.scr.(rows := rows, grid := r.grid, sb := r.sb, total := r.total), Max(Min(r.row, rows - 1), 0), v.col)
  }

  /** `Screen::resize`. */
  function Resized(v: View, rows: nat, cols: nat, reflow: bool): View
    requires ViewOk(v)
  {
    HeightSet(WidthSet(v, Max(cols, 1), reflow), Max(rows, 1), reflow)
  }

  lemma WidthSetOk(v: View, cols: nat, reflow: bool)
    requires ViewOk(v) && cols >= 1
    ensures var u := WidthSet(v, cols, reflow);
            && ViewOk(u) && u.scr.cols == cols && u.scr.rows == v.scr.rows
            && u.scr.maxSb == v.scr.maxSb && u.scr.total == v.scr.total
  {
    hide RowOk, Reflowed, CutRow, CursorStays;
    if cols != v.scr.cols && reflow {
      ReflowedOk(v, cols);
    } else if cols != v.scr.cols {
      forall r: Row | RowOk(r.cells, v.scr.cols)
        ensures RowOk(CutRow(r, cols).cells, cols) && |CutRow(r, cols).cells| == cols
      {
        CutRowOk(r, v.scr.cols, cols);
        RowLength(CutRow(r, cols).cells, cols);
      }
    }
  }

  lemma HeightSetOk(v: View, rows: nat, reflow: bool)
    requires ViewOk(v) && rows >= 1
    ensures var u := HeightSet(v, rows, reflow);
            && ViewOk(u) && u.scr.rows == rows && u.scr.cols == v.scr.cols
            && u.scr.maxSb == v.scr.maxSb && u.scr.total >= v.scr.total
  {
    hide RowOk, Shrunk, Grown, Tape, Dropped, Pushes;
    var b := Body(v.scr.grid, v.scr.sb, v.scr.total, v.row);
    var c := Shrunk(b, v.scr.maxSb, rows, reflow);
    var r := Grown(c, v.scr.cols, rows, reflow);
    assert RowsGood(b.sb + b.grid, v.scr.cols);
    if reflow {
      ShrunkConserves(b, v.scr.maxSb, rows);
      GrownConserves(c, v.scr.cols, rows);
      TapeKept(b, c, r, v.scr.cols, Evicted(b, v.scr.maxSb, Pushes(b, rows)), Dropped(b, rows),
               Max(rows - |c.grid| - |c.sb|, 0));
    } else {
      PlainHeight(b, v.scr.maxSb, v.scr.cols, rows);
      PlainGrown(c, v.scr.cols, rows);
      I.BlankRowOk(v.scr.cols);
      assert RowsGood(r.sb + r.grid, v.scr.cols);
    }
    BodyRows(r, v.scr.cols);
  }

  lemma BodyRows(r: Body, cols: nat)
    requires RowsGood(r.sb + r.grid, cols)
    ensures forall i :: 0 <= i < |r.grid| ==> RowOk(r.grid[i].cells, cols) && |r.grid[i].cells| == cols
    ensures forall i :: 0 <= i < |r.sb| ==> RowOk(r.sb[i].cells, cols)
  {
    hide RowOk;
    forall i | 0 <= i < |r.grid|
      ensures RowOk(r.grid[i].cells, cols) && |r.grid[i].cells| == cols
    {
      assert (r.sb + r.grid)[|r.sb| + i] == r.grid[i];
      RowLength(r.grid[i].cells, cols);
    }
    forall i | 0 <= i < |r.sb|
      ensures RowOk(r.sb[i].cells, cols)
    {
      assert (r.sb + r.grid)[i] == r.sb[i];
    }
  }

  lemma TapeKept(b: Body, c: Body, r: Body, cols: nat, e: nat, d: nat, n: nat)
    requires RowsGood(b.sb + b.grid, cols) && e + d <= |Tape(b)|
    requires Tape(c) == Tape(b)[e..|Tape(b)| - d] && Tape(r) == Tape(c) + BlankRows(n, cols)
    ensures RowsGood(r.sb + r.grid, cols)
  {
    hide RowOk;
    I.BlankRowOk(cols);
  }

  /** A resize keeps every row whole, the cursor on the screen, the ring within
      its bound, and never lowers the count of rows ever pushed. */
  lemma ResizedOk(v: View, rows: nat, cols: nat, reflow: bool)
    requires ViewOk(v)
    ensures var u := Resized(v, rows, cols, reflow);
            && ViewOk(u) && u.scr.rows == Max(rows, 1) && u.scr.cols == Max(cols, 1)
            && u.scr.maxSb == v.scr.maxSb && u.scr.total >= v.scr.total
  {
    hide WidthSet, HeightSet, ViewOk, CursorStays;
    WidthSetOk(v, Max(cols, 1), reflow);
    HeightSetOk(WidthSet(v, Max(cols, 1), reflow), Max(rows, 1), reflow);
  }

  // --- runs ---------------------------------------------------------------------------

  /** What changes a screen's rows as a whole. */
  datatype Edit =
    | Up(top: nat, bot: nat, n: nat, save: bool)
    | Down(top: nat, bot: nat, n: nat)
    | Goto(row: nat, col: nat)
    | Resize(rows: nat, cols: nat, reflow: bool)

  function Edited(v: View, e: Edit): View
    requires ViewOk(v)
  {
    match e
    case Up(top, bot, n, save) => v.(scr := v.scr.ScrollUp(top, bot, n, save))
    case Down(top, bot, n) => v.(scr := v.scr.ScrollDown(top, bot, n))
    case Goto(row, col) => v.(row := Min(row, v.scr.rows - 1), col := Min(col, v.scr.cols - 1))
    case Resize(rows, cols, reflow) => Resized(v, rows, cols, reflow)
  }

  lemma EditedOk(v: View, e: Edit)
    requires ViewOk(v)
    ensures ViewOk(Edited(v, e)) && Edited(v, e).scr.maxSb == v.scr.maxSb
    ensures Edited(v, e).scr.total >= v.scr.total
  {
    hide Resized, RowOk;
    match e
    case Up(top, bot, n, save) => I.ScrollUpOk(v.scr, top, bot, n, save);
    case Down(top, bot, n) => I.ScrollDownOk(v.scr, top, bot, n);
    case Goto(_, _) =>
    case Resize(rows, cols, reflow) => ResizedOk(v, rows, cols, reflow);
  }

  function Edits(v: View, es: seq<Edit>): (u: View)
    requires ViewOk(v)
    ensures ViewOk(u)
    decreases |es|
  {
    if es == [] then v else
      EditedOk(v, es[0]);
      Edits(Edited(v, es[0]), es[1..])
  }

  /** Over every run of scrolls and resizes: the grid has its rows, every row
      its cells and no split pair, the ring stays within its maximum, and the
      count of rows ever pushed never decreases. */
  lemma {:induction false} EditsKeep(v: View, es: seq<Edit>)
    requires ViewOk(v)
    ensures var u := Edits(v, es).scr;
            && I.ScreenOk(u) && |u.grid| == u.rows && |u.sb| <= v.scr.maxSb && u.total >= v.scr.total
    decreases |es|
  {
    hide Edited, RowOk;
    if es != [] {
      EditedOk(v, es[0]);
      EditsKeep(Edited(v, es[0]), es[1..]);
    }
    assert Edits(v, es).scr.maxSb == v.scr.maxSb by {
      EditsMax(v, es);
    }
  }

  lemma {:induction false} EditsMax(v: View, es: seq<Edit>)
    requires ViewOk(v)
    ensures Edits(v, es).scr.maxSb == v.scr.maxSb
    decreases |es|
  {
    hide Edited;
    if es != [] {
      EditedOk(v, es[0]);
      EditsMax(Edited(v, es[0]), es[1..]);
    }
  }

  /** A full-screen scroll with a ring conserves the rows too: blanks join at the
      bottom and only the oldest rows leave. */
  lemma ScrollConserves(s: Screen, n: nat)
    requires s.Valid() && s.maxSb > 0
    ensures var k, u := Max(Min(n, s.rows), 1), s.ScrollUp(0, s.rows - 1, n, true);
            var e := Max(|s.sb| + k - s.maxSb, 0);
            && e <= |s.sb| + k && u.sb + u.grid == (s.sb + s.grid + BlankRows(k, s.cols))[e..]
            && u.total == s.total + k && |u.sb| + e == |s.sb| + k
  {
    hide Newest;
    var k := Max(Min(n, s.rows), 1);
    var u, blank := s.ScrollUp(0, s.rows - 1, n, true), BlankRows(k, s.cols);
    assert u.grid == s.grid[k..] + blank;
    NewestSuffix(s.sb + s.grid[..k], s.maxSb, u.grid);
    Regroup(s.sb, s.grid, k, blank);
  }

  lemma NewestSuffix(a: seq<Row>, m: nat, b: seq<Row>)
    ensures Newest(a, m) + b == (a + b)[Max(|a| - m, 0)..]
  {
  }

  lemma Regroup(a: seq<Row>, g: seq<Row>, k: nat, b: seq<Row>)
    requires k <= |g|
    ensures (a + g[..k]) + (g[k..] + b) == a + g + b
  {
    assert g == g[..k] + g[k..];
  }
}
