// What a resize does to each row, said row by row and without the loops of
// `Screen::resize` and `resize_width` (crates/posh-term/src/screen.rs).

module Heights {
  import opened Cells
  import opened Machine
  import opened Relines
  import opened Resize

  // --- fewer rows -----------------------------------------------------------------

  /** The bottom `d` rows are blank and below the cursor. */
  predicate BlankUnder(b: Body, d: nat) {
    d <= |b.grid| && forall k :: |b.grid| - d <= k < |b.grid| ==> AllBlank(b.grid[k]) && k > b.row
  }

  /** As many rows over `target` as possible are blank ones at the bottom. */
  predicate DropsMost(b: Body, target: nat, d: nat) {
    && target + d <= |b.grid| && BlankUnder(b, d)
    && (target + d < |b.grid| ==> !AllBlank(b.grid[|b.grid| - 1 - d]) || |b.grid| - 1 - d <= b.row)
  }

  /** `p` rows pushed off the top and `d` dropped at the bottom. */
  function Given(b: Body, maxSb: nat, p: nat, d: nat): Body
    requires p + d <= |b.grid|
  {
    Body(b.grid[p..|b.grid| - d], if maxSb == 0 then b.sb else Newest(b.sb + b.grid[..p], maxSb),
      if maxSb == 0 then b.total else b.total + p, if p < b.row then b.row - p else 0)
  }

  lemma PushGiven(b: Body, maxSb: nat, p: nat)
    requires 1 <= p <= |b.grid| && |b.sb| <= maxSb
    ensures |PushRow(b, maxSb).sb| <= maxSb && Given(PushRow(b, maxSb), maxSb, p - 1, 0) == Given(b, maxSb, p, 0)
  {
    var c := PushRow(b, maxSb);
    assert c.grid == b.grid[1..];
    assert c.grid[p - 1..|c.grid|] == b.grid[p..|b.grid|];
    if maxSb > 0 {
      assert [b.grid[0]] + b.grid[1..][..p - 1] == b.grid[..p];
      assert b.sb + [b.grid[0]] + b.grid[1..][..p - 1] == b.sb + b.grid[..p];
      NewestTwice(b.sb + [b.grid[0]], c.grid[..p - 1], maxSb);
    }
  }

  lemma NewestTwice(a: seq<Row>, c: seq<Row>, n: nat)
    ensures Newest(Newest(a, n) + c, n) == Newest(a + c, n)
  {
  }

  lemma {:induction false} ShrunkGives(b: Body, maxSb: nat, target: nat)
    requires 1 <= target <= |b.grid| && |b.sb| <= maxSb && DropsMost(b, target, 0)
    ensures Shrunk(b, maxSb, target, true) == Given(b, maxSb, |b.grid| - target, 0)
    decreases |b.grid|
  {
    hide AllBlank, Newest;
    if |b.grid| > target {
      assert !DropsBottom(b);
      PushGiven(b, maxSb, |b.grid| - target);
      ShrunkGives(PushRow(b, maxSb), maxSb, target);
    } else {
      NothingGiven(b, maxSb);
    }
  }

  lemma NothingGiven(b: Body, maxSb: nat)
    requires |b.sb| <= maxSb
    ensures Given(b, maxSb, 0, 0) == b
  {
    assert b.grid[0..|b.grid| - 0] == b.grid && b.sb + b.grid[..0] == b.sb;
  }

  lemma DropsOne(b: Body, target: nat, d: nat)
    requires 1 <= target && d > 0 && DropsMost(b, target, d)
    ensures DropsBottom(b) && DropsMost(b.(grid := b.grid[..|b.grid| - 1]), target, d - 1)
  {
    hide AllBlank;
    var c := b.grid[..|b.grid| - 1];
    assert AllBlank(b.grid[|b.grid| - 1]);
    forall k | |c| - (d - 1) <= k < |c|
      ensures AllBlank(c[k]) && k > b.row
    {
      assert AllBlank(b.grid[k]);
    }
    var e := b.(grid := c);
    assert e.grid == c && e.row == b.row;
    assert BlankUnder(e, d - 1);
    assert target + d < |b.grid| ==> e.grid[|e.grid| - 1 - (d - 1)] == b.grid[|b.grid| - 1 - d];
  }

  lemma ShrunkDrops(b: Body, maxSb: nat, target: nat)
    requires |b.grid| > target && DropsBottom(b)
    ensures Shrunk(b, maxSb, target, true) == Shrunk(b.(grid := b.grid[..|b.grid| - 1]), maxSb, target, true)
  {
    hide DropsBottom;
  }

  lemma GivenDrops(b: Body, maxSb: nat, p: nat, d: nat)
    requires p + d <= |b.grid| && d > 0
    ensures Given(b.(grid := b.grid[..|b.grid| - 1]), maxSb, p, d - 1) == Given(b, maxSb, p, d)
  {
    hide Newest;
    var c := b.grid[..|b.grid| - 1];
    assert c[p..|c| - (d - 1)] == b.grid[p..|b.grid| - d] && c[..p] == b.grid[..p];
  }

  /** A shrink drops the blank rows at the bottom, as far as they are below the
      cursor and needed, and pushes the rest off the top: into the ring, which
      keeps the newest, or nowhere if there is none. The cursor moves up by the
      rows pushed, and stops at the top. */
  lemma {:induction false} ShrunkIs(b: Body, maxSb: nat, target: nat, d: nat)
    requires 1 <= target && |b.sb| <= maxSb && DropsMost(b, target, d)
    ensures Shrunk(b, maxSb, target, true) == Given(b, maxSb, |b.grid| - target - d, d)
    decreases |b.grid|
  {
    hide DropsMost, DropsBottom, Given, Shrunk;
    DropsFit(b, target, d);
    if d == 0 {
      ShrunkGives(b, maxSb, target);
    } else {
      DropsOne(b, target, d);
      ShrunkDrops(b, maxSb, target);
      ShrunkIs(b.(grid := b.grid[..|b.grid| - 1]), maxSb, target, d - 1);
      GivenDrops(b, maxSb, |b.grid| - target - d, d);
    }
  }

  lemma DropsFit(b: Body, target: nat, d: nat)
    requires DropsMost(b, target, d)
    ensures target + d <= |b.grid|
  {
  }

  /** There is always one such number of rows to drop. */
  lemma {:induction false} DropsSome(b: Body, target: nat, d: nat) returns (n: nat)
    requires target + d <= |b.grid| && BlankUnder(b, d)
    ensures DropsMost(b, target, n)
    decreases |b.grid| - d
  {
    hide AllBlank;
    var k := |b.grid| - 1 - d;
    if target + d < |b.grid| && AllBlank(b.grid[k]) && k > b.row {
      n := DropsSome(b, target, d + 1);
    } else {
      n := d;
    }
  }

  // --- more rows ------------------------------------------------------------------

  /** A growth takes the newest rows of the ring back on top, and puts blank ones at
      the bottom only for what the ring has not. */
  lemma GrownIs(b: Body, cols: nat, target: nat)
    requires |b.grid| <= target
    ensures var r, n := Grown(b, cols, target, true), Min(target - |b.grid|, |b.sb|);
            && r.grid == b.sb[|b.sb| - n..] + b.grid + BlankRows(target - |b.grid| - n, cols)
            && r.sb == b.sb[..|b.sb| - n] && r.row == b.row + n && r.total == b.total
  {
    hide BlankRows;
    GrownConserves(b, cols, target);
    var r, n := Grown(b, cols, target, true), Min(target - |b.grid|, |b.sb|);
    var blank := BlankRows(target - |b.grid| - n, cols);
    assert r.sb + r.grid == (b.sb + b.grid) + blank;
    assert b.sb == b.sb[..|b.sb| - n] + b.sb[|b.sb| - n..];
    assert r.sb + r.grid == b.sb[..|b.sb| - n] + (b.sb[|b.sb| - n..] + b.grid + blank);
    SplitAt(r.sb, r.grid, b.sb[..|b.sb| - n], b.sb[|b.sb| - n..] + b.grid + blank);
  }

  lemma SplitAt(a: seq<Row>, b: seq<Row>, c: seq<Row>, d: seq<Row>)
    requires a + b == c + d && |a| == |c|
    ensures a == c && b == d
  {
    assert a == (a + b)[..|a|] && c == (c + d)[..|c|];
    assert b == (a + b)[|a|..] && d == (c + d)[|c|..];
  }

  // --- a whole height change --------------------------------------------------------

  /** What a height change leaves of the screen and the cursor, the grid and the
      ring aside. */
  lemma HeightSets(v: View, rows: nat, reflow: bool)
    requires ViewOk(v) && rows >= 1
    ensures var u := HeightSet(v, rows, reflow);
            && u.scr == v.scr.(rows := rows, grid := u.scr.grid, sb := u.scr.sb, total := u.scr.total)
            && u.col == v.col && u.row < rows
  {
    hide Shrunk, Grown;
  }

  /** Fewer rows on a screen that reflows. */
  lemma Shorter(v: View, rows: nat, d: nat)
    requires ViewOk(v) && 1 <= rows <= v.scr.rows
    requires DropsMost(Body(v.scr.grid, v.scr.sb, v.scr.total, v.row), rows, d)
    ensures var u, p := HeightSet(v, rows, true), v.scr.rows - rows - d;
            && u.scr.grid == v.scr.grid[p..p + rows]
            && u.scr.sb == (if v.scr.maxSb == 0 then [] else Newest(v.scr.sb + v.scr.grid[..p], v.scr.maxSb))
            && u.scr.total == v.scr.total + (if v.scr.maxSb == 0 then 0 else p)
            && u.row == Max(v.row - p, 0) && u.col == v.col
  {
    hide DropsMost, Newest, Shrunk;
    var b := Body(v.scr.grid, v.scr.sb, v.scr.total, v.row);
    ShrunkIs(b, v.scr.maxSb, rows, d);
    CursorInside(b, rows, d);
  }

  lemma CursorInside(b: Body, target: nat, d: nat)
    requires 1 <= target && b.row < |b.grid| && DropsMost(b, target, d)
    ensures Max(b.row - (|b.grid| - target - d), 0) < target && target + d <= |b.grid|
  {
    if d > 0 {
      assert AllBlank(b.grid[|b.grid| - d]);
    }
  }

  /** More rows on a screen that reflows. */
  lemma Taller(v: View, rows: nat)
    requires ViewOk(v) && rows >= v.scr.rows
    ensures var u, n := HeightSet(v, rows, true), Min(rows - v.scr.rows, |v.scr.sb|);
            && u.scr.grid == v.scr.sb[|v.scr.sb| - n..] + v.scr.grid + BlankRows(rows - v.scr.rows - n, v.scr.cols)
            && u.scr.sb == v.scr.sb[..|v.scr.sb| - n] && u.scr.total == v.scr.total
            && u.row == v.row + n && u.col == v.col
  {
    hide BlankRows;
    var b := Body(v.scr.grid, v.scr.sb, v.scr.total, v.row);
    assert Shrunk(b, v.scr.maxSb, rows, true) == b;
    GrownIs(b, v.scr.cols, rows);
  }

  /** Without reflow rows come and go at the bottom; the cursor stays, or is on the
      last row. */
  lemma PlainHeights(v: View, rows: nat)
    requires ViewOk(v) && rows >= 1
    ensures var u := HeightSet(v, rows, false);
            && u.scr.grid == v.scr.grid[..Min(v.scr.rows, rows)] + BlankRows(Max(rows - v.scr.rows, 0), v.scr.cols)
            && u.scr.sb == v.scr.sb && u.scr.total == v.scr.total
            && u.row == Min(v.row, rows - 1) && u.col == v.col
  {
    hide BlankRows;
    var b := Body(v.scr.grid, v.scr.sb, v.scr.total, v.row);
    PlainHeight(b, v.scr.maxSb, v.scr.cols, rows);
    PlainGrown(Shrunk(b, v.scr.maxSb, rows, false), v.scr.cols, rows);
  }

  // --- width without reflow -----------------------------------------------------------

  /** A row cut or padded keeps its cells, but for the head of a wide character
      whose spacer was cut off. */
  lemma CutRowKeeps(r: Row, width: nat, x: nat)
    requires x < width
    ensures |CutRow(r, width).cells| == width && CutRow(r, width).wrapped == r.wrapped
    ensures CutRow(r, width).cells[x] ==
            if x >= |r.cells| then BLANK
            else if x + 1 == width < |r.cells| && r.cells[x].width == 2 then BLANK
            else r.cells[x]
  {
  }

  /** So does each row of the grid and of the ring. */
  lemma PlainWidth(v: View, cols: nat)
    requires ViewOk(v) && cols >= 1
    ensures var u := WidthSet(v, cols, false);
            && u.scr == v.scr.(cols := cols, grid := u.scr.grid, sb := u.scr.sb)
            && |u.scr.grid| == |v.scr.grid| && |u.scr.sb| == |v.scr.sb|
            && u.row == v.row && u.col == (if v.col < cols then v.col else cols - 1)
    ensures cols != v.scr.cols ==>
              forall i :: 0 <= i < |v.scr.grid| ==> WidthSet(v, cols, false).scr.grid[i] == CutRow(v.scr.grid[i], cols)
    ensures cols != v.scr.cols ==>
              forall i :: 0 <= i < |v.scr.sb| ==> WidthSet(v, cols, false).scr.sb[i] == CutRow(v.scr.sb[i], cols)
  {
    hide CutRow, RowOk;
  }

  // --- width with reflow ----------------------------------------------------------------

  /** A logical line is a row and those after it, as long as the row before wraps. */
  lemma {:induction false} LineEndIs(rows: seq<Row>, i: nat)
    requires i < |rows|
    ensures var j := LineEnd(rows, i);
            && (forall k :: i <= k < j - 1 ==> rows[k].wrapped)
            && (j < |rows| ==> !rows[j - 1].wrapped)
    decreases |rows| - i
  {
    if rows[i].wrapped && i + 1 < |rows| {
      LineEndIs(rows, i + 1);
    }
  }

  /** Before a reflow the blank rows at the bottom are left out, down to the
      cursor's; a row that wraps, or shows anything, is kept. */
  lemma {:induction false} DropTailIs(rows: seq<Row>, keep: nat)
    requires keep <= |rows|
    ensures var n := |DropTail(rows, keep)|;
            && keep <= n <= |rows| && DropTail(rows, keep) == rows[..n]
            && (forall k :: n <= k < |rows| ==> !rows[k].wrapped && AllBlank(rows[k]))
            && (n > keep ==> rows[n - 1].wrapped || !AllBlank(rows[n - 1]))
    decreases |rows|
  {
    hide AllBlank;
    var last := |rows| - 1;
    if |rows| > keep {
      BlankEnds(rows[last]);
      if BlankEnd(rows[last]) {
        DropTailIs(rows[..last], keep);
      }
    }
  }

  lemma BlankEnds(r: Row)
    ensures BlankEnd(r) <==> !r.wrapped && AllBlank(r)
  {
  }

  /** The grid is the last screenful of the rewrapped rows, unless the cursor is
      above it: then the grid begins with the cursor's row. Only a tape shorter
      than the screen is filled up with blanks, and then the ring is empty. */
  lemma WindowFilled(s: Screen, out: seq<Row>, row: nat, col: nat, width: nat)
    requires s.rows >= 1 && row < |out|
    ensures var u, over := Windowed(s, out, row, col, width), Max(|out| - s.rows, 0);
            && u.col == col && u.scr.cols == width && u.scr.rows == s.rows && |u.scr.grid| == s.rows
            && (row >= over ==> u.row == row - over && u.scr.sb == Newest(out[..over], s.maxSb))
            && (row < over ==> u.row == 0 && u.scr.sb == Newest(out[..row], s.maxSb))
            && (|out| >= s.rows ==> u.scr.grid == out[row - u.row..row - u.row + s.rows])
            && (|out| < s.rows ==> u.scr.sb == [] && u.scr.grid == out + BlankRows(s.rows - |out|, width))
  {
    hide BlankRows;
    assert out[0..|out|] == out && out[..0] == [];
    var u, start := Windowed(s, out, row, col, width), WindowStart(|out|, s.rows, row);
    if |out| >= s.rows {
      var win := out[start..start + s.rows];
      assert |BlankRows(0, width)| == 0;
      assert win + BlankRows(0, width) == win;
    }
  }

  // --- the order of the two ------------------------------------------------------------

  /** A resize changes the width first and then the height, and each only if it is
      another; nought counts as one. */
  lemma ResizedIs(v: View, rows: nat, cols: nat, reflow: bool)
    requires ViewOk(v)
    ensures Resized(v, v.scr.rows, v.scr.cols, reflow) == v
    ensures cols >= 1 ==> Resized(v, v.scr.rows, cols, reflow) == WidthSet(v, cols, reflow)
    ensures rows >= 1 ==> Resized(v, rows, v.scr.cols, reflow) == HeightSet(v, rows, reflow)
    ensures rows >= 1 && cols >= 1 ==>
              ViewOk(Resized(v, v.scr.rows, cols, reflow))
              && Resized(v, rows, cols, reflow) == Resized(Resized(v, v.scr.rows, cols, reflow), rows, cols, reflow)
    ensures Resized(v, 0, cols, reflow) == Resized(v, 1, cols, reflow)
    ensures Resized(v, rows, 0, reflow) == Resized(v, rows, 1, reflow)
  {
    hide WidthSet, HeightSet, ViewOk;
    SameWidth(v, reflow);
    SameHeight(v, reflow);
    if cols >= 1 {
      var w := WidthSet(v, cols, reflow);
      WidthSetOk(v, cols, reflow);
      SameHeight(w, reflow);
      SameWidth(w, reflow);
      SizesOk(v);
    }
    SizesOk(v);
  }

  lemma SizesOk(v: View)
    requires ViewOk(v)
    ensures v.scr.rows >= 1 && v.scr.cols >= 1
  {
  }

  lemma SameWidth(v: View, reflow: bool)
    requires ViewOk(v)
    ensures WidthSet(v, v.scr.cols, reflow) == v
  {
  }

  lemma SameHeight(v: View, reflow: bool)
    requires ViewOk(v)
    ensures HeightSet(v, v.scr.rows, reflow) == v
  {
    hide RowOk;
  }
}
