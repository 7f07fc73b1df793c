// What the display diff passes over, cell by cell, without the scan that finds it
// (`put_row` and the scroll shortcut in crates/posh-proto/src/display.rs).

module Scans {
  import opened Cells
  import opened Machine
  import opened Printing
  import opened RowDiff
  import opened Display
  import opened NewFrame

  // --- one row -----------------------------------------------------------------------

  /** A cell that starts a character. */
  predicate Head(row: seq<Cell>, x: nat) {
    x < |row| && 1 <= row[x].width <= 2 && x + row[x].width <= |row|
  }

  lemma HeadNext(row: seq<Cell>, x: nat)
    requires RowOk(row, |row|) && x < |row| && row[x].width != 0
    ensures Head(row, x) && (x + row[x].width < |row| ==> row[x + row[x].width].width != 0)
    ensures IsBlank(row[x]) ==> row[x].width == 1
  {
    NextStart(row, x);
  }

  /** Where the scan starts, a cell is passed over if the model has it. */
  lemma SkipsFirst(row: seq<Cell>, model: seq<Cell>, init: bool, x: nat)
    requires |row| == |model| && RowOk(row, |row|) && x < |row| && row[x].width != 0
    ensures Skips(row, model, init, x, 0, x) <==> init && model[x] == row[x]
  {
    HeadNext(row, x);
    SkipsStep(row, model, init, x, 0, x);
    hide Skips;
    if Skips(row, model, init, x + row[x].width, 0, x) {
      SkipsAhead(row, model, init, x + row[x].width, 0, x);
    } else if IsBlank(row[x]) && Skips(row, model, init, x + 1, 1, x) {
      SkipsAhead(row, model, init, x + 1, 1, x);
    }
  }

  /** With blanks pending it is not. */
  lemma SkipsPending(row: seq<Cell>, model: seq<Cell>, init: bool, x: nat, run: nat)
    requires |row| == |model| && RowOk(row, |row|) && 0 < run <= x < |row| && row[x].width != 0
    ensures !Skips(row, model, init, x, run, x)
  {
    HeadNext(row, x);
    SkipsStep(row, model, init, x, run, x);
    hide Skips;
    if Skips(row, model, init, x + row[x].width, 0, x) {
      SkipsAhead(row, model, init, x + row[x].width, 0, x);
    } else if IsBlank(row[x]) && Skips(row, model, init, x + 1, run + 1, x) {
      SkipsAhead(row, model, init, x + 1, run + 1, x);
    } else if IsBlank(row[x]) && Skips(row, model, init, x + 1, 1, x) {
      SkipsAhead(row, model, init, x + 1, 1, x);
    }
  }

  /** After that, a cell is passed over exactly if the model has it and the cell before
      it was passed over too or is not blank: drawn blanks are held back, and end where
      something else is drawn. */
  lemma {:induction false} SkipsExactly(row: seq<Cell>, model: seq<Cell>, init: bool, x: nat, run: nat, j: nat, k: nat)
    requires |row| == |model| && RowOk(row, |row|) && run <= x <= j < k < |row|
    requires row[x].width != 0 && row[j].width != 0 && k == j + row[j].width
    ensures Skips(row, model, init, x, run, k) <==>
            init && model[k] == row[k] && (Skips(row, model, init, x, run, j) || !IsBlank(row[j]))
    decreases |row| - x
  {
    HeadNext(row, x);
    HeadNext(row, j);
    SkipsStep(row, model, init, x, run, k);
    SkipsStep(row, model, init, x, run, j);
    hide Skips;
    var c := row[x];
    var skip := init && run == 0 && model[x] == c;
    var next := if skip || !IsBlank(c) then 0
                else if run == 0 || (c.style == row[x - 1].style && c.link == row[x - 1].link) then run + 1 else 1;
    if x == j {
      if next == 0 {
        SkipsFirst(row, model, init, k);
      } else {
        SkipsPending(row, model, init, k, next);
      }
      if Skips(row, model, init, k, next, j) {
        SkipsAhead(row, model, init, k, next, j);
      }
    } else {
      NextFits(row, x, j);
      SkipsExactly(row, model, init, x + c.width, next, j, k);
    }
  }

  lemma NextFits(row: seq<Cell>, x: nat, j: nat)
    requires RowOk(row, |row|) && x < j < |row| && row[x].width != 0 && row[j].width != 0
    ensures x + row[x].width <= j
  {
    assert !Orphan(row, x);
  }

  /** A row that needs nothing is one whose characters the model has, all of them. */
  lemma {:induction false} SilentIs(row: seq<Cell>, model: seq<Cell>, init: bool, x: nat)
    requires |row| == |model| && RowOk(row, |row|) && x < |row| && row[x].width != 0
    ensures Silent(row, model, init, x) <==> init && forall k :: x <= k < |row| && row[k].width != 0 ==> model[k] == row[k]
    decreases |row| - x
  {
    HeadNext(row, x);
    var n := x + row[x].width;
    forall k | x < k < n
      ensures row[k].width == 0
    {
      if row[k].width != 0 {
        NextFits(row, x, k);
      }
    }
    if n < |row| {
      SilentIs(row, model, init, n);
    }
  }

  lemma SkipsNone(row: seq<Cell>, model: seq<Cell>, init: bool, run: nat, k: nat)
    requires |row| == |model| && run <= |row|
    ensures !Skips(row, model, init, |row|, run, k)
  {
  }

  /** The scan writes the last cell exactly if it does not pass over it, and it is not
      blank, or cannot be erased: the row wraps, or the blank has a style or a link. */
  lemma {:induction false} EndsExactly(f: Snapshot, row: seq<Cell>, rowWrap: bool, model: seq<Cell>, init: bool, x: nat, run: nat, j: nat)
    requires |row| == |model| && RowOk(row, |row|) && run <= x <= j < |row|
    requires row[x].width != 0 && row[j].width != 0 && j + row[j].width == |row|
    ensures EndsPrinted(f, row, rowWrap, model, init, x, run) <==>
            !Skips(row, model, init, x, run, j)
            && (!IsBlank(row[j]) || rowWrap || row[j].style != DEFAULT_STYLE || f.Uri(row[j].link) != 0)
    decreases |row| - x
  {
    HeadNext(row, x);
    HeadNext(row, j);
    ScanStep(f, row, rowWrap, model, init, x, run);
    SkipsStep(row, model, init, x, run, j);
    var c := row[x];
    var skip := init && run == 0 && model[x] == c;
    var next := if skip || !IsBlank(c) then 0
                else if run == 0 || (c.style == row[x - 1].style && c.link == row[x - 1].link) then run + 1 else 1;
    hide Skips, EndsPrinted;
    if x == j {
      ScanEnd(f, row, rowWrap, model, init, next);
      SkipsNone(row, model, init, next, j);
    } else {
      NextFits(row, x, j);
      EndsExactly(f, row, rowWrap, model, init, x + c.width, next, j);
    }
  }

  // --- the whole picture -----------------------------------------------------------------

  /** Row `y` of the new picture is row `z` of the old one. */
  predicate Alike(last: Snapshot, f: Snapshot, y: nat, z: nat)
    requires Comparable(last, f)
  {
    y < f.rows && z < f.rows && f.cells[y] == last.cells[z] && f.wrapped[y] == last.wrapped[z]
  }

  /** The picture moved up by `n` rows, `h` of which are still there. */
  predicate Rose(last: Snapshot, f: Snapshot, n: nat, h: nat)
    requires Comparable(last, f)
  {
    && 0 < n < f.rows && 0 < h <= f.rows - n
    && (forall z :: 0 <= z < n ==> !Alike(last, f, 0, z))
    && MovedUp(last, f, n, h)
    && (n + h < f.rows ==> !Alike(last, f, h, n + h))
  }

  /** A picture that moved up is seen to have, and no other. */
  lemma ScrollFound(last: Snapshot, f: Snapshot, n: nat, h: nat)
    requires Comparable(last, f)
    ensures Rose(last, f, n, h) ==> ScrollOf(last, f) == (n, h)
    ensures ScrollOf(last, f).1 > 0 ==> Rose(last, f, ScrollOf(last, f).0, ScrollOf(last, f).1)
  {
    hide Comparable;
    var row := FirstMatch(last, f, 0);
    if Rose(last, f, n, h) {
      assert Alike(last, f, 0, n);
      FirstIs(last, f, n, 0);
      HeightIs(last, f, n, h, 1);
    }
    if ScrollOf(last, f).1 > 0 {
      HeightEnds(last, f, row, 1);
      forall z | 0 <= z < row
        ensures !Alike(last, f, 0, z)
      {
        assert !SameRow(last, f, 0, z);
      }
    }
  }

  lemma {:induction false} FirstIs(last: Snapshot, f: Snapshot, n: nat, row: nat)
    requires Comparable(last, f) && row <= n < f.rows && Alike(last, f, 0, n) && forall z :: 0 <= z < n ==> !Alike(last, f, 0, z)
    ensures FirstMatch(last, f, row) == n
    decreases n - row
  {
    hide Comparable;
    if row < n {
      assert !Alike(last, f, 0, row);
      FirstIs(last, f, n, row + 1);
    }
  }

  lemma {:induction false} HeightIs(last: Snapshot, f: Snapshot, n: nat, h: nat, k: nat)
    requires Comparable(last, f) && Rose(last, f, n, h) && 1 <= k <= h && MovedUp(last, f, n, k)
    ensures MatchHeight(last, f, n, k) == h
    decreases h - k
  {
    if k < h {
      assert SameRow(last, f, k, n + k) by {
        assert f.cells[k] == last.cells[k + n] && f.wrapped[k] == last.wrapped[k + n];
      }
      HeightIs(last, f, n, h, k + 1);
    }
  }

  lemma {:induction false} HeightEnds(last: Snapshot, f: Snapshot, n: nat, k: nat)
    requires Comparable(last, f) && 1 <= k && MovedUp(last, f, n, k)
    ensures var h := MatchHeight(last, f, n, k);
            && k <= h <= f.rows - n && (n + h < f.rows ==> !Alike(last, f, h, n + h))
    decreases f.rows - k
  {
    hide Comparable;
    if n + k < f.rows && SameRow(last, f, k, n + k) {
      HeightEnds(last, f, n, k + 1);
    }
  }

  /** The rows that rose are not drawn again; below them the diff is made against what
      the scroll leaves: the rest of the rows that moved, the blank ones that came in,
      and the rows under them as they were. Without a scroll it is the old picture. */
  lemma PlanIs(last: Snapshot, f: Snapshot, allowScroll: bool, n: nat, h: nat, y: nat)
    requires Comparable(last, f) && y < f.rows
    ensures var p := PlanOf(true, last, f, allowScroll);
            if allowScroll && Rose(last, f, n, h) then
              p.top == h && p.model[y] == if y < h then f.cells[y] else if y < n + h then BlankCells(f.cols) else last.cells[y]
            else if !allowScroll || ScrollOf(last, f).1 == 0 then p.top == 0 && p.model[y] == last.cells[y]
            else true
    ensures PlanOf(false, f, f, allowScroll).top == 0 && PlanOf(false, f, f, allowScroll).model[y] == BlankCells(f.cols)
  {
    hide ScrollOf;
    ScrollFound(last, f, n, h);
  }

  /** A row is begun by the wrap exactly if the one above is drawn too, wraps in the
      picture, and was written to its end. */
  lemma WrapsExactly(f: Snapshot, p: Plan, init: bool, y: nat, j: nat)
    requires f.Valid() && PlanOk(f, p) && p.top <= y && y + 1 < f.rows
    requires j < f.cols && f.cells[y][j].width != 0 && j + f.cells[y][j].width == f.cols
    requires WrapsInto(f, p, init, y) ==> j > 0
    ensures var start := if WrapsInto(f, p, init, y) then f.cells[y][0].width else 0;
            start <= j
            && (WrapsOff(f, p, init, y) <==> f.wrapped[y] && !Skips(f.cells[y], p.model[y], init, start, 0, j))
  {
    hide Skips;
    var row, wrap := f.cells[y], WrapsInto(f, p, init, y);
    assert !Orphan(row, 0);
    HeadNext(row, 0);
    if wrap {
      NextFits(row, 0, j);
    }
    EndsExactly(f, row, f.wrapped[y], p.model[y], init, FirstWidth(f, y, wrap), 0, j);
  }
}
