// The terminal as a tape of lines: what a stream that only prints and feeds
// lines leaves on a screen, and how the screen is the tape's last rows.

module Tape {
  import opened Cells
  import opened Machine
  import opened Printing
  import opened Frame

  /** The ring after `rows` scrolled off above it. */
  function RingOf(maxSb: nat, ring: seq<Row>, rows: seq<Row>): seq<Row> {
    if maxSb == 0 then ring else Newest(ring + rows, maxSb)
  }

  /** Drawing is on the plain path: full region, autowrap, no insert, no LNM. */
  predicate Flowing(t: Term) {
    t.Valid() && t.FullRegion() && t.modes.autowrap && !t.modes.insert && !t.modes.lnm
  }

  /** The screen shows the last rows of the tape `lines`, the cursor is on the
      last one, and everything above went to the ring. */
  predicate OnTape(t: Term, lines: seq<Row>, ring: seq<Row>) {
    && Flowing(t) && |lines| >= 1
    && (var m := Min(|lines|, t.scr.rows);
        && t.scr.grid == lines[|lines| - m..] + BlankRows(t.scr.rows - m, t.scr.cols)
        && t.cur.row == m - 1
        && t.scr.sb == RingOf(t.scr.maxSb, ring, lines[..|lines| - m]))
  }

  /** Nothing but the screen's rows and the cursor changed. */
  predicate SameRest(t: Term, u: Term) {
    u == t.(scr := u.scr, cur := u.cur) && t.SameShape(u)
  }

  function LastLine(lines: seq<Row>, r: Row): seq<Row>
    requires |lines| >= 1
  {
    lines[..|lines| - 1] + [r]
  }

  /** The cursor's row is the tape's last line. */
  lemma TapeCells(t: Term, lines: seq<Row>, ring: seq<Row>)
    requires OnTape(t, lines, ring)
    ensures t.scr.grid[t.cur.row] == lines[|lines| - 1]
  {
  }

  lemma RingPush(maxSb: nat, ring: seq<Row>, rows: seq<Row>, r: Row)
    ensures RingOf(maxSb, ring, rows + [r]) ==
            if maxSb == 0 then ring else Newest(RingOf(maxSb, ring, rows) + [r], maxSb)
  {
    if maxSb > 0 {
      NewestPush(ring + rows, r, maxSb);
      assert (ring + rows) + [r] == ring + (rows + [r]);
    }
  }

  /** IND starts a new blank line. */
  lemma TapeIndex(t: Term, lines: seq<Row>, ring: seq<Row>)
    requires OnTape(t, lines, ring)
    ensures OnTape(t.Index(), lines + [BlankRow(t.scr.cols)], ring)
    ensures t.Index().cur == t.cur.(row := t.Index().cur.row, pending := false) && SameRest(t, t.Index())
  {
    var n, h := |lines|, t.scr.rows;
    var longer := lines + [BlankRow(t.scr.cols)];
    if n < h {
      TapeIndexDown(t, lines, ring);
    } else {
      TapeIndexScroll(t, lines, ring);
    }
  }

  lemma TapeIndexDown(t: Term, lines: seq<Row>, ring: seq<Row>)
    requires OnTape(t, lines, ring) && |lines| < t.scr.rows
    ensures t.Index() == t.At(t.cur.row + 1, t.cur.col, false)
    ensures OnTape(t.Index(), lines + [BlankRow(t.scr.cols)], ring)
  {
    var n, h := |lines|, t.scr.rows;
    var longer := lines + [BlankRow(t.scr.cols)];
    assert longer[|longer| - (n + 1)..] + BlankRows(h - n - 1, t.scr.cols) == t.scr.grid;
    assert longer[..0] == lines[..0];
  }

  lemma TapeIndexScroll(t: Term, lines: seq<Row>, ring: seq<Row>)
    requires OnTape(t, lines, ring) && |lines| >= t.scr.rows
    ensures t.Index().cur == t.cur.(pending := false) && SameRest(t, t.Index())
    ensures OnTape(t.Index(), lines + [BlankRow(t.scr.cols)], ring)
  {
    hide RingOf, Screen.ScrollUp, Newest;
    var n, h, u := |lines|, t.scr.rows, t.Index();
    var longer := lines + [BlankRow(t.scr.cols)];
    IndexScrolls(t);
    ScrollIs(t.scr, 0, t.bot, 1, true);
    assert t.scr.grid == lines[n - h..];
    ScrolledTape(lines, h, t.scr.cols);
    assert u.scr.grid == longer[n + 1 - h..];
    RingPush(t.scr.maxSb, ring, lines[..n - h], lines[n - h]);
    assert longer[..n + 1 - h] == lines[..n - h] + [lines[n - h]];
    assert t.scr.grid[0..1] == [lines[n - h]];
    assert u.scr.sb == RingOf(t.scr.maxSb, ring, longer[..n + 1 - h]) by {
      RingIs(t.scr.maxSb, ring, lines[..n - h]);
    }
    assert longer[n + 1 - h..] + BlankRows(0, t.scr.cols) == longer[n + 1 - h..];
  }

  lemma RingIs(maxSb: nat, ring: seq<Row>, rows: seq<Row>)
    ensures maxSb == 0 ==> RingOf(maxSb, ring, rows) == ring
  {
  }

  lemma ScrolledTape(lines: seq<Row>, h: nat, cols: nat)
    requires 1 <= h <= |lines|
    ensures Scrolled(lines[|lines| - h..], 0, h - 1, 1, cols) == (lines + [BlankRow(cols)])[|lines| + 1 - h..]
  {
    assert BlankRows(1, cols) == [BlankRow(cols)];
  }

  lemma IndexScrolls(t: Term)
    requires t.Valid() && t.FullRegion() && t.cur.row == t.bot
    ensures t.Index() == t.(scr := t.scr.ScrollUp(0, t.bot, 1, true), cur := t.cur.(pending := false))
  {
  }

  /** Rewriting the cursor's row rewrites the tape's last line. */
  lemma TapeWrite(t: Term, lines: seq<Row>, ring: seq<Row>, r: Row)
    requires OnTape(t, lines, ring) && |r.cells| == t.scr.cols
    ensures OnTape(t.SetRow(t.cur.row, r), LastLine(lines, r), ring)
  {
    var n, m := |lines|, Min(|lines|, t.scr.rows);
    var u, after := t.SetRow(t.cur.row, r), LastLine(lines, r);
    assert u.scr.grid == after[n - m..] + BlankRows(t.scr.rows - m, t.scr.cols);
    assert after[..n - m] == lines[..n - m];
  }

  /** The tape does not depend on the cursor's column or pen. */
  lemma TapeCursor(t: Term, u: Term, lines: seq<Row>, ring: seq<Row>)
    requires OnTape(t, lines, ring) && Flowing(u)
    requires u.scr == t.scr && u.cur.row == t.cur.row && u.top == t.top && u.bot == t.bot
    ensures OnTape(u, lines, ring)
  {
  }

  /** Leaving the line by wrapping marks it and starts a new one. */
  lemma TapeWrap(t: Term, lines: seq<Row>, ring: seq<Row>)
    requires OnTape(t, lines, ring)
    ensures var u := t.WrapLine();
            && OnTape(u, LastLine(lines, lines[|lines| - 1].(wrapped := true)) + [BlankRow(t.scr.cols)], ring)
            && u.cur == t.cur.(row := u.cur.row, col := 0, pending := false)
            && SameRest(t, u)
  {
    hide OnTape, Term.Index, Term.SetRow;
    TapeCells(t, lines, ring);
    TapeValid(t, lines, ring);
    var r := lines[|lines| - 1].(wrapped := true);
    TapeWrite(t, lines, ring, r);
    var a := t.SetRow(t.cur.row, r);
    SetRowFacts(t, t.cur.row, r);
    TapeCursor(a, a.At(t.cur.row, 0, false), LastLine(lines, r), ring);
    TapeIndex(a.At(t.cur.row, 0, false), LastLine(lines, r), ring);
  }

  lemma TapeValid(t: Term, lines: seq<Row>, ring: seq<Row>)
    requires OnTape(t, lines, ring)
    ensures Flowing(t) && |lines| >= 1 && |lines[|lines| - 1].cells| == t.scr.cols
  {
    TapeCells(t, lines, ring);
  }

  lemma SetRowFacts(t: Term, row: nat, r: Row)
    requires t.Valid() && row < t.scr.rows && |r.cells| == t.scr.cols
    ensures var u := t.SetRow(row, r);
            u.cur == t.cur && SameRest(t, u) && u.scr.grid[row] == r
  {
  }

  /** A blank screen with the cursor at home is the tape of one blank line. */
  lemma TapeStart(t: Term)
    requires Flowing(t) && t.cur.row == 0
    requires t.scr.grid == BlankRows(t.scr.rows, t.scr.cols)
    ensures OnTape(t, [BlankRow(t.scr.cols)], t.scr.sb)
  {
    assert t.scr.grid == [BlankRow(t.scr.cols)] + BlankRows(t.scr.rows - 1, t.scr.cols);
    assert [BlankRow(t.scr.cols)][..0] == [];
    assert t.scr.sb + [] == t.scr.sb;
  }
}
