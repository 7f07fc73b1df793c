// Whole flows of rows: exactly one line of the target for every row, and what
// the target's screen and ring then hold.

module Flow {
  import opened Cells
  import opened Machine
  import opened Printing
  import opened Frame
  import opened Tape
  import opened Emit

  /** One line per row, each looking like its row, with the wrap flags of all
      but the last row regenerated. */
  predicate Faithful(lines: seq<Row>, rows: seq<Row>) {
    && |lines| == |rows|
    && (forall i :: 0 <= i < |rows| ==> LooksLike(lines[i].cells, rows[i].cells))
    && (forall i :: 0 <= i < |rows| ==> lines[i].wrapped == (rows[i].wrapped && i < |rows| - 1))
  }

  predicate RowsOk(rows: seq<Row>, cols: nat) {
    forall i :: 0 <= i < |rows| ==> RowOk(rows[i].cells, cols)
  }

  /** The tape that `lines` sits on before the next row. */
  function TapeOf(lines: seq<Row>, afterWrap: bool, cols: nat): seq<Row> {
    if afterWrap then lines else lines + [BlankRow(cols)]
  }

  /** Between two rows of the flow: `rows` are out, one line each. */
  predicate Between(t: Term, rows: seq<Row>, lines: seq<Row>, ring: seq<Row>, afterWrap: bool) {
    && t.Valid() && Faithful(lines, rows)
    && afterWrap == (|rows| > 0 && rows[|rows| - 1].wrapped)
    && RowDue(t, TapeOf(lines, afterWrap, t.scr.cols), ring, afterWrap)
  }

  /** The emitted row joins the lines. */
  lemma FaithfulRow(lines: seq<Row>, rows: seq<Row>, row: Row, cells: seq<Cell>, cols: nat)
    requires Faithful(lines, rows) && LooksLike(cells, row.cells)
    ensures var wrap := |rows| > 0 && rows[|rows| - 1].wrapped;
            Faithful(LastLine(Opened(TapeOf(lines, wrap, cols), wrap, cols), Row(cells, false)), rows + [row])
  {
    hide LooksLike;
    var wrap := |rows| > 0 && rows[|rows| - 1].wrapped;
    var after := LastLine(Opened(TapeOf(lines, wrap, cols), wrap, cols), Row(cells, false));
    assert |after| == |rows| + 1;
    forall i | 0 <= i < |rows| + 1
      ensures LooksLike(after[i].cells, (rows + [row])[i].cells)
      ensures after[i].wrapped == ((rows + [row])[i].wrapped && i < |rows|)
    {
      if i < |rows| - 1 {
        assert after[i] == lines[i];
      } else if i == |rows| - 1 {
        assert after[i].cells == lines[i].cells;
      }
    }
  }

  lemma TapeNewLine(t: Term, lines: seq<Row>, ring: seq<Row>)
    requires OnTape(t, lines, ring)
    ensures var u := t.Step(Cr).Step(Lf);
            && RowDue(u, lines + [BlankRow(t.scr.cols)], ring, false)
            && SameRest(t, u) && u.cur.style == t.cur.style && u.cur.link == t.cur.link
  {
    hide OnTape, Term.Index, Term.Step;
    TapeValid(t, lines, ring);
    StepCr(t);
    var a := t.Step(Cr);
    TapeCursor(t, a, lines, ring);
    StepLf(a);
    TapeIndex(a, lines, ring);
  }

  lemma StepLf(t: Term)
    requires t.Valid() && !t.modes.lnm
    ensures t.Step(Lf) == t.Index()
  {
  }

  // --- what is printed -----------------------------------------------------------------

  function NewLineOut(p: Printer, reset: bool): Printer {
    (if reset then p.Penned(DEFAULT_STYLE, 0) else p).Plus([Cr]).Plus([Lf])
  }

  function TerminatedOut(p: Printer, row: Row, reset: bool, last: bool): Printer {
    if last || row.wrapped then p.RowOut(row) else NewLineOut(p.RowOut(row), reset)
  }

  /** The first `n` rows. */
  function RowsOut(p: Printer, rows: seq<Row>, n: nat, reset: bool, final: bool): Printer
    requires n <= |rows|
    decreases n
  {
    if n == 0 then p
    else TerminatedOut(RowsOut(p, rows, n - 1, reset, final), rows[n - 1], reset, final && n == |rows|)
  }

  /** CR LF, from the default pen if asked (a terminal that erases with the
      pen's background would fill the new line with it). */
  method NewLine(st: EmitState, reset: bool, ghost lines: seq<Row>, ghost ring: seq<Row>)
    requires st.Valid() && OnTape(st.scr, lines, ring)
    modifies st`out, st`scr, st`style, st`link
    ensures st.Valid() && SameRest(old(st.scr), st.scr)
    ensures RowDue(st.scr, lines + [BlankRow(st.scr.scr.cols)], ring, false)
    ensures st.Now() == NewLineOut(old(st.Now()), reset)
  {
    hide Run, Term.Step, OnTape, RowDue, Printer.Plus, Printer.Penned;
    TapeValid(st.scr, lines, ring);
    if reset {
      ghost var t := st.scr;
      st.ResetPen();
      TapeCursor(t, st.scr, lines, ring);
    }
    TapeNewLine(st.scr, lines, ring);
    StepCr(st.scr);
    st.Emit(Cr);
    st.Emit(Lf);
  }

  /** `emit_terminated_row`: one row, and its new line if it does not wrap;
      the last row of a flow has none. */
  method EmitTerminated(st: EmitState, row: Row, reset: bool, last: bool,
                        ghost done: seq<Row>, ghost lines: seq<Row>, ghost ring: seq<Row>)
    returns (ghost after: seq<Row>)
    requires st.Valid() && Between(st.scr, done, lines, ring, st.afterWrap)
    requires RowOk(row.cells, st.scr.scr.cols)
    modifies st
    ensures st.Valid() && st.start == old(st.start) && SameRest(old(st.scr), st.scr)
    ensures if last then OnTape(st.scr, after, ring) && Faithful(after, done + [row])
            else Between(st.scr, done + [row], after, ring, st.afterWrap)
    ensures st.Now() == TerminatedOut(old(st.Now()), row, reset, last)
  {
    hide Run, OnTape, RowDue, Faithful, LooksLike, Orphan, CellOk, Printer.RowOut, NewLineOut;
    ghost var wrap, cols := st.afterWrap, st.scr.scr.cols;
    ghost var tape := TapeOf(lines, wrap, cols);
    ghost var cells := st.EmitRow(row, tape, ring);
    FaithfulRow(lines, done, row, cells, cols);
    after := LastLine(Opened(tape, wrap, cols), Row(cells, false));
    if !last {
      if row.wrapped {
        WrapDue(st.scr, after, ring);
      } else {
        NewLine(st, reset, after, ring);
      }
    }
  }

  /** Emit `rows` after the rows `done`. */
  method EmitRows(st: EmitState, rows: seq<Row>, reset: bool, final: bool,
                  ghost done: seq<Row>, ghost lines: seq<Row>, ghost ring: seq<Row>)
    returns (ghost after: seq<Row>)
    requires st.Valid() && Between(st.scr, done, lines, ring, st.afterWrap)
    requires RowsOk(rows, st.scr.scr.cols) && (final ==> |rows| > 0)
    modifies st
    ensures st.Valid() && st.start == old(st.start) && SameRest(old(st.scr), st.scr)
    ensures if final then OnTape(st.scr, after, ring) && Faithful(after, done + rows)
            else Between(st.scr, done + rows, after, ring, st.afterWrap)
    ensures st.Now() == RowsOut(old(st.Now()), rows, |rows|, reset, final)
  {
    hide Run, OnTape, Between, Faithful, TerminatedOut;
    after := lines;
    assert done + rows[..0] == done;
    for i := 0 to |rows|
      invariant st.Valid() && st.start == old(st.start) && SameRest(old(st.scr), st.scr)
      invariant if final && i == |rows| then OnTape(st.scr, after, ring) && Faithful(after, done + rows)
                else Between(st.scr, done + rows[..i], after, ring, st.afterWrap)
      invariant st.Now() == RowsOut(old(st.Now()), rows, i, reset, final)
    {
      after := EmitTerminated(st, rows[i], reset, final && i + 1 == |rows|, done + rows[..i], after, ring);
      assert (done + rows[..i]) + [rows[i]] == done + rows[..i + 1];
      assert i + 1 == |rows| ==> rows[..i + 1] == rows;
    }
    assert rows[..|rows|] == rows;
  }

  lemma WrapDue(t: Term, lines: seq<Row>, ring: seq<Row>)
    requires OnTape(t, lines, ring) && t.cur.pending && t.cur.col == t.scr.cols - 1
    ensures RowDue(t, lines, ring, true)
  {
  }
}
