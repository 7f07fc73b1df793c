// The row-level half of the display diff: a row of the outer terminal that
// already shows a prefix of the wanted row, and what each emission does to it.

module RowDiff {
  import opened Cells
  import opened Machine
  import opened Printing

  /** The pen the outer terminal can have: SGR never sets DECSCA. */
  function Plain(s: Style): Style {
    s.(guarded := false)
  }

  /** What the user sees of a cell. */
  function Look(c: Cell): Cell {
    Shown(c).(style := Plain(Shown(c).style))
  }

  /** What diffing one row works on: the new `row`; the diff's `model` of what the
      terminal has; how the terminal shows that (`was`); and how the row will be
      shown in the end (`want`). Without `init` the model says nothing. */
  datatype Goal = Goal(row: seq<Cell>, model: seq<Cell>, was: seq<Cell>, want: seq<Cell>, init: bool)

  /** `cells` shows what is wanted before column `p`; from `p` on it shows what it
      did, at least wherever the model equals the new row. */
  predicate RowMid(cells: seq<Cell>, g: Goal, p: nat) {
    && |cells| == |g.row| == |g.model| == |g.was| == |g.want|
    && p <= |g.row|
    && Paired(cells) && Paired(g.row)
    && (forall x :: 0 <= x < |g.row| ==> CellOk(g.row[x]) && g.want[x].width == g.row[x].width)
    && (forall x :: 0 <= x < |g.row| && g.row[x].width == 0 ==> g.want[x] == Look(g.row[x]))
    && (p < |g.row| ==> g.row[p].width != 0)
    && (forall x :: 0 <= x < p ==> Look(cells[x]) == g.want[x])
    && (g.init ==> forall x :: p <= x < |g.row| && g.model[x] == g.row[x] ==>
          Look(cells[x]) == g.was[x] && g.was[x].width == g.row[x].width)
  }

  /** The column after the cell at `p` is again the start of a cell. */
  lemma NextStart(row: seq<Cell>, p: nat)
    requires Paired(row) && p < |row| && row[p].width != 0
    requires forall x :: 0 <= x < |row| ==> CellOk(row[x])
    ensures row[p].width <= 2 && p + row[p].width <= |row|
    ensures row[p].width == 2 ==> row[p + 1].width == 0
    ensures p + row[p].width < |row| ==> row[p + row[p].width].width != 0
  {
    assert !Orphan(row, p);
    if p + row[p].width < |row| {
      assert !Orphan(row, p + row[p].width);
    }
  }

  /** No pair of the terminal's row straddles the boundary. */
  lemma BoundaryClean(cells: seq<Cell>, g: Goal, p: nat)
    requires RowMid(cells, g, p) && p < |g.row|
    ensures cells[p].width != 0
    ensures p > 0 ==> cells[p - 1].width != 2
  {
    assert !Orphan(cells, p);
    if p > 0 {
      assert !Orphan(cells, p - 1);
      assert Look(cells[p - 1]) == g.want[p - 1];
      assert !Orphan(g.row, p - 1);
    }
  }

  lemma LookDrawn(c: Cell, style: Style, link: nat)
    requires CellOk(c) && c.width != 0
    ensures Look(Cell(Seen(c.ch), style, c.width, c.extra, link)) == Look(c.(style := style, link := link))
    ensures Look(c).width == c.width
  {
  }

  lemma LookWidth(c: Cell)
    ensures Look(c).width == c.width
  {
  }

  /** Drawing the wanted cell with the wanted pen moves the boundary over it. */
  lemma DrawAdvances(cells: seq<Cell>, g: Goal, p: nat, style: Style, link: nat)
    requires RowMid(cells, g, p) && p < |g.row|
    requires g.want[p] == Look(g.row[p].(style := style, link := link))
    ensures p + g.row[p].width <= |g.row|
    ensures RowMid(PutCell(cells, p, g.row[p], style, link), g, p + g.row[p].width)
  {
    hide PutCell, Orphan, CellOk, Look;
    var c, w := g.row[p], g.row[p].width;
    NextStart(g.row, p);
    BoundaryClean(cells, g, p);
    PutEffect(cells, p, c, style, link);
    LookDrawn(c, style, link);
    var r := PutCell(cells, p, c, style, link);
    if w == 2 {
      SpacerLook(r[p + 1], g.row[p + 1]);
    }
    forall x | g.init && p + w <= x < |g.row| && g.model[x] == g.row[x]
      ensures Look(r[x]) == g.was[x]
    {
      LookWidth(cells[x]);
      assert Look(cells[x]) == g.was[x];
    }
  }

  lemma SpacerLook(a: Cell, b: Cell)
    requires a.width == 0 && b.width == 0
    ensures Look(a) == Look(b)
  {
  }

  /** Skipping a cell the model already has. */
  lemma SkipAdvances(cells: seq<Cell>, g: Goal, p: nat)
    requires RowMid(cells, g, p) && g.init && p < |g.row| && g.model[p] == g.row[p] && g.want[p] == g.was[p]
    ensures p + g.row[p].width <= |g.row|
    ensures RowMid(cells, g, p + g.row[p].width)
  {
    NextStart(g.row, p);
    assert Look(cells[p]) == g.want[p];
    if g.row[p].width == 2 {
      assert !Orphan(cells, p);
      SpacerLook(cells[p + 1], g.row[p + 1]);
    }
  }

  /** Columns `p..q` of the row are plain blanks. */
  predicate BlankRun(g: Goal, p: nat, q: nat) {
    && p <= q <= |g.row| == |g.want|
    && forall x :: p <= x < q ==> IsBlank(g.row[x]) && g.row[x].width == 1 && g.want[x] == Look(BLANK)
  }

  /** ECH over a run of blanks moves the boundary past the run. */
  lemma EchAdvances(cells: seq<Cell>, g: Goal, p: nat, q: nat)
    requires RowMid(cells, g, p) && p < q
    requires BlankRun(g, p, q) && (q < |g.row| ==> g.row[q].width != 0)
    ensures RowMid(Repair(Erase(cells, p, q)), g, q)
  {
    var e := Erase(cells, p, q);
    BoundaryClean(cells, g, p);
    forall x: nat | x < |g.row| && x != q
      ensures !Orphan(e, x)
    {
      assert !Orphan(cells, x);
    }
    RepairPairs(e);
    EchKeeps(cells, g, p, q);
  }

  /** What the model says of the row past the run is still so. */
  lemma EchKeeps(cells: seq<Cell>, g: Goal, p: nat, q: nat)
    requires RowMid(cells, g, p) && p < q <= |g.row| && (q < |g.row| ==> g.row[q].width != 0)
    ensures g.init ==> forall x :: q <= x < |g.row| && g.model[x] == g.row[x] ==> Look(Repair(Erase(cells, p, q))[x]) == g.was[x]
  {
    var e := Erase(cells, p, q);
    forall x | g.init && q <= x < |g.row| && g.model[x] == g.row[x]
      ensures Look(Repair(e)[x]) == g.was[x]
    {
      assert Look(cells[x]) == g.was[x];
      LookWidth(cells[x]);
      assert !Orphan(cells, x);
      assert !Orphan(e, x);
    }
  }

  /** EL over the blank end of a row finishes it. */
  lemma ElFinishes(cells: seq<Cell>, g: Goal, p: nat)
    requires RowMid(cells, g, p) && p < |g.row|
    requires BlankRun(g, p, |g.row|)
    ensures RowMid(Erase(cells, p, |g.row|), g, |g.row|)
  {
    var e := Erase(cells, p, |g.row|);
    BoundaryClean(cells, g, p);
    forall x: nat | x < |g.row|
      ensures !Orphan(e, x)
    {
      assert !Orphan(cells, x);
    }
  }
}
