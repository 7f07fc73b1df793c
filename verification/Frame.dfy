// The frame builder of the display diff: the controls emitted so far, the
// position and pen it believes the outer terminal has, and (as a ghost) the
// terminal those controls produce (crates/posh-proto/src/display.rs).

module Frame {
  import opened Cells
  import opened Machine
  import opened Printing
  import opened RowDiff

  /** `u` differs from `t` in row `y` and in the cursor's position alone; the row does
      not come to wrap. */
  predicate OnlyRow(t: Term, u: Term, y: nat) {
    && t.Valid() && u.Valid() && t.SameShape(u)
    && u == t.(scr := t.scr.(grid := u.scr.grid),
               cur := t.cur.(row := u.cur.row, col := u.cur.col, pending := u.cur.pending))
    && (forall i :: 0 <= i < t.scr.rows && i != y ==> u.scr.grid[i] == t.scr.grid[i])
    && (y < t.scr.rows && u.scr.grid[y].wrapped ==> t.scr.grid[y].wrapped)
  }

  /** The cursor stands before column `x` of row `y`; past the last column it
      stands on it with a wrap pending. */
  predicate Standing(t: Term, x: int, y: int) {
    && y == t.cur.row
    && (if x < t.scr.cols then x == t.cur.col && !t.cur.pending
        else x == t.scr.cols && t.cur.col == t.scr.cols - 1 && t.cur.pending)
  }

  lemma AfterDrawFacts(t: Term, c: Cell)
    requires CanDraw(t, c)
    ensures OnlyRow(t, AfterDraw(t, c), t.cur.row)
    ensures Standing(AfterDraw(t, c), t.cur.col + c.width, t.cur.row)
    ensures AfterDraw(t, c).scr.grid[t.cur.row].cells == PutCell(t.Cells(), t.cur.col, c, t.cur.style, t.cur.link)
  {
    hide PutCell;
  }

  lemma WrapFull(t: Term)
    requires t.Valid() && t.FullRegion() && t.cur.row + 1 < t.scr.rows
    ensures t.WrapLine() == t.SetRow(t.cur.row, t.scr.grid[t.cur.row].(wrapped := true)).At(t.cur.row + 1, 0, false)
  {
  }

  lemma EchFacts(t: Term, n: nat)
    requires t.Valid() && n >= 1 && !t.cur.pending
    ensures OnlyRow(t, t.Step(Ech(n)), t.cur.row)
    ensures t.Step(Ech(n)).cur == t.cur
    ensures t.Step(Ech(n)).Cells() == Repair(Erase(t.Cells(), t.cur.col, t.cur.col + n))
  {
    hide Repair, Erase;
  }

  lemma ElFacts(t: Term)
    requires t.Valid() && !t.cur.pending
    ensures OnlyRow(t, t.Step(El(0)), t.cur.row)
    ensures t.Step(El(0)).cur == t.cur
    ensures t.Step(El(0)).Cells() == Erase(t.Cells(), t.cur.col, t.scr.cols)
  {
    hide Erase;
  }

  // One-control effects, each on its own so that callers need not unfold Step.

  lemma StepCr(t: Term)
    requires t.Valid()
    ensures t.Step(Cr) == t.At(t.cur.row, 0, false)
  {
  }

  lemma StepCup(t: Term, r: nat, c: nat)
    requires t.Valid() && !t.modes.origin && r < t.scr.rows && c < t.scr.cols
    ensures t.Step(Cup(r + 1, c + 1)) == t.At(r, c, false)
  {
  }

  lemma StepSgr(t: Term, s: Style)
    requires t.Valid()
    ensures t.Step(Sgr(s)) == t.(cur := t.cur.(style := s.(guarded := t.cur.style.guarded)))
  {
  }

  lemma StepLink(t: Term, l: nat)
    requires t.Valid()
    ensures t.Step(Hyperlink(l)) == t.(cur := t.cur.(link := l))
  {
  }

  lemma StepVisible(t: Term, on: bool)
    requires t.Valid()
    ensures t.Step(SetMode(Visible, on)) == t.(modes := t.modes.(visible := on))
  {
  }

  /** Columns `p..q` are blanks, wanted in the terminal's pen. */
  predicate BlanksDue(t: Term, g: Goal, p: nat, q: nat) {
    && p <= q <= |g.row| == |g.want|
    && forall x :: p <= x < q ==> IsBlank(g.row[x]) && g.row[x].width == 1 &&
                                  g.want[x] == Look(g.row[x].(style := t.cur.style, link := t.cur.link))
  }

  /** A run of spaces is drawn as the run of blank cells it stands for. */
  lemma {:induction false} SpacesAdvance(t: Term, n: nat, g: Goal, p: nat)
    requires t.Valid() && t.modes.autowrap && !t.modes.insert
    requires RowMid(t.Cells(), g, p)
    requires Standing(t, p, t.cur.row) && p + n <= |g.row| == t.scr.cols && BlanksDue(t, g, p, p + n)
    ensures var u := Run(t, Repeat(Print(Space), n));
            && OnlyRow(t, u, t.cur.row) && Standing(u, p + n, t.cur.row)
            && RowMid(u.Cells(), g, p + n)
    decreases n
  {
    hide Run, RowMid, AfterDraw, PutCell, Term.Step, Drawn;
    if n == 0 {
      RunNone(t);
    } else {
      SpacesAdvance(t, n - 1, g, p);
      var u, k := Run(t, Repeat(Print(Space), n - 1)), p + n - 1;
      RunSnoc(t, Repeat(Print(Space), n - 1), Print(Space));
      RowMidShape(u.Cells(), g, k);
      DrawBlank(u, g.row[k]);
      AfterDrawFacts(u, g.row[k]);
      DrawAdvances(u.Cells(), g, k, u.cur.style, u.cur.link);
    }
  }

  lemma RowMidShape(cells: seq<Cell>, g: Goal, p: nat)
    requires RowMid(cells, g, p)
    ensures |cells| == |g.row| == |g.model| == |g.was| == |g.want| && p <= |g.row|
    ensures forall x :: 0 <= x < |g.row| ==> CellOk(g.row[x])
    ensures p < |g.row| ==> g.row[p].width != 0 && p + g.row[p].width <= |g.row|
  {
    if p < |g.row| {
      NextStart(g.row, p);
    }
  }

  lemma DrawBlank(t: Term, c: Cell)
    requires CanDraw(t, c) && !t.cur.pending && IsBlank(c)
    ensures t.Step(Print(Space)) == AfterDraw(t, c)
  {
    hide Term.Step, AfterDraw;
    assert Drawn(c) == [Print(Space)];
    DrawCell(t, c);
    RunOne(t, Print(Space));
  }

  /** Moving `last - x` columns back from a tracked position past the edge
      lands one column short: the terminal stands on the last column. */
  predicate EdgeBack(x: int, y: int, cols: int, ny: int, nx: int) {
    x == cols && ny == y && 0 < nx && x - nx < 5
  }

  class FrameState {
    var out: seq<Action>
    var x: int
    var y: int
    var style: Style
    var link: nat
    var visible: bool
    ghost var start: Term
    ghost var scr: Term

    /** What the builder keeps, as a value. */
    function Fields(): (seq<Action>, int, int, Style, nat, bool)
      reads this
    {
      (out, x, y, style, link, visible)
    }

    ghost predicate Tied()
      reads this
    {
      start.Valid() && scr == Run(start, out)
    }

    ghost predicate Valid()
      reads this
    {
      && Tied()
      && scr.modes == Modes(true, false, false, false, visible)
      && scr.cur.style == Plain(style) && scr.cur.link == link
    }

    ghost predicate Tracked()
      reads this
    {
      0 <= x && 0 <= y && Standing(scr, x, y)
    }

    ghost predicate Located()
      reads this
    {
      x == -1 || y == -1 || (Tracked() && scr.FullRegion())
    }

    constructor (ghost t: Term, visible: bool)
      requires t.Valid()
      ensures Tied() && start == t && scr == t && out == []
      ensures x == 0 && y == 0 && style == DEFAULT_STYLE && link == 0 && this.visible == visible
    {
      out := [];
      x, y := 0, 0;
      style, link := DEFAULT_STYLE, 0;
      this.visible := visible;
      start, scr := t, t;
      new;
      RunNone(t);
    }

    method Append(a: Action)
      requires Tied()
      modifies this`out, this`scr
      ensures Tied() && out == old(out) + [a] && scr == old(scr).Step(a)
      ensures Margins(out) == old(Margins(out)) + if a.Stbm? then 1 else 0
    {
      RunSnoc(start, out, a);
      MarginsOne(out, a);
      out := out + [a];
      scr := scr.Step(a);
    }

    method AppendN(acts: seq<Action>)
      requires Tied()
      modifies this`out, this`scr
      ensures Tied() && out == old(out) + acts && scr == Run(old(scr), acts)
      ensures Margins(out) == old(Margins(out)) + Margins(acts)
    {
      RunAppend(start, out, acts);
      MarginsBoth(out, acts);
      out := out + acts;
      scr := Run(scr, acts);
    }

    method UpdateStyle(s: Style, force: bool)
      requires Valid()
      modifies this`out, this`scr, this`style
      ensures Valid() && style == s
      ensures scr == old(scr).(cur := old(scr).cur.(style := Plain(s)))
      ensures Margins(out) == old(Margins(out)) && (!force && old(style) == s ==> out == old(out))
    {
      hide Run, Margins, Term.Step;
      if force || style != s {
        StepSgr(scr, s);
        Append(Sgr(s));
        style := s;
      }
    }

    method UpdateLink(uri: nat, force: bool)
      requires Valid()
      modifies this`out, this`scr, this`link
      ensures Valid() && link == uri
      ensures scr == old(scr).(cur := old(scr).cur.(link := uri))
      ensures Margins(out) == old(Margins(out)) && (!force && old(link) == uri ==> out == old(out))
    {
      hide Run, Margins, Term.Step;
      if force || link != uri {
        StepLink(scr, uri);
        Append(Hyperlink(uri));
        link := uri;
      }
    }

    /** Erasing is used only with the default pen and no open link. */
    predicate CanUseErase()
      reads this
    {
      style == DEFAULT_STYLE && link == 0
    }

    /** To the start of a row further down, by carriage return and line feeds. */
    method FeedLines(n: nat, back: bool)
      requires Valid() && scr.FullRegion() && scr.cur.row + n < scr.scr.rows
      requires !back ==> scr.cur.col == 0 && !scr.cur.pending
      modifies this`out, this`scr
      ensures Valid() && scr == old(scr).At(old(scr).cur.row + n, 0, false)
      ensures Margins(out) == old(Margins(out))
    {
      hide Run, Margins, Term.Step;
      if back {
        StepCr(scr);
        Append(Cr);
      }
      LineFeeds(scr, n);
      RepeatPlain(Lf, n);
      AppendN(Repeat(Lf, n));
    }

    method BackUp(n: nat)
      requires Valid() && 1 <= n
      modifies this`out, this`scr
      ensures Valid() && scr == old(scr).At(old(scr).cur.row, Max(old(scr).cur.col - n, 0), false)
      ensures Margins(out) == old(Margins(out))
    {
      hide Run, Margins, Term.Step;
      Backspaces(scr, n);
      RepeatPlain(Bs, n);
      AppendN(Repeat(Bs, n));
    }

    method Jump(ny: nat, nx: nat)
      requires Valid() && ny < scr.scr.rows && nx < scr.scr.cols
      modifies this`out, this`scr
      ensures Valid() && scr == old(scr).At(ny, nx, false)
      ensures Margins(out) == old(Margins(out))
    {
      hide Run, Margins, Term.Step;
      StepCup(scr, ny, nx);
      Append(Cup(ny + 1, nx + 1));
    }

    method AppendMove(ny: int, nx: int)
      requires Valid() && Located()
      requires 0 <= ny < scr.scr.rows && 0 <= nx < scr.scr.cols
      modifies this`out, this`scr, this`x, this`y
      ensures Valid() && x == nx && y == ny
      ensures scr == old(scr).At(ny, if old(EdgeBack(x, y, scr.scr.cols, ny, nx)) then nx - 1 else nx, false)
      ensures Margins(out) == old(Margins(out))
    {
      hide Run, Margins, Term.Step, Term.Valid;
      var lastX, lastY := x, y;
      x := nx;
      y := ny;
      if lastX != -1 && lastY != -1 {
        if nx == 0 && 0 <= ny - lastY < 5 {
          FeedLines(ny - lastY, lastX != 0);
          return;
        }
        if ny == lastY && -5 < nx - lastX < 0 {
          BackUp(lastX - nx);
          return;
        }
      }
      Jump(ny, nx);
    }

    method AppendSilentMove(ny: int, nx: int)
      requires Valid() && Located()
      requires 0 <= ny < scr.scr.rows && 0 <= nx < scr.scr.cols
      requires !EdgeBack(x, y, scr.scr.cols, ny, nx)
      modifies this`out, this`scr, this`x, this`y, this`visible
      ensures Valid() && x == nx && y == ny
      ensures scr == old(scr).(modes := old(scr).modes.(visible := visible)).At(ny, nx, false)
      ensures visible == (old(visible) && old(x == nx && y == ny))
      ensures Margins(out) == old(Margins(out))
    {
      hide Run, Margins, Term.Step;
      if x == nx && y == ny {
        return;
      }
      if visible {
        StepVisible(scr, false);
        Append(SetMode(Visible, false));
        visible := false;
      }
      AppendMove(ny, nx);
    }

    /** Emit one cell where the terminal stands. */
    method AppendCell(c: Cell)
      requires Valid() && CanDraw(scr, c) && !scr.cur.pending
      modifies this`out, this`scr
      ensures Valid() && scr == AfterDraw(old(scr), c)
      ensures Margins(out) == old(Margins(out))
    {
      hide Run, Margins, AfterDraw;
      DrawCell(scr, c);
      AfterDrawFacts(scr, c);
      DrawnPlain(c);
      AppendN(Drawn(c));
    }

    method AppendSpaces(n: nat, ghost g: Goal, ghost p: nat)
      requires Valid()
      requires RowMid(scr.Cells(), g, p)
      requires Standing(scr, p, scr.cur.row) && p + n <= |g.row| == scr.scr.cols && BlanksDue(scr, g, p, p + n)
      modifies this`out, this`scr
      ensures Valid() && OnlyRow(old(scr), scr, old(scr).cur.row)
      ensures Standing(scr, p + n, old(scr).cur.row)
      ensures RowMid(scr.Cells(), g, p + n)
      ensures Margins(out) == old(Margins(out))
    {
      hide Run, Margins, RowMid;
      SpacesAdvance(scr, n, g, p);
      RepeatPlain(Print(Space), n);
      AppendN(Repeat(Print(Space), n));
    }
  }
}
