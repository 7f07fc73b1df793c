// Dumps for a terminal in an unknown state: the attach replay and the repaint that
// stands in for a screen switch (crates/posh-term/src/dump.rs).

module Repaint {
  import opened Cells
  import opened Machine
  import opened Printing
  import opened Frame
  import opened Invariants
  import opened Tape
  import opened Emit
  import opened Flow
  import opened Dump
  import opened Replay
  import NewFrame
  import Display

  // --- the state reset -----------------------------------------------------------

  /** Region, origin mode, autowrap, LNM, insert mode, pen, DECSCA and link, as far
      as the machine has them. */
  const DRAWABLE_STATE_RESET: seq<Action> := [
    Stbm(0, 0), SetMode(Origin, false), SetMode(Autowrap, true), SetMode(Lnm, false),
    SetMode(Insert, false), Sgr(DEFAULT_STYLE), Decsca(false), Hyperlink(0)]

  /** A terminal as the reset leaves it: everything that drawing depends on is as a
      new terminal has it; the cells, the ring, the saved cursor, tab stops and
      visibility are the old ones. */
  predicate Normalized(u: Term, t: Term) {
    && t.Valid() && u.Valid() && u.scr == t.scr && u.FullRegion()
    && u.modes == DEFAULT_MODES.(visible := t.modes.visible)
    && u.cur.style == DEFAULT_STYLE && u.cur.link == 0
    && u.saved == t.saved && u.savedOrigin == t.savedOrigin && u.tabs == t.tabs
  }

  lemma StepFull(t: Term)
    requires t.Valid()
    ensures var u := t.Step(Stbm(0, 0)); SamePaint(t, u) && u.FullRegion() && u.modes == t.modes && u.tabs == t.tabs
  {
  }

  /** Whatever state a terminal is in, the reset normalizes it. */
  lemma ResetNormalizes(t: Term)
    requires t.Valid()
    ensures Normalized(Run(t, DRAWABLE_STATE_RESET), t)
  {
    hide Term.Step, Run;
    var a := t.Step(Stbm(0, 0));
    var b := a.Step(SetMode(Origin, false));
    var c := b.Step(SetMode(Autowrap, true));
    var d := c.Step(SetMode(Lnm, false));
    var e := d.Step(SetMode(Insert, false));
    var f := e.Step(Sgr(DEFAULT_STYLE));
    var g := f.Step(Decsca(false));
    var h := g.Step(Hyperlink(0));
    StepFull(t);
    StepMode(a, Origin, false);
    StepMode(b, Autowrap, true);
    StepMode(c, Lnm, false);
    StepMode(d, Insert, false);
    StepSgr(e, DEFAULT_STYLE);
    StepDecsca(f, false);
    StepLink(g, 0);
    ResetRuns(t);
  }

  lemma ResetRuns(t: Term)
    requires t.Valid()
    ensures Run(t, DRAWABLE_STATE_RESET) ==
            t.Step(Stbm(0, 0)).Step(SetMode(Origin, false)).Step(SetMode(Autowrap, true)).Step(SetMode(Lnm, false))
             .Step(SetMode(Insert, false)).Step(Sgr(DEFAULT_STYLE)).Step(Decsca(false)).Step(Hyperlink(0))
  {
    hide Term.Step, Run;
    var a := [Stbm(0, 0), SetMode(Origin, false), SetMode(Autowrap, true), SetMode(Lnm, false)];
    var b := [SetMode(Insert, false), Sgr(DEFAULT_STYLE), Decsca(false), Hyperlink(0)];
    assert DRAWABLE_STATE_RESET == a + b;
    RunAppend(t, a, b);
    RunFour(t, a[0], a[1], a[2], a[3]);
    RunFour(Run(t, a), b[0], b[1], b[2], b[3]);
  }

  /** A full repaint can rely on it, and so it can after any frame. */
  lemma ResetDrawable(t: Term)
    requires t.Valid()
    ensures NewFrame.Drawable(Run(t, DRAWABLE_STATE_RESET))
  {
    hide Run;
    ResetNormalizes(t);
  }

  lemma RestDrawable(t: Term, visible: bool)
    requires Display.AtRest(t, visible)
    ensures NewFrame.Drawable(t)
  {
  }

  // --- the attach replay -------------------------------------------------------------

  /** `u` shows all of the source that is drawn: cells, wrap flags, cursor, pen and
      region. */
  predicate Drawn(u: Term, s: Term)
    requires s.Valid() && ScreenOk(s.scr)
  {
    Replayed(u.(modes := s.modes, tabs := s.tabs), s, 0)
  }

  lemma DrawnReplayed(u: Term, s: Term)
    requires s.Valid() && ScreenOk(s.scr) && Drawn(u, s)
    ensures Replayed(u, s, 0) <==> u.modes == s.modes && u.tabs == s.tabs
  {
    hide ScreenOk, ImageRow, ImageWrap, CursorRow, RegionOf;
    if u.modes == s.modes && u.tabs == s.tabs {
      assert u == u.(modes := s.modes, tabs := s.tabs);
    }
  }

  /** The grid on a normalized, cleared terminal: shown, and the ring untouched. */
  method DrawCleared(st: EmitState, s: Term)
    requires Dumpable(s) && st.Valid() && Flowing(st.scr) && !st.scr.modes.origin
    requires st.scr.scr.cols == s.scr.cols && st.scr.scr.rows >= s.scr.rows
    requires st.scr.scr.grid == BlankRows(st.scr.scr.rows, s.scr.cols)
    modifies st
    ensures st.Valid() && st.start == old(st.start) && SameRest(old(st.scr), st.scr)
    ensures ScreenHolds(st.scr, s, 0) && st.scr.scr.sb == old(st.scr).scr.sb
  {
    hide Run, Term.Step, OnTape, Faithful, ScreenHolds, ScreenOk;
    ghost var ring := st.scr.scr.sb;
    ghost var lines := DrawGrid(st, s);
    assert FlowRows(s, 0) == s.scr.grid;
    FlowOnScreen(st.scr, s, 0, lines, ring);
    RingKept(st.scr, lines, s.scr.grid, ring);
  }

  lemma RingKept(t: Term, lines: seq<Row>, rows: seq<Row>, ring: seq<Row>)
    requires OnTape(t, lines, ring) && Faithful(lines, rows) && |rows| <= t.scr.rows && |ring| <= t.scr.maxSb
    ensures t.scr.sb == ring
  {
    hide LooksLike;
    assert lines[..0] == [];
    assert ring + [] == ring;
  }

  /** The grid, all modes and the cursor, on a normalized, cleared terminal. */
  method DumpFlat(st: EmitState, s: Term)
    requires Dumpable(s) && st.Valid() && Flowing(st.scr)
    requires st.scr.modes == DEFAULT_MODES.(visible := st.scr.modes.visible)
    requires st.scr.scr.cols == s.scr.cols && st.scr.scr.rows >= s.scr.rows
    requires st.scr.scr.grid == BlankRows(st.scr.scr.rows, s.scr.cols)
    modifies st
    ensures st.Valid() && st.start == old(st.start) && Drawn(st.scr, s)
    ensures st.scr.scr.sb == old(st.scr).scr.sb && st.scr.saved == old(st.scr).saved
    ensures st.scr.modes == s.modes.(visible := s.modes.visible && old(st.scr).modes.visible)
    ensures st.scr.tabs == if s.tabs == DefaultTabs(s.scr.cols) then old(st.scr).tabs else s.tabs
  {
    hide Run, Term.Step, ScreenOk, Replayed, Drawn, ScreenHolds, DefaultTabs, RegionOf, CursorDumped, ModesOut, CursorOut;
    DrawCleared(st, s);
    ghost var drawn := st.scr;
    DumpModes(st, s);
    ghost var ready := st.scr;
    SameScreen(drawn, ready, s, 0);
    DumpCursor(st, s, 0, Absolute);
    DumpedDrawn(ready, st.scr, s);
  }

  /** `dump_vt_flat`: the reset, the grid, all modes, the cursor. On any cleared
      terminal of the source's width and at least its height it shows the source;
      of the rest, tab stops are right if the source's are not the default ones or
      the terminal's are, and a hidden cursor is not shown again. */
  method DumpVtFlat(s: Term, ghost t: Term) returns (out: seq<Action>)
    requires Dumpable(s) && t.Valid() && t.scr.cols == s.scr.cols && t.scr.rows >= s.scr.rows
    requires t.scr.grid == BlankRows(t.scr.rows, t.scr.cols)
    ensures Drawn(Run(t, out), s) && Run(t, out).scr.sb == t.scr.sb && Run(t, out).saved == t.saved
    ensures Run(t, out).modes == s.modes.(visible := s.modes.visible && t.modes.visible)
    ensures Run(t, out).tabs == if s.tabs == DefaultTabs(s.scr.cols) then t.tabs else s.tabs
    ensures Replayed(Run(t, out), s, 0) <==>
            (s.modes.visible ==> t.modes.visible) && (s.tabs == DefaultTabs(s.scr.cols) ==> t.tabs == s.tabs)
  {
    hide Run, Term.Step, ScreenOk, Replayed, Drawn, ScreenHolds, DefaultTabs, RegionOf, Normalized;
    ResetNormalizes(t);
    ghost var u := Run(t, DRAWABLE_STATE_RESET);
    NormalFacts(u, t);
    var st := new EmitState.Fresh(u);
    DumpFlat(st, s);
    RunAppend(t, DRAWABLE_STATE_RESET, st.out);
    DrawnReplayed(st.scr, s);
    out := DRAWABLE_STATE_RESET + st.out;
  }

  lemma NormalFacts(u: Term, t: Term)
    requires Normalized(u, t)
    ensures Flowing(u) && !u.modes.origin && u.scr == t.scr && u.saved == t.saved && u.tabs == t.tabs
    ensures u.modes == DEFAULT_MODES.(visible := t.modes.visible) && u.cur.style == DEFAULT_STYLE && u.cur.link == 0
  {
  }

  lemma DumpedDrawn(t: Term, u: Term, s: Term)
    requires Dumpable(s) && CursorDumped(t, u, s, 0)
    ensures Drawn(u, s) && u.scr.sb == t.scr.sb && u.saved == t.saved && u.tabs == t.tabs
    ensures u.modes == t.modes.(visible := t.modes.visible && s.modes.visible)
  {
    hide Replayed, ScreenOk;
  }

  lemma DrawnIs(u: Term, s: Term)
    requires s.Valid() && ScreenOk(s.scr)
    ensures Drawn(u, s) <==> Replayed(u.(modes := s.modes, tabs := s.tabs), s, 0)
  {
    hide ScreenOk, Replayed;
  }

  /** Taking over a terminal clears it first. */
  const ENTER: seq<Action> := [Ed(2), Cup(1, 1)]

  lemma EnterClears(t: Term)
    requires t.Valid()
    ensures var u := Run(t, ENTER);
            && u.scr == t.scr.(grid := BlankRows(t.scr.rows, t.scr.cols)) && u.modes == t.modes && u.tabs == t.tabs
            && u.saved == t.saved
  {
    hide Run, Term.Step;
    var a := t.Step(Ed(2));
    NewFrame.StepEd(t);
    assert a.scr.grid == BlankRows(t.scr.rows, t.scr.cols);
    StepCupAny(a, 0, 0);
    RunTwo(t, Ed(2), Cup(1, 1));
  }

  // --- the repaint for a screen switch ----------------------------------------------------

  /** `dump_screen_switch`: hide the cursor, reset, clear, draw, then set again what
      the reset took away. It shows the source on every terminal of the source's
      width and at least its height, in whatever state that is. The reset also turns
      LNM off, which nothing turns on again. */
  method DumpScreenSwitch(s: Term, ghost t: Term) returns (out: seq<Action>)
    requires Dumpable(s) && t.Valid() && t.scr.cols == s.scr.cols && t.scr.rows >= s.scr.rows
    ensures Drawn(Run(t, out), s) && Run(t, out).scr.sb == t.scr.sb && Run(t, out).saved == t.saved
    ensures Run(t, out).modes == s.modes.(lnm := false) && Run(t, out).tabs == t.tabs
    ensures Replayed(Run(t, out), s, 0) <==> !s.modes.lnm && t.tabs == s.tabs
  {
    hide Run, Term.Step, ScreenOk, Replayed, Drawn, ScreenHolds, DefaultTabs, RegionOf, CursorDumped, CursorOut;
    SwitchCleared(t);
    var clear := [SetMode(Visible, false)] + DRAWABLE_STATE_RESET + [Ed(2)];
    var st := new EmitState.Fresh(Run(t, clear));
    DrawCleared(st, s);
    ghost var drawn := st.scr;
    DrawingModes(st, s);
    ghost var ready := st.scr;
    SameScreen(drawn, ready, s, 0);
    DumpCursor(st, s, 0, Absolute);
    DumpedDrawn(ready, st.scr, s);
    DrawnIs(st.scr, s);
    if s.modes.visible {
      StepVisible(st.scr, true);
      st.Emit(SetMode(Visible, true));
    }
    RunAppend(t, clear, st.out);
    DrawnIs(st.scr, s);
    DrawnReplayed(st.scr, s);
    out := clear + st.out;
  }

  /** The modes the reset may have taken away. */
  method DrawingModes(st: EmitState, s: Term)
    requires Dumpable(s) && st.Valid() && st.scr.FullRegion()
    requires st.scr.scr.cols == s.scr.cols && st.scr.scr.rows >= s.scr.rows
    requires st.scr.modes == DEFAULT_MODES.(visible := st.scr.modes.visible)
    modifies st`out, st`scr
    ensures st.Valid() && SamePaint(old(st.scr), st.scr) && st.scr.tabs == old(st.scr).tabs
    ensures (st.scr.top, st.scr.bot) == RegionOf(s, st.scr.scr.rows)
    ensures st.scr.modes == s.modes.(lnm := false, visible := old(st.scr).modes.visible)
  {
    hide Run, Term.Step, ScreenOk, RegionOf;
    DumpRegion(st, s);
    DumpMode(st, s.modes.insert, Insert, true);
    DumpMode(st, !s.modes.autowrap, Autowrap, false);
  }

  lemma SwitchCleared(t: Term)
    requires t.Valid()
    ensures var u := Run(t, [SetMode(Visible, false)] + DRAWABLE_STATE_RESET + [Ed(2)]);
            && Flowing(u) && u.scr == t.scr.(grid := BlankRows(t.scr.rows, t.scr.cols))
            && u.saved == t.saved && u.tabs == t.tabs
            && u.modes == DEFAULT_MODES.(visible := false) && u.cur.style == DEFAULT_STYLE && u.cur.link == 0
  {
    hide Run, Term.Step, Normalized;
    var a := t.Step(SetMode(Visible, false));
    var b := Run(a, DRAWABLE_STATE_RESET);
    StepMode(t, Visible, false);
    RunOne(t, SetMode(Visible, false));
    RunAppend(t, [SetMode(Visible, false)], DRAWABLE_STATE_RESET);
    RunSnoc(t, [SetMode(Visible, false)] + DRAWABLE_STATE_RESET, Ed(2));
    ResetNormalizes(a);
    NormalFacts(b, a);
    NewFrame.StepEd(b);
    assert b.Step(Ed(2)).scr.grid == BlankRows(t.scr.rows, t.scr.cols);
  }
}
