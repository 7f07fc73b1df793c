// The printers feeding the terminal program: a frame drawn on a terminal that
// shows the previous one, and a mirror built from a dump.

module EndToEnd {
  import opened Machine
  import opened Display
  import NewFrame
  import opened Dump
  import Mirror
  import Repaint
  import opened Terminal

  /** Send the controls of a frame to the terminal they were made for. */
  method ShowFrame(e: Emulator, initialized: bool, last: Snapshot, f: Snapshot, allowScroll: bool)
    requires e.Valid() && last.Valid() && f.Valid()
    requires e.State().scr.rows == f.rows && e.State().scr.cols == f.cols
    requires if initialized && last.rows == f.rows && last.cols == f.cols then Shows(e.State(), last)
             else NewFrame.Drawable(e.State())
    modifies e, e.screen
    ensures e.Valid()
    ensures ShowsCells(e.State(), f) <==> !NewFrame.Stale(initialized, last, f, allowScroll)
    ensures Shows(e.State(), f) <==>
            !NewFrame.Stale(initialized, last, f, allowScroll) && !NewFrame.Short(initialized, last, f, allowScroll)
  {
    hide Run, ShowsCells, Shows, NewFrame.Short, NewFrame.Stale;
    var out := NewFrame.NewFrameOpt(initialized, last, f, allowScroll, e.State());
    e.Process(out);
  }

  lemma NewIsFresh(t: Term, rows: nat, cols: nat)
    requires rows >= 1 && cols >= 1
    requires t == Term(Screen(rows, cols, BlankRows(rows, cols), [], 0, 0), HOME, HOME, false,
                       DEFAULT_MODES, 0, rows - 1, seq(cols, i => i % 8 == 0))
    ensures t == FreshTerm(rows, cols, 0)
  {
    assert t.tabs == DefaultTabs(cols);
  }

  /** A ring-less mirror of the source's width and at least its height, made by
      replaying the dump shaped for it: it shows what a replay of the whole ring
      would show there. */
  method MakeMirror(s: Term, rows: nat) returns (e: Emulator)
    requires Dumpable(s) && rows >= s.scr.rows
    ensures fresh(e) && fresh(e.screen) && e.Valid()
    ensures Replayed(e.State(), s, |s.scr.sb|)
    ensures forall full: Term :: full.scr.rows == rows && Replayed(full, s, |s.scr.sb|) ==> Mirror.Alike(e.State(), full)
  {
    hide Run, Replayed, Mirror.Alike;
    e := new Emulator(rows, s.scr.cols, 0);
    NewIsFresh(e.State(), rows, s.scr.cols);
    var d := Mirror.DumpVtMirror(s, rows, s.scr.cols, e.State());
    e.Process(d.bytes);
  }

  /** Attaching: take the terminal over, in whatever state it is, and replay the
      session on it. */
  method Attach(e: Emulator, s: Term)
    requires e.Valid() && Dumpable(s) && e.State().scr.cols == s.scr.cols && e.State().scr.rows >= s.scr.rows
    modifies e, e.screen
    ensures e.Valid() && Repaint.Drawn(e.State(), s)
    ensures Replayed(e.State(), s, 0) <==>
            && (s.modes.visible ==> old(e.State()).modes.visible)
            && (s.tabs == DefaultTabs(s.scr.cols) ==> old(e.State()).tabs == s.tabs)
  {
    hide Run, Replayed, Repaint.Drawn, DefaultTabs;
    Repaint.EnterClears(e.State());
    e.Process(Repaint.ENTER);
    var out := Repaint.DumpVtFlat(s, e.State());
    e.Process(out);
  }
}
