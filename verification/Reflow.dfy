// Rewrapping logical lines to another width: what `reflow_width` in
// crates/posh-term/src/screen.rs has to compute, and what that keeps.

module Reflow {
  import opened Cells
  import opened Machine

  // --- logical lines as characters --------------------------------------------

  /** The characters of a line: its cells without the spacers. */
  function Heads(line: seq<Cell>): (hs: seq<Cell>)
    ensures forall i :: 0 <= i < |hs| ==> hs[i].width != 0 && hs[i] in line
    ensures |hs| <= |line|
  {
    if line == [] then []
    else Heads(line[..|line| - 1]) + if line[|line| - 1].width == 0 then [] else [line[|line| - 1]]
  }

  lemma HeadsEnd(line: seq<Cell>, c: Cell)
    ensures Heads(line + [c]) == Heads(line) + if c.width == 0 then [] else [c]
    ensures Heads([]) == []
  {
    assert (line + [c])[..|line|] == line;
  }

  lemma {:induction false} HeadsAppend(a: seq<Cell>, b: seq<Cell>)
    ensures Heads(a + b) == Heads(a) + Heads(b)
    decreases |b|
  {
    hide Heads;
    if b == [] {
      HeadsEnd(a, BLANK);
      assert a + b == a;
    } else {
      var n := |b| - 1;
      HeadsAppend(a, b[..n]);
      HeadsEnd(a + b[..n], b[n]);
      HeadsEnd(b[..n], b[n]);
      assert (a + b[..n]) + [b[n]] == a + b;
      assert b[..n] + [b[n]] == b;
    }
  }

  /** The cells one character takes: a wide one brings its spacer. */
  function CellsOf(h: Cell): (r: seq<Cell>)
    ensures |r| == if h.width == 2 then 2 else 1
  {
    if h.width == 2 then [h, Spacer(h.style, h.link)] else [h]
  }

  function Flat(hs: seq<Cell>): (r: seq<Cell>)
    decreases |hs|
  {
    if hs == [] then [] else Flat(hs[..|hs| - 1]) + CellsOf(hs[|hs| - 1])
  }

  lemma {:induction false} FlatAppend(a: seq<Cell>, b: seq<Cell>)
    ensures Flat(a + b) == Flat(a) + Flat(b)
    decreases |b|
  {
    if b == [] {
      assert a + b == a;
    } else {
      FlatAppend(a, b[..|b| - 1]);
      assert (a + b)[..|a + b| - 1] == a + b[..|b| - 1];
    }
  }

  lemma FlatOne(h: Cell)
    ensures Flat([h]) == CellsOf(h)
  {
    assert [h][..0] == [];
    assert Flat([]) == [];
  }

  /** A character that no column of the new width can hold becomes a blank. */
  function Fitted(h: Cell, width: nat): Cell {
    if h.width > width then BLANK else h
  }

  function FittedAll(hs: seq<Cell>, width: nat): (r: seq<Cell>)
    ensures |r| == |hs|
    ensures forall i :: 0 <= i < |hs| ==> r[i] == Fitted(hs[i], width)
  {
    seq(|hs|, i requires 0 <= i < |hs| => Fitted(hs[i], width))
  }

  predicate Chars(hs: seq<Cell>, width: nat) {
    width >= 1 && forall i :: 0 <= i < |hs| ==> 1 <= hs[i].width <= 2 && hs[i].width <= width && CellOk(hs[i])
  }

  function Pad(cells: seq<Cell>, width: nat): (r: seq<Cell>)
    ensures |cells| <= width ==> |r| == width
  {
    if |cells| <= width then cells + BlankCells(width - |cells|) else cells
  }

  // --- the specification: each row takes as many characters as fit ---------------

  /** How many of the characters fit in one row. */
  function Fit(hs: seq<Cell>, width: nat): (n: nat)
    requires Chars(hs, width)
    ensures n <= |hs| && |Flat(hs[..n])| <= width
    ensures n < |hs| ==> |Flat(hs[..n + 1])| > width
    ensures |hs| > 0 ==> n > 0
  {
    if hs == [] then 0
    else
      FirstFits(hs, width);
      FitFrom(hs, width, 0)
  }

  function FitFrom(hs: seq<Cell>, width: nat, n: nat): (r: nat)
    requires Chars(hs, width) && n <= |hs| && |Flat(hs[..n])| <= width
    ensures n <= r <= |hs| && |Flat(hs[..r])| <= width
    ensures r < |hs| ==> |Flat(hs[..r + 1])| > width
    decreases |hs| - n
  {
    hide Flat, Chars;
    if n == |hs| || |Flat(hs[..n + 1])| > width then n else FitFrom(hs, width, n + 1)
  }

  lemma FirstFits(hs: seq<Cell>, width: nat)
    requires Chars(hs, width) && hs != []
    ensures |Flat(hs[..1])| <= width
  {
    assert hs[..1][..0] == [];
  }

  /** The rows of one logical line. */
  function Wrapped(hs: seq<Cell>, width: nat): (rows: seq<seq<Cell>>)
    requires Chars(hs, width)
    ensures |rows| >= 1
    ensures forall r :: 0 <= r < |rows| ==> |rows[r]| == width
    decreases |hs|
  {
    var n := Fit(hs, width);
    assert hs[..|hs|] == hs;
    if n == |hs| then [Pad(Flat(hs), width)] else [Pad(Flat(hs[..n]), width)] + Wrapped(hs[n..], width)
  }

  /** Where character `i` starts: row and column. */
  function Place(hs: seq<Cell>, width: nat, i: nat): (p: (nat, nat))
    requires Chars(hs, width) && i < |hs|
    decreases |hs|
  {
    var n := Fit(hs, width);
    if i < n then (0, |Flat(hs[..i])|)
    else var p := Place(hs[n..], width, i - n); (p.0 + 1, p.1)
  }

  // --- what rewrapping keeps ---------------------------------------------------------

  lemma {:induction false} FlatPaired(hs: seq<Cell>)
    requires forall i :: 0 <= i < |hs| ==> 1 <= hs[i].width <= 2 && CellOk(hs[i])
    ensures RowOk(Flat(hs), |Flat(hs)|)
    decreases |hs|
  {
    if hs != [] {
      FlatPaired(hs[..|hs| - 1]);
      var a, h := Flat(hs[..|hs| - 1]), hs[|hs| - 1];
      var r := a + CellsOf(h);
      forall c: nat | c < |r|
        ensures !Orphan(r, c)
      {
        if c < |a| {
          assert !Orphan(a, c);
        }
      }
    }
  }

  /** Padding with blanks splits nothing. */
  lemma PadPaired(cells: seq<Cell>, width: nat)
    requires RowOk(cells, |cells|) && |cells| <= width
    ensures RowOk(Pad(cells, width), width)
  {
    var r := Pad(cells, width);
    forall c: nat | c < |r|
      ensures !Orphan(r, c)
    {
      if c < |cells| {
        assert !Orphan(cells, c);
      }
    }
  }

  /** Every new row has exactly the new width and no wide character split. */
  lemma {:induction false} WrappedRows(hs: seq<Cell>, width: nat)
    requires Chars(hs, width)
    ensures forall r :: 0 <= r < |Wrapped(hs, width)| ==> RowOk(Wrapped(hs, width)[r], width)
    decreases |hs|
  {
    var n := Fit(hs, width);
    FlatPaired(hs[..n]);
    PadPaired(Flat(hs[..n]), width);
    if n < |hs| {
      WrappedRows(hs[n..], width);
    } else {
      assert hs[..n] == hs;
    }
  }

  lemma InFlat(hs: seq<Cell>, i: nat)
    requires i < |hs|
    ensures |Flat(hs[..i])| + |CellsOf(hs[i])| <= |Flat(hs)|
    ensures Flat(hs)[|Flat(hs[..i])|..|Flat(hs[..i])| + |CellsOf(hs[i])|] == CellsOf(hs[i])
  {
    assert hs == hs[..i] + [hs[i]] + hs[i + 1..];
    FlatAppend(hs[..i] + [hs[i]], hs[i + 1..]);
    FlatAppend(hs[..i], [hs[i]]);
    FlatOne(hs[i]);
  }

  /** Every character is where `Place` says, whole. */
  lemma {:induction false} PlacedThere(hs: seq<Cell>, width: nat, i: nat)
    requires Chars(hs, width) && i < |hs|
    ensures var (r, c), rows := Place(hs, width, i), Wrapped(hs, width);
            && r < |rows| && c + hs[i].width <= width && rows[r][c] == hs[i]
            && (hs[i].width == 2 ==> rows[r][c + 1] == Spacer(hs[i].style, hs[i].link))
    decreases |hs|
  {
    hide Flat;
    var n := Fit(hs, width);
    if i < n {
      assert hs[..n][..i] == hs[..i] && hs[..n][i] == hs[i];
      InFlat(hs[..n], i);
      assert CellsOf(hs[i])[0] == hs[i];
      assert n == |hs| ==> hs[..n] == hs;
      var f, c := Flat(hs[..n]), |Flat(hs[..i])|;
      assert f[c] == f[c..c + |CellsOf(hs[i])|][0];
      assert hs[i].width == 2 ==> f[c + 1] == f[c..c + |CellsOf(hs[i])|][1];
    } else {
      PlacedThere(hs[n..], width, i - n);
    }
  }

  function Joined(rows: seq<seq<Cell>>): seq<Cell> {
    if rows == [] then [] else rows[0] + Joined(rows[1..])
  }

  predicate AllNarrow(hs: seq<Cell>) {
    forall i :: 0 <= i < |hs| ==> hs[i].width == 1
  }

  lemma {:induction false} FlatNarrow(hs: seq<Cell>)
    requires AllNarrow(hs)
    ensures Flat(hs) == hs
    decreases |hs|
  {
    if hs != [] {
      FlatNarrow(hs[..|hs| - 1]);
    }
  }

  /** A line of narrow characters comes back unchanged but for blanks after it. */
  lemma {:induction false} NarrowKept(hs: seq<Cell>, width: nat)
    requires Chars(hs, width) && AllNarrow(hs)
    ensures var j := Joined(Wrapped(hs, width));
            |hs| <= |j| && j[..|hs|] == hs && (forall x :: |hs| <= x < |j| ==> j[x] == BLANK)
    decreases |hs|
  {
    hide Flat;
    var n, rows := Fit(hs, width), Wrapped(hs, width);
    FlatNarrow(hs[..n]);
    if n == |hs| {
      assert hs[..n] == hs;
      assert rows[1..] == [] && Joined(rows[1..]) == [];
    } else {
      FlatNarrow(hs[..n + 1]);
      NarrowKept(hs[n..], width);
      assert rows[1..] == Wrapped(hs[n..], width);
      JoinRest(hs, n, rows[0], Joined(rows[1..]));
    }
  }

  lemma JoinRest(hs: seq<Cell>, n: nat, first: seq<Cell>, rest: seq<Cell>)
    requires n <= |hs| && first == hs[..n] && |hs| - n <= |rest| && rest[..|hs| - n] == hs[n..]
    ensures (first + rest)[..|hs|] == hs
  {
    assert (first + rest)[..|hs|] == first + rest[..|hs| - n];
  }

  /** ... and each of its characters keeps its offset in the line. */
  lemma {:induction false} NarrowOffset(hs: seq<Cell>, width: nat, i: nat)
    requires Chars(hs, width) && AllNarrow(hs) && i < |hs|
    ensures var (r, c) := Place(hs, width, i); r * width + c == i
    decreases |hs|
  {
    hide Flat;
    var n := Fit(hs, width);
    FlatNarrow(hs[..n]);
    if i < n {
      FlatNarrow(hs[..i]);
    } else {
      FlatNarrow(hs[..n + 1]);
      NarrowOffset(hs[n..], width, i - n);
      NextRow(Place(hs[n..], width, i - n), width, i - n);
    }
  }

  lemma NextRow(p: (nat, nat), width: nat, k: nat)
    requires p.0 * width + p.1 == k
    ensures (p.0 + 1) * width + p.1 == k + width
  {
  }

  // --- the same, one character at a time ---------------------------------------------

  /** The rows still to come when `cur` stands in the row being filled. */
  function WrapOn(cur: seq<Cell>, hs: seq<Cell>, width: nat): seq<seq<Cell>>
    requires Chars(hs, width)
    decreases |hs|, |cur|
  {
    if hs == [] then [Pad(cur, width)]
    else if |cur| + hs[0].width > width then [Pad(cur, width)] + WrapOn([], hs, width)
    else WrapOn(cur + CellsOf(hs[0]), hs[1..], width)
  }

  /** Where character `i` of `hs` will start, in rows from the one being filled. */
  function PlaceOn(cur: seq<Cell>, hs: seq<Cell>, width: nat, i: nat): (nat, nat)
    requires Chars(hs, width) && i < |hs|
    decreases |hs|, |cur|
  {
    if |cur| + hs[0].width > width then var p := PlaceOn([], hs, width, i); (p.0 + 1, p.1)
    else if i == 0 then (0, |cur|)
    else PlaceOn(cur + CellsOf(hs[0]), hs[1..], width, i - 1)
  }

  lemma FlatGrows(hs: seq<Cell>, n: nat, m: nat)
    requires n <= m <= |hs|
    ensures |Flat(hs[..n])| <= |Flat(hs[..m])|
    ensures n < m ==> |Flat(hs[..n])| < |Flat(hs[..m])|
  {
    assert hs[..m] == hs[..n] + hs[n..m];
    FlatAppend(hs[..n], hs[n..m]);
    if n < m {
      assert hs[n..m] == hs[n..m - 1] + [hs[m - 1]];
    }
  }

  lemma FitUnique(hs: seq<Cell>, width: nat, n: nat)
    requires Chars(hs, width) && n <= |hs| && |Flat(hs[..n])| <= width
    requires n < |hs| ==> |Flat(hs[..n + 1])| > width
    ensures Fit(hs, width) == n
  {
    var m := Fit(hs, width);
    if m < n {
      FlatGrows(hs, m + 1, n);
    } else if n < m {
      FlatGrows(hs, n + 1, m);
    }
  }

  lemma {:induction false} BreaksAfter(a: seq<Cell>, b: seq<Cell>, width: nat)
    requires Chars(a + b, width) && Chars(b, width) && |Flat(a)| <= width
    requires b != [] ==> |Flat(a)| + b[0].width > width
    ensures Fit(a + b, width) == |a|
    ensures Wrapped(a + b, width) == [Pad(Flat(a), width)] + if b == [] then [] else Wrapped(b, width)
  {
    hide Flat, Fit;
    assert (a + b)[..|a|] == a && (a + b)[|a|..] == b;
    if b != [] {
      FlatNext(a, b[0]);
      assert (a + b)[..|a| + 1] == a + [b[0]];
    } else {
      assert a + b == a;
    }
    FitUnique(a + b, width, |a|);
  }

  /** The row `a` fills, followed by what `b` needs, is the wrap of both. */
  lemma {:induction false} WrapOnIs(a: seq<Cell>, b: seq<Cell>, width: nat)
    requires Chars(a + b, width) && Chars(b, width) && |Flat(a)| <= width
    ensures WrapOn(Flat(a), b, width) == Wrapped(a + b, width)
    decreases |b|, |a|
  {
    hide Flat, Fit, CellsOf, Wrapped, Chars;
    if b == [] || |Flat(a)| + b[0].width > width {
      BreaksAfter(a, b, width);
      if b != [] {
        FlatNone();
        assert [] + b == b;
        CharsRow(a, b, width);
        WrapOnIs([], b, width);
      }
    } else {
      CharsRow(a, b, width);
      FlatNext(a, b[0]);
      assert (a + [b[0]]) + b[1..] == a + b;
      WrapOnIs(a + [b[0]], b[1..], width);
    }
  }

  lemma {:induction false} PlaceOnIs(a: seq<Cell>, b: seq<Cell>, width: nat, i: nat)
    requires Chars(a + b, width) && Chars(b, width) && |Flat(a)| <= width && i < |b|
    ensures PlaceOn(Flat(a), b, width, i) == Place(a + b, width, |a| + i)
    decreases |b|, |a|
  {
    hide Flat, Fit, CellsOf, Chars, Wrapped, Place, PlaceOn;
    CharsRow(a, b, width);
    PlaceOnStep(Flat(a), b, width, i);
    if |Flat(a)| + b[0].width > width {
      PlaceNext(a, b, width, i);
      FlatNone();
      assert [] + b == b;
      PlaceOnIs([], b, width, i);
    } else if i == 0 {
      InRowPlace(a, b, width);
    } else {
      FlatNext(a, b[0]);
      assert (a + [b[0]]) + b[1..] == a + b;
      PlaceOnIs(a + [b[0]], b[1..], width, i - 1);
    }
  }

  lemma PlaceOnStep(cur: seq<Cell>, hs: seq<Cell>, width: nat, i: nat)
    requires Chars(hs, width) && i < |hs|
    ensures Chars(hs[1..], width)
    ensures PlaceOn(cur, hs, width, i) ==
            if |cur| + hs[0].width > width then var p := PlaceOn([], hs, width, i); (p.0 + 1, p.1)
            else if i == 0 then (0, |cur|)
            else PlaceOn(cur + CellsOf(hs[0]), hs[1..], width, i - 1)
  {
    hide CellsOf;
  }

  /** Past the row that `a` fills, a place is one row further down. */
  lemma PlaceNext(a: seq<Cell>, b: seq<Cell>, width: nat, i: nat)
    requires Chars(a + b, width) && Chars(b, width) && |Flat(a)| <= width && i < |b| && |Flat(a)| + b[0].width > width
    ensures var p := Place(b, width, i); Place(a + b, width, |a| + i) == (p.0 + 1, p.1)
  {
    hide Flat, Fit, CellsOf, Chars, Wrapped;
    BreaksAfter(a, b, width);
    assert (a + b)[|a|..] == b;
  }

  lemma CharsRow(a: seq<Cell>, b: seq<Cell>, width: nat)
    requires Chars(a + b, width) && Chars(b, width) && b != []
    ensures 1 <= b[0].width <= 2 && b[0].width <= width && Chars(b[1..], width) && Chars([], width)
    ensures Chars([] + b, width)
    ensures |Flat(a)| + b[0].width <= width ==> |Flat(a + [b[0]])| <= width
  {
    assert [] + b == b;
    FlatNext(a, b[0]);
  }

  lemma FlatNone()
    ensures Flat([]) == []
  {
  }

  lemma FlatNext(a: seq<Cell>, h: Cell)
    requires 1 <= h.width <= 2
    ensures Flat(a + [h]) == Flat(a) + CellsOf(h) && |CellsOf(h)| == h.width
  {
    FlatAppend(a, [h]);
    FlatOne(h);
  }

  lemma InRowPlace(a: seq<Cell>, b: seq<Cell>, width: nat)
    requires Chars(a + b, width) && b != [] && |Flat(a + [b[0]])| <= width
    ensures Place(a + b, width, |a|) == (0, |Flat(a)|)
  {
    assert (a + b)[..|a|] == a && (a + b)[..|a| + 1] == a + [b[0]];
    var n := Fit(a + b, width);
    if n <= |a| {
      FlatGrows(a + b, n + 1, |a| + 1);
    }
  }
}
