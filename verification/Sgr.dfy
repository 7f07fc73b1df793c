// Select graphic rendition: `sgr_params` in crates/posh-term/src/dump.rs prints
// a style, and the parser with `sgr` in csi.rs reads it back.

module Sgr {
  import opened Wrappers
  import opened Bytes
  import opened Cells
  import opened Parser

  // --- reading ----------------------------------------------------------------------

  function Lead(p: Param): nat {
    if p == [] then 0 else p[0]
  }

  function LeadAt(ps: seq<Param>, i: nat): nat {
    if i < |ps| then Lead(ps[i]) else 0
  }

  function Clamped(v: nat): Byte { Lesser(v, 255) }

  datatype Extended = Extended(found: bool, color: Color, consumed: nat)

  const NO_COLOR := Extended(false, DefaultColor, 0)

  /** `extended_color` on the parameters from 38, 48 or 58 on: one parameter with
      colons, or several with semicolons. */
  function ExtendedColor(ps: seq<Param>): Extended
    requires ps != []
  {
    var p := ps[0];
    if |p| > 1 then
      if p[1] == 5 && |p| >= 3 then Extended(true, Indexed(Clamped(p[2])), 0)
      else if p[1] == 2 && |p| >= 6 then Extended(true, Rgb(Clamped(p[3]), Clamped(p[4]), Clamped(p[5])), 0)
      else if p[1] == 2 && |p| == 5 then Extended(true, Rgb(Clamped(p[2]), Clamped(p[3]), Clamped(p[4])), 0)
      else NO_COLOR
    else if |ps| < 2 || ps[1] == [] then NO_COLOR
    else if ps[1][0] == 5 then Extended(true, Indexed(Clamped(LeadAt(ps, 2))), 2)
    else if ps[1][0] == 2 then
      Extended(true, Rgb(Clamped(LeadAt(ps, 2)), Clamped(LeadAt(ps, 3)), Clamped(LeadAt(ps, 4))), 4)
    else NO_COLOR
  }

  function UnderlineOf(p: Param): Underline {
    if |p| < 2 then Single
    else if p[1] == 0 then NoUnderline
    else if p[1] == 2 then Double
    else if p[1] == 3 then Curly
    else if p[1] == 4 then Dotted
    else if p[1] == 5 then Dashed
    else Single
  }

  /** A parameter that stands by itself. */
  function Attribute(s: Style, p: Param): Style {
    var v := Lead(p);
    if v == 0 then DEFAULT_STYLE
    else if v == 1 then s.(bold := true)
    else if v == 2 then s.(dim := true)
    else if v == 3 then s.(italic := true)
    else if v == 4 then s.(underline := UnderlineOf(p))
    else if v == 5 || v == 6 then s.(blink := true)
    else if v == 7 then s.(inverse := true)
    else if v == 8 then s.(invisible := true)
    else if v == 9 then s.(strikethrough := true)
    else if v == 21 then s.(underline := Double)
    else if v == 22 then s.(bold := false, dim := false)
    else if v == 23 then s.(italic := false)
    else if v == 24 then s.(underline := NoUnderline)
    else if v == 25 then s.(blink := false)
    else if v == 27 then s.(inverse := false)
    else if v == 28 then s.(invisible := false)
    else if v == 29 then s.(strikethrough := false)
    else if 30 <= v <= 37 then s.(fg := Indexed(v - 30))
    else if v == 39 then s.(fg := DefaultColor)
    else if 40 <= v <= 47 then s.(bg := Indexed(v - 40))
    else if v == 49 then s.(bg := DefaultColor)
    else if v == 59 then s.(underlineColor := DefaultColor)
    else if 90 <= v <= 97 then s.(fg := Indexed(v - 90 + 8))
    else if 100 <= v <= 107 then s.(bg := Indexed(v - 100 + 8))
    else s
  }

  function Colored(s: Style, v: nat, c: Color): Style {
    if v == 38 then s.(fg := c) else if v == 48 then s.(bg := c) else s.(underlineColor := c)
  }

  predicate IsColor(v: nat) { v == 38 || v == 48 || v == 58 }

  /** The style after the parameters. */
  function Applied(s: Style, ps: seq<Param>): Style
    decreases |ps|
  {
    if ps == [] then s
    else if IsColor(Lead(ps[0])) then
      var e := ExtendedColor(ps);
      var t := if e.found then Colored(s, Lead(ps[0]), e.color) else s;
      Applied(t, ps[Lesser(1 + e.consumed, |ps|)..])
    else Applied(Attribute(s, ps[0]), ps[1..])
  }

  /** `sgr`: the pen's new style. DECSCA is not an SGR attribute, so 0 keeps it. */
  function Selected(pen: Style, ps: seq<Param>): Style {
    (if ps == [] then DEFAULT_STYLE else Applied(pen, ps)).(guarded := pen.guarded)
  }

  method Select(pen: Style, ps: seq<Param>) returns (style: Style)
    ensures style == Selected(pen, ps)
  {
    hide Attribute, ExtendedColor, Colored;
    if ps == [] {
      return DEFAULT_STYLE.(guarded := pen.guarded);
    }
    style := pen;
    var i := 0;
    while i < |ps|
      invariant Applied(style, ps[Lesser(i, |ps|)..]) == Applied(pen, ps)
    {
      var p := ps[i];
      ghost var rest := ps[i..];
      if IsColor(Lead(p)) {
        var e := ExtendedColor(ps[i..]);
        if e.found {
          style := Colored(style, Lead(p), e.color);
        }
        assert ps[Lesser(i + 1 + e.consumed, |ps|)..] == rest[Lesser(1 + e.consumed, |rest|)..];
        i := i + e.consumed;
      } else {
        style := Attribute(style, p);
        assert ps[i + 1..] == rest[1..];
      }
      i := i + 1;
    }
    style := style.(guarded := pen.guarded);
  }

  // --- printing ---------------------------------------------------------------------------

  /** Parameters far inside the parser's caps. */
  predicate Tidy(ps: seq<Param>) {
    forall i :: 0 <= i < |ps| ==> 1 <= |ps[i]| <= 5 && forall k :: 0 <= k < |ps[i]| ==> ps[i][k] <= 255
  }

  lemma TidyAppend(a: seq<Param>, b: seq<Param>)
    requires Tidy(a) && Tidy(b)
    ensures Tidy(a + b)
  {
  }

  /** A parameter that is printed only when `on`. */
  function When(on: bool, v: Byte): (ps: seq<Param>)
    ensures |ps| <= 1 && Tidy(ps)
  {
    if on then [[v]] else []
  }

  function UnderlineParams(u: Underline): (ps: seq<Param>)
    ensures |ps| <= 1 && Tidy(ps)
  {
    match u
    case NoUnderline => []
    case Single => [[4]]
    case Double => [[4, 2]]
    case Curly => [[4, 3]]
    case Dotted => [[4, 4]]
    case Dashed => [[4, 5]]
  }

  /** Foreground (`base` 30) or background (40): short forms for the first sixteen
      palette entries, then the semicolon forms. */
  function ColorParams(c: Color, base: nat): (ps: seq<Param>)
    requires base <= 40
    ensures |ps| <= 5 && Tidy(ps)
  {
    match c
    case DefaultColor => []
    case Indexed(i) =>
      if i < 8 then [[base + i]] else if i < 16 then [[base + 60 + i - 8]] else [[base + 8], [5], [i]]
    case Rgb(r, g, b) => [[base + 8], [2], [r], [g], [b]]
  }

  function UnderlineColorParams(c: Color): (ps: seq<Param>)
    ensures |ps| <= 1 && Tidy(ps)
  {
    match c
    case DefaultColor => []
    case Indexed(i) => [[58, 5, i]]
    case Rgb(r, g, b) => [[58, 2, r, g, b]]
  }

  function Flags(s: Style): (ps: seq<Param>)
    ensures |ps| <= 4 && Tidy(ps)
  {
    hide When, Tidy;
    var a, b := When(s.blink, 5) + When(s.inverse, 7), When(s.invisible, 8) + When(s.strikethrough, 9);
    TidyAppend(When(s.blink, 5), When(s.inverse, 7));
    TidyAppend(When(s.invisible, 8), When(s.strikethrough, 9));
    TidyAppend(a, b);
    a + b
  }

  function Weights(s: Style): (ps: seq<Param>)
    ensures |ps| <= 4 && Tidy(ps)
  {
    hide When, Tidy, UnderlineParams;
    var a, b := When(s.bold, 1) + When(s.dim, 2), When(s.italic, 3) + UnderlineParams(s.underline);
    TidyAppend(When(s.bold, 1), When(s.dim, 2));
    TidyAppend(When(s.italic, 3), UnderlineParams(s.underline));
    TidyAppend(a, b);
    a + b
  }

  function Colors(s: Style): (ps: seq<Param>)
    ensures |ps| <= 11 && Tidy(ps)
  {
    hide ColorParams, UnderlineColorParams, Tidy;
    var a := ColorParams(s.fg, 30) + ColorParams(s.bg, 40);
    TidyAppend(ColorParams(s.fg, 30), ColorParams(s.bg, 40));
    TidyAppend(a, UnderlineColorParams(s.underlineColor));
    a + UnderlineColorParams(s.underlineColor)
  }

  /** The parameters that reproduce `s` from a reset. */
  function ParamsOf(s: Style): (ps: seq<Param>)
    ensures ps != [] && |ps| <= 20 && Tidy(ps)
  {
    hide Weights, Flags, Colors;
    var a, b := [[0]] + Weights(s), Flags(s) + Colors(s);
    TidyAppend([[0]], Weights(s));
    TidyAppend(Flags(s), Colors(s));
    TidyAppend(a, b);
    a + b
  }

  lemma ParamsOfOk(s: Style)
    ensures ParamsOk(ParamsOf(s)) && Capped(ParamsOf(s)) == ParamsOf(s)
  {
    hide ParamsOf, Capped;
    WithinCaps(ParamsOf(s));
  }

  function Piece(p: Param): seq<Byte> {
    [SEMICOLON] + if p == [] then [] else Joined(p)
  }

  /** The bytes appended for more parameters. */
  function More(ps: seq<Param>): seq<Byte> {
    if ps == [] then [] else Piece(ps[0]) + More(ps[1..])
  }

  lemma RenderedSnoc(ps: seq<Param>, p: Param)
    requires ParamsOk(ps) && p != []
    ensures ParamsOk(ps + [p]) && Rendered(ps + [p]) == Rendered(ps) + Piece(p)
  {
    hide Joined;
    assert (ps + [p])[..|ps|] == ps;
    assert Rendered(ps + [p]) == Rendered(ps) + [SEMICOLON] + Joined(p);
  }

  lemma {:induction false} RenderedMore(ps: seq<Param>, qs: seq<Param>)
    requires ParamsOk(ps) && forall i :: 0 <= i < |qs| ==> qs[i] != []
    ensures ParamsOk(ps + qs) && Rendered(ps + qs) == Rendered(ps) + More(qs)
    decreases |qs|
  {
    hide Rendered, Piece;
    if qs == [] {
      assert ps + qs == ps;
    } else {
      RenderedSnoc(ps, qs[0]);
      RenderedMore(ps + [qs[0]], qs[1..]);
      assert ps + qs == (ps + [qs[0]]) + qs[1..];
    }
  }

  lemma MoreOne(p: Param)
    ensures More([p]) == Piece(p)
    ensures More([]) == []
  {
    assert [p][1..] == [];
  }

  lemma {:induction false} MoreSplit(a: seq<Param>, b: seq<Param>)
    ensures More(a + b) == More(a) + More(b)
    decreases |a|
  {
    hide Piece;
    if a == [] {
      assert a + b == b;
    } else {
      assert (a + b)[1..] == a[1..] + b;
      MoreSplit(a[1..], b);
    }
  }

  /** Append one parameter of one part. */
  method Push(s: seq<Byte>, v: nat) returns (out: seq<Byte>)
    ensures out == s + More([[v]])
  {
    MoreOne([v]);
    out := s + [SEMICOLON] + Decimal(v);
  }

  method PushIf(s: seq<Byte>, on: bool, v: Byte) returns (out: seq<Byte>)
    ensures out == s + More(When(on, v))
  {
    MoreOne([v]);
    out := s;
    if on {
      out := Push(s, v);
    }
  }

  lemma JoinedStart(p: Param)
    requires p != []
    ensures Joined(p[..1]) == Decimal(p[0])
  {
    assert p[..1][0] == p[0];
  }

  lemma JoinedSnoc(p: Param, i: nat)
    requires 1 <= i < |p|
    ensures Joined(p[..i + 1]) == Joined(p[..i]) + [COLON] + Decimal(p[i])
  {
    assert p[..i + 1][..i] == p[..i];
  }

  /** Append one parameter with colons. */
  method PushParts(s: seq<Byte>, p: Param) returns (out: seq<Byte>)
    requires p != []
    ensures out == s + More([p])
  {
    hide Decimal, Joined;
    MoreOne(p);
    JoinedStart(p);
    out := s + [SEMICOLON] + Decimal(p[0]);
    var i := 1;
    while i < |p|
      invariant 1 <= i <= |p| && out == s + ([SEMICOLON] + Joined(p[..i]))
    {
      JoinedSnoc(p, i);
      out := out + [COLON] + Decimal(p[i]);
      i := i + 1;
    }
    assert p[..i] == p;
  }

  method PushColor(s: seq<Byte>, c: Color, base: nat) returns (out: seq<Byte>)
    requires base <= 40
    ensures out == s + More(ColorParams(c, base))
  {
    hide More;
    MoreOne([0]);
    match c {
      case DefaultColor => out := s;
      case Indexed(i) =>
        if i < 8 {
          out := Push(s, base + i);
        } else if i < 16 {
          out := Push(s, base + 60 + i - 8);
        } else {
          out := PushThree(s, base + 8, 5, i);
        }
      case Rgb(r, g, b) =>
        RgbMore(base + 8, r, g, b);
        out := Push(s, base + 8);
        out := Push(out, 2);
        out := PushThree(out, r, g, b);
    }
  }

  lemma RgbMore(a: nat, r: nat, g: nat, b: nat)
    ensures More([[a], [2], [r], [g], [b]]) == More([[a]]) + More([[2]]) + More([[r], [g], [b]])
  {
    hide More;
    MoreSplit([[a]], [[2]]);
    MoreSplit([[a]] + [[2]], [[r], [g], [b]]);
    assert [[a]] + [[2]] + [[r], [g], [b]] == [[a], [2], [r], [g], [b]];
  }

  method PushThree(s: seq<Byte>, a: nat, b: nat, c: nat) returns (out: seq<Byte>)
    ensures out == s + More([[a], [b], [c]])
  {
    hide More;
    out := Push(s, a);
    out := Push(out, b);
    out := Push(out, c);
    MoreThree([a], [b], [c]);
  }

  lemma MoreThree(a: Param, b: Param, c: Param)
    ensures More([a, b, c]) == More([a]) + More([b]) + More([c])
  {
    hide More;
    MoreSplit([a], [b]);
    MoreSplit([a] + [b], [c]);
    assert [a] + [b] + [c] == [a, b, c];
  }

  /** The parameter string of a style, always from a reset. */
  method SgrParams(style: Style) returns (s: seq<Byte>)
    ensures s == Rendered(ParamsOf(style))
  {
    hide More, Decimal, When, ColorParams, UnderlineParams, UnderlineColorParams;
    s := Decimal(0);
    s := PushIf(s, style.bold, 1);
    s := PushIf(s, style.dim, 2);
    s := PushIf(s, style.italic, 3);
    s := PushUnderline(s, style.underline);
    s := PushIf(s, style.blink, 5);
    s := PushIf(s, style.inverse, 7);
    s := PushIf(s, style.invisible, 8);
    s := PushIf(s, style.strikethrough, 9);
    s := PushColor(s, style.fg, 30);
    s := PushColor(s, style.bg, 40);
    s := PushUnderlineColor(s, style.underlineColor);
    StyleMore(style);
  }

  method PushUnderline(s: seq<Byte>, u: Underline) returns (out: seq<Byte>)
    ensures out == s + More(UnderlineParams(u))
  {
    MoreOne([0]);
    match u {
      case NoUnderline => out := s;
      case Single => out := PushParts(s, [4]);
      case Double => out := PushParts(s, [4, 2]);
      case Curly => out := PushParts(s, [4, 3]);
      case Dotted => out := PushParts(s, [4, 4]);
      case Dashed => out := PushParts(s, [4, 5]);
    }
  }

  method PushUnderlineColor(s: seq<Byte>, c: Color) returns (out: seq<Byte>)
    ensures out == s + More(UnderlineColorParams(c))
  {
    MoreOne([0]);
    match c {
      case DefaultColor => out := s;
      case Indexed(i) => out := PushParts(s, [58, 5, i]);
      case Rgb(r, g, b) => out := PushParts(s, [58, 2, r, g, b]);
    }
  }

  lemma StyleMore(s: Style)
    ensures Rendered(ParamsOf(s)) ==
      Decimal(0) + More(When(s.bold, 1)) + More(When(s.dim, 2)) + More(When(s.italic, 3)) + More(UnderlineParams(s.underline))
      + More(When(s.blink, 5)) + More(When(s.inverse, 7)) + More(When(s.invisible, 8)) + More(When(s.strikethrough, 9))
      + More(ColorParams(s.fg, 30)) + More(ColorParams(s.bg, 40)) + More(UnderlineColorParams(s.underlineColor))
  {
    hide More, Decimal, When, ColorParams, UnderlineParams, UnderlineColorParams, Tidy, Rendered, ParamsOf;
    MoreSplit(When(s.bold, 1), When(s.dim, 2));
    MoreSplit(When(s.italic, 3), UnderlineParams(s.underline));
    MoreSplit(When(s.bold, 1) + When(s.dim, 2), When(s.italic, 3) + UnderlineParams(s.underline));
    MoreSplit(When(s.blink, 5), When(s.inverse, 7));
    MoreSplit(When(s.invisible, 8), When(s.strikethrough, 9));
    MoreSplit(When(s.blink, 5) + When(s.inverse, 7), When(s.invisible, 8) + When(s.strikethrough, 9));
    MoreSplit(ColorParams(s.fg, 30), ColorParams(s.bg, 40));
    MoreSplit(ColorParams(s.fg, 30) + ColorParams(s.bg, 40), UnderlineColorParams(s.underlineColor));
    StyleRendered(s);
  }

  lemma StyleRendered(s: Style)
    ensures Rendered(ParamsOf(s)) == Decimal(0) + More(Weights(s)) + More(Flags(s)) + More(Colors(s))
  {
    hide More, Decimal, Weights, Flags, Colors, Tidy, Rendered;
    MoreSplit(Weights(s), Flags(s) + Colors(s));
    MoreSplit(Flags(s), Colors(s));
    TidyAppend(Flags(s), Colors(s));
    TidyAppend(Weights(s), Flags(s) + Colors(s));
    RenderedReset(Weights(s) + (Flags(s) + Colors(s)));
    assert ParamsOf(s) == [[0]] + (Weights(s) + (Flags(s) + Colors(s)));
  }

  lemma RenderedReset(rest: seq<Param>)
    requires Tidy(rest)
    ensures ParamsOk([[0]] + rest) && Rendered([[0]] + rest) == Decimal(0) + More(rest)
  {
    RenderedMore([[0]], rest);
    assert Rendered([[0]]) == Joined([0]);
  }

  // --- the round trip -------------------------------------------------------------------------

  lemma WhenApplied(s: Style, on: bool, v: Byte, rest: seq<Param>)
    requires !IsColor(v)
    ensures Applied(s, When(on, v) + rest) == Applied(if on then Attribute(s, [v]) else s, rest)
  {
    hide Attribute, ExtendedColor, Colored;
    if on {
      assert ([[v]] + rest)[1..] == rest;
    } else {
      assert [] + rest == rest;
    }
  }

  lemma UnderlineApplied(s: Style, u: Underline, rest: seq<Param>)
    requires s.underline == NoUnderline
    ensures Applied(s, UnderlineParams(u) + rest) == Applied(s.(underline := u), rest)
  {
    hide Applied;
    if u == NoUnderline {
      assert [] + rest == rest;
    } else {
      var p := UnderlineParams(u)[0];
      ShortApplied(s, p, rest);
      assert Attribute(s, p) == s.(underline := u);
    }
  }

  /** A colour given by one short parameter. */
  lemma ShortApplied(s: Style, p: Param, rest: seq<Param>)
    requires !IsColor(Lead(p))
    ensures Applied(s, [p] + rest) == Applied(Attribute(s, p), rest)
  {
    hide Attribute, ExtendedColor, Colored;
    assert ([p] + rest)[1..] == rest;
  }

  /** A colour given in `n` parameters, the last ones consumed with the first. */
  lemma LongApplied(s: Style, ps: seq<Param>, rest: seq<Param>, c: Color)
    requires ps != [] && IsColor(Lead(ps[0]))
    requires ExtendedColor(ps + rest) == Extended(true, c, |ps| - 1)
    ensures Applied(s, ps + rest) == Applied(Colored(s, Lead(ps[0]), c), rest)
  {
    hide Attribute, ExtendedColor, Colored;
    assert (ps + rest)[Lesser(|ps|, |ps + rest|)..] == rest;
    assert (ps + rest)[0] == ps[0];
  }

  predicate Unset(s: Style, base: nat) {
    if base == 30 then s.fg == DefaultColor else s.bg == DefaultColor
  }

  lemma ColorApplied(s: Style, c: Color, base: nat, rest: seq<Param>)
    requires (base == 30 || base == 40) && Unset(s, base)
    ensures Applied(s, ColorParams(c, base) + rest) == Applied(Colored(s, base + 8, c), rest)
  {
    hide Applied, Attribute, ExtendedColor, Colored;
    match c
    case DefaultColor =>
      assert [] + rest == rest;
      ColoredDefault(s, base);
    case Indexed(i) =>
      if i < 16 {
        ShortColor(s, i, base);
        ShortApplied(s, [if i < 8 then base + i else base + 60 + i - 8], rest);
      } else {
        ThreePart(base + 8, i, rest);
        LongApplied(s, [[base + 8], [5], [i]], rest, c);
      }
    case Rgb(r, g, b) =>
      FivePart(base + 8, r, g, b, rest);
      LongApplied(s, [[base + 8], [2], [r], [g], [b]], rest, c);
  }

  lemma ColoredDefault(s: Style, base: nat)
    requires (base == 30 || base == 40) && Unset(s, base)
    ensures Colored(s, base + 8, DefaultColor) == s
  {
  }

  lemma ShortColor(s: Style, i: Byte, base: nat)
    requires (base == 30 || base == 40) && i < 16
    ensures var v := if i < 8 then base + i else base + 60 + i - 8;
            !IsColor(v) && Attribute(s, [v]) == Colored(s, base + 8, Indexed(i))
  {
  }

  lemma ThreePart(v: nat, i: Byte, rest: seq<Param>)
    ensures ExtendedColor([[v], [5], [i]] + rest) == Extended(true, Indexed(i), 2)
  {
    var ps := [[v], [5], [i]] + rest;
    assert ps[0] == [v] && ps[1] == [5] && ps[2] == [i];
  }

  lemma FivePart(v: nat, r: Byte, g: Byte, b: Byte, rest: seq<Param>)
    ensures ExtendedColor([[v], [2], [r], [g], [b]] + rest) == Extended(true, Rgb(r, g, b), 4)
  {
    var ps := [[v], [2], [r], [g], [b]] + rest;
    assert ps[0] == [v] && ps[1] == [2] && ps[2] == [r] && ps[3] == [g] && ps[4] == [b];
  }

  lemma {:induction false} UnderlineColorApplied(s: Style, c: Color, rest: seq<Param>)
    requires s.underlineColor == DefaultColor
    ensures Applied(s, UnderlineColorParams(c) + rest) == Applied(s.(underlineColor := c), rest)
  {
    match c
    case DefaultColor =>
      assert [] + rest == rest;
    case Indexed(i) =>
      LongApplied(s, [[58, 5, i]], rest, c);
    case Rgb(r, g, b) =>
      LongApplied(s, [[58, 2, r, g, b]], rest, c);
  }

  lemma WeightsApplied(s: Style, rest: seq<Param>)
    ensures Applied(DEFAULT_STYLE, Weights(s) + rest) ==
      Applied(DEFAULT_STYLE.(bold := s.bold, dim := s.dim, italic := s.italic, underline := s.underline), rest)
  {
    hide Applied, UnderlineParams, When;
    var a, b, c, d := When(s.bold, 1), When(s.dim, 2), When(s.italic, 3), UnderlineParams(s.underline);
    assert Weights(s) + rest == a + (b + (c + (d + rest)));
    var t := DEFAULT_STYLE;
    WhenApplied(t, s.bold, 1, b + (c + (d + rest)));
    t := t.(bold := s.bold);
    WhenApplied(t, s.dim, 2, c + (d + rest));
    t := t.(dim := s.dim);
    WhenApplied(t, s.italic, 3, d + rest);
    t := t.(italic := s.italic);
    UnderlineApplied(t, s.underline, rest);
  }

  /** Nothing but weights and underline is set. */
  predicate FlagsUnset(t: Style) {
    !t.blink && !t.inverse && !t.invisible && !t.strikethrough
  }

  lemma {:induction false} BlinkApplied(t: Style, s: Style, rest: seq<Param>)
    requires !t.blink && !t.inverse
    ensures Applied(t, When(s.blink, 5) + (When(s.inverse, 7) + rest)) == Applied(t.(blink := s.blink, inverse := s.inverse), rest)
  {
    hide Applied, When;
    WhenApplied(t, s.blink, 5, When(s.inverse, 7) + rest);
    WhenApplied(t.(blink := s.blink), s.inverse, 7, rest);
  }

  lemma {:induction false} HiddenApplied(t: Style, s: Style, rest: seq<Param>)
    requires !t.invisible && !t.strikethrough
    ensures Applied(t, When(s.invisible, 8) + (When(s.strikethrough, 9) + rest)) ==
            Applied(t.(invisible := s.invisible, strikethrough := s.strikethrough), rest)
  {
    hide Applied, When;
    WhenApplied(t, s.invisible, 8, When(s.strikethrough, 9) + rest);
    WhenApplied(t.(invisible := s.invisible), s.strikethrough, 9, rest);
  }

  lemma {:induction false} FlagsApplied(t: Style, s: Style, rest: seq<Param>)
    requires FlagsUnset(t)
    ensures Applied(t, Flags(s) + rest) ==
      Applied(t.(blink := s.blink, inverse := s.inverse, invisible := s.invisible, strikethrough := s.strikethrough), rest)
  {
    hide Applied, When, Attribute;
    var a, b, c, d := When(s.blink, 5), When(s.inverse, 7), When(s.invisible, 8), When(s.strikethrough, 9);
    assert Flags(s) + rest == a + (b + (c + (d + rest)));
    BlinkApplied(t, s, c + (d + rest));
    HiddenApplied(t.(blink := s.blink, inverse := s.inverse), s, rest);
  }

  lemma ColorsApplied(t: Style, s: Style)
    requires t.fg == t.bg == t.underlineColor == DefaultColor
    ensures Applied(t, Colors(s)) == t.(fg := s.fg, bg := s.bg, underlineColor := s.underlineColor)
  {
    hide Applied, ColorParams, UnderlineColorParams;
    var a, b, c := ColorParams(s.fg, 30), ColorParams(s.bg, 40), UnderlineColorParams(s.underlineColor);
    assert Colors(s) == a + (b + (c + []));
    ColorApplied(t, s.fg, 30, b + (c + []));
    ColorApplied(t.(fg := s.fg), s.bg, 40, c + []);
    UnderlineColorApplied(t.(fg := s.fg, bg := s.bg), s.underlineColor, []);
    NothingApplied(t.(fg := s.fg, bg := s.bg, underlineColor := s.underlineColor));
  }

  lemma NothingApplied(s: Style)
    ensures Applied(s, []) == s
  {
  }

  lemma ResetApplied(pen: Style, rest: seq<Param>)
    ensures Applied(pen, [[0]] + rest) == Applied(DEFAULT_STYLE, rest)
  {
    ShortApplied(pen, [0], rest);
  }

  lemma ParamsSplit(s: Style)
    ensures ParamsOf(s) == [[0]] + (Weights(s) + (Flags(s) + Colors(s)))
  {
    hide Weights, Flags, Colors;
  }

  /** From any pen, the parameters of a style set exactly that style, and leave
      the DECSCA flag alone. */
  lemma StyleRoundTrip(pen: Style, s: Style)
    ensures Selected(pen, ParamsOf(s)) == s.(guarded := pen.guarded)
  {
    hide Applied, Weights, Flags, Colors, ParamsOf;
    var f, c := Flags(s), Colors(s);
    ParamsSplit(s);
    ResetApplied(pen, Weights(s) + (f + c));
    WeightsApplied(s, f + c);
    var t := DEFAULT_STYLE.(bold := s.bold, dim := s.dim, italic := s.italic, underline := s.underline);
    FlagsApplied(t, s, c);
    ColorsApplied(t.(blink := s.blink, inverse := s.inverse, invisible := s.invisible, strikethrough := s.strikethrough), s);
  }

  /** The bytes that set a style. */
  function StyleBytes(s: Style): seq<Byte> {
    hide ParamsOf, Capped;
    ParamsOfOk(s);
    [ESC, BRACKET] + Rendered(ParamsOf(s)) + [0x6D]
  }

  /** One `m` control was seen last, and it gives any pen the style `s`. */
  ghost predicate Sets(r: Step, s: Style) {
    && r.p.state.Ground? && r.events != []
    && var e := r.events[|r.events| - 1];
       && e.Csi? && e.fin == 0x6D && e.intermediates == [] && e.priv == 0
       && forall pen :: Selected(pen, e.params) == s.(guarded := pen.guarded)
  }

  /** Byte for byte: the printed style, whatever state the parser is in outside a
      string payload and whatever the pen, sets that style and does nothing else
      (but replace a character it cut short). */
  lemma SgrBytesRoundTrip(p: Parsing, s: Style)
    requires !p.state.Payload?
    ensures Sets(Parsed(p, StyleBytes(s)), s)
    ensures |Parsed(p, StyleBytes(s)).events| == if p.state.Ground? && p.need > 0 then 2 else 1
  {
    hide Selected, ParamsOf, Parsed, Rendered, Capped;
    ParamsOfOk(s);
    CsiRoundTrip(p, ParamsOf(s), 0x6D);
    forall pen
      ensures Selected(pen, ParamsOf(s)) == s.(guarded := pen.guarded)
    {
      StyleRoundTrip(pen, s);
    }
  }
}
