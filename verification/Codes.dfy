// The codes themselves: which bytes make a character, a control sequence or a
// number (crates/posh-term/src/parser.rs), and which SGR numbers mean what
// (csi.rs), said of the parser and the pen in the numbers of the standards.

module Codes {
  import opened Wrappers
  import opened Bytes
  import opened Cells
  import opened Parser
  import opened Sgr

  // --- characters -------------------------------------------------------------------

  /** The length of a character that begins with `b`; none begins with the others. */
  function CharLength(b: Byte): nat {
    if 0x20 <= b <= 0x7E then 1 else if 0xC2 <= b <= 0xDF then 2 else if 0xE0 <= b <= 0xEF then 3
    else if 0xF0 <= b <= 0xF4 then 4 else 0
  }

  predicate IsCharacter(bs: seq<Byte>) {
    bs != [] && |bs| == CharLength(bs[0]) && forall i :: 1 <= i < |bs| ==> 0x80 <= bs[i] <= 0xBF
  }

  predicate Idle(p: Parsing) {
    p.state.Ground? && p.need == 0 && p.utf8 == []
  }

  /** The bytes that were awaited. */
  lemma {:induction false} RestRead(p: Parsing, bs: seq<Byte>)
    requires p.state.Ground? && p.need == |bs| > 0 && forall i :: 0 <= i < |bs| ==> 0x80 <= bs[i] <= 0xBF
    ensures Parsed(p, bs) == Step(p.(utf8 := [], need := 0), [Character(p.utf8 + bs)])
    decreases |bs|
  {
    var s := Advanced(p, bs[0]);
    if |bs| == 1 {
      assert bs == [bs[0]];
      OneByte(p, bs[0]);
    } else {
      RestRead(s.p, bs[1..]);
      assert p.utf8 + [bs[0]] + bs[1..] == p.utf8 + bs;
    }
  }

  /** A character of one to four bytes, by its first, is read as one. */
  lemma CharacterRead(p: Parsing, bs: seq<Byte>)
    requires Idle(p) && IsCharacter(bs)
    ensures Parsed(p, bs) == Step(p, [Character(bs)])
  {
    if |bs| == 1 {
      OneByte(p, bs[0]);
      assert bs == [bs[0]];
    } else {
      RestRead(Advanced(p, bs[0]).p, bs[1..]);
      assert [bs[0]] + bs[1..] == bs;
    }
  }

  function Text(cs: seq<seq<Byte>>): seq<Byte> {
    if cs == [] then [] else cs[0] + Text(cs[1..])
  }

  function Characters(cs: seq<seq<Byte>>): (es: seq<Event>)
    ensures |es| == |cs| && forall i :: 0 <= i < |cs| ==> es[i] == Character(cs[i])
  {
    seq(|cs|, i requires 0 <= i < |cs| => Character(cs[i]))
  }

  /** So is a whole text, and the parser is idle after it. */
  lemma {:induction false} TextRead(p: Parsing, cs: seq<seq<Byte>>)
    requires Idle(p) && forall i :: 0 <= i < |cs| ==> IsCharacter(cs[i])
    ensures Parsed(p, Text(cs)) == Step(p, Characters(cs))
    decreases |cs|
  {
    hide Parsed, IsCharacter;
    if cs == [] {
      NothingParsed(p);
    } else {
      CharacterRead(p, cs[0]);
      ParsedAppend(p, cs[0], Text(cs[1..]));
      TextRead(p, cs[1..]);
      assert [Character(cs[0])] + Characters(cs[1..]) == Characters(cs);
    }
  }

  lemma NothingParsed(p: Parsing)
    ensures Parsed(p, []) == Step(p, [])
  {
  }

  /** A byte that cannot go on the character replaces it and is read afresh. */
  lemma CutShort(p: Parsing, b: Byte)
    requires p.state.Ground? && p.need > 0 && !(0x80 <= b <= 0xBF)
    ensures var s := Advanced(p.(utf8 := [], need := 0), b);
            Advanced(p, b) == Step(s.p, [Malformed] + s.events)
  {
  }

  /** What a byte that begins no character does. */
  lemma NoCharacter(p: Parsing, b: Byte)
    requires Idle(p) && CharLength(b) == 0
    ensures 0xA0 <= b ==> Advanced(p, b) == Step(p, [Malformed])
    ensures b == 0x7F ==> Advanced(p, b) == Step(p, [])
    ensures b < 0x20 && b != 0x1B ==> Advanced(p, b) == Step(p, [Execute(b)])
    ensures b == 0x1B ==> Advanced(p, b) == Step(p.(state := Escape), [])
    ensures b == 0x9C ==> Advanced(p, b) == Step(p, [])
    ensures 0x80 <= b <= 0x9A && b != 0x90 && b != 0x98 ==> Advanced(p, b) == Step(p, [Execute(b)])
    ensures b in {0x90, 0x98, 0x9D, 0x9E, 0x9F} <==> Advanced(p, b).p.state.Payload?
    ensures b == 0x9B <==> Advanced(p, b).p.state.CsiEntry?
  {
  }

  // --- control sequences --------------------------------------------------------------

  /** The one-byte introducer is the two-byte one. */
  lemma EightBit(p: Parsing)
    requires !p.state.Payload? && (p.state.Ground? ==> p.need == 0)
    ensures Parsed(p, [0x9B]).events == []
    ensures Parsed(p, [0x9B]).p == Parsed(p, [0x1B, 0x5B]).p
  {
    OneByte(p, 0x9B);
    TwoBytes(p, 0x1B, 0x5B);
  }

  predicate Marker(m: seq<Byte>) {
    |m| <= 1 && forall i :: 0 <= i < |m| ==> 0x3C <= m[i] <= 0x3F
  }

  predicate Inner(bs: seq<Byte>) {
    forall i :: 0 <= i < |bs| ==> 0x20 <= bs[i] <= 0x2F
  }

  /** The first two. */
  function Two(bs: seq<Byte>): seq<Byte> {
    if |bs| <= 2 then bs else bs[..2]
  }

  /** No parameters, or some. */
  predicate Listed(ps: seq<Param>) {
    ps == [] || ParamsOk(ps)
  }

  function ListText(ps: seq<Param>): seq<Byte>
    requires Listed(ps)
  {
    if ps == [] then [] else Rendered(ps)
  }

  function ListRead(ps: seq<Param>): seq<Param>
    requires Listed(ps)
  {
    if ps == [] then [] else Capped(ps)
  }

  /** A sequence so far: marker, parameters and intermediates. */
  predicate Reading(p: Parsing, m: seq<Byte>, ps: seq<Param>, bs: seq<Byte>)
    requires Listed(ps)
  {
    && (p.state.CsiEntry? || p.state.CsiParam? || p.state.CsiIntermediate?)
    && (p.state.CsiEntry? ==> m == [] && ps == [])
    && (p.state.CsiIntermediate? <==> bs != [])
    && Taken(p.acc) == ListRead(ps) && (ps == [] ==> p.acc == NO_PARAMS)
    && p.priv == (if m == [] then 0 else m[0]) && p.intermediates == Two(bs)
  }

  lemma MarkerRead(p: Parsing, m: seq<Byte>)
    requires Marker(m) && Reading(p, [], [], []) && p.state.CsiEntry?
    ensures Parsed(p, m).events == [] && Reading(Parsed(p, m).p, m, [], [])
  {
    if m == [] {
      NothingParsed(p);
    } else {
      assert m == [m[0]];
      OneByte(p, m[0]);
    }
  }

  lemma ListParsed(p: Parsing, m: seq<Byte>, ps: seq<Param>)
    requires Reading(p, m, [], []) && Listed(ps)
    ensures Parsed(p, ListText(ps)).events == [] && Reading(Parsed(p, ListText(ps)).p, m, ps, [])
  {
    hide Parsed, Capped, Taken, FedAll, Rendered;
    if ps == [] {
      NothingParsed(p);
    } else {
      ParamsRoundTrip(ps);
      RenderedFirst(ps);
      if p.state.CsiEntry? {
        EntryParsed(p, Rendered(ps));
      } else {
        ParamsParsed(p, Rendered(ps));
      }
    }
  }

  lemma InnerStep(p: Parsing, m: seq<Byte>, ps: seq<Param>, done: seq<Byte>, b: Byte)
    requires Listed(ps) && Reading(p, m, ps, done) && 0x20 <= b <= 0x2F
    ensures Advanced(p, b).events == [] && Reading(Advanced(p, b).p, m, ps, done + [b])
  {
    hide ListRead, Taken;
  }

  lemma {:induction false} InnerParsed(p: Parsing, m: seq<Byte>, ps: seq<Param>, done: seq<Byte>, bs: seq<Byte>)
    requires Listed(ps) && Reading(p, m, ps, done) && Inner(bs)
    ensures Parsed(p, bs).events == [] && Reading(Parsed(p, bs).p, m, ps, done + bs)
    decreases |bs|
  {
    hide ListRead, Taken, Advanced, Two;
    if bs == [] {
      assert done + [] == done;
    } else {
      assert 0x20 <= bs[0] <= 0x2F;
      InnerStep(p, m, ps, done, bs[0]);
      InnerParsed(Advanced(p, bs[0]).p, m, ps, done + [bs[0]], bs[1..]);
      assert done + [bs[0]] + bs[1..] == done + bs;
    }
  }

  /** The bytes of a control sequence. */
  function CsiText(m: seq<Byte>, ps: seq<Param>, bs: seq<Byte>, fin: Byte): seq<Byte>
    requires Listed(ps)
  {
    [0x1B, 0x5B] + m + ListText(ps) + bs + [fin]
  }

  /** From any state outside payloads a control sequence, with or without a marker,
      parameters and intermediates, is one event: the marker, the parameters within
      the caps, the first two intermediates, and the final byte. */
  lemma CsiWhole(p: Parsing, m: seq<Byte>, ps: seq<Param>, bs: seq<Byte>, fin: Byte)
    requires !p.state.Payload? && Marker(m) && Listed(ps) && Inner(bs) && 0x40 <= fin <= 0x7E
    ensures var r := Parsed(p, CsiText(m, ps, bs, fin));
            && r.p.state.Ground?
            && r.events == (if p.state.Ground? && p.need > 0 then [Malformed] else [])
                           + [Csi(ListRead(ps), Two(bs), if m == [] then 0 else m[0], fin)]
  {
    hide Parsed, ListRead, ListText, Inner, Marker, Two, Taken;
    CsiRead(p, m, ps, bs);
    var x := [0x1B, 0x5B] + m + ListText(ps) + bs;
    ParsedAppend(p, x, [fin]);
    LastRead(Parsed(p, x).p, m, ps, bs, fin);
  }

  lemma LastRead(p: Parsing, m: seq<Byte>, ps: seq<Param>, bs: seq<Byte>, fin: Byte)
    requires Listed(ps) && Reading(p, m, ps, bs) && 0x40 <= fin <= 0x7E
    ensures var r := Parsed(p, [fin]);
            r.p.state.Ground? && r.events == [Csi(ListRead(ps), Two(bs), if m == [] then 0 else m[0], fin)]
  {
    hide ListRead, Taken, Two;
    OneByte(p, fin);
  }

  /** The sequence but for its last byte. */
  lemma CsiRead(p: Parsing, m: seq<Byte>, ps: seq<Param>, bs: seq<Byte>)
    requires !p.state.Payload? && Marker(m) && Listed(ps) && Inner(bs)
    ensures var r := Parsed(p, [0x1B, 0x5B] + m + ListText(ps) + bs);
            && Reading(r.p, m, ps, bs)
            && r.events == if p.state.Ground? && p.need > 0 then [Malformed] else []
  {
    hide Parsed, ListRead, ListText, Inner, Marker, Taken;
    var a := [0x1B, 0x5B];
    assert a == [ESC, BRACKET];
    Introduced(p);
    var e := Parsed(p, a).events;
    NoneTaken();
    MarkerRead(Parsed(p, a).p, m);
    ParsedAppend(p, a, m);
    ListParsed(Parsed(p, a + m).p, m, ps);
    ParsedAppend(p, a + m, ListText(ps));
    InnerParsed(Parsed(p, a + m + ListText(ps)).p, m, ps, [], bs);
    ParsedAppend(p, a + m + ListText(ps), bs);
    assert [] + bs == bs && e + [] + [] + [] == e;
  }

  lemma NoneTaken()
    ensures Taken(NO_PARAMS) == [] && ListRead([]) == [] && Two([]) == []
  {
  }

  /** A control inside a sequence acts at once and the sequence goes on. */
  lemma ActsInside(p: Parsing, b: Byte)
    requires !p.state.Payload? && !p.state.Ground? && b < 0x20 && b !in {0x18, 0x1A, 0x1B}
    ensures Advanced(p, b) == Step(p, [Execute(b)])
  {
  }

  /** CAN and SUB give it up, and ESC begins another. */
  lemma GivenUp(p: Parsing, b: Byte)
    requires !p.state.Payload? && !p.state.Ground?
    ensures b == 0x18 || b == 0x1A ==> Advanced(p, b) == Step(p.(state := Ground), [Execute(b)])
    ensures b == 0x1B ==> Advanced(p, b) == Step(p.(state := Escape), [])
    ensures b == 0x7F || b >= 0xA0 ==> Advanced(p, b) == Step(p, [])
  {
  }

  /** A marker after parameters, or a parameter after an intermediate, spoils the
      sequence: the rest up to the final byte means nothing. */
  lemma Spoilt(p: Parsing, b: Byte)
    requires (p.state.CsiParam? && 0x3C <= b <= 0x3F) || (p.state.CsiIntermediate? && 0x30 <= b <= 0x3F)
    ensures Advanced(p, b) == Step(p.(state := CsiIgnore), [])
  {
  }

  lemma {:induction false} Ignored(p: Parsing, bs: seq<Byte>, fin: Byte)
    requires p.state.CsiIgnore? && (forall i :: 0 <= i < |bs| ==> 0x20 <= bs[i] <= 0x3F) && 0x40 <= fin <= 0x7E
    ensures Parsed(p, bs + [fin]) == Step(p.(state := Ground, acc := NO_PARAMS, intermediates := [], priv := 0), [])
    decreases |bs|
  {
    if bs == [] {
      assert bs + [fin] == [fin];
      OneByte(p, fin);
    } else {
      assert (bs + [fin])[1..] == bs[1..] + [fin];
      assert Advanced(p, bs[0]) == Step(p, []);
      Ignored(p, bs[1..], fin);
    }
  }

  lemma {:induction false} EscInner(p: Parsing, done: seq<Byte>, bs: seq<Byte>)
    requires p.state.EscapeIntermediate? && p.intermediates == Two(done) && done != [] && Inner(bs)
    ensures Parsed(p, bs) == Step(p.(intermediates := Two(done + bs)), [])
    decreases |bs|
  {
    if bs == [] {
      assert done + [] == done;
    } else {
      var q := Advanced(p, bs[0]).p;
      EscInner(q, done + [bs[0]], bs[1..]);
      assert done + [bs[0]] + bs[1..] == done + bs;
    }
  }

  /** An escape sequence is one event too, unless it introduces something. */
  lemma EscWhole(p: Parsing, bs: seq<Byte>, fin: Byte)
    requires !p.state.Payload? && Inner(bs) && 0x30 <= fin <= 0x7E
    requires bs == [] ==> fin !in {0x50, 0x58, 0x5B, 0x5D, 0x5E, 0x5F}
    ensures var r := Parsed(p, [0x1B] + bs + [fin]);
            && r.p.state.Ground?
            && r.events == (if p.state.Ground? && p.need > 0 then [Malformed] else []) + [Esc(Two(bs), fin)]
  {
    hide Parsed, Advanced;
    EscapeSeen(p);
    OneByte(p, 0x1B);
    var q := Advanced(p, 0x1B).p;
    EscRest(q, bs, fin);
    ParsedAppend(p, [0x1B], bs + [fin]);
    assert [0x1B] + bs + [fin] == [0x1B] + (bs + [fin]);
  }

  lemma EscRest(q: Parsing, bs: seq<Byte>, fin: Byte)
    requires q.state.Escape? && Inner(bs) && 0x30 <= fin <= 0x7E
    requires bs == [] ==> fin !in {0x50, 0x58, 0x5B, 0x5D, 0x5E, 0x5F}
    ensures var r := Parsed(q, bs + [fin]);
            r.p.state.Ground? && r.events == [Esc(Two(bs), fin)]
  {
    hide Parsed;
    if bs == [] {
      assert bs + [fin] == [fin];
      OneByte(q, fin);
    } else {
      assert 0x20 <= bs[0] <= 0x2F;
      var u := Advanced(q, bs[0]).p;
      OneByte(q, bs[0]);
      EscInner(u, [bs[0]], bs[1..]);
      EscLast(Parsed(u, bs[1..]).p, bs, fin);
      ParsedAppend(u, bs[1..], [fin]);
      ParsedAppend(q, [bs[0]], bs[1..] + [fin]);
      assert [bs[0]] + (bs[1..] + [fin]) == bs + [fin];
    }
  }

  lemma EscLast(p: Parsing, bs: seq<Byte>, fin: Byte)
    requires p.state.EscapeIntermediate? && p.intermediates == Two(bs) && 0x30 <= fin <= 0x7E
    ensures var r := Parsed(p, [fin]); r.p.state.Ground? && r.events == [Esc(Two(bs), fin)]
  {
    OneByte(p, fin);
  }

  // --- numbers --------------------------------------------------------------------------

  /** A decimal number. */
  function Number(bs: seq<Byte>): nat
    requires Digits(bs)
  {
    if bs == [] then 0 else 10 * Number(bs[..|bs| - 1]) + (bs[|bs| - 1] - 48)
  }

  /** The digits, from nought to nine. */
  predicate Digits(bs: seq<Byte>) {
    forall i :: 0 <= i < |bs| ==> 48 <= bs[i] <= 57
  }

  /** A number is printed in its decimal digits, without leading noughts. */
  lemma {:induction false} DecimalIs(v: nat)
    ensures Digits(Decimal(v)) && Number(Decimal(v)) == v
    ensures v > 0 ==> Decimal(v)[0] != 48
    ensures v == 0 ==> Decimal(v) == [48]
  {
    var s := Decimal(v);
    if v < 10 {
      assert s[..0] == [];
    } else {
      DecimalIs(v / 10);
      assert s[..|s| - 1] == Decimal(v / 10);
    }
  }

  /** Digits are read as the number they spell, up to 65535. */
  lemma {:induction false} NumberRead(a: Acc, bs: seq<Byte>)
    requires a.val == 0 && Digits(bs)
    ensures ParamBytes(bs)
    ensures FedAll(a, bs) == a.(val := if Number(bs) < 65535 then Number(bs) else 65535, seen := a.seen || bs != [])
    decreases |bs|
  {
    if bs != [] {
      var n := |bs| - 1;
      NumberRead(a, bs[..n]);
      FedAppend(a, bs[..n], [bs[n]]);
      assert bs[..n] + [bs[n]] == bs;
      FedOne(FedAll(a, bs[..n]), bs[n]);
    }
  }

  /** Parts are set off by colons (0x3A), parameters by semicolons (0x3B). */
  lemma Separated(ps: seq<Param>, p: Param, v: nat)
    requires p != [] && ParamsOk(ps)
    ensures ParamsOk([p]) && ParamsOk([p + [v]]) && ParamsOk([[v]]) && ParamsOk(ps + [p])
    ensures Rendered([[v]]) == Decimal(v)
    ensures Rendered([p + [v]]) == Rendered([p]) + [0x3A] + Decimal(v)
    ensures Rendered(ps + [p]) == Rendered(ps) + [0x3B] + Rendered([p])
  {
    hide Decimal;
    assert (p + [v])[..|p|] == p;
    assert (ps + [p])[..|ps|] == ps;
  }

  /** What the caps leave: 32 parameters, of each 16 parts and the last, and of each
      number 65535. */
  lemma CapsAre(ps: seq<Param>, i: nat, k: nat)
    requires ParamsOk(ps)
    ensures |Capped(ps)| == if |ps| < 32 then |ps| else 32
    ensures i < |ps| && i < 32 ==> |Capped(ps)[i]| == if |ps[i]| < 17 then |ps[i]| else 17
    ensures i < |ps| && i < 32 && k < |ps[i]| && k < 16 ==>
              Capped(ps)[i][k] == if ps[i][k] < 65535 then ps[i][k] else 65535
    ensures i < |ps| && i < 32 && |ps[i]| >= 17 ==>
              var last := ps[i][|ps[i]| - 1]; Capped(ps)[i][16] == if last < 65535 then last else 65535
  {
  }

  // --- attributes -------------------------------------------------------------------------

  /** The numbers that set something, and nothing else with it. */
  lemma SetNumbers(s: Style, v: nat)
    ensures var t := Attribute(s, [v]);
            && (v == 0 ==> t == DEFAULT_STYLE)
            && (v == 1 ==> t == s.(bold := true)) && (v == 2 ==> t == s.(dim := true)) && (v == 3 ==> t == s.(italic := true))
            && (v == 4 ==> t == s.(underline := Single)) && (v == 21 ==> t == s.(underline := Double))
            && (v == 5 || v == 6 ==> t == s.(blink := true)) && (v == 7 ==> t == s.(inverse := true))
            && (v == 8 ==> t == s.(invisible := true)) && (v == 9 ==> t == s.(strikethrough := true))
  {
  }

  lemma ClearNumbers(s: Style, v: nat)
    ensures var t := Attribute(s, [v]);
            && (v == 22 ==> t == s.(bold := false, dim := false)) && (v == 23 ==> t == s.(italic := false))
            && (v == 24 ==> t == s.(underline := NoUnderline)) && (v == 25 ==> t == s.(blink := false))
            && (v == 27 ==> t == s.(inverse := false)) && (v == 28 ==> t == s.(invisible := false))
            && (v == 29 ==> t == s.(strikethrough := false))
  {
  }

  /** Eight colours, eight bright ones, and the default. */
  lemma ColorNumbers(s: Style, v: nat)
    ensures var t := Attribute(s, [v]);
            && (30 <= v < 38 ==> t == s.(fg := Indexed(v - 30))) && (v == 39 ==> t == s.(fg := DefaultColor))
            && (40 <= v < 48 ==> t == s.(bg := Indexed(v - 40))) && (v == 49 ==> t == s.(bg := DefaultColor))
            && (90 <= v < 98 ==> t == s.(fg := Indexed(v - 82))) && (100 <= v < 108 ==> t == s.(bg := Indexed(v - 92)))
            && (v == 59 ==> t == s.(underlineColor := DefaultColor))
  {
  }

  predicate Known(v: nat) {
    v <= 9 || 21 <= v < 26 || 27 <= v < 38 || 39 <= v < 48 || v == 49 || v == 59 || 90 <= v < 98 || 100 <= v < 108
  }

  lemma OtherNumbers(s: Style, v: nat)
    ensures !Known(v) ==> Attribute(s, [v]) == s
  {
  }

  lemma UnderlineNumbers(s: Style, p: Param)
    requires |p| > 1 && p[0] == 4
    ensures Attribute(s, p) ==
            s.(underline := match p[1] case 0 => NoUnderline case 2 => Double case 3 => Curly case 4 => Dotted case 5 => Dashed case _ => Single)
  {
  }

  lemma AppliedOne(s: Style, p: Param)
    requires !IsColor(Lead(p))
    ensures Applied(s, [p]) == Attribute(s, p)
  {
    hide Attribute, ExtendedColor, Colored;
    assert [p][1..] == [];
  }

  /** A flag that `on` sets and `off` or a reset clears. */
  predicate Switch(v: nat, on: nat, off: nat, was: bool, now: bool) {
    now == (v == on || (was && v != off && v != 0))
  }

  /** Each flag has its two numbers and is deaf to every other. */
  lemma FlagsTaken(s: Style, v: nat)
    requires v !in {38, 48, 58}
    ensures var t := Applied(s, [[v]]);
            && Switch(v, 1, 22, s.bold, t.bold) && Switch(v, 2, 22, s.dim, t.dim) && Switch(v, 3, 23, s.italic, t.italic)
            && Switch(v, if v == 6 then 6 else 5, 25, s.blink, t.blink)
            && Switch(v, 7, 27, s.inverse, t.inverse) && Switch(v, 8, 28, s.invisible, t.invisible)
            && Switch(v, 9, 29, s.strikethrough, t.strikethrough)
            && (v != 0 ==> t.guarded == s.guarded)
  {
    hide Attribute, Switch;
    AppliedOne(s, [v]);
    WeightsTaken(s, v);
    LooksTaken(s, v);
  }

  lemma WeightsTaken(s: Style, v: nat)
    ensures var t := Attribute(s, [v]);
            && Switch(v, 1, 22, s.bold, t.bold) && Switch(v, 2, 22, s.dim, t.dim) && Switch(v, 3, 23, s.italic, t.italic)
            && Switch(v, if v == 6 then 6 else 5, 25, s.blink, t.blink)
  {
    hide Attribute;
    SetNumbers(s, v);
    ClearNumbers(s, v);
    ColorNumbers(s, v);
    OtherNumbers(s, v);
  }

  lemma LooksTaken(s: Style, v: nat)
    ensures var t := Attribute(s, [v]);
            && Switch(v, 7, 27, s.inverse, t.inverse) && Switch(v, 8, 28, s.invisible, t.invisible)
            && Switch(v, 9, 29, s.strikethrough, t.strikethrough)
            && (v != 0 ==> t.guarded == s.guarded)
  {
    hide Attribute;
    SetNumbers(s, v);
    ClearNumbers(s, v);
    ColorNumbers(s, v);
    OtherNumbers(s, v);
  }

  /** The foreground or background, of the sixteen that have numbers from `base` and
      `bright` on. */
  function Sixteen(v: nat, base: nat, bright: nat, was: Color): Color {
    if base <= v < base + 8 then Indexed(v - base) else if bright <= v < bright + 8 then Indexed(v - bright + 8)
    else if v == base + 9 || v == 0 then DefaultColor else was
  }

  /** The same of the underline (4, its styles, 21 and 24) and of the colours. */
  lemma ColorsTaken(s: Style, v: nat)
    requires v !in {38, 48, 58}
    ensures var t := Applied(s, [[v]]);
            && t.underline == (if v == 4 then Single else if v == 21 then Double else if v == 24 || v == 0 then NoUnderline else s.underline)
            && t.underlineColor == (if v == 59 || v == 0 then DefaultColor else s.underlineColor)
            && t.fg == Sixteen(v, 30, 90, s.fg) && t.bg == Sixteen(v, 40, 100, s.bg)
  {
    hide Attribute, Sixteen;
    AppliedOne(s, [v]);
    LinesTaken(s, v);
    ForeTaken(s, v);
    BackTaken(s, v);
  }

  lemma LinesTaken(s: Style, v: nat)
    ensures var t := Attribute(s, [v]);
            && t.underline == (if v == 4 then Single else if v == 21 then Double else if v == 24 || v == 0 then NoUnderline else s.underline)
            && t.underlineColor == (if v == 59 || v == 0 then DefaultColor else s.underlineColor)
  {
    hide Attribute;
    SetNumbers(s, v);
    ClearNumbers(s, v);
    ColorNumbers(s, v);
    OtherNumbers(s, v);
  }

  lemma ForeTaken(s: Style, v: nat)
    ensures Attribute(s, [v]).fg == Sixteen(v, 30, 90, s.fg)
  {
    hide Attribute;
    SetNumbers(s, v);
    ClearNumbers(s, v);
    ColorNumbers(s, v);
    OtherNumbers(s, v);
  }

  lemma BackTaken(s: Style, v: nat)
    ensures Attribute(s, [v]).bg == Sixteen(v, 40, 100, s.bg)
  {
    hide Attribute;
    SetNumbers(s, v);
    ClearNumbers(s, v);
    ColorNumbers(s, v);
    OtherNumbers(s, v);
  }

  /** The pen with `c` as its foreground (38), background (48) or underline colour. */
  function Tinted(s: Style, v: nat, c: Color): Style {
    match v
    case 38 => s.(fg := c)
    case 48 => s.(bg := c)
    case 58 => s.(underlineColor := c)
    case _ => s
  }

  function Most(v: nat): Byte {
    if v < 255 then v else 255
  }

  /** Palette and direct colours, in parameters of their own or as parts of one, with
      or without a colour space: what comes after them is read on. */
  lemma LongColors(s: Style, v: nat, i: nat, r: nat, g: nat, b: nat, space: nat, rest: seq<Param>)
    requires v in {38, 48, 58}
    ensures Applied(s, [[v], [5], [i]] + rest) == Applied(Tinted(s, v, Indexed(Most(i))), rest)
    ensures Applied(s, [[v], [2], [r], [g], [b]] + rest) == Applied(Tinted(s, v, Rgb(Most(r), Most(g), Most(b))), rest)
    ensures Applied(s, [[v, 5, i]] + rest) == Applied(Tinted(s, v, Indexed(Most(i))), rest)
    ensures Applied(s, [[v, 2, r, g, b]] + rest) == Applied(Tinted(s, v, Rgb(Most(r), Most(g), Most(b))), rest)
    ensures Applied(s, [[v, 2, space, r, g, b]] + rest) == Applied(Tinted(s, v, Rgb(Most(r), Most(g), Most(b))), rest)
  {
    hide Applied, ExtendedColor;
    Semicolons(v, i, r, g, b, rest);
    LongApplied(s, [[v], [5], [i]], rest, Indexed(Most(i)));
    LongApplied(s, [[v], [2], [r], [g], [b]], rest, Rgb(Most(r), Most(g), Most(b)));
    Colons(v, i, r, g, b, space, rest);
    LongApplied(s, [[v, 5, i]], rest, Indexed(Most(i)));
    LongApplied(s, [[v, 2, r, g, b]], rest, Rgb(Most(r), Most(g), Most(b)));
    LongApplied(s, [[v, 2, space, r, g, b]], rest, Rgb(Most(r), Most(g), Most(b)));
  }

  lemma Semicolons(v: nat, i: nat, r: nat, g: nat, b: nat, rest: seq<Param>)
    ensures ExtendedColor([[v], [5], [i]] + rest) == Extended(true, Indexed(Most(i)), 2)
    ensures ExtendedColor([[v], [2], [r], [g], [b]] + rest) == Extended(true, Rgb(Most(r), Most(g), Most(b)), 4)
  {
    var a, c := [[v], [5], [i]] + rest, [[v], [2], [r], [g], [b]] + rest;
    assert a[0] == [v] && a[1] == [5] && a[2] == [i];
    assert c[0] == [v] && c[1] == [2] && c[2] == [r] && c[3] == [g] && c[4] == [b];
  }

  lemma Colons(v: nat, i: nat, r: nat, g: nat, b: nat, space: nat, rest: seq<Param>)
    ensures ExtendedColor([[v, 5, i]] + rest) == Extended(true, Indexed(Most(i)), 0)
    ensures ExtendedColor([[v, 2, r, g, b]] + rest) == Extended(true, Rgb(Most(r), Most(g), Most(b)), 0)
    ensures ExtendedColor([[v, 2, space, r, g, b]] + rest) == Extended(true, Rgb(Most(r), Most(g), Most(b)), 0)
  {
  }

  /** A colour that names neither kind changes nothing and takes only itself; one
      that is cut short has noughts for what is missing. */
  lemma BrokenColors(s: Style, v: nat, k: nat, i: nat, rest: seq<Param>)
    requires v in {38, 48, 58} && k !in {2, 5}
    ensures Applied(s, [[v], [k]] + rest) == Applied(s, [[k]] + rest)
    ensures Applied(s, [[v, k, i]] + rest) == Applied(s, rest)
    ensures Applied(s, [[v]]) == s
    ensures Applied(s, [[v], [5]]) == Tinted(s, v, Indexed(0))
    ensures Applied(s, [[v], [2], [i]]) == Tinted(s, v, Rgb(Most(i), 0, 0))
  {
    hide Attribute;
    var a, b := [[v], [k]] + rest, [[v, k, i]] + rest;
    assert a[0] == [v] && a[1] == [k] && a[1..] == [[k]] + rest;
    assert b[0] == [v, k, i] && b[1..] == rest;
    assert [[v]][1..] == [] && [[v], [5]][2..] == [] && [[v], [2], [i]][3..] == [];
  }

  /** SGR without parameters resets the pen, and no SGR touches DECSCA. */
  lemma PenReset(pen: Style, ps: seq<Param>)
    ensures Selected(pen, []) == Selected(pen, [[0]]) == DEFAULT_STYLE.(guarded := pen.guarded)
    ensures Selected(pen, ps).guarded == pen.guarded
    ensures Selected(pen, [[]]) == Selected(pen, [[0]])
  {
    AppliedOne(pen, [0]);
    AppliedOne(pen, []);
  }
}
