// Parsing control sequences (crates/posh-term/src/parser.rs): how CSI
// parameters accumulate byte by byte, and the proof that a printed parameter
// list is read back, up to the parser's three caps.

module Parser {
  import opened Wrappers
  import opened Bytes

  const MAX_PARAMS := 32
  const MAX_SUBPARAMS := 16
  const MAX_INTERMEDIATES := 2
  const MAX_U16 := 65535

  const ESC: Byte := 0x1B
  const BRACKET: Byte := 0x5B
  const COLON: Byte := 0x3A
  const SEMICOLON: Byte := 0x3B
  const ZERO: Byte := 0x30

  /** States outside string payloads; a payload is entered and not followed. */
  datatype State =
    | Ground | Escape | EscapeIntermediate
    | CsiEntry | CsiParam | CsiIntermediate | CsiIgnore
    | Payload(kind: Byte)

  type Param = seq<nat>

  datatype Event =
    | Character(bytes: seq<Byte>) // handed to UTF-8 decoding
    | Malformed                   // prints U+FFFD
    | Execute(b: Byte)
    | Csi(params: seq<Param>, intermediates: seq<Byte>, priv: Byte, fin: Byte)
    | Esc(intermediates: seq<Byte>, fin: Byte)

  // --- accumulating parameters ----------------------------------------------------------

  /** Parameters so far: finished ones, the parts and the value of the current. */
  datatype Acc = Acc(params: seq<Param>, parts: Param, val: nat, seen: bool)

  const NO_PARAMS := Acc([], [], 0, false)

  predicate IsDigit(b: Byte) { ZERO <= b <= ZERO + 9 }

  function Digit(a: Acc, b: Byte): Acc
    requires IsDigit(b)
  {
    a.(val := Lesser(a.val * 10 + (b - ZERO), MAX_U16), seen := true)
  }

  function Colon(a: Acc): Acc {
    a.(parts := if |a.parts| < MAX_SUBPARAMS then a.parts + [a.val] else a.parts, val := 0, seen := true)
  }

  function Finished(a: Acc): seq<Param> {
    if |a.params| < MAX_PARAMS then a.params + [a.parts + [a.val]] else a.params
  }

  function Semicolon(a: Acc): Acc {
    Acc(Finished(a), [], 0, true)
  }

  function Taken(a: Acc): seq<Param> {
    if a.seen || a.parts != [] then Finished(a) else a.params
  }

  /** One byte of a parameter list. */
  predicate IsParamByte(b: Byte) { IsDigit(b) || b == COLON || b == SEMICOLON }

  function Fed(a: Acc, b: Byte): Acc
    requires IsParamByte(b)
  {
    if b == COLON then Colon(a) else if b == SEMICOLON then Semicolon(a) else Digit(a, b)
  }

  predicate ParamBytes(bs: seq<Byte>) {
    forall i :: 0 <= i < |bs| ==> IsParamByte(bs[i])
  }

  function FedAll(a: Acc, bs: seq<Byte>): Acc
    requires ParamBytes(bs)
    decreases |bs|
  {
    if bs == [] then a else FedAll(Fed(a, bs[0]), bs[1..])
  }

  lemma {:induction false} FedAppend(a: Acc, x: seq<Byte>, y: seq<Byte>)
    requires ParamBytes(x) && ParamBytes(y)
    ensures ParamBytes(x + y) && FedAll(a, x + y) == FedAll(FedAll(a, x), y)
    decreases |x|
  {
    hide Fed, IsParamByte;
    if x == [] {
      assert x + y == y;
    } else {
      FedAppend(Fed(a, x[0]), x[1..], y);
      assert (x + y)[1..] == x[1..] + y && (x + y)[0] == x[0];
    }
  }

  // --- printing parameters -----------------------------------------------------------------

  function Decimal(v: nat): (s: seq<Byte>)
    ensures s != [] && forall i :: 0 <= i < |s| ==> IsDigit(s[i])
  {
    if v < 10 then [ZERO + v] else Decimal(v / 10) + [ZERO + v % 10]
  }

  /** Values joined by colons. */
  function Joined(p: Param): (s: seq<Byte>)
    requires p != []
    ensures ParamBytes(s)
  {
    if |p| == 1 then Decimal(p[0]) else Joined(p[..|p| - 1]) + [COLON] + Decimal(p[|p| - 1])
  }

  predicate ParamsOk(ps: seq<Param>) {
    ps != [] && forall i :: 0 <= i < |ps| ==> ps[i] != []
  }

  /** Parameters joined by semicolons. */
  function Rendered(ps: seq<Param>): (s: seq<Byte>)
    requires ParamsOk(ps)
    ensures ParamBytes(s)
  {
    if |ps| == 1 then Joined(ps[0]) else Rendered(ps[..|ps| - 1]) + [SEMICOLON] + Joined(ps[|ps| - 1])
  }

  // --- what is read back --------------------------------------------------------------------

  function Saturated(v: nat): nat { Lesser(v, MAX_U16) }

  /** A parameter as stored: values saturate, and past 16 parts only the last
      one is kept. */
  function Stored(p: Param): (q: Param)
    requires p != []
    ensures q != []
  {
    var n := Lesser(|p| - 1, MAX_SUBPARAMS);
    seq(n, i requires 0 <= i < n => Saturated(p[i])) + [Saturated(p[|p| - 1])]
  }

  /** The list as stored: only the first 32 parameters. */
  function Capped(ps: seq<Param>): (qs: seq<Param>)
    requires ParamsOk(ps)
    ensures |qs| == Lesser(|ps|, MAX_PARAMS)
  {
    seq(Lesser(|ps|, MAX_PARAMS), i requires 0 <= i < Lesser(|ps|, MAX_PARAMS) => Stored(ps[i]))
  }

  /** A value read digit by digit saturates as a whole. */
  lemma {:induction false} DecimalFed(a: Acc, v: nat)
    requires a.val == 0
    ensures FedAll(a, Decimal(v)) == a.(val := Saturated(v), seen := true)
    decreases v
  {
    var last := [ZERO + v % 10];
    if v < 10 {
      FedOne(a, last[0]);
    } else {
      DecimalFed(a, v / 10);
      FedAppend(a, Decimal(v / 10), last);
      FedOne(FedAll(a, Decimal(v / 10)), last[0]);
    }
  }

  lemma FedOne(a: Acc, b: Byte)
    requires IsParamByte(b)
    ensures FedAll(a, [b]) == Fed(a, b)
  {
    assert [b][1..] == [];
  }

  /** The parts of `p` but its last, as stored. */
  function Early(p: Param): Param
    requires p != []
  {
    Stored(p)[..|Stored(p)| - 1]
  }

  lemma EarlySnoc(p: Param, v: nat)
    requires p != []
    ensures Early(p + [v]) == if |Early(p)| < MAX_SUBPARAMS then Early(p) + [Saturated(p[|p| - 1])] else Early(p)
    ensures Early([v]) == []
  {
  }

  lemma {:induction false} JoinedFed(a: Acc, p: Param)
    requires p != [] && a.val == 0 && a.parts == []
    ensures FedAll(a, Joined(p)) == a.(parts := Early(p), val := Saturated(p[|p| - 1]), seen := true)
    decreases |p|
  {
    hide Early, Decimal, FedAll, Stored;
    var n := |p| - 1;
    if n == 0 {
      DecimalFed(a, p[0]);
      EarlySnoc(p, p[0]);
      assert p == [p[0]];
    } else {
      var b := FedAll(a, Joined(p[..n]));
      JoinedFed(a, p[..n]);
      FedAppend(a, Joined(p[..n]), [COLON]);
      FedOne(b, COLON);
      FedAppend(a, Joined(p[..n]) + [COLON], Decimal(p[n]));
      DecimalFed(Colon(b), p[n]);
      EarlySnoc(p[..n], p[n]);
      assert p == p[..n] + [p[n]];
    }
  }

  lemma CappedSnoc(ps: seq<Param>, p: Param)
    requires ParamsOk(ps) && p != []
    ensures Capped(ps + [p]) == if |ps| < MAX_PARAMS then Capped(ps) + [Stored(p)] else Capped(ps)
    ensures Capped([p]) == [Stored(p)]
    ensures Stored(p) == Early(p) + [Saturated(p[|p| - 1])]
  {
  }

  /** The accumulator after the whole list, before its end. */
  lemma {:induction false} RenderedFed(ps: seq<Param>)
    requires ParamsOk(ps)
    ensures var a := FedAll(NO_PARAMS, Rendered(ps)); Finished(a) == Capped(ps) && a.seen
    decreases |ps|
  {
    hide Early, Joined, Capped, Stored, FedAll;
    var n := |ps| - 1;
    var p := ps[n];
    if n == 0 {
      JoinedFed(NO_PARAMS, p);
      CappedSnoc(ps, p);
      assert ps == [p];
    } else {
      var b := FedAll(NO_PARAMS, Rendered(ps[..n]));
      RenderedFed(ps[..n]);
      FedAppend(NO_PARAMS, Rendered(ps[..n]), [SEMICOLON]);
      FedOne(b, SEMICOLON);
      FedAppend(NO_PARAMS, Rendered(ps[..n]) + [SEMICOLON], Joined(p));
      JoinedFed(Semicolon(b), p);
      CappedSnoc(ps[..n], p);
      CappedSize(ps[..n]);
      assert ps == ps[..n] + [p];
    }
  }

  lemma CappedSize(ps: seq<Param>)
    requires ParamsOk(ps)
    ensures |Capped(ps)| == Lesser(|ps|, MAX_PARAMS)
  {
  }

  /** Every printed parameter list is read back, with exactly the three caps:
      values at 65535, 16 parts and the last, 32 parameters. */
  lemma ParamsRoundTrip(ps: seq<Param>)
    requires ParamsOk(ps)
    ensures Taken(FedAll(NO_PARAMS, Rendered(ps))) == Capped(ps)
  {
    RenderedFed(ps);
  }

  /** Within the caps nothing is lost. */
  lemma WithinCaps(ps: seq<Param>)
    requires ParamsOk(ps) && |ps| <= MAX_PARAMS
    requires forall i :: 0 <= i < |ps| ==> |ps[i]| <= MAX_SUBPARAMS + 1 && forall k :: 0 <= k < |ps[i]| ==> ps[i][k] <= MAX_U16
    ensures Capped(ps) == ps
  {
    forall i | 0 <= i < |ps|
      ensures Stored(ps[i]) == ps[i]
    {
      assert forall k :: 0 <= k < |ps[i]| ==> Stored(ps[i])[k] == ps[i][k];
    }
  }

  // --- the parser -----------------------------------------------------------------------------

  /** The parser's state; `need` continuation bytes are awaited in `Ground`. */
  datatype Parsing = Parsing(state: State, acc: Acc, intermediates: seq<Byte>, priv: Byte, utf8: seq<Byte>, need: nat)

  datatype Step = Step(p: Parsing, events: seq<Event>)

  function Cleared(p: Parsing, s: State): Parsing {
    p.(state := s, acc := NO_PARAMS, intermediates := [], priv := 0)
  }

  predicate Continuation(b: Byte) { 0x80 <= b <= 0xBF }

  /** C0 controls that act inside a sequence too. */
  predicate InnerControl(b: Byte) { b <= 0x17 || b == 0x19 || 0x1C <= b <= 0x1F }

  function C1(p: Parsing, b: Byte): Step {
    if b == 0x90 then Step(Cleared(p, Payload(b)), [])
    else if b == 0x98 || b == 0x9E || b == 0x9D || b == 0x9F then Step(p.(state := Payload(b)), [])
    else if b == 0x9B then Step(Cleared(p, CsiEntry), [])
    else if b == 0x9C then Step(p.(state := Ground), [])
    else Step(p, [Execute(b)])
  }

  function OnGround(p: Parsing, b: Byte): Step
    decreases p.need
  {
    if p.need > 0 then
      if Continuation(b) then
        if p.need == 1 then Step(p.(utf8 := [], need := 0), [Character(p.utf8 + [b])])
        else Step(p.(utf8 := p.utf8 + [b], need := p.need - 1), [])
      else
        var q := OnGround(p.(utf8 := [], need := 0), b); Step(q.p, [Malformed] + q.events)
    else if b == ESC then Step(p.(state := Escape), [])
    else if b <= 0x1F then Step(p, [Execute(b)])
    else if b <= 0x7E then Step(p, [Character([b])])
    else if b == 0x7F then Step(p, [])
    else if b <= 0x9F then C1(p, b)
    else if 0xC2 <= b <= 0xDF then Step(p.(utf8 := [b], need := 1), [])
    else if 0xE0 <= b <= 0xEF then Step(p.(utf8 := [b], need := 2), [])
    else if 0xF0 <= b <= 0xF4 then Step(p.(utf8 := [b], need := 3), [])
    else Step(p, [Malformed])
  }

  /** Bytes with one meaning in every state outside strings and ground. */
  predicate Anywhere(b: Byte) { b == ESC || b == 0x18 || b == 0x1A || 0x80 <= b <= 0x9F }

  function OnAnywhere(p: Parsing, b: Byte): Step
    requires Anywhere(b)
  {
    if b == ESC then Step(p.(state := Escape), [])
    else if b == 0x18 || b == 0x1A then Step(p.(state := Ground), [Execute(b)])
    else C1(p.(state := Ground), b)
  }

  function OnEscape(p: Parsing, b: Byte): Step {
    if InnerControl(b) then Step(p, [Execute(b)])
    else if 0x20 <= b <= 0x2F then Step(Cleared(p, EscapeIntermediate).(intermediates := [b]), [])
    else if b == BRACKET then Step(Cleared(p, CsiEntry), [])
    else if b == 0x50 then Step(Cleared(p, Payload(b)), [])
    else if b == 0x5D || b == 0x5F || b == 0x58 || b == 0x5E then Step(p.(state := Payload(b)), [])
    else if 0x30 <= b <= 0x7E then Step(p.(state := Ground), [Esc([], b)])
    else Step(p, [])
  }

  function OnEscapeIntermediate(p: Parsing, b: Byte): Step {
    if InnerControl(b) then Step(p, [Execute(b)])
    else if 0x20 <= b <= 0x2F && |p.intermediates| < MAX_INTERMEDIATES then
      Step(p.(intermediates := p.intermediates + [b]), [])
    else if 0x30 <= b <= 0x7E then Step(p.(state := Ground, intermediates := []), [Esc(p.intermediates, b)])
    else Step(p, [])
  }

  function Dispatched(p: Parsing, b: Byte): Step {
    Step(p.(state := Ground, acc := NO_PARAMS, intermediates := []), [Csi(Taken(p.acc), p.intermediates, p.priv, b)])
  }

  function OnCsiEntry(p: Parsing, b: Byte): Step {
    if InnerControl(b) then Step(p, [Execute(b)])
    else if 0x20 <= b <= 0x2F then Step(p.(state := CsiIntermediate, intermediates := p.intermediates + [b]), [])
    else if IsParamByte(b) then Step(p.(state := CsiParam, acc := Fed(p.acc, b)), [])
    else if 0x3C <= b <= 0x3F then Step(p.(state := CsiParam, priv := b), [])
    else if 0x40 <= b <= 0x7E then Dispatched(p, b)
    else Step(p, [])
  }

  function OnCsiParam(p: Parsing, b: Byte): Step {
    if InnerControl(b) then Step(p, [Execute(b)])
    else if IsParamByte(b) then Step(p.(acc := Fed(p.acc, b)), [])
    else if 0x3C <= b <= 0x3F then Step(p.(state := CsiIgnore), [])
    else if 0x20 <= b <= 0x2F then
      Step(p.(state := CsiIntermediate,
      intermediates := if |p.intermediates| < MAX_INTERMEDIATES then p.intermediates + [b] else p.intermediates), [])
    else if 0x40 <= b <= 0x7E then Dispatched(p, b)
    else Step(p, [])
  }

  function OnCsiIntermediate(p: Parsing, b: Byte): Step {
    if InnerControl(b) then Step(p, [Execute(b)])
    else if 0x20 <= b <= 0x2F && |p.intermediates| < MAX_INTERMEDIATES then
      Step(p.(intermediates := p.intermediates + [b]), [])
    else if 0x30 <= b <= 0x3F then Step(p.(state := CsiIgnore), [])
    else if 0x40 <= b <= 0x7E then Dispatched(p, b)
    else Step(p, [])
  }

  function OnCsiIgnore(p: Parsing, b: Byte): Step {
    if InnerControl(b) then Step(p, [Execute(b)])
    else if 0x40 <= b <= 0x7E then Step(Cleared(p, Ground), [])
    else Step(p, [])
  }

  /** One byte, outside string payloads. */
  function Advanced(p: Parsing, b: Byte): Step
    requires !p.state.Payload?
  {
    if p.state.Ground? then OnGround(p, b)
    else if Anywhere(b) then OnAnywhere(p, b)
    else
      match p.state
      case Escape => OnEscape(p, b)
      case EscapeIntermediate => OnEscapeIntermediate(p, b)
      case CsiEntry => OnCsiEntry(p, b)
      case CsiParam => OnCsiParam(p, b)
      case CsiIntermediate => OnCsiIntermediate(p, b)
      case CsiIgnore => OnCsiIgnore(p, b)
  }

  /** A run of bytes, up to the start of a string payload. */
  function Parsed(p: Parsing, bs: seq<Byte>): Step
    decreases |bs|
  {
    if bs == [] || p.state.Payload? then Step(p, []) else
      var s := Advanced(p, bs[0]);
      var rest := Parsed(s.p, bs[1..]);
      Step(rest.p, s.events + rest.events)
  }

  // --- a whole control sequence -----------------------------------------------------------------

  lemma {:induction false} ParamsParsed(p: Parsing, bs: seq<Byte>)
    requires p.state.CsiParam? && ParamBytes(bs)
    ensures Parsed(p, bs) == Step(p.(acc := FedAll(p.acc, bs)), [])
    decreases |bs|
  {
    if bs != [] {
      ParamsParsed(p.(acc := Fed(p.acc, bs[0])), bs[1..]);
    }
  }

  lemma {:induction false} ParsedAppend(p: Parsing, x: seq<Byte>, y: seq<Byte>)
    requires !Parsed(p, x).p.state.Payload?
    ensures var a := Parsed(p, x); var b := Parsed(a.p, y); Parsed(p, x + y) == Step(b.p, a.events + b.events)
    decreases |x|
  {
    hide Advanced;
    if x == [] {
      assert x + y == y;
    } else {
      assert (x + y)[1..] == x[1..] + y;
      ParsedAppend(Advanced(p, x[0]).p, x[1..], y);
    }
  }

  lemma TwoBytes(p: Parsing, a: Byte, b: Byte)
    requires !p.state.Payload? && !Advanced(p, a).p.state.Payload?
    ensures var s := Advanced(p, a); var u := Advanced(s.p, b);
            Parsed(p, [a, b]) == Step(u.p, s.events + u.events)
  {
    hide Advanced;
    var s := Advanced(p, a);
    OneByte(s.p, b);
    assert [a, b][1..] == [b];
  }

  lemma OneByte(p: Parsing, b: Byte)
    requires !p.state.Payload?
    ensures Parsed(p, [b]) == Advanced(p, b)
  {
    hide Advanced;
    var s := Advanced(p, b);
    assert [b][1..] == [];
    assert Parsed(s.p, []) == Step(s.p, []);
    assert s.events + [] == s.events;
  }

  /** The start of a control sequence is seen in every state outside payloads; a
      character cut short by it is replaced. */
  lemma Introduced(p: Parsing)
    requires !p.state.Payload?
    ensures var r := Parsed(p, [ESC, BRACKET]);
            && r.events == (if p.state.Ground? && p.need > 0 then [Malformed] else [])
            && r.p.state.CsiEntry? && r.p.acc == NO_PARAMS && r.p.intermediates == [] && r.p.priv == 0
  {
    EscapeSeen(p);
    TwoBytes(p, ESC, BRACKET);
  }

  lemma EscapeSeen(p: Parsing)
    requires !p.state.Payload?
    ensures var s := Advanced(p, ESC);
            s.p.state.Escape? && s.events == if p.state.Ground? && p.need > 0 then [Malformed] else []
  {
    var q := p.(utf8 := [], need := 0);
    assert OnGround(q, ESC) == Step(q.(state := Escape), []);
    assert [Malformed] + [] == [Malformed];
  }

  /** A parameter list right after the introducer. */
  lemma EntryParsed(p: Parsing, bs: seq<Byte>)
    requires p.state.CsiEntry? && p.acc == NO_PARAMS && bs != [] && ParamBytes(bs)
    ensures Parsed(p, bs) == Step(p.(state := CsiParam, acc := FedAll(NO_PARAMS, bs)), [])
  {
    assert Advanced(p, bs[0]) == Step(p.(state := CsiParam, acc := Fed(p.acc, bs[0])), []);
    hide Advanced, Fed;
    ParamsParsed(Advanced(p, bs[0]).p, bs[1..]);
  }

  lemma FinalParsed(p: Parsing, fin: Byte)
    requires p.state.CsiParam? && 0x40 <= fin <= 0x7E
    ensures Parsed(p, [fin]) == Dispatched(p, fin)
  {
    OneByte(p, fin);
  }

  /** From any state outside payloads, `ESC [` + printed parameters + a final
      byte is one control with those parameters, up to the caps. */
  lemma {:induction false} CsiRoundTrip(p: Parsing, ps: seq<Param>, fin: Byte)
    requires !p.state.Payload? && ParamsOk(ps) && 0x40 <= fin <= 0x7E
    ensures var r := Parsed(p, [ESC, BRACKET] + Rendered(ps) + [fin]);
            && r.p.state.Ground?
            && r.events == (if p.state.Ground? && p.need > 0 then [Malformed] else []) + [Csi(Capped(ps), [], 0, fin)]
  {
    hide Capped, Rendered, Taken, Parsed, FedAll;
    var s, bs := Parsed(p, [ESC, BRACKET]).p, Rendered(ps);
    Introduced(p);
    RenderedFirst(ps);
    EntryParsed(s, bs);
    ParsedAppend(p, [ESC, BRACKET], bs);
    ParsedAppend(p, [ESC, BRACKET] + bs, [fin]);
    FinalParsed(Parsed(s, bs).p, fin);
    ParamsRoundTrip(ps);
  }

  lemma RenderedFirst(ps: seq<Param>)
    requires ParamsOk(ps)
    ensures Rendered(ps) != []
  {
  }

  // --- in place -------------------------------------------------------------------------

  class CsiParser {
    var state: State
    var utf8: seq<Byte>
    var need: nat
    var params: seq<Param>
    var curParts: Param
    var curVal: nat
    var partSeen: bool
    var intermediates: seq<Byte>
    var priv: Byte

    ghost function Current(): Acc
      reads this
    {
      Acc(params, curParts, curVal, partSeen)
    }

    ghost function Value(): Parsing
      reads this
    {
      Parsing(state, Current(), intermediates, priv, utf8, need)
    }

    constructor ()
      ensures Value() == Parsing(Ground, NO_PARAMS, [], 0, [], 0)
    {
      state, utf8, need := Ground, [], 0;
      params, curParts, curVal, partSeen := [], [], 0, false;
      intermediates, priv := [], 0;
    }

    method Clear()
      modifies this
      ensures Value() == Cleared(old(Value()), old(state))
    {
      params, curParts, curVal, partSeen := [], [], 0, false;
      intermediates, priv := [], 0;
    }

    method ParamDigit(b: Byte)
      requires IsDigit(b)
      modifies `curVal, `partSeen
      ensures Current() == Digit(old(Current()), b)
    {
      curVal := Lesser(curVal * 10 + (b - ZERO), MAX_U16);
      partSeen := true;
    }

    method ParamColon()
      modifies `curParts, `curVal, `partSeen
      ensures Current() == Colon(old(Current()))
    {
      if |curParts| < MAX_SUBPARAMS {
        curParts := curParts + [curVal];
      }
      curVal, partSeen := 0, true;
    }

    method ParamSemicolon()
      modifies `params, `curParts, `curVal, `partSeen
      ensures Current() == Semicolon(old(Current()))
    {
      curParts := curParts + [curVal];
      if |params| < MAX_PARAMS {
        params := params + [curParts];
      }
      curParts, curVal, partSeen := [], 0, true;
    }

    method ParamByte(b: Byte)
      requires IsParamByte(b)
      modifies `params, `curParts, `curVal, `partSeen
      ensures Current() == Fed(old(Current()), b)
    {
      if b == COLON {
        ParamColon();
      } else if b == SEMICOLON {
        ParamSemicolon();
      } else {
        ParamDigit(b);
      }
    }

    method TakeParams() returns (ps: seq<Param>)
      modifies `params, `curParts, `curVal, `partSeen
      ensures ps == Taken(old(Current())) && Current() == NO_PARAMS
    {
      if partSeen || curParts != [] {
        curParts := curParts + [curVal];
        if |params| < MAX_PARAMS {
          params := params + [curParts];
        }
      }
      ps := params;
      params, curParts, curVal, partSeen := [], [], 0, false;
    }

    method CsiDispatch(b: Byte) returns (events: seq<Event>)
      modifies this
      ensures Step(Value(), events) == Dispatched(old(Value()), b)
    {
      var ps := TakeParams();
      events := [Csi(ps, intermediates, priv, b)];
      intermediates, state := [], Ground;
    }

    method DoC1(b: Byte) returns (events: seq<Event>)
      modifies this
      ensures Step(Value(), events) == C1(old(Value()), b)
    {
      events := [];
      if b == 0x90 {
        Clear();
        state := Payload(b);
      } else if b == 0x98 || b == 0x9E || b == 0x9D || b == 0x9F {
        state := Payload(b);
      } else if b == 0x9B {
        Clear();
        state := CsiEntry;
      } else if b == 0x9C {
        state := Ground;
      } else {
        events := [Execute(b)];
      }
    }

    method DoGround(b: Byte) returns (events: seq<Event>)
      modifies this
      ensures Step(Value(), events) == OnGround(old(Value()), b)
      decreases need
    {
      hide C1;
      events := [];
      if need > 0 {
        if Continuation(b) {
          utf8, need := utf8 + [b], need - 1;
          if need == 0 {
            events := [Character(utf8)];
            utf8 := [];
          }
          return;
        }
        // Malformed: replace it and take this byte again.
        utf8, need := [], 0;
        var more := DoGround(b);
        events := [Malformed] + more;
      } else if b == ESC {
        state := Escape;
      } else if b <= 0x1F {
        events := [Execute(b)];
      } else if b <= 0x7E {
        events := [Character([b])];
      } else if 0x80 <= b <= 0x9F {
        events := DoC1(b);
      } else if 0xC2 <= b <= 0xDF {
        utf8, need := [b], 1;
      } else if 0xE0 <= b <= 0xEF {
        utf8, need := [b], 2;
      } else if 0xF0 <= b <= 0xF4 {
        utf8, need := [b], 3;
      } else if b != 0x7F {
        events := [Malformed];
      }
    }

    method DoAnywhere(b: Byte) returns (events: seq<Event>)
      requires Anywhere(b)
      modifies this
      ensures Step(Value(), events) == OnAnywhere(old(Value()), b)
    {
      hide C1;
      events := [];
      if b == ESC {
        state := Escape;
      } else if b == 0x18 || b == 0x1A {
        events := [Execute(b)];
        state := Ground;
      } else {
        state := Ground;
        events := DoC1(b);
      }
    }

    method DoEscape(b: Byte) returns (events: seq<Event>)
      modifies this
      ensures Step(Value(), events) == OnEscape(old(Value()), b)
    {
      events := [];
      if InnerControl(b) {
        events := [Execute(b)];
      } else if 0x20 <= b <= 0x2F {
        Clear();
        intermediates, state := [b], EscapeIntermediate;
      } else if b == BRACKET {
        Clear();
        state := CsiEntry;
      } else if b == 0x50 {
        Clear();
        state := Payload(b);
      } else if b == 0x5D || b == 0x5F || b == 0x58 || b == 0x5E {
        state := Payload(b);
      } else if 0x30 <= b <= 0x7E {
        events := [Esc([], b)];
        state := Ground;
      }
    }

    method DoEscapeIntermediate(b: Byte) returns (events: seq<Event>)
      modifies this
      ensures Step(Value(), events) == OnEscapeIntermediate(old(Value()), b)
    {
      events := [];
      if InnerControl(b) {
        events := [Execute(b)];
      } else if 0x20 <= b <= 0x2F && |intermediates| < MAX_INTERMEDIATES {
        intermediates := intermediates + [b];
      } else if 0x30 <= b <= 0x7E {
        events := [Esc(intermediates, b)];
        intermediates, state := [], Ground;
      }
    }

    method DoCsiEntry(b: Byte) returns (events: seq<Event>)
      modifies this
      ensures Step(Value(), events) == OnCsiEntry(old(Value()), b)
    {
      events := [];
      if InnerControl(b) {
        events := [Execute(b)];
      } else if 0x20 <= b <= 0x2F {
        intermediates, state := intermediates + [b], CsiIntermediate;
      } else if IsParamByte(b) {
        ParamByte(b);
        state := CsiParam;
      } else if 0x3C <= b <= 0x3F {
        priv, state := b, CsiParam;
      } else if 0x40 <= b <= 0x7E {
        events := CsiDispatch(b);
      }
    }

    method DoCsiParam(b: Byte) returns (events: seq<Event>)
      modifies this
      ensures Step(Value(), events) == OnCsiParam(old(Value()), b)
    {
      events := [];
      if InnerControl(b) {
        events := [Execute(b)];
      } else if IsParamByte(b) {
        ParamByte(b);
      } else if 0x3C <= b <= 0x3F {
        state := CsiIgnore;
      } else if 0x20 <= b <= 0x2F {
        if |intermediates| < MAX_INTERMEDIATES {
          intermediates := intermediates + [b];
        }
        state := CsiIntermediate;
      } else if 0x40 <= b <= 0x7E {
        events := CsiDispatch(b);
      }
    }

    method DoCsiIntermediate(b: Byte) returns (events: seq<Event>)
      modifies this
      ensures Step(Value(), events) == OnCsiIntermediate(old(Value()), b)
    {
      events := [];
      if InnerControl(b) {
        events := [Execute(b)];
      } else if 0x20 <= b <= 0x2F && |intermediates| < MAX_INTERMEDIATES {
        intermediates := intermediates + [b];
      } else if 0x30 <= b <= 0x3F {
        state := CsiIgnore;
      } else if 0x40 <= b <= 0x7E {
        events := CsiDispatch(b);
      }
    }

    method DoCsiIgnore(b: Byte) returns (events: seq<Event>)
      modifies this
      ensures Step(Value(), events) == OnCsiIgnore(old(Value()), b)
    {
      events := [];
      if InnerControl(b) {
        events := [Execute(b)];
      } else if 0x40 <= b <= 0x7E {
        Clear();
        state := Ground;
      }
    }

    /** One byte; string payloads are not followed. */
    method Advance(b: Byte) returns (events: seq<Event>)
      requires !state.Payload?
      modifies this
      ensures Step(Value(), events) == Advanced(old(Value()), b)
    {
      hide OnGround, OnAnywhere, OnEscape, OnEscapeIntermediate, OnCsiEntry, OnCsiParam, OnCsiIntermediate, OnCsiIgnore;
      if state.Ground? {
        events := DoGround(b);
      } else if Anywhere(b) {
        events := DoAnywhere(b);
      } else {
        match state {
          case Escape => events := DoEscape(b);
          case EscapeIntermediate => events := DoEscapeIntermediate(b);
          case CsiEntry => events := DoCsiEntry(b);
          case CsiParam => events := DoCsiParam(b);
          case CsiIntermediate => events := DoCsiIntermediate(b);
          case CsiIgnore => events := DoCsiIgnore(b);
        }
      }
    }
  }
}
