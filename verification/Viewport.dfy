// The viewport of the session picker (crates/posh/src/picker.rs): one event
// machine that pushes what it leaves, pops what it returns to, and keeps
// popping past sessions that died.

module Viewport {
  import opened Wrappers

  datatype SessionKind = Unknown | Anonymous | Named | System

  datatype StackEntry = StackEntry(target: string, kind: SessionKind, activity: string)

  /** Most recently entered first. */
  datatype StackView = StackView(below: seq<StackEntry>, current: Option<StackEntry>)

  datatype Current = Current(target: string, kind: SessionKind, anonymousCreate: bool, activity: string)

  datatype Pending = Switch(target: string) | Pop

  datatype AttachEnd = Ended(code: int) | Lost(reason: string) | Quit

  datatype Cascade = Cascade(original: AttachEnd, gone: seq<StackEntry>)

  datatype PopNotice = PopNotice(ended: AttachEnd, gone: seq<StackEntry>, view: StackView)

  datatype Overlay = Overlay(kind: string, over: Option<string>)

  datatype Event =
    | SwitchRequested(target: string) | PopRequested
    | Entered(target: string)
    | KindReported(kind: SessionKind) | ActivityReported(activity: string)
    | AttachEnded(end: AttachEnd) | AttachReturned
    | DialFailed(target: string)
    | AnonymousCreateArmed
    | OverlayOpened(overlay: string) | OverlayClosed(overlay: string)

  datatype Effect =
    | Dial(target: string)
    | Exit(end: Option<AttachEnd>, skipped: seq<StackEntry>)
    | RefreshStatus

  datatype State = State(
    current: Option<Current>, stack: seq<StackEntry>, pending: Option<Pending>,
    anonymousCreate: bool, end: Option<AttachEnd>, cascade: Option<Cascade>,
    overlays: seq<Overlay>, notice: Option<PopNotice>)

  const START := State(None, [], None, false, None, None, [], None)

  datatype Step = Step(s: State, effects: seq<Effect>)

  // --- queries -----------------------------------------------------------------------

  function Reversed<T>(s: seq<T>): (r: seq<T>)
    ensures |r| == |s|
    ensures forall i :: 0 <= i < |s| ==> r[i] == s[|s| - 1 - i]
  {
    seq(|s|, i requires 0 <= i < |s| => s[|s| - 1 - i])
  }

  function EffectiveKind(c: Current): SessionKind {
    if c.kind == Unknown && c.anonymousCreate then Anonymous else c.kind
  }

  function CurrentEntry(s: State): Option<StackEntry> {
    match s.current
    case None => None
    case Some(c) => Some(StackEntry(c.target, EffectiveKind(c), c.activity))
  }

  function Listed<T>(o: Option<T>): seq<T> {
    match o
    case None => []
    case Some(v) => [v]
  }

  function ViewOf(s: State): StackView {
    StackView(Reversed(s.stack), CurrentEntry(s))
  }

  function PendingTarget(s: State): Option<string> {
    match s.pending
    case None => None
    case Some(Switch(t)) => Some(t)
    case Some(Pop) => if s.stack == [] then None else Some(s.stack[|s.stack| - 1].target)
  }

  // --- the transition ------------------------------------------------------------------

  function OnEntered(s: State, target: string): Step {
    var stack := if s.pending == Some(Pop) then if s.stack == [] then [] else s.stack[..|s.stack| - 1]
                 else s.stack + Listed(CurrentEntry(s));
    var t := s.(stack := stack, pending := None, anonymousCreate := false, cascade := None,
    current := Some(Current(target, Unknown, s.anonymousCreate, "")));
    Step(if s.cascade.None? then t
         else t.(notice := Some(PopNotice(s.cascade.value.original, s.cascade.value.gone, ViewOf(t)))),
      [RefreshStatus])
  }

  predicate Pops(end: Option<AttachEnd>) {
    end.Some? && !end.value.Quit?
  }

  function OnReturned(s: State): Step {
    var t := s.(end := None);
    if s.pending.Some? && PendingTarget(s).Some? then Step(t, [Dial(PendingTarget(s).value)])
    else if Pops(s.end) && s.stack != [] then
      Step(t.(cascade := Some(Cascade(s.end.value, Listed(CurrentEntry(s)))), pending := Some(Pop)),
        [Dial(s.stack[|s.stack| - 1].target)])
    else Step(t, [Exit(s.end, [])])
  }

  function OnFailed(s: State, target: string): Step {
    if s.cascade.None? then Step(s.(pending := None), []) else
      var n := |s.stack|;
      var found := n > 0 && s.stack[n - 1].target == target;
      var dead := if found then s.stack[n - 1] else StackEntry(target, Unknown, "");
      var stack := if found then s.stack[..n - 1] else s.stack;
      var c := s.cascade.value.(gone := s.cascade.value.gone + [dead]);
      if stack != [] then
        Step(s.(stack := stack, cascade := Some(c), pending := Some(Pop)), [Dial(stack[|stack| - 1].target)])
      else Step(s.(stack := stack, cascade := None, pending := None), [Exit(Some(c.original), c.gone)])
  }

  /** The overlays without the newest of the given kind. */
  function WithoutLast(os: seq<Overlay>, kind: string): seq<Overlay> {
    if os == [] then []
    else if os[|os| - 1].kind == kind then os[..|os| - 1]
    else WithoutLast(os[..|os| - 1], kind) + [os[|os| - 1]]
  }

  /** `apply`: one event, and what the caller must do about it. */
  function Applied(s: State, e: Event): Step {
    match e
    case SwitchRequested(t) => Step(s.(pending := Some(Switch(t))), [])
    case PopRequested => Step(if s.stack == [] then s else s.(pending := Some(Pop)), [])
    case Entered(t) => OnEntered(s, t)
    case KindReported(k) =>
      if k == Unknown || s.current.None? || s.current.value.kind == k then Step(s, [])
      else Step(s.(current := Some(s.current.value.(kind := k))), [RefreshStatus])
    case ActivityReported(l) =>
      Step(if l == "" || s.current.None? then s else s.(current := Some(s.current.value.(activity := l))), [])
    case AttachEnded(end) => Step(s.(end := Some(end)), [])
    case AttachReturned => OnReturned(s)
    case DialFailed(t) => OnFailed(s, t)
    case AnonymousCreateArmed => Step(s.(anonymousCreate := true), [])
    case OverlayOpened(k) =>
      Step(s.(overlays := s.overlays + [Overlay(k, if s.current.Some? then Some(s.current.value.target) else None)]),
        [RefreshStatus])
    case OverlayClosed(k) => Step(s.(overlays := WithoutLast(s.overlays, k)), [RefreshStatus])
  }

  /** A sequence of events, with all the effects in order. */
  function Ran(s: State, es: seq<Event>): Step
    decreases |es|
  {
    if es == [] then Step(s, []) else
      var a := Ran(s, es[..|es| - 1]);
      var b := Applied(a.s, es[|es| - 1]);
      Step(b.s, a.effects + b.effects)
  }

  // --- over every run --------------------------------------------------------------------

  /** A pop is pending only while there is something to pop to. */
  predicate Valid(s: State) {
    s.pending == Some(Pop) ==> s.stack != []
  }

  lemma AppliedValid(s: State, e: Event)
    requires Valid(s)
    ensures Valid(Applied(s, e).s)
  {
    hide ViewOf, CurrentEntry, WithoutLast;
  }

  /** After every sequence of events from the start, a pending pop has an entry to
      return to, so a pending transition always names its target. */
  lemma {:induction false} RunsValid(es: seq<Event>)
    ensures var s := Ran(START, es).s; Valid(s) && (s.pending.Some? ==> PendingTarget(s).Some?)
    decreases |es|
  {
    hide Applied;
    if es != [] {
      RunsValid(es[..|es| - 1]);
      AppliedValid(Ran(START, es[..|es| - 1]).s, es[|es| - 1]);
    }
  }

  /** Arriving takes the top off the stack if a pop was pending; otherwise it puts the
      session being left on top, if there is one. */
  lemma EnteredStack(s: State, target: string)
    ensures var t, n := Applied(s, Entered(target)).s, |s.stack|;
            && (s.pending == Some(Pop) && n > 0 ==> t.stack == s.stack[..n - 1])
            && (s.pending == Some(Pop) && n == 0 ==> t.stack == [])
            && (s.pending != Some(Pop) && s.current.None? ==> t.stack == s.stack)
            && (s.pending != Some(Pop) && s.current.Some? ==>
                  && |t.stack| == n + 1 && t.stack[..n] == s.stack
                  && t.stack[n].target == s.current.value.target && t.stack[n].activity == s.current.value.activity
                  && (s.current.value.kind != Unknown ==> t.stack[n].kind == s.current.value.kind))
  {
    hide ViewOf, WithoutLast;
  }

  /** Arriving somewhere is being there, with nothing pending and nothing known of the
      session but that it is there. */
  lemma EnteredCurrent(s: State, target: string)
    ensures var r := Applied(s, Entered(target));
            && r.s.pending.None? && r.s.cascade.None? && !r.s.anonymousCreate && r.effects == [RefreshStatus]
            && r.s.current.Some? && r.s.current.value.target == target
            && r.s.current.value.kind == Unknown && r.s.current.value.activity == ""
            && r.s.current.value.anonymousCreate == s.anonymousCreate
            && r.s.end == s.end && r.s.overlays == s.overlays
            && (s.cascade.None? ==> r.s.notice == s.notice)
  {
    hide ViewOf, WithoutLast;
  }

  /** What every event does to the stack. It changes for an arrival, and for a failed
      dial of its top in a cascade, which is then written down; for nothing else. */
  lemma StackChanges(s: State, e: Event)
    ensures var r, n := Applied(s, e), |s.stack|;
            && (e.Entered? && s.pending != Some(Pop) && s.current.Some? ==>
                  r.s.stack == s.stack + [CurrentEntry(s).value] && r.s.stack[n].target == s.current.value.target)
            && (e.Entered? && s.pending != Some(Pop) && s.current.None? ==> r.s.stack == s.stack)
            && (e.Entered? && s.pending == Some(Pop) ==> r.s.stack == if n > 0 then s.stack[..n - 1] else [])
            && (!e.Entered? && !e.DialFailed? ==> r.s.stack == s.stack)
            && (e.DialFailed? && (s.cascade.None? || n == 0 || s.stack[n - 1].target != e.target) ==> r.s.stack == s.stack)
            && (e.DialFailed? && s.cascade.Some? && n > 0 && s.stack[n - 1].target == e.target ==>
                  && r.s.stack == s.stack[..n - 1]
                  && (if n > 1 then r.s.cascade.Some? && r.s.cascade.value.gone == s.cascade.value.gone + [s.stack[n - 1]]
                      else r.effects == [Exit(Some(s.cascade.value.original), s.cascade.value.gone + [s.stack[n - 1]])]))
  {
    hide ViewOf, WithoutLast;
  }

  /** Switch to `t`, land there, ask to go back, return from the attach and land. */
  function ThereAndBack(s: State, t: string): seq<Event>
    requires s.current.Some?
  {
    [SwitchRequested(t), Entered(t), PopRequested, AttachReturned, Entered(s.current.value.target)]
  }

  lemma RanSnoc(s: State, es: seq<Event>, e: Event)
    ensures var a := Ran(s, es); var b := Applied(a.s, e); Ran(s, es + [e]) == Step(b.s, a.effects + b.effects)
  {
    assert (es + [e])[..|es|] == es;
  }

  /** Going somewhere and back leaves the stack and the place as they were, and dials
      the session that was left. */
  lemma SwitchPop(s: State, t: string)
    requires s.current.Some?
    ensures var r := Ran(s, ThereAndBack(s, t));
            && r.s.stack == s.stack && r.s.pending.None?
            && r.s.current.Some? && r.s.current.value.target == s.current.value.target
            && r.effects == [RefreshStatus, Dial(s.current.value.target), RefreshStatus]
  {
    hide Ran;
    var home := s.current.value.target;
    RanOne(s, SwitchRequested(t));
    var a := Applied(s, SwitchRequested(t)).s;
    RanSnoc(s, [SwitchRequested(t)], Entered(t));
    EnteredStack(a, t);
    EnteredCurrent(a, t);
    var b := Applied(a, Entered(t)).s;
    RanSnoc(s, [SwitchRequested(t)] + [Entered(t)], PopRequested);
    var c := Applied(b, PopRequested).s;
    assert c == b.(pending := Some(Pop)) && |c.stack| == |s.stack| + 1;
    RanSnoc(s, [SwitchRequested(t)] + [Entered(t)] + [PopRequested], AttachReturned);
    PendingDialled(c);
    var d := Applied(c, AttachReturned).s;
    RanSnoc(s, [SwitchRequested(t)] + [Entered(t)] + [PopRequested] + [AttachReturned], Entered(home));
    EnteredStack(d, home);
    EnteredCurrent(d, home);
    assert [SwitchRequested(t)] + [Entered(t)] + [PopRequested] + [AttachReturned] + [Entered(home)] == ThereAndBack(s, t);
  }

  /** What was asked for is dialled, whatever the verdict of the attach. */
  lemma PendingDialled(s: State)
    ensures var r := Applied(s, AttachReturned);
            && (s.pending.Some? && s.pending.value.Switch? ==>
                  r.effects == [Dial(s.pending.value.target)] && r.s == s.(end := None))
            && (s.pending == Some(Pop) && s.stack != [] ==>
                  r.effects == [Dial(s.stack[|s.stack| - 1].target)] && r.s == s.(end := None))
  {
  }

  /** With nothing asked for, a session that ended or was lost returns to the one
      beneath; a quit leaves, and so does an end with nothing beneath. */
  lemma ReturnedBy(s: State)
    requires s.pending.None?
    ensures var r := Applied(s, AttachReturned);
            && r.s.end.None? && r.s.stack == s.stack && r.s.current == s.current
            && (s.end == Some(Quit) || s.end.None? || s.stack == [] ==>
                  r.effects == [Exit(s.end, [])] && r.s.pending.None? && r.s.cascade == s.cascade)
            && (s.end.Some? && s.end.value != Quit && s.stack != [] ==>
                  && r.effects == [Dial(s.stack[|s.stack| - 1].target)] && r.s.pending == Some(Pop)
                  && r.s.cascade.Some? && r.s.cascade.value.original == s.end.value
                  && |r.s.cascade.value.gone| == (if s.current.Some? then 1 else 0)
                  && (s.current.Some? ==> r.s.cascade.value.gone[0].target == s.current.value.target))
  {
    hide EffectiveKind;
  }

  /** A dial that fails with nothing to pop back to only withdraws what was asked for;
      in a cascade a target that is not the top is written down by its name alone. */
  lemma FailedOther(s: State, target: string)
    requires s.cascade.None? || s.stack == [] || s.stack[|s.stack| - 1].target != target
    ensures var r := Applied(s, DialFailed(target));
            && (s.cascade.None? ==> r == Step(s.(pending := None), []))
            && (s.cascade.Some? && s.stack == [] ==>
                  && r.s == s.(cascade := None, pending := None)
                  && r.effects == [Exit(Some(s.cascade.value.original), s.cascade.value.gone + [StackEntry(target, Unknown, "")])])
            && (s.cascade.Some? && s.stack != [] ==>
                  && r.effects == [Dial(s.stack[|s.stack| - 1].target)] && r.s.pending == Some(Pop) && r.s.stack == s.stack
                  && r.s.cascade == Some(Cascade(s.cascade.value.original, s.cascade.value.gone + [StackEntry(target, Unknown, "")])))
  {
  }

  /** Requests and verdicts are only written down. */
  lemma Recorded(s: State, t: string, v: AttachEnd)
    ensures Applied(s, SwitchRequested(t)) == Step(s.(pending := Some(Switch(t))), [])
    ensures Applied(s, PopRequested) == Step(if s.stack == [] then s else s.(pending := Some(Pop)), [])
    ensures Applied(s, AttachEnded(v)) == Step(s.(end := Some(v)), [])
    ensures Applied(s, AnonymousCreateArmed) == Step(s.(anonymousCreate := true), [])
  {
  }

  /** A report sets what it says of the session there is, and never unsays anything:
      an unknown kind and an empty label change nothing. The status is refreshed
      exactly for a new kind. */
  lemma Reported(s: State, k: SessionKind, what: string)
    ensures var r := Applied(s, KindReported(k));
            && (k == Unknown || s.current.None? ==> r == Step(s, []))
            && (k != Unknown && s.current.Some? ==> r.s == s.(current := Some(s.current.value.(kind := k))))
            && (r.effects == if r.s != s then [RefreshStatus] else [])
    ensures var r := Applied(s, ActivityReported(what));
            && r.effects == []
            && (what == "" || s.current.None? ==> r.s == s)
            && (what != "" && s.current.Some? ==> r.s == s.(current := Some(s.current.value.(activity := what))))
  {
  }

  /** The kind of the session there is is known. */
  predicate KindKnown(s: State, target: string) {
    s.current.Some? && s.current.value.kind != Unknown && s.current.value.target == target
  }

  lemma KindKept(s: State, e: Event, target: string)
    requires KindKnown(s, target) && !e.Entered?
    ensures KindKnown(Applied(s, e).s, target)
  {
    hide ViewOf, WithoutLast;
  }

  /** It stays known until the next arrival. */
  lemma {:induction false} KindStays(s: State, es: seq<Event>, target: string)
    requires KindKnown(s, target) && forall i :: 0 <= i < |es| ==> !es[i].Entered?
    ensures KindKnown(Ran(s, es).s, target)
    decreases |es|
  {
    hide KindKnown, Applied;
    if es != [] {
      KindStays(s, es[..|es| - 1], target);
      KindKept(Ran(s, es[..|es| - 1]).s, es[|es| - 1], target);
    }
  }

  /** A session made anonymously counts as anonymous until its kind is reported. */
  lemma AnonymousUntilReported(s: State, t: string, k: SessionKind)
    ensures var a := Applied(Applied(s, AnonymousCreateArmed).s, Entered(t)).s;
            && CurrentEntry(a) == Some(StackEntry(t, Anonymous, ""))
            && (k != Unknown ==> CurrentEntry(Applied(a, KindReported(k)).s) == Some(StackEntry(t, k, "")))
  {
    hide ViewOf;
  }

  /** The newest overlay of a kind: none above it is of that kind. */
  predicate NewestOf(os: seq<Overlay>, kind: string, i: nat) {
    i < |os| && os[i].kind == kind && forall j :: i < j < |os| ==> os[j].kind != kind
  }

  /** Closing takes out the newest overlay of the kind, and only that one. */
  lemma {:induction false} WithoutLastIs(os: seq<Overlay>, kind: string)
    ensures forall i: nat :: NewestOf(os, kind, i) ==> WithoutLast(os, kind) == os[..i] + os[i + 1..]
    ensures (forall j :: 0 <= j < |os| ==> os[j].kind != kind) ==> WithoutLast(os, kind) == os
    decreases |os|
  {
    if os != [] {
      var n := |os| - 1;
      WithoutLastIs(os[..n], kind);
      forall i: nat | NewestOf(os, kind, i)
        ensures WithoutLast(os, kind) == os[..i] + os[i + 1..]
      {
        if i < n {
          assert NewestOf(os[..n], kind, i);
          assert os[..n][..i] + os[..n][i + 1..] + [os[n]] == os[..i] + os[i + 1..];
        } else {
          assert os[..i] + os[i + 1..] == os[..n];
        }
      }
      assert os[..n] + [os[n]] == os;
    }
  }

  /** An overlay opens over the session there is, and closing it undoes that. */
  lemma OverlayRoundTrip(s: State, kind: string)
    ensures var a := Applied(s, OverlayOpened(kind));
            && a.effects == [RefreshStatus] && |a.s.overlays| == |s.overlays| + 1 && a.s.overlays[..|s.overlays|] == s.overlays
            && a.s.overlays[|s.overlays|].kind == kind && (a.s.overlays[|s.overlays|].over.Some? <==> s.current.Some?)
            && (s.current.Some? ==> a.s.overlays[|s.overlays|].over.value == s.current.value.target)
            && Applied(a.s, OverlayClosed(kind)) == Step(s, [RefreshStatus])
  {
    assert (s.overlays + [Overlay(kind, None)])[..|s.overlays|] == s.overlays;
  }

  // --- the cascade -----------------------------------------------------------------------

  /** An attach comes back ended or lost, then the first `k` dials fail, each failure
      naming the entry on top, which is the one just dialled. */
  function Failures(s: State, k: nat): (es: seq<Event>)
    requires k <= |s.stack|
    ensures |es| == k + 1
  {
    [AttachReturned] + seq(k, i requires 0 <= i < k => DialFailed(s.stack[|s.stack| - 1 - i].target))
  }

  /** The dials a cascade makes: the stack from the top down. */
  function Dials(s: State, k: nat): seq<Effect>
    requires k <= |s.stack|
  {
    seq(k, i requires 0 <= i < k => Dial(s.stack[|s.stack| - 1 - i].target))
  }

  /** The sessions found dead: the one that ended, then the top `k` of the stack. */
  function Gone(s: State, k: nat): seq<StackEntry>
    requires k <= |s.stack|
  {
    Listed(CurrentEntry(s)) + Reversed(s.stack)[..k]
  }

  predicate CanCascade(s: State) {
    s.pending.None? && Pops(s.end) && s.stack != []
  }

  lemma FailuresStep(s: State, k: nat)
    requires 1 <= k <= |s.stack|
    ensures var es := Failures(s, k);
            && es[..k] == Failures(s, k - 1) && es[k] == DialFailed(s.stack[|s.stack| - k].target)
    ensures Gone(s, k) == Gone(s, k - 1) + [s.stack[|s.stack| - k]]
    ensures k < |s.stack| ==> Dials(s, k + 1) == Dials(s, k) + [Dial(s.stack[|s.stack| - 1 - k].target)]
  {
  }

  /** After `k` failures with an entry left: it is being dialled, and the chain so
      far is on record. */
  lemma {:induction false} CascadeGoesOn(s: State, k: nat)
    requires CanCascade(s) && k < |s.stack|
    ensures var n, r := |s.stack|, Ran(s, Failures(s, k));
            && r.effects == Dials(s, k + 1)
            && r.s == s.(end := None, stack := s.stack[..n - k], pending := Some(Pop),
                        cascade := Some(Cascade(s.end.value, Gone(s, k))))
    decreases k
  {
    hide Failures, Gone, Dials, Applied;
    if k == 0 {
      CascadeStarts(s);
    } else {
      CascadeGoesOn(s, k - 1);
      FailuresStep(s, k);
      var t := Ran(s, Failures(s, k - 1)).s;
      assert t.stack[|t.stack| - 1] == s.stack[|s.stack| - k];
      assert t.stack[..|t.stack| - 1] == s.stack[..|s.stack| - k];
      FoundDead(t);
    }
  }

  lemma NoFailures(s: State)
    ensures Failures(s, 0) == [AttachReturned]
  {
  }

  lemma CascadeStarts(s: State)
    requires CanCascade(s)
    ensures var r := Ran(s, Failures(s, 0));
            && r.effects == Dials(s, 1)
            && r.s == s.(end := None, stack := s.stack[..|s.stack|], pending := Some(Pop),
                        cascade := Some(Cascade(s.end.value, Gone(s, 0))))
  {
    hide CurrentEntry, Ran, Failures;
    RanOne(s, AttachReturned);
    NoFailures(s);
    assert s.stack[..|s.stack|] == s.stack;
    assert Gone(s, 0) == Listed(CurrentEntry(s));
  }

  /** The dial of the top entry failed, and there is another. */
  lemma FoundDead(t: State)
    requires t.cascade.Some? && |t.stack| >= 2
    ensures var n, c := |t.stack|, t.cascade.value;
            Applied(t, DialFailed(t.stack[n - 1].target)) ==
            Step(t.(stack := t.stack[..n - 1], pending := Some(Pop),
                 cascade := Some(Cascade(c.original, c.gone + [t.stack[n - 1]]))), [Dial(t.stack[n - 2].target)])
  {
  }

  lemma RanOne(s: State, e: Event)
    ensures Ran(s, [e]) == Applied(s, e)
  {
    hide Applied;
    assert [e][..0] == [];
    assert Ran(s, []) == Step(s, []);
    assert [] + Applied(s, e).effects == Applied(s, e).effects;
  }

  /** A cascade that lands after `k` failed dials: the stack has lost its top
      `k + 1` entries, the viewport is on the next one, and one notice tells how
      it started and everything that is gone, top first. */
  lemma CascadeLands(s: State, k: nat)
    requires CanCascade(s) && k < |s.stack|
    ensures var n := |s.stack|;
            var landing := s.stack[n - 1 - k];
            var r := Ran(s, Failures(s, k) + [Entered(landing.target)]);
            && r.effects == Dials(s, k + 1) + [RefreshStatus]
            && r.s.stack == s.stack[..n - k - 1]
            && r.s.current == Some(Current(landing.target, Unknown, s.anonymousCreate, ""))
            && r.s.notice == Some(PopNotice(s.end.value, Gone(s, k), ViewOf(r.s)))
            && r.s.pending.None? && r.s.cascade.None?
  {
    hide Failures, Gone, Dials;
    var es, e := Failures(s, k), Entered(s.stack[|s.stack| - 1 - k].target);
    CascadeGoesOn(s, k);
    assert (es + [e])[..|es|] == es;
    assert Ran(s, es).s.stack[..|s.stack| - k - 1] == s.stack[..|s.stack| - k - 1];
  }

  /** A cascade in which every dial fails ends in exactly one exit, with the end
      that started it and every session it skipped; it takes one failure for each
      entry and no more. */
  lemma {:induction false} CascadeExhausts(s: State)
    requires CanCascade(s)
    ensures var n := |s.stack|;
            var r := Ran(s, Failures(s, n));
            && r.effects == Dials(s, n) + [Exit(s.end, Gone(s, n))]
            && Gone(s, n) == Listed(CurrentEntry(s)) + Reversed(s.stack)
            && r.s.stack == [] && r.s.pending.None? && r.s.cascade.None?
  {
    hide CurrentEntry;
    var n := |s.stack|;
    CascadeGoesOn(s, n - 1);
    FailuresStep(s, n);
    assert Reversed(s.stack)[..n] == Reversed(s.stack);
    var t := Ran(s, Failures(s, n - 1)).s;
    assert t.stack == [s.stack[0]];
  }

  // --- in place -----------------------------------------------------------------------------

  class ViewportState {
    var current: Option<Current>
    var stack: seq<StackEntry>
    var pending: Option<Pending>
    var anonymousCreate: bool
    var end: Option<AttachEnd>
    var cascade: Option<Cascade>
    var overlays: seq<Overlay>
    var notice: Option<PopNotice>

    function Value(): State
      reads this
    {
      State(current, stack, pending, anonymousCreate, end, cascade, overlays, notice)
    }

    constructor ()
      ensures Value() == START
    {
      current, stack, pending, anonymousCreate := None, [], None, false;
      end, cascade, overlays, notice := None, None, [], None;
    }

    /** An attach began on `target`: arriving and leaving are one operation. */
    method Enter(target: string) returns (effects: seq<Effect>)
      modifies this
      ensures Step(Value(), effects) == OnEntered(old(Value()), target)
    {
      var was := pending;
      pending := None;
      if was == Some(Pop) {
        if stack != [] {
          stack := stack[..|stack| - 1];
        }
      } else {
        var entry := CurrentEntry(Value());
        assert stack + [] == stack;
        if entry.Some? {
          stack := stack + [entry.value];
        }
      }
      current := Some(Current(target, Unknown, anonymousCreate, ""));
      anonymousCreate := false;
      var c := cascade;
      cascade := None;
      if c.Some? {
        notice := Some(PopNotice(c.value.original, c.value.gone, ViewOf(Value())));
      }
      effects := [RefreshStatus];
    }

    /** What an attach that came back leads to. */
    method Return() returns (effects: seq<Effect>)
      modifies this
      ensures Step(Value(), effects) == OnReturned(old(Value()))
    {
      var verdict := end;
      end := None;
      if pending.Some? {
        var target := PendingTarget(Value());
        if target.Some? {
          return [Dial(target.value)];
        }
      }
      if Pops(verdict) && stack != [] {
        cascade := Some(Cascade(verdict.value, Listed(CurrentEntry(Value()))));
        pending := Some(Pop);
        return [Dial(stack[|stack| - 1].target)];
      }
      return [Exit(verdict, [])];
    }

    /** Dialling `target` failed: that session is gone. */
    method Fail(target: string) returns (effects: seq<Effect>)
      modifies this
      ensures Step(Value(), effects) == OnFailed(old(Value()), target)
    {
      var taken := cascade;
      cascade := None;
      if taken.None? {
        pending := None;
        return [];
      }
      var dead := StackEntry(target, Unknown, "");
      if stack != [] && stack[|stack| - 1].target == target {
        dead := stack[|stack| - 1];
        stack := stack[..|stack| - 1];
      }
      var chain := taken.value.(gone := taken.value.gone + [dead]);
      if stack != [] {
        cascade := Some(chain);
        pending := Some(Pop);
        return [Dial(stack[|stack| - 1].target)];
      }
      pending := None;
      return [Exit(Some(chain.original), chain.gone)];
    }

    /** Dismiss the newest overlay of a kind. */
    method CloseOverlay(kind: string)
      modifies `overlays
      ensures overlays == WithoutLast(old(overlays), kind)
    {
      var os := overlays;
      var i, kept := |os|, [];
      assert os[..|os|] == os && WithoutLast(os, kind) + [] == WithoutLast(os, kind);
      while i > 0
        invariant 0 <= i <= |os| && overlays == os && kept == os[i..]
        invariant WithoutLast(os[..i], kind) + kept == WithoutLast(os, kind)
      {
        assert os[..i][..i - 1] == os[..i - 1];
        if os[i - 1].kind == kind {
          overlays := os[..i - 1] + kept;
          return;
        }
        assert WithoutLast(os[..i], kind) + kept == WithoutLast(os[..i - 1], kind) + ([os[i - 1]] + kept);
        kept := [os[i - 1]] + kept;
        i := i - 1;
      }
      assert os[..0] == [] && [] + kept == os;
    }

    method Apply(e: Event) returns (effects: seq<Effect>)
      modifies this
      ensures Step(Value(), effects) == Applied(old(Value()), e)
    {
      hide OnEntered, OnReturned, OnFailed, WithoutLast;
      effects := [];
      match e {
        case SwitchRequested(t) => pending := Some(Switch(t));
        case PopRequested =>
          if stack != [] {
            pending := Some(Pop);
          }
        case Entered(t) => effects := Enter(t);
        case KindReported(k) =>
          if k != Unknown && current.Some? && current.value.kind != k {
            current := Some(current.value.(kind := k));
            effects := [RefreshStatus];
          }
        case ActivityReported(a) =>
          if a != "" && current.Some? {
            current := Some(current.value.(activity := a));
          }
        case AttachEnded(v) => end := Some(v);
        case AttachReturned => effects := Return();
        case DialFailed(t) => effects := Fail(t);
        case AnonymousCreateArmed => anonymousCreate := true;
        case OverlayOpened(k) =>
          overlays := overlays + [Overlay(k, if current.Some? then Some(current.value.target) else None)];
          effects := [RefreshStatus];
        case OverlayClosed(k) =>
          CloseOverlay(k);
          effects := [RefreshStatus];
      }
    }
  }
}
