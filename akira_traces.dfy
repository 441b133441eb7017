// Runs of the component over sequences of events from its host, and what holds
// at the end of every run in the assumed event order: the label's animation
// target is 1 exactly when the input is focused or holds a truthy value.

module AkiraTraces {
  import opened JsValues
  import opened AkiraSpec

  /** One event delivered to a mounted component, with the props current at the time. */
  datatype Event =
    | NewProps(props: Props)
    | Layout(layout: LayoutEvent)
    | Edit(props: Props, change: ChangeEvent)
    | GainFocus(props: Props, focus: FocusEvent)
    | LoseFocus(props: Props, focus: FocusEvent)
    | CallFocus(props: Props)
    | CallBlur
    | CallClear
    | CallIsFocused

  /**
   * The event order the trace theorems assume of the native input surface:
   * focus is gained only when it is not held, lost only when it is, and text
   * changes only while it is held. The component itself does not enforce this.
   */
  predicate Allowed(focused: bool, e: Event)
  {
    match e
    case GainFocus(_, _) => !focused
    case LoseFocus(_, _) => focused
    case Edit(_, _) => focused
    case _ => true
  }

  /** The surface's focus state after it delivers `e`. */
  function FocusAfter(focused: bool, e: Event): bool
  {
    match e
    case GainFocus(_, _) => true
    case LoseFocus(_, _) => false
    case _ => focused
  }

  /** The component's state after handling `e` while the mounted surface reports `focused`. */
  function Step(s: State, focused: bool, e: Event): (t: State)
    ensures s.animations <= t.animations
    ensures s.callbacks <= t.callbacks
    ensures s.surfaceCalls <= t.surfaceCalls
  {
    var surface := Mounted(focused);
    match e
    case NewProps(p) => AfterReceiveProps(s, p, surface).0
    case Layout(l) => AfterLayout(s, l)
    case Edit(p, c) => AfterChange(s, p, c)
    case GainFocus(p, f) => AfterFocus(s, p, f)
    case LoseFocus(p, f) => AfterBlur(s, p, f)
    case CallFocus(p) => AfterFocusCall(s, p, surface).0
    case CallBlur => AfterBlurCall(s, surface).0
    case CallClear => AfterClearCall(s, surface).0
    case CallIsFocused => AfterFocusQuery(s, surface).0
  }

  predicate WellFormed(focused: bool, events: seq<Event>)
    decreases |events|
  {
    events == [] ||
    (Allowed(focused, events[0]) && WellFormed(FocusAfter(focused, events[0]), events[1..]))
  }

  function FinalFocus(focused: bool, events: seq<Event>): bool
    decreases |events|
  {
    if events == [] then focused else FinalFocus(FocusAfter(focused, events[0]), events[1..])
  }

  /** The state after handling `events` in order; the logs only ever grow. */
  function Run(s: State, focused: bool, events: seq<Event>): (t: State)
    ensures s.animations <= t.animations
    ensures s.callbacks <= t.callbacks
    ensures s.surfaceCalls <= t.surfaceCalls
    decreases |events|
  {
    if events == [] then s
    else Run(Step(s, focused, events[0]), FocusAfter(focused, events[0]), events[1..])
  }

  /**
   * The invariant of a mounted component: its state is consistent, it is
   * active while focused, and the label's target is 1 exactly when the input
   * is focused or holds a truthy value.
   */
  predicate Settled(s: State, focused: bool)
  {
    Consistent(s) &&
    (focused ==> s.isActive == Some(true)) &&
    Displayed(s) == Progress(focused || Truthy(s.value))
  }

  lemma InitialSettled(props: Props)
    ensures Settled(Initial(props), false)
  {
  }

  lemma StepKeepsSettled(s: State, focused: bool, e: Event)
    requires Settled(s, focused) && Allowed(focused, e)
    ensures Settled(Step(s, focused, e), FocusAfter(focused, e))
  {
  }

  lemma {:induction false} RunKeepsSettled(s: State, focused: bool, events: seq<Event>)
    requires Settled(s, focused) && WellFormed(focused, events)
    ensures Settled(Run(s, focused, events), FinalFocus(focused, events))
    decreases |events|
  {
    if events != [] {
      StepKeepsSettled(s, focused, events[0]);
      RunKeepsSettled(Step(s, focused, events[0]), FocusAfter(focused, events[0]), events[1..]);
    }
  }

  /**
   * After any sequence of host events from construction, the label's target
   * is 1 iff the input is focused or its stored value is truthy, and the
   * activation flag, once set, agrees with the last request.
   */
  lemma {:induction false} LabelTracksFocusOrContent(props: Props, events: seq<Event>)
    requires WellFormed(false, events)
    ensures var t := Run(Initial(props), false, events);
      Consistent(t) &&
      Displayed(t) == Progress(FinalFocus(false, events) || Truthy(t.value)) &&
      (FinalFocus(false, events) ==> t.isActive == Some(true))
  {
    InitialSettled(props);
    RunKeepsSettled(Initial(props), false, events);
  }

  /** Consistency survives every event, in any order, even ones no surface would deliver. */
  lemma {:induction false} RunKeepsConsistent(s: State, focused: bool, events: seq<Event>)
    requires Consistent(s)
    ensures Consistent(Run(s, focused, events))
    decreases |events|
  {
    if events != [] {
      var next := Step(s, focused, events[0]);
      assert Consistent(next) by {
        match events[0]
        case NewProps(p) =>
        case _ =>
      }
      RunKeepsConsistent(next, FocusAfter(focused, events[0]), events[1..]);
    }
  }

  /**
   * A controlled value going from falsy to truthy while unfocused replaces the
   * stored value and requests exactly one animate-to-1.
   */
  lemma ControlledUpdateActivates(s: State, props: Props)
    requires Settled(s, false) && !Truthy(s.value)
    requires props.value.Present? && Truthy(Read(props.value))
    ensures var t := AfterReceiveProps(s, props, Mounted(false)).0;
      t.value == Read(props.value) && t.animations == s.animations + [1] && t.isActive == Some(true)
  {
  }

  /** No idempotence guard: two focus events in a row request animate-to-1 twice. */
  lemma FocusTwiceAnimatesTwice(s: State, p: Props, f1: FocusEvent, f2: FocusEvent)
    ensures AfterFocus(AfterFocus(s, p, f1), p, f2).animations == s.animations + [1, 1]
  {
  }

  /** The first external value change while unfocused always toggles, since the flag starts unset. */
  lemma FirstExternalUpdateToggles(props: Props, newProps: Props)
    requires newProps.value.Present? && Read(newProps.value) != Initial(props).value
    ensures AfterReceiveProps(Initial(props), newProps, Mounted(false)).0.animations
      == [Progress(Truthy(Read(newProps.value)))]
  {
  }

  /**
   * Mount with an empty value, focus, type "a@b.com", blur: one animate-to-1,
   * one onChange, and the label stays active after the blur.
   */
  lemma EmailScenario(f: FocusEvent)
    ensures var props := Props(Present(Some("")), None, None, true, false, false);
      var t0 := Initial(props);
      var t1 := AfterFocus(t0, props, f);
      var t2 := AfterChange(t1, props, ChangeEvent("a@b.com"));
      var t3 := AfterBlur(t2, props, f);
      Displayed(t0) == 0 && t0.animations == [] &&
      t1.isActive == Some(true) && t1.animations == [1] &&
      t2.value == Some("a@b.com") && t2.callbacks == [ChangeCallback(ChangeEvent("a@b.com"))] &&
      t2.animations == [1] &&
      t3.value == Some("a@b.com") && t3.isActive == Some(true) && t3.animations == [1]
  {
  }

  /** `clear()` alone leaves activation alone; the empty change it provokes, then blur, deactivates. */
  lemma ClearThenBlurDeactivates(s: State, p: Props, f: FocusEvent)
    requires Consistent(s)
    ensures var c := AfterClearCall(s, Mounted(true)).0;
      var t := AfterBlur(AfterChange(c, p, ChangeEvent("")), p, f);
      c.isActive == s.isActive && c.animations == s.animations &&
      t.isActive == Some(false) && Displayed(t) == 0
  {
  }

  /**
   * Outside the event orders `WellFormed` admits: if the surface delivers an
   * empty change while unfocused (for instance after `clear()` on an unfocused
   * input), nothing lowers the label. It stays at target 1 over an empty
   * value, and an owner echoing `""` changes nothing because `"" !== ""` is false.
   */
  lemma UnfocusedEmptyChangeLeavesLabelUp(s: State, p: Props, owner: Props)
    requires Settled(s, false) && Truthy(s.value)
    requires owner.value == Present(Some(""))
    ensures var c := AfterClearCall(s, Mounted(false)).0;
      var t := AfterChange(c, p, ChangeEvent(""));
      !Truthy(t.value) && Displayed(t) == 1 && !Settled(t, false) &&
      AfterReceiveProps(t, owner, Mounted(false)) == (t, Ok(()))
  {
  }
}
