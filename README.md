# Akira floating-label input: activation state machine

This project models `Akira`, a React Native text input whose label floats
above the box while the input is active. It covers the component's logic
and leaves out its rendering. The component keeps a stored value
(`this.state.value`). It keeps an activation flag (`this.isActive`), which
stays unset until the first toggle. It also keeps the layout width and an
animated progress value. Its handlers react to five kinds of event: new props
from the owner; focus, blur and text changes from the native input; and layout
measurements. Focus, blur and new props may request an animation of the
progress to 0 or 1. Focus, blur and text changes forward their event to the
owner's callback when one is supplied. Its imperative methods `focus`, `blur`, `clear` and
`isFocused` forward to the native input through a ref.

The model has three layers:

- `AkiraSpec` (akira_spec.dfy): the component's state as a `State` value and
  one transition function for each handler. Each function's contract says what
  the handler does to the value, the flag, the animation-request log, the
  callback log and the log of calls forwarded to the surface.
- `AkiraComponent.Akira` (akira_component.dfy): the component as a class with
  mutable fields and ghost logs. Each method is proved to perform exactly the
  matching `AkiraSpec` transition (`Snapshot() == AfterX(old(Snapshot()), ...)`)
  and to keep the invariant `Valid()`.
- `AkiraTraces` (akira_traces.dfy): runs over sequences of host events. The
  main theorem says that after any event sequence in the assumed order (text
  changes only while focused), the label's animation target is 1 exactly when
  the input is focused or holds a truthy value.

Environment inputs are parameters:

- `Props` is the props object current at the time of the event. React owns
  `this.props`.
- `Surface` is the native input behind the ref. `Unmounted` stands for the
  null ref that `inputRef()` (AnimatedInput.js:101-103) returns before mount.
  Using it gives `Err(NotMounted)` where JavaScript would throw a TypeError.
- `componentWillReceiveProps` calls `setState` before it reads focus through
  the ref. With a null ref, the model therefore fails after the stored value
  has already been replaced.

Two behaviours of the code deserve stating outright:

- `_toggle` has no idempotence guard. `_onFocus` requests animate-to-1 every
  time, even when already active (`FocusTwiceAnimatesTwice`).
- External value updates while unfocused re-toggle to the new value's
  truthiness. The invariant is therefore about the current value, not the
  value at the last blur: the target is 1 iff the input is focused or its
  current value is truthy (`LabelTracksFocusOrContent`). That theorem assumes
  text changes arrive only while the input holds focus; see "## Left out" and
  `UnfocusedEmptyChangeLeavesLabelUp` for what happens otherwise.

## Model

| member | source | states |
|---|---|---|
| AkiraSpec.Initial | AnimatedInput.js:13-29 | the stored value is `props.value` when that is truthy, otherwise `defaultValue`; the initial progress is 1 iff that value is truthy; the flag is unset and no animation, callback or surface call has happened |
| AkiraSpec.Toggled | AnimatedInput.js:88-97 | the flag becomes `active`; exactly one request is appended and it is for `active ? 1 : 0`; nothing else changes; consistency is preserved |
| AkiraSpec.AfterReceiveProps | AnimatedInput.js:32-49 | nothing changes unless `value` is an own property that differs from the stored value; otherwise the value is replaced; when focused, no animation and no flag change; when unfocused, the flag becomes the new value's truthiness and a request is appended iff that differs from the old flag; with a null ref it fails after the value is replaced; after an unfocused change the target matches the value's truthiness |
| AkiraSpec.AfterLayout | AnimatedInput.js:51-55 | the width becomes the event's width and nothing else changes |
| AkiraSpec.AfterChange | AnimatedInput.js:57-66 | the value becomes the event text unconditionally; `onChange` is invoked exactly once when supplied; no animation request and no flag change |
| AkiraSpec.AfterBlur | AnimatedInput.js:68-77 | a falsy value sets the flag to false and appends animate-to-0; a truthy value leaves the flag and the request log unchanged; `onBlur` is invoked when supplied |
| AkiraSpec.AfterFocus | AnimatedInput.js:79-86 | the flag becomes true and exactly one animate-to-1 is appended, even when already active; `onFocus` is invoked when supplied |
| AkiraSpec.AfterFocusCall | AnimatedInput.js:105-109 | with `editable === false` nothing happens and the ref is not read; otherwise focus is forwarded, or the call fails on a null ref; value, flag and requests are unchanged |
| AkiraSpec.Forward | AnimatedInput.js:101-103 | a call through the ref succeeds iff the ref is non-null; only the surface-call log can change, and it gains exactly the forwarded call on success and nothing on failure |
| AkiraSpec.AfterBlurCall | AnimatedInput.js:111-113 | blur is always forwarded, whatever `editable` says; only the surface-call log changes, so it invokes no callback and leaves value, flag, width and requests unchanged |
| AkiraSpec.AfterFocusQuery | AnimatedInput.js:115-117 | returns the surface's own focus state; only the surface-call log changes |
| AkiraSpec.AfterClearCall | AnimatedInput.js:119-121 | clear is always forwarded; only the surface-call log changes, so it does not itself touch the value, flag or requests or invoke `onChange` |
| AkiraComponent.Akira.constructor | AnimatedInput.js:13-29 | the new object's state is `Initial(props)` and is consistent |
| AkiraComponent.Akira.WillReceiveProps | AnimatedInput.js:32-49 | updates the fields exactly as `AfterReceiveProps` and keeps `Valid()` |
| AkiraComponent.Akira.OnLayout | AnimatedInput.js:51-55 | changes only the width, as `AfterLayout` |
| AkiraComponent.Akira.OnChange | AnimatedInput.js:57-66 | updates the fields exactly as `AfterChange` and keeps `Valid()` |
| AkiraComponent.Akira.OnBlur | AnimatedInput.js:68-77 | updates the fields exactly as `AfterBlur` and keeps `Valid()` |
| AkiraComponent.Akira.OnFocus | AnimatedInput.js:79-86 | updates the fields exactly as `AfterFocus` and keeps `Valid()` |
| AkiraComponent.Akira.Toggle | AnimatedInput.js:88-97 | updates the flag and request log exactly as `Toggled` and keeps `Valid()` |
| AkiraComponent.Akira.Focus | AnimatedInput.js:105-109 | forwards exactly as `AfterFocusCall`, changing only the surface-call log |
| AkiraComponent.Akira.Blur | AnimatedInput.js:111-113 | forwards exactly as `AfterBlurCall`, changing only the surface-call log |
| AkiraComponent.Akira.IsFocused | AnimatedInput.js:115-117 | returns the surface's focus state as `AfterFocusQuery`, changing only the surface-call log |
| AkiraComponent.Akira.Clear | AnimatedInput.js:119-121 | forwards exactly as `AfterClearCall`, changing only the surface-call log |
| AkiraTraces.Step | AnimatedInput.js:32-121 | handling any one event only appends to the animation, callback and surface-call logs |
| AkiraTraces.Run | AnimatedInput.js:32-121 | over any event sequence the three logs only grow |
| AkiraTraces.InitialSettled | AnimatedInput.js:23-29 | a freshly constructed, unfocused component shows target 1 iff its value is truthy |
| AkiraTraces.StepKeepsSettled | AnimatedInput.js:32-97 | every event allowed by the assumed order preserves: consistent, active while focused, target 1 iff focused or value truthy |
| AkiraTraces.RunKeepsSettled | AnimatedInput.js:32-97 | the same invariant holds after any well-formed event sequence |
| AkiraTraces.LabelTracksFocusOrContent | AnimatedInput.js:13-97 | after any well-formed run from construction, the label's target is 1 iff the input is focused or its value is truthy, and the flag is true while focused |
| AkiraTraces.RunKeepsConsistent | AnimatedInput.js:88-97 | in any event order, every request is 0 or 1, and once the flag is set the last request matches it |
| AkiraTraces.ControlledUpdateActivates | AnimatedInput.js:32-46 | an owner-supplied value going from falsy to truthy while unfocused is stored and issues exactly one animate-to-1 |
| AkiraTraces.FocusTwiceAnimatesTwice | AnimatedInput.js:79-97 | two focus events request animate-to-1 twice: there is no idempotence guard |
| AkiraTraces.FirstExternalUpdateToggles | AnimatedInput.js:23-46 | the first external value change while unfocused always issues a toggle, because the flag starts unset |
| AkiraTraces.EmailScenario | AnimatedInput.js:23-77 | empty value, then focus, then typing "a@b.com", then blur: one animate-to-1, one `onChange`, and still active after the blur |
| AkiraTraces.UnfocusedEmptyChangeLeavesLabelUp | AnimatedInput.js:32-66 | if an empty change arrives while unfocused (as after `clear()` on an unfocused input), the label stays at target 1 over an empty value, and an owner echo of `""` changes nothing because the value does not differ |
| AkiraTraces.ClearThenBlurDeactivates | AnimatedInput.js:57-121 | `clear()` alone leaves the flag and requests alone; the empty change that follows, then a blur, deactivates with target 0 |

## Left out

- `render` and the style sheet (AnimatedInput.js:123-256) only build React elements and visual styles.
- The `Animated.Value` interpolation, duration, easing and `useNativeDriver` are floating-point animation inside React Native. The model logs only the requested target, 0 or 1.
- React's `setState` batching and the lifecycle scheduling are not modelled. Each handler is one atomic update. The props a handler reads are passed in. React's own replacement of `this.props` after `componentWillReceiveProps` is not modelled.
- The native input's internals are not modelled. Its focus state and mount state are the `Surface` parameter.
- LabelTracksFocusOrContent: assumes the native input delivers focus only when not held, blur only when held, and text changes only while held. This is an assumption about the input, not something the component enforces. If an empty change arrives while unfocused, for instance one following `clear()` on an unfocused input, the label stays at target 1 over an empty, unfocused input until the next focus and blur (`UnfocusedEmptyChangeLeavesLabelUp`).
- Prop values other than strings and `undefined` (numbers, objects) are not modelled, and `null` is identified with `undefined`. The model therefore does not distinguish `null !== undefined` in `componentWillReceiveProps`.
- What React does with a state update that was queued just before `componentWillReceiveProps` throws on a null ref is not modelled. The model keeps the replaced value and reports `NotMounted`.
- The animation requests and the callback invocations are kept in separate logs, so the order between them is not recorded. `_onBlur` and `_onFocus` start the animation before they invoke `onBlur` or `onFocus`; the model does not state that order.
- Callback functions are modelled only by whether they are present. What they do inside the embedding application is outside the component.
- The binding of handlers in the constructor (AnimatedInput.js:16-21) has no observable effect in this model.
