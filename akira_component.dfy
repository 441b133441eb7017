// The Akira component itself: an object whose handlers update its fields in
// place, as the React class in AnimatedInput.js does. Each method is proved to
// perform exactly the transition AkiraSpec gives for it, so everything proved
// about those transitions holds of the object.

module AkiraComponent {
  import opened JsValues
  import opened AkiraSpec

  class Akira {
    /** `this.state.value` */
    var value: JsString
    /** `this.isActive`, which the constructor leaves unset */
    var isActive: Option<bool>
    /** `this.state.width`, null until the first layout event */
    var width: Option<real>
    /** The progress `this.state.focusedAnim` was created with */
    const initialProgress: nat
    /** Animation targets requested from `Animated.timing`, oldest first */
    ghost var animations: seq<nat>
    /** Callbacks of the embedding application invoked so far */
    ghost var callbacks: seq<Callback>
    /** Calls forwarded to the native input surface so far */
    ghost var surfaceCalls: seq<SurfaceCall>

    ghost function Snapshot(): State
      reads this
    {
      State(value, isActive, width, initialProgress, animations, callbacks, surfaceCalls)
    }

    ghost predicate Valid()
      reads this
    {
      Consistent(Snapshot())
    }

    constructor (props: Props)
      ensures Valid()
      ensures Snapshot() == Initial(props)
    {
      var v := Or(Read(props.value), props.defaultValue);
      value := v;
      isActive := None;
      width := None;
      initialProgress := if Truthy(v) then 1 else 0;
      animations := [];
      callbacks := [];
      surfaceCalls := [];
    }

    method WillReceiveProps(newProps: Props, surface: Surface) returns (r: Result<()>)
      requires Valid()
      modifies this
      ensures Valid()
      ensures (Snapshot(), r) == AfterReceiveProps(old(Snapshot()), newProps, surface)
    {
      var newValue := Read(newProps.value);
      if newProps.value.Present? && newValue != value {
        value := newValue;
        if surface.Unmounted? {
          return Err(NotMounted);
        }
        surfaceCalls := surfaceCalls + [FocusQuery];
        if !surface.focused {
          var active := Truthy(newValue);
          if Some(active) != isActive {
            Toggle(active);
          }
        }
      }
      r := Ok(());
    }

    method OnLayout(e: LayoutEvent)
      modifies this`width
      ensures old(Valid()) ==> Valid()
      ensures Snapshot() == AfterLayout(old(Snapshot()), e)
    {
      width := Some(e.width);
    }

    method OnChange(props: Props, e: ChangeEvent)
      requires Valid()
      modifies this
      ensures Valid()
      ensures Snapshot() == AfterChange(old(Snapshot()), props, e)
    {
      value := Some(e.text);
      if props.onChange {
        callbacks := callbacks + [ChangeCallback(e)];
      }
    }

    method OnBlur(props: Props, e: FocusEvent)
      requires Valid()
      modifies this
      ensures Valid()
      ensures Snapshot() == AfterBlur(old(Snapshot()), props, e)
    {
      if !Truthy(value) {
        Toggle(false);
      }
      if props.onBlur {
        callbacks := callbacks + [BlurCallback(e)];
      }
    }

    method OnFocus(props: Props, e: FocusEvent)
      requires Valid()
      modifies this
      ensures Valid()
      ensures Snapshot() == AfterFocus(old(Snapshot()), props, e)
    {
      Toggle(true);
      if props.onFocus {
        callbacks := callbacks + [FocusCallback(e)];
      }
    }

    method Toggle(active: bool)
      requires Valid()
      modifies this
      ensures Valid()
      ensures Snapshot() == Toggled(old(Snapshot()), active)
    {
      isActive := Some(active);
      animations := animations + [if active then 1 else 0];
    }

    method Focus(props: Props, surface: Surface) returns (r: Result<()>)
      modifies this`surfaceCalls
      ensures old(Valid()) ==> Valid()
      ensures (Snapshot(), r) == AfterFocusCall(old(Snapshot()), props, surface)
    {
      if props.editable != Some(false) {
        if surface.Unmounted? {
          return Err(NotMounted);
        }
        surfaceCalls := surfaceCalls + [FocusRequest];
      }
      r := Ok(());
    }

    method Blur(surface: Surface) returns (r: Result<()>)
      modifies this`surfaceCalls
      ensures old(Valid()) ==> Valid()
      ensures (Snapshot(), r) == AfterBlurCall(old(Snapshot()), surface)
    {
      if surface.Unmounted? {
        return Err(NotMounted);
      }
      surfaceCalls := surfaceCalls + [BlurRequest];
      r := Ok(());
    }

    method IsFocused(surface: Surface) returns (r: Result<bool>)
      modifies this`surfaceCalls
      ensures old(Valid()) ==> Valid()
      ensures (Snapshot(), r) == AfterFocusQuery(old(Snapshot()), surface)
    {
      if surface.Unmounted? {
        return Err(NotMounted);
      }
      surfaceCalls := surfaceCalls + [FocusQuery];
      r := Ok(surface.focused);
    }

    method Clear(surface: Surface) returns (r: Result<()>)
      modifies this`surfaceCalls
      ensures old(Valid()) ==> Valid()
      ensures (Snapshot(), r) == AfterClearCall(old(Snapshot()), surface)
    {
      if surface.Unmounted? {
        return Err(NotMounted);
      }
      surfaceCalls := surfaceCalls + [ClearRequest];
      r := Ok(());
    }
  }
}
