/**
 * `SodaliteToggleButton`: a pointable button that flips a boolean state when
 * clicked, reports each change through `OnValueChanged` (modelled as the log of
 * the values it was invoked with) and shows the state by activating an object and
 * greying out a graphic. The optional `EnableOnToggle` object and `Graphic` image
 * are present or absent from the start.
 */
module ControlButtonToggle {
  import opened Host

  /** A hover event passed on to the underlying Unity `Button`. */
  datatype HoverEvent = HoverEnter | HoverExit

  class SodaliteToggleButton {
    const BeginEnabled: bool
    /** Whether `EnableOnToggle` and `Graphic` are assigned. */
    const HasEnableOnToggle: bool
    const HasGraphic: bool
    /** `_state`. */
    var state: bool
    /** `EnableOnToggle.activeSelf` and `Graphic.color`. */
    var enableOnToggleActive: bool
    var graphicColor: Color
    /** `_originalGraphicTint`. */
    var originalTint: Color
    /** The values `OnValueChanged` was invoked with, oldest first. */
    var fired: seq<bool>
    /** The hover events proxied to `_button`, oldest first. */
    var hoverEvents: seq<HoverEvent>

    /** What `UpdateState` shows: the object is active and the graphic grey exactly when the state differs from the start. */
    predicate Shows()
      reads this
    {
      (HasEnableOnToggle ==> enableOnToggleActive == (BeginEnabled != state))
      && (HasGraphic ==> graphicColor == if BeginEnabled == state then originalTint else Gray)
    }

    /**
     * `Awake`: remembers the graphic's tint, starts in `BeginEnabled` and shows it. Without a
     * graphic the remembered tint stays at its default, all channels zero.
     */
    constructor Awake(beginEnabled: bool, hasEnableOnToggle: bool, active: bool, hasGraphic: bool, color: Color)
      ensures BeginEnabled == beginEnabled && HasEnableOnToggle == hasEnableOnToggle && HasGraphic == hasGraphic
      ensures state == beginEnabled && fired == [] && hoverEvents == []
      ensures originalTint == if hasGraphic then color else Color(Zero, Zero, Zero, Zero)
      ensures !hasEnableOnToggle ==> enableOnToggleActive == active
      ensures Shows() && (hasGraphic ==> graphicColor == color)
      ensures HasEnableOnToggle ==> !enableOnToggleActive
    {
      BeginEnabled := beginEnabled;
      HasEnableOnToggle := hasEnableOnToggle;
      HasGraphic := hasGraphic;
      enableOnToggleActive := active;
      graphicColor := color;
      originalTint := if hasGraphic then color else Color(Zero, Zero, Zero, Zero);
      state := beginEnabled;
      fired := [];
      hoverEvents := [];
      new;
      UpdateState();
    }

    /** `UpdateState`: brings the object and the graphic in line with the state. */
    method UpdateState()
      modifies this
      ensures Shows()
      ensures state == old(state) && fired == old(fired) && originalTint == old(originalTint)
      ensures hoverEvents == old(hoverEvents)
      ensures !HasEnableOnToggle ==> enableOnToggleActive == old(enableOnToggleActive)
      ensures !HasGraphic ==> graphicColor == old(graphicColor)
    {
      if HasEnableOnToggle {
        enableOnToggleActive := BeginEnabled != state;
      }
      if HasGraphic {
        graphicColor := if BeginEnabled == state then originalTint else Gray;
      }
    }

    /** `SetState`: the current value changes nothing and fires nothing; a new one is stored, shown and fired once. */
    method SetState(value: bool)
      modifies this
      ensures state == value && originalTint == old(originalTint) && hoverEvents == old(hoverEvents)
      ensures value == old(state) ==> fired == old(fired)
      ensures value == old(state) ==> enableOnToggleActive == old(enableOnToggleActive) && graphicColor == old(graphicColor)
      ensures value != old(state) ==> fired == old(fired) + [value] && Shows()
      ensures old(Shows()) ==> Shows()
    {
      if state == value {
        return;
      }
      state := value;
      UpdateState();
      fired := fired + [state];
    }

    /** `ToggleState`: always flips the state, shows it and fires with the new value. */
    method ToggleState()
      modifies this
      ensures state == !old(state) && fired == old(fired) + [state] && Shows()
      ensures originalTint == old(originalTint) && hoverEvents == old(hoverEvents)
    {
      state := !state;
      UpdateState();
      fired := fired + [state];
    }

    /** `OnPoint`: a trigger released while pointing at the button flips it, as a toggle does. */
    method OnPoint(triggerUp: bool)
      modifies this
      ensures triggerUp ==> state == !old(state) && fired == old(fired) + [state] && Shows()
      ensures !triggerUp ==> state == old(state) && fired == old(fired)
      ensures !triggerUp ==> enableOnToggleActive == old(enableOnToggleActive) && graphicColor == old(graphicColor)
      ensures originalTint == old(originalTint) && hoverEvents == old(hoverEvents)
    {
      if triggerUp {
        SetState(!state);
      }
    }

    /** `BeginHoverDisplay`: a hand starts hovering, and the button is told the hover began; nothing else changes. */
    method BeginHoverDisplay()
      modifies this
      ensures hoverEvents == old(hoverEvents) + [HoverEnter]
      ensures state == old(state) && fired == old(fired)
      ensures enableOnToggleActive == old(enableOnToggleActive) && graphicColor == old(graphicColor)
    {
      hoverEvents := hoverEvents + [HoverEnter];
    }

    /** `EndHoverDisplay`: the hand stops hovering, and the button is told the hover ended; nothing else changes. */
    method EndHoverDisplay()
      modifies this
      ensures hoverEvents == old(hoverEvents) + [HoverExit]
      ensures state == old(state) && fired == old(fired)
      ensures enableOnToggleActive == old(enableOnToggleActive) && graphicColor == old(graphicColor)
    {
      hoverEvents := hoverEvents + [HoverExit];
    }
  }
}
