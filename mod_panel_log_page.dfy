/**
 * The older log page of the mod panel (`UniversalModPanelLogPage` in
 * `ModPanelLogPage.cs`). It shows whole events of Sodalite's log through the
 * event window, and scrolls by one event in the direction of the thumbstick.
 */
module ModPanelLogPage {
  import opened Wrappers
  import opened LogEvents
  import opened LogWindow

  class UniversalModPanelLogPage {
    /** `MaxLines`, set in the prefab. */
    const MaxLines: int
    /** `CurrentEvents`: the log's events, oldest first, once the panel has handed them over. */
    var events: Option<seq<LogEvent>>
    /** `_offset`, in events above the newest. */
    var offset: int
    /** `Log.text`. */
    var text: string

    /** The offset stays at -1 or above, the least a scroll over an empty log leaves. */
    predicate Valid()
      reads this
    {
      offset >= -1
    }

    constructor (maxLines: int)
      ensures MaxLines == maxLines && events == None && offset == 0 && text == ""
      ensures Valid()
    {
      MaxLines := maxLines;
      events := None;
      offset := 0;
      text := "";
    }

    /** `UpdateText`: without events nothing happens; otherwise the window is drawn, and no read fails. */
    method UpdateText()
      requires Valid()
      modifies this
      ensures events == old(events) && offset == old(offset) && Valid()
      ensures events == None ==> text == old(text)
      ensures events.Some? ==> WindowText(events.value, MaxLines, offset) == Ok(text)
    {
      if events == None {
        return;
      }
      ReadsInBounds(|events.value|, MaxLines, offset);
      var r := RenderWindow(events.value, MaxLines, offset);
      text := r.value;
    }

    /**
     * `Scroll`: the direction is the sign of `x`; with no events or no direction nothing
     * happens, otherwise the offset moves by one event within the log and the text is redrawn.
     */
    method Scroll(x: real)
      requires Valid()
      modifies this
      ensures events == old(events) && Valid()
      ensures events == None || x == 0.0 ==> offset == old(offset) && text == old(text)
      ensures events.Some? && x != 0.0 ==> offset == ScrollOffset(old(offset), Direction(x), |events.value|)
      ensures events.Some? && x != 0.0 ==> WindowText(events.value, MaxLines, offset) == Ok(text)
    {
      var direction := if x == 0.0 then 0 else if x > 0.0 then 1 else -1;
      if events == None || direction == 0 {
        return;
      }
      ScrollKeepsOffset(offset, direction, |events.value|);
      offset := ScrollOffset(offset, direction, |events.value|);
      UpdateText();
    }

    /** `LogEvent`: the log already holds the new event; a scrolled view moves up by one and the text is redrawn. */
    method LogEvent()
      requires Valid()
      modifies this
      ensures events == old(events) && offset == OffsetAfterEvent(old(offset)) && Valid()
      ensures events == None ==> text == old(text)
      ensures events.Some? ==> WindowText(events.value, MaxLines, offset) == Ok(text)
    {
      EventKeepsOffset(offset);
      if offset != 0 {
        offset := offset + 1;
      }
      UpdateText();
    }
  }
}
