/**
 * The BepInEx log panel (`BepInExLogPanel.cs`): a text widget on a canvas that
 * shows whole events of Sodalite's log through the event window, with its font
 * size, line count and font name bound as settings, and a pointable behind it
 * that scrolls the log by the touchpad of the first hand pushing it up or down.
 */
module BepInExLogPanel {
  import opened Wrappers
  import opened LogEvents
  import opened LogWindow

  /** The text widget's text and font. */
  datatype TextWidget = TextWidget(text: string, fontSize: int, font: string)

  /** `Config.Bind`: the value saved in the configuration file, or the default when there is none. */
  function Bound<T>(saved: Option<T>, default: T): T
  {
    if saved.Some? then saved.value else default
  }

  /** The defaults of `FontSize`, `MaxLines` and `FontName`. */
  const DefaultFontSize: int := 10
  const DefaultMaxLines: int := 30
  const DefaultFontName: string := "Consolas"

  /** `ScrollPause`: the least time between two scrolls, in seconds. */
  const ScrollPause: real := 0.05

  /** The font the widget uses: the configured one if the system has it, otherwise Consolas. */
  function FontChoice(name: string, installed: seq<string>): (r: string)
    ensures name in installed ==> r == name
    ensures name !in installed ==> r == DefaultFontName
  {
    if name in installed then name else DefaultFontName
  }

  /** A touchpad value that neither pushes up nor down past the half-way mark. */
  predicate Quiet(y: real)
  {
    -0.5 <= y <= 0.5
  }

  /**
   * The scroll the pointing hands ask for, in order: the first hand pushed above 0.5
   * scrolls up (1), below -0.5 down (-1); a hand in between is skipped; none asks for 0.
   */
  function FirstDirection(ys: seq<real>): int
  {
    if ys == [] then 0
    else if ys[0] > 0.5 then 1
    else if ys[0] < -0.5 then -1
    else FirstDirection(ys[1..])
  }

  /**
   * The first hand outside the quiet band decides: no scroll exactly when every hand is
   * quiet, and otherwise the sign of the first hand that is not.
   */
  lemma {:induction false} FirstDirectionDecides(ys: seq<real>)
    ensures FirstDirection(ys) == 0 <==> forall j :: 0 <= j < |ys| ==> Quiet(ys[j])
    ensures FirstDirection(ys) != 0 ==>
      exists k :: (0 <= k < |ys| && (forall j :: 0 <= j < k ==> Quiet(ys[j]))
        && !Quiet(ys[k]) && FirstDirection(ys) == (if ys[k] > 0.5 then 1 else -1))
  {
    if ys != [] && Quiet(ys[0]) {
      FirstDirectionDecides(ys[1..]);
      assert forall j :: 0 < j < |ys| ==> ys[j] == ys[1..][j - 1];
      if FirstDirection(ys) != 0 {
        var k :| 0 <= k < |ys[1..]| && (forall j :: 0 <= j < k ==> Quiet(ys[1..][j]))
          && !Quiet(ys[1..][k]) && FirstDirection(ys[1..]) == (if ys[1..][k] > 0.5 then 1 else -1);
        assert 0 <= k + 1 < |ys| && (forall j :: 0 <= j < k + 1 ==> Quiet(ys[j])) && !Quiet(ys[k + 1]);
      }
    } else if ys != [] {
      assert !Quiet(ys[0]);
    }
  }

  /** The `foreach` over the pointing hands: stops at the first hand that asks for a scroll. */
  method PickDirection(ys: seq<real>) returns (scroll: int)
    ensures scroll == FirstDirection(ys)
  {
    scroll := 0;
    var k := 0;
    while k < |ys|
      invariant 0 <= k <= |ys|
      invariant FirstDirection(ys) == FirstDirection(ys[k..])
    {
      var y := ys[k];
      if y > 0.5 {
        scroll := 1;
        break;
      } else if y < -0.5 {
        scroll := -1;
        break;
      }
      assert ys[k..][1..] == ys[k + 1..];
      k := k + 1;
    }
    if k == |ys| {
      assert ys[k..] == [];
    }
  }

  class BepInExLogPanel {
    /** `_currentEvents`: the log's events, oldest first, once `CreateWithExisting` has run. */
    var events: Option<seq<LogEvent>>
    /** `_logText`, the value of `_maxLines`, of `_fontSize` and of `_fontName`. */
    var logText: Option<TextWidget>
    var maxLines: Option<int>
    var fontSize: Option<int>
    var fontName: Option<string>
    /** `_offset`, in events above the newest. */
    var offset: int

    /** The offset stays at -1 or above, the least a scroll over an empty log leaves. */
    predicate Valid()
      reads this
    {
      offset >= -1
    }

    constructor ()
      ensures events == None && logText == None && maxLines == None && fontSize == None && fontName == None
      ensures offset == 0 && Valid()
    {
      events := None;
      logText := None;
      maxLines := None;
      fontSize := None;
      fontName := None;
      offset := 0;
    }

    /** Whether `UpdateText` draws: all of the events, the line setting and the widget are there. */
    predicate Ready()
      reads this
    {
      events.Some? && maxLines.Some? && logText.Some?
    }

    /** `UpdateText`: draws the window into the widget once all three fields are set, and no read fails. */
    method UpdateText()
      requires Valid()
      modifies this
      ensures events == old(events) && maxLines == old(maxLines) && offset == old(offset) && Valid()
      ensures fontSize == old(fontSize) && fontName == old(fontName)
      ensures !Ready() ==> logText == old(logText)
      ensures logText.Some? == old(logText).Some?
      ensures logText.Some? ==> logText.value.fontSize == old(logText).value.fontSize && logText.value.font == old(logText).value.font
      ensures Ready() ==> WindowText(events.value, maxLines.value, offset) == Ok(logText.value.text)
    {
      if events == None || maxLines == None || logText == None {
        return;
      }
      ReadsInBounds(|events.value|, maxLines.value, offset);
      var r := RenderWindow(events.value, maxLines.value, offset);
      logText := Some(logText.value.(text := r.value));
    }

    /**
     * `CreateWithExisting`: takes the log's events, binds the three settings, creates the
     * widget in the configured size and font, puts a scrolling pointable that points back at
     * the panel in place of the backing's own, and draws the log.
     */
    method CreateWithExisting(currentEvents: seq<LogEvent>, savedFontSize: Option<int>, savedMaxLines: Option<int>,
                              savedFontName: Option<string>, installedFonts: seq<string>)
      returns (pointable: ScrollPointable)
      requires Valid()
      modifies this
      ensures fresh(pointable) && pointable.panel == this && pointable.lastScrollTime == 0.0
      ensures events == Some(currentEvents) && offset == old(offset) && Valid()
      ensures fontSize == Some(Bound(savedFontSize, DefaultFontSize))
      ensures maxLines == Some(Bound(savedMaxLines, DefaultMaxLines))
      ensures fontName == Some(Bound(savedFontName, DefaultFontName))
      ensures logText.Some? && logText.value.fontSize == fontSize.value
      ensures logText.Some? && logText.value.font == FontChoice(fontName.value, installedFonts)
      ensures WindowText(currentEvents, maxLines.value, offset) == Ok(logText.value.text)
    {
      events := Some(currentEvents);
      fontSize := Some(Bound(savedFontSize, DefaultFontSize));
      maxLines := Some(Bound(savedMaxLines, DefaultMaxLines));
      fontName := Some(Bound(savedFontName, DefaultFontName));
      logText := Some(TextWidget("", fontSize.value, FontChoice(fontName.value, installedFonts)));
      pointable := new ScrollPointable();
      pointable.panel := this;
      UpdateText();
    }

    /** `Scroll`: with no events or no direction nothing happens; otherwise the offset moves within the log. */
    method Scroll(direction: int)
      requires Valid()
      modifies this
      ensures events == old(events) && maxLines == old(maxLines) && Valid()
      ensures fontSize == old(fontSize) && fontName == old(fontName)
      ensures events == None || direction == 0 ==> offset == old(offset) && logText == old(logText)
      ensures events.Some? && direction != 0 ==> offset == ScrollOffset(old(offset), direction, |events.value|)
      ensures events.Some? && direction != 0 && Ready() ==> WindowText(events.value, maxLines.value, offset) == Ok(logText.value.text)
    {
      if events == None || direction == 0 {
        return;
      }
      ScrollKeepsOffset(offset, direction, |events.value|);
      offset := ScrollOffset(offset, direction, |events.value|);
      UpdateText();
    }

    /** `LogEvent`: the log already holds the new event; a scrolled view moves up by one and the text is redrawn. */
    method LogEvent()
      requires Valid()
      modifies this
      ensures events == old(events) && maxLines == old(maxLines) && offset == OffsetAfterEvent(old(offset)) && Valid()
      ensures !Ready() ==> logText == old(logText)
      ensures Ready() ==> WindowText(events.value, maxLines.value, offset) == Ok(logText.value.text)
    {
      EventKeepsOffset(offset);
      if offset != 0 {
        offset := offset + 1;
      }
      UpdateText();
    }
  }

  /** The pointable behind the panel that turns the touchpad of a pointing hand into scrolling. */
  class ScrollPointable {
    /** `Panel`, assigned when the panel is created. */
    var panel: BepInExLogPanel?
    /** `_lastScrollTime`. */
    var lastScrollTime: real

    constructor ()
      ensures panel == null && lastScrollTime == 0.0
    {
      panel := null;
      lastScrollTime := 0.0;
    }

    /**
     * `OnHoverDisplay` at time `time` with the touchpad values of the pointing hands: without
     * a panel, or sooner than `ScrollPause` after the last scroll, nothing happens; otherwise
     * the time is recorded and the panel scrolls as the first decisive hand asks, not at all
     * when no hand does.
     */
    method OnHoverDisplay(time: real, hands: seq<real>)
      requires panel != null ==> panel.Valid()
      modifies this, panel
      ensures panel == old(panel)
      ensures panel == null || time < old(lastScrollTime) + ScrollPause ==> lastScrollTime == old(lastScrollTime)
      ensures panel != null && time < old(lastScrollTime) + ScrollPause ==>
        panel.offset == old(panel.offset) && panel.logText == old(panel.logText)
      ensures panel != null && time >= old(lastScrollTime) + ScrollPause ==> lastScrollTime == time
      ensures panel != null && time >= old(lastScrollTime) + ScrollPause && panel.events.Some? && FirstDirection(hands) != 0 ==>
        panel.offset == ScrollOffset(old(panel.offset), FirstDirection(hands), |panel.events.value|)
      ensures panel != null && (panel.events == None || FirstDirection(hands) == 0) ==>
        panel.offset == old(panel.offset) && panel.logText == old(panel.logText)
      ensures panel != null ==> panel.events == old(panel.events) && panel.Valid()
    {
      if panel == null || time < lastScrollTime + ScrollPause {
        return;
      }
      var scroll := PickDirection(hands);
      lastScrollTime := time;
      panel.Scroll(scroll);
    }
  }
}
