/**
 * BepInEx log events as the log views see them: a level, the event's text
 * (`LogEventArgs.ToString()`), the number of lines Sodalite records for it, the
 * colour each level is painted in, and the level filter of the log page.
 */
module LogEvents {
  import SodaliteUtils

  /**
   * The six single levels of BepInEx's `LogLevel` flags enum. An event is taken to be
   * written at exactly one of them; `None`, `All` and combinations are not modelled.
   */
  datatype LogLevel = Fatal | Error | Warning | Message | Info | Debug

  /**
   * A value of BepInEx's `LogLevel` flags enum, as the set of levels whose bits it has set;
   * `|` is union, `& ~` is difference and `&` is intersection.
   */
  type LevelFlags = set<LogLevel>

  /** A log event: its level and its text. */
  datatype LogEvent = LogEvent(level: LogLevel, text: string)

  /** `(evt.Level & filter) != 0`: the filter lets the event through. */
  predicate Matches(evt: LogEvent, filter: LevelFlags)
  {
    evt.level in filter
  }

  /** `Sodalite.LogEventLineCount[evt]`, recorded as `CountLines` of the event's text. */
  function LineCount(evt: LogEvent): nat
  {
    SodaliteUtils.LineCount(evt.text)
  }

  /** The lines of an event, `Split('\n')` of its text; an event without text has none. */
  function Lines(evt: LogEvent): (r: seq<string>)
    ensures |r| == LineCount(evt)
  {
    if evt.text == "" then []
    else
      SodaliteUtils.CountLinesIsSplitLength(evt.text);
      SodaliteUtils.Split(evt.text, '\n')
  }

  /** An event with text has the lines `Split('\n')` cuts it into. */
  lemma LinesAreSplit(evt: LogEvent)
    requires evt.text != ""
    ensures Lines(evt) == SodaliteUtils.Split(evt.text, '\n')
  {
  }

  /** `LogColors[level]`. */
  function Color(l: LogLevel): string
  {
    match l
    case Fatal => "#962c2c"
    case Error => "red"
    case Warning => "#e0dd10"
    case Message => "white"
    case Info => "white"
    case Debug => "grey"
  }

  /** A text wrapped in the rich-text colour tag of a level. */
  function Paint(l: LogLevel, line: string): string
  {
    "<color=" + Color(l) + ">" + line + "</color>"
  }

  /** The events of `events` that the filter lets through, in their order. */
  function Filtered(events: seq<LogEvent>, filter: LevelFlags): (r: seq<LogEvent>)
    ensures |r| <= |events|
    ensures forall e :: e in r <==> e in events && Matches(e, filter)
  {
    if events == [] then []
    else
      var rest := Filtered(events[1..], filter);
      assert forall e :: e in events <==> e == events[0] || e in events[1..];
      if Matches(events[0], filter) then [events[0]] + rest else rest
  }

  /** Filtering a log that grew by an event filters the old log and then that event. */
  lemma {:induction false} FilteredAppend(events: seq<LogEvent>, evt: LogEvent, filter: LevelFlags)
    ensures Filtered(events + [evt], filter) == Filtered(events, filter) + if Matches(evt, filter) then [evt] else []
  {
    if events != [] {
      assert (events + [evt])[1..] == events[1..] + [evt];
      FilteredAppend(events[1..], evt, filter);
    } else {
      assert Filtered([evt][1..], filter) == [];
    }
  }

  /**
   * `SetOrClearFlag`: a toggle switched on adds its levels to the filter with `|=`,
   * switched off removes them with `&= ~flags`.
   */
  function SetOrClearFlag(b: bool, filter: LevelFlags, flags: LevelFlags): (r: LevelFlags)
    ensures b ==> flags <= r
    ensures !b ==> r !! flags
    ensures r - flags == filter - flags
  {
    if b then filter + flags else filter - flags
  }

  /** Switching a toggle on and off again leaves exactly the filter without its levels. */
  lemma SetThenClear(filter: LevelFlags, flags: LevelFlags)
    ensures SetOrClearFlag(false, SetOrClearFlag(true, filter, flags), flags) == filter - flags
  {
  }

  /** After its toggle, an event passes the filter as the toggle says if its level is the toggle's, and as before otherwise. */
  lemma ToggleLevel(b: bool, filter: LevelFlags, flags: LevelFlags, evt: LogEvent)
    ensures evt.level in flags ==> Matches(evt, SetOrClearFlag(b, filter, flags)) == b
    ensures evt.level !in flags ==> Matches(evt, SetOrClearFlag(b, filter, flags)) == Matches(evt, filter)
  {
  }
}
