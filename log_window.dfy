/**
 * The event window shared by the mod panel's older log page
 * (`ModPanelLogPage.cs`) and the BepInEx log panel (`BepInExLogPanel.cs`). Both
 * show a run of whole events that starts `MaxLines + offset` events above the
 * end of the log, one painted event per line, followed by a footer, and both
 * scroll by one event at a time.
 */
module LogWindow {
  import opened Wrappers
  import opened LogEvents
  import CsArith
  import Formatting

  /** The exception a read past the end of the events list throws. */
  datatype WindowError = IndexOutOfRange

  /** `Environment.NewLine` on Windows, what `StringBuilder.AppendLine` appends. */
  const NewLine: string := "\r\n"

  /** `Math.Max(0, count - maxLines - offset)`: the index of the first event shown. */
  function StartIndex(count: int, maxLines: int, offset: int): (r: nat)
    ensures r >= count - maxLines - offset
    ensures r == 0 || r == count - maxLines - offset
  {
    if count - maxLines - offset > 0 then count - maxLines - offset else 0
  }

  /** The passes of the loop `for (i = 0; i < Math.Min(maxLines, count) - 1; i++)`. */
  function Passes(count: int, maxLines: int): (r: nat)
    ensures r == 0 || r == (if maxLines < count then maxLines else count) - 1
  {
    var endIndex := if maxLines < count then maxLines else count;
    if endIndex - 1 > 0 then endIndex - 1 else 0
  }

  /** Every index the loop reads, `startIndex + i` for each pass `i`, lies in the events list. */
  predicate InBounds(count: nat, maxLines: int, offset: int)
  {
    Passes(count, maxLines) == 0 || StartIndex(count, maxLines, offset) + Passes(count, maxLines) <= count
  }

  /** One event as the loop appends it: painted in its level's colour, then a newline. */
  function Entry(evt: LogEvent): string
  {
    Paint(evt.level, evt.text) + NewLine
  }

  /** The entries of some events, oldest first. */
  function Entries(events: seq<LogEvent>): string
  {
    if events == [] then "" else Entries(events[..|events| - 1]) + Entry(events[|events| - 1])
  }

  /** The footer: first and last line numbers of a full window and the number of events. */
  function Footer(count: int, maxLines: int, offset: int): string
  {
    var start := StartIndex(count, maxLines, offset);
    " -- Showing lines " + Formatting.IntToString(start + 1) + " to " + Formatting.IntToString(start + maxLines)
    + " (of " + Formatting.IntToString(count) + ")"
  }

  /** The events `UpdateText` shows: `Passes` of them from the start index on. */
  function Shown(events: seq<LogEvent>, maxLines: int, offset: int): (r: seq<LogEvent>)
    requires InBounds(|events|, maxLines, offset)
    ensures |r| == Passes(|events|, maxLines)
  {
    var start := StartIndex(|events|, maxLines, offset);
    if Passes(|events|, maxLines) == 0 then [] else events[start..start + Passes(|events|, maxLines)]
  }

  /**
   * The text `UpdateText` writes: the shown entries and the footer, or the exception of the
   * first read past the end of the list.
   */
  function WindowText(events: seq<LogEvent>, maxLines: int, offset: int): Result<string, WindowError>
  {
    if !InBounds(|events|, maxLines, offset) then Err(IndexOutOfRange)
    else Ok(Entries(Shown(events, maxLines, offset)) + Footer(|events|, maxLines, offset))
  }

  /** Extending the entries by one event appends its entry. */
  lemma EntriesAppend(events: seq<LogEvent>, evt: LogEvent)
    ensures Entries(events + [evt]) == Entries(events) + Entry(evt)
  {
    assert (events + [evt])[..|events|] == events;
  }

  /**
   * The loop of `UpdateText`: reads `passes` events from `startIndex` on and appends each
   * one's entry; the first read past the end of the list throws.
   */
  method AppendEntries(events: seq<LogEvent>, startIndex: nat, passes: nat) returns (r: Result<string, WindowError>)
    ensures passes == 0 ==> r == Ok("")
    ensures passes > 0 && startIndex + passes <= |events| ==> r == Ok(Entries(events[startIndex..startIndex + passes]))
    ensures passes > 0 && startIndex + passes > |events| ==> r == Err(IndexOutOfRange)
  {
    var sb := "";
    var i := 0;
    while i < passes
      invariant 0 <= i <= passes
      invariant i == 0 || startIndex + i <= |events|
      invariant sb == Entries(Run(events, startIndex, i))
    {
      if startIndex + i >= |events| {
        assert startIndex + passes > |events|;
        return Err(IndexOutOfRange);
      }
      var evt := events[startIndex + i];
      EntriesStep(events, startIndex, i);
      sb := sb + Entry(evt);
      i := i + 1;
    }
    ghost var shown := Run(events, startIndex, passes);
    assert sb == Entries(shown);
    assert passes > 0 && startIndex + passes <= |events| ==> shown == events[startIndex..startIndex + passes];
    r := Ok(sb);
  }

  /** The `n` events from `start` on, or none when they run past the end. */
  function Run(events: seq<LogEvent>, start: nat, n: nat): (r: seq<LogEvent>)
    ensures start + n <= |events| ==> r == events[start..start + n]
    ensures n == 0 ==> r == []
  {
    if start + n <= |events| then events[start..start + n] else []
  }

  /** The entries of a run one event longer end with that event's entry. */
  lemma EntriesStep(events: seq<LogEvent>, start: nat, i: nat)
    requires start + i < |events|
    ensures Entries(Run(events, start, i + 1)) == Entries(Run(events, start, i)) + Entry(events[start + i])
  {
    var before := events[start..start + i];
    assert events[start..start + i + 1] == before + [events[start + i]];
    EntriesAppend(before, events[start + i]);
  }

  /** The body of `UpdateText` once the events list is there: the entries, then the footer. */
  method RenderWindow(events: seq<LogEvent>, maxLines: int, offset: int) returns (r: Result<string, WindowError>)
    ensures r == WindowText(events, maxLines, offset)
  {
    var count := |events|;
    var startIndex := StartIndex(count, maxLines, offset);
    var passes := Passes(count, maxLines);
    var entries := AppendEntries(events, startIndex, passes);
    if entries.Err? {
      assert !InBounds(count, maxLines, offset);
      return Err(entries.error);
    }
    assert InBounds(count, maxLines, offset);
    ghost var shown := Shown(events, maxLines, offset);
    if passes == 0 {
      assert shown == [] && entries.value == "";
    } else {
      assert shown == events[startIndex..startIndex + passes];
    }
    assert entries.value == Entries(shown);
    r := Ok(entries.value + Footer(count, maxLines, offset));
  }

  /** At most `maxLines - 1` events are shown: the loop bound leaves one out. */
  lemma ShownBound(count: nat, maxLines: int)
    ensures Passes(count, maxLines) <= if maxLines > 1 then maxLines - 1 else 0
    ensures Passes(count, maxLines) <= if count > 1 then count - 1 else 0
    ensures 1 < maxLines && 1 < count ==> Passes(count, maxLines) == (if maxLines < count then maxLines else count) - 1
  {
  }

  /** Every read lies in the list whenever the offset is at least -1, the least any scroll leaves. */
  lemma ReadsInBounds(count: nat, maxLines: int, offset: int)
    requires offset >= -1
    ensures InBounds(count, maxLines, offset)
  {
  }

  /** An offset of -2 would read past the end: -1 is the lowest offset the window tolerates. */
  lemma OffsetBelowMinusOneOverruns()
    ensures !InBounds(2, 2, -2)
    ensures WindowText([LogEvent(Info, "a"), LogEvent(Info, "b")], 2, -2) == Err(IndexOutOfRange)
  {
  }

  /** With a non-negative offset the newest event is never shown: the last index read stays below `count - 1`. */
  lemma NewestNeverShown(count: nat, maxLines: int, offset: int)
    requires offset >= 0 && Passes(count, maxLines) > 0
    ensures StartIndex(count, maxLines, offset) + Passes(count, maxLines) <= count - 1
  {
  }

  /**
   * A log of one event shows no event at all, while the footer claims the lines from 1 to
   * `maxLines`: `min(maxLines, count) - 1` is zero.
   */
  lemma SingleEventShowsNothing(evt: LogEvent, maxLines: int)
    requires maxLines >= 1
    ensures WindowText([evt], maxLines, 0) == Ok(Footer(1, maxLines, 0))
    ensures Footer(1, maxLines, 0) == " -- Showing lines " + Formatting.IntToString(1) + " to "
      + Formatting.IntToString(maxLines) + " (of " + Formatting.IntToString(1) + ")"
  {
    assert StartIndex(1, maxLines, 0) == 0;
    assert Passes(1, maxLines) == 0;
    assert Shown([evt], maxLines, 0) == [];
    var f := Footer(1, maxLines, 0);
    assert Entries([]) + f == f;
  }

  /**
   * The window as evidently intended: the `min(maxLines, count)` events that end `offset`
   * events above the newest one, so that offset 0 shows the newest event.
   */
  function IntendedShown(events: seq<LogEvent>, maxLines: int, offset: int): (r: seq<LogEvent>)
    requires offset >= 0
    ensures |r| <= |events| && (maxLines > 0 ==> |r| <= maxLines)
  {
    var start := StartIndex(|events|, maxLines, offset);
    if maxLines <= 0 || start >= |events| then []
    else
      var end := if start + maxLines < |events| then start + maxLines else |events|;
      events[start..end]
  }

  /** At offset 0 the intended window holds the newest `min(maxLines, count)` events, the newest last. */
  lemma IntendedShowsNewest(events: seq<LogEvent>, maxLines: int)
    requires maxLines > 0 && events != []
    ensures var r := IntendedShown(events, maxLines, 0);
      |r| == (if maxLines < |events| then maxLines else |events|) && r[|r| - 1] == events[|events| - 1]
  {
  }

  /** Scrolled by `offset`, the intended window ends `offset` events above the newest one. */
  lemma IntendedEndsAboveNewest(events: seq<LogEvent>, maxLines: int, offset: nat)
    requires maxLines > 0 && |events| > maxLines + offset
    ensures var r := IntendedShown(events, maxLines, offset);
      |r| == maxLines && r == events[|events| - maxLines - offset..|events| - offset]
  {
  }

  /** The intended window is the shown one with the event the loop bound leaves out added back. */
  lemma IntendedExtendsShown(events: seq<LogEvent>, maxLines: int, offset: int)
    requires offset >= 0 && Passes(|events|, maxLines) > 0
    ensures InBounds(|events|, maxLines, offset)
    ensures var s := Shown(events, maxLines, offset);
      IntendedShown(events, maxLines, offset) == s + [events[StartIndex(|events|, maxLines, offset) + |s|]]
  {
    var start := StartIndex(|events|, maxLines, offset);
    var p := Passes(|events|, maxLines);
    assert events[start..start + p + 1] == events[start..start + p] + [events[start + p]];
  }

  /** The scroll direction of an axis value: its sign. */
  function Direction(x: real): (r: int)
    ensures r == 0 <==> x == 0.0
    ensures r == 1 <==> x > 0.0
    ensures r == -1 <==> x < 0.0
  {
    if x == 0.0 then 0 else if x > 0.0 then 1 else -1
  }

  /** `Mathf.Clamp(offset + direction, 0, count - 1)`: the offset after a scroll. */
  function ScrollOffset(offset: int, direction: int, count: nat): (r: int)
    ensures count > 0 ==> 0 <= r < count
    ensures count > 0 && 0 <= offset + direction < count ==> r == offset + direction
  {
    CsArith.MathfClamp(offset + direction, 0, count - 1)
  }

  /**
   * With no events the bounds cross and `Mathf.Clamp`'s order of checks decides: a sum below
   * 0 gives 0, any other gives -1.
   */
  lemma ScrollOnEmpty(offset: int, direction: int)
    ensures ScrollOffset(offset, direction, 0) == if offset + direction < 0 then 0 else -1
  {
  }

  /** No scroll takes the offset below -1. */
  lemma ScrollKeepsOffset(offset: int, direction: int, count: nat)
    ensures ScrollOffset(offset, direction, count) >= -1
  {
  }

  /** Away from the ends a scroll down undoes a scroll up. */
  lemma ScrollUndo(offset: int, count: nat)
    requires 0 <= offset && offset + 1 < count
    ensures ScrollOffset(ScrollOffset(offset, 1, count), -1, count) == offset
  {
  }

  /** `if (_offset != 0) _offset += 1`: a scrolled view follows its events as a new one arrives. */
  function OffsetAfterEvent(offset: int): (r: int)
    ensures offset == 0 ==> r == 0
    ensures offset != 0 ==> r == offset + 1
  {
    if offset != 0 then offset + 1 else offset
  }

  /** A scrolled view keeps its events: one event more and one offset more leave the window in place. */
  lemma EventKeepsWindow(events: seq<LogEvent>, evt: LogEvent, maxLines: int, offset: int)
    requires offset > 0
    ensures StartIndex(|events + [evt]|, maxLines, OffsetAfterEvent(offset)) == StartIndex(|events|, maxLines, offset)
  {
  }

  /** No new event takes the offset below -1; the -1 of an empty scroll becomes 0. */
  lemma EventKeepsOffset(offset: int)
    requires offset >= -1
    ensures OffsetAfterEvent(offset) >= -1
    ensures offset == -1 ==> OffsetAfterEvent(offset) == 0
  {
  }
}
