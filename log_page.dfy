/**
 * The log page of the universal mod panel (`UniversalModPanelLogPage` in
 * `LogPage.cs`). It keeps the events of Sodalite's log that pass the level
 * filter, and shows a window of their lines that ends `offset` lines above the
 * newest one. Scrolling moves that offset, and a new event keeps a scrolled view
 * where it was.
 */
module LogPage {
  import SodaliteUtils
  import CsArith
  import opened LogEvents
  import ControlButtonToggle

  /** Lines painted in a level's colour. */
  function PaintAll(l: LogLevel, lines: seq<string>): (r: seq<string>)
    ensures |r| == |lines|
  {
    if |lines| == 0 then [] else [Paint(l, lines[0])] + PaintAll(l, lines[1..])
  }

  /** Each painted line is its line in the colour. */
  lemma {:induction false} PaintAllAt(l: LogLevel, lines: seq<string>, k: nat)
    requires k < |lines|
    ensures PaintAll(l, lines)[k] == Paint(l, lines[k])
  {
    if k > 0 {
      PaintAllAt(l, lines[1..], k - 1);
    }
  }

  /** The painted lines of an event, oldest first. */
  function Painted(evt: LogEvent): (r: seq<string>)
    ensures |r| == LineCount(evt)
  {
    PaintAll(evt.level, Lines(evt))
  }

  /** Each cached event as the block of its painted lines, oldest first. */
  function Blocks(cache: seq<LogEvent>): (r: seq<seq<string>>)
    ensures |r| == |cache|
  {
    if cache == [] then [] else Blocks(cache[..|cache| - 1]) + [Painted(cache[|cache| - 1])]
  }

  /** All lines of the blocks, oldest first. */
  function Flat(blocks: seq<seq<string>>): seq<string>
  {
    if blocks == [] then [] else Flat(blocks[..|blocks| - 1]) + blocks[|blocks| - 1]
  }

  /** The most lines of any one block. */
  function MostLines(blocks: seq<seq<string>>): (r: nat)
  {
    if blocks == [] then 0
    else
      var rest := MostLines(blocks[..|blocks| - 1]);
      if |blocks[|blocks| - 1]| > rest then |blocks[|blocks| - 1]| else rest
  }

  /**
   * The lines `UpdateText` emits, oldest first, walking the blocks from the newest with
   * `toSkip` lines still to skip and `count` lines already emitted: a block with no more
   * lines than are left to skip is skipped whole, the first one with more loses its
   * newest `toSkip` lines, and no further block is started once `maxLines` are emitted.
   */
  function Window(blocks: seq<seq<string>>, toSkip: nat, count: int, maxLines: int): seq<string>
    decreases |blocks|
  {
    if count >= maxLines || blocks == [] then []
    else
      var b := blocks[|blocks| - 1];
      var rest := blocks[..|blocks| - 1];
      if |b| <= toSkip then Window(rest, toSkip - |b|, count, maxLines)
      else
        var kept := b[..|b| - toSkip];
        Window(rest, 0, count + |kept|, maxLines) + kept
  }

  /** Unfolding the window at a block that is skipped whole. */
  lemma WindowSkip(blocks: seq<seq<string>>, toSkip: nat, count: int, maxLines: int)
    requires count < maxLines && blocks != [] && |blocks[|blocks| - 1]| <= toSkip
    ensures Window(blocks, toSkip, count, maxLines)
      == Window(blocks[..|blocks| - 1], toSkip - |blocks[|blocks| - 1]|, count, maxLines)
  {
  }

  /** Unfolding the window at the first block that is not skipped whole. */
  lemma WindowKeep(blocks: seq<seq<string>>, toSkip: nat, count: int, maxLines: int)
    requires count < maxLines && blocks != [] && |blocks[|blocks| - 1]| > toSkip
    ensures var b := blocks[|blocks| - 1];
      Window(blocks, toSkip, count, maxLines)
      == Window(blocks[..|blocks| - 1], 0, count + |b| - toSkip, maxLines) + b[..|b| - toSkip]
  {
  }

  /** Where the skipped lines end: `toSkip` lines above the newest, or the very top. */
  function Cut(blocks: seq<seq<string>>, toSkip: nat): nat
  {
    if toSkip <= |Flat(blocks)| then |Flat(blocks)| - toSkip else 0
  }

  /** The lines shown are one contiguous run of the lines, ending where the skipped lines begin. */
  lemma {:induction false} WindowIsBlock(blocks: seq<seq<string>>, toSkip: nat, count: int, maxLines: int)
    ensures |Window(blocks, toSkip, count, maxLines)| <= Cut(blocks, toSkip) <= |Flat(blocks)|
    ensures Window(blocks, toSkip, count, maxLines)
      == Flat(blocks)[Cut(blocks, toSkip) - |Window(blocks, toSkip, count, maxLines)|..Cut(blocks, toSkip)]
    decreases |blocks|
  {
    var window := Window(blocks, toSkip, count, maxLines);
    var cut := Cut(blocks, toSkip);
    if count < maxLines && blocks != [] {
      var b := blocks[|blocks| - 1];
      var rest := blocks[..|blocks| - 1];
      var fr := Flat(rest);
      assert Flat(blocks) == fr + b;
      if |b| <= toSkip {
        WindowSkip(blocks, toSkip, count, maxLines);
        WindowIsBlock(rest, toSkip - |b|, count, maxLines);
        assert cut == Cut(rest, toSkip - |b|);
        RunBelowBlock(fr, b, window, cut);
      } else {
        var kept := b[..|b| - toSkip];
        WindowKeep(blocks, toSkip, count, maxLines);
        WindowIsBlock(rest, 0, count + |kept|, maxLines);
        var w := Window(rest, 0, count + |kept|, maxLines);
        assert Cut(rest, 0) == |fr|;
        assert cut == |fr| + |kept|;
        RunIntoBlock(fr, b, w, kept, window, cut);
      }
    } else {
      assert window == [];
      assert Flat(blocks)[cut..cut] == [];
    }
  }

  /** A run of the lines below the newest block is the same run of all the lines. */
  lemma RunBelowBlock(fr: seq<string>, b: seq<string>, w: seq<string>, cut: nat)
    requires |w| <= cut <= |fr| && w == fr[cut - |w|..cut]
    ensures |w| <= cut <= |fr + b| && w == (fr + b)[cut - |w|..cut]
  {
    assert (fr + b)[cut - |w|..cut] == fr[cut - |w|..cut];
  }

  /** A run ending at the top of the lines below the newest block, followed by its first lines, is a run of all the lines. */
  lemma RunIntoBlock(fr: seq<string>, b: seq<string>, w: seq<string>, kept: seq<string>, window: seq<string>, cut: nat)
    requires |w| <= |fr| && w == fr[|fr| - |w|..]
    requires |kept| <= |b| && kept == b[..|kept|]
    requires window == w + kept && cut == |fr| + |kept|
    ensures |window| <= cut <= |fr + b| && window == (fr + b)[cut - |window|..cut]
  {
    assert (fr + b)[|fr| - |w|..|fr| + |kept|] == fr[|fr| - |w|..] + kept;
  }

  /** The window is full: it has `maxLines - count` lines, or every line up to the cut when there are fewer. */
  lemma {:induction false} WindowFills(blocks: seq<seq<string>>, toSkip: nat, count: int, maxLines: int)
    ensures |Window(blocks, toSkip, count, maxLines)| >= if maxLines - count < Cut(blocks, toSkip) then maxLines - count else Cut(blocks, toSkip)
    decreases |blocks|
  {
    if count < maxLines && blocks != [] {
      var b := blocks[|blocks| - 1];
      var rest := blocks[..|blocks| - 1];
      assert Flat(blocks) == Flat(rest) + b;
      if |b| <= toSkip {
        WindowFills(rest, toSkip - |b|, count, maxLines);
        assert Cut(rest, toSkip - |b|) == Cut(blocks, toSkip);
      } else {
        WindowFills(rest, 0, count + |b| - toSkip, maxLines);
      }
    }
  }

  /**
   * No block is started once `maxLines` lines are out, so the window overshoots
   * `maxLines` by less than the longest block.
   */
  lemma {:induction false} WindowBound(blocks: seq<seq<string>>, toSkip: nat, count: int, maxLines: int)
    ensures count >= maxLines ==> Window(blocks, toSkip, count, maxLines) == []
    ensures count < maxLines ==> |Window(blocks, toSkip, count, maxLines)| <= maxLines - count - 1 + MostLines(blocks)
    decreases |blocks|
  {
    if count < maxLines && blocks != [] {
      var b := blocks[|blocks| - 1];
      var rest := blocks[..|blocks| - 1];
      if |b| <= toSkip {
        WindowBound(rest, toSkip - |b|, count, maxLines);
      } else {
        WindowBound(rest, 0, count + |b| - toSkip, maxLines);
      }
    }
  }

  /** A three-line event in a two-line window is shown whole: the last event can overshoot `MaxLines`. */
  lemma WindowOvershoots()
    ensures |Window(Blocks([LogEvent(Info, "a\nb\nc")]), 0, 0, 2)| == 3
  {
    var evt := LogEvent(Info, "a\nb\nc");
    assert multiset(evt.text)['\n'] == 2;
    assert LineCount(evt) == 3;
    var bs := Blocks([evt]);
    assert |bs[0]| == 3;
    assert Window(bs[..0], 0, 3, 2) == [];
  }

  /** The blocks of a cache that grew by an event: the old blocks, then the event's. */
  lemma BlocksAppend(cache: seq<LogEvent>, evt: LogEvent)
    ensures Blocks(cache + [evt]) == Blocks(cache) + [Painted(evt)]
  {
    assert (cache + [evt])[..|cache|] == cache;
  }

  /**
   * A scrolled view stays on the same lines when a matching event arrives: the event's
   * lines are added to the offset, and `UpdateText` skips them again.
   */
  lemma KeepsPosition(cache: seq<LogEvent>, offset: nat, evt: LogEvent, maxLines: int)
    ensures Window(Blocks(cache + [evt]), offset + LineCount(evt), 0, maxLines) == Window(Blocks(cache), offset, 0, maxLines)
  {
    BlocksAppend(cache, evt);
    var b := Painted(evt);
    assert |b| == LineCount(evt);
    WindowSkipsNewest(Blocks(cache), b, offset, maxLines);
  }

  /** Skipping as many more lines as the newest block has skips that block whole. */
  lemma WindowSkipsNewest(prev: seq<seq<string>>, b: seq<string>, toSkip: nat, maxLines: int)
    ensures Window(prev + [b], toSkip + |b|, 0, maxLines) == Window(prev, toSkip, 0, maxLines)
  {
    var bs := prev + [b];
    assert bs[..|bs| - 1] == prev && bs[|bs| - 1] == b;
    if 0 < maxLines {
      WindowSkip(bs, toSkip + |b|, 0, maxLines);
    }
  }

  /**
   * The offset also grows for an event the filter holds back, although the cache does
   * not: such an event moves a scrolled view up by its lines.
   */
  lemma FilteredEventMovesView()
    ensures var cache := [LogEvent(Error, "a"), LogEvent(Error, "b")];
      Window(Blocks(cache), 1, 0, 1) != Window(Blocks(cache), 1 + LineCount(LogEvent(Debug, "c")), 0, 1)
  {
    var cache := [LogEvent(Error, "a"), LogEvent(Error, "b")];
    assert LineCount(cache[1]) == 1 && LineCount(cache[0]) == 1;
    assert LineCount(LogEvent(Debug, "c")) == 1;
    var bs := Blocks(cache);
    assert |bs[0]| == 1 && |bs[1]| == 1;
    assert bs[..1][..0] == [] && bs[..1][0] == bs[0] && bs[0][..1] == bs[0];
    WindowSkip(bs, 1, 0, 1);
    WindowKeep(bs[..1], 0, 0, 1);
    assert Window(bs, 1, 0, 1) == bs[0];
    WindowSkip(bs, 2, 0, 1);
    WindowSkip(bs[..1], 1, 0, 1);
    assert Window(bs, 2, 0, 1) == [];
  }

  /** The lines of a `StringBuilder` that received each line followed by a newline. */
  function Terminated(lines: seq<string>): string
  {
    if lines == [] then "" else lines[0] + "\n" + Terminated(lines[1..])
  }

  /** Dropping the last newline of the terminated lines gives the lines joined with newlines. */
  lemma {:induction false} TerminatedJoin(lines: seq<string>)
    ensures lines != [] ==> Terminated(lines) == SodaliteUtils.Join(lines, '\n') + "\n"
  {
    if |lines| > 1 {
      TerminatedJoin(lines[1..]);
    }
  }

  /** The text the log shows for some emitted lines: the lines joined with newlines. */
  function LogText(lines: seq<string>): string
  {
    SodaliteUtils.Join(lines, '\n')
  }

  /** Terminated lines side by side are the terminated concatenation. */
  lemma {:induction false} TerminatedAppend(a: seq<string>, b: seq<string>)
    ensures Terminated(a + b) == Terminated(a) + Terminated(b)
  {
    if a != [] {
      assert (a + b)[1..] == a[1..] + b;
      TerminatedAppend(a[1..], b);
    } else {
      assert a + b == b;
    }
  }

  /**
   * The inner loop of `UpdateText`, for an event with more lines than are left to skip:
   * from its newest line down, the lines still to skip are dropped and every other line is
   * put in front of the text with its newline.
   */
  method PrependEvent(evt: LogEvent, toSkip: nat, sb: string) returns (out: string, left: nat, added: nat)
    requires LineCount(evt) > toSkip
    ensures left == 0 && added == LineCount(evt) - toSkip
    ensures out == Terminated(Painted(evt)[..added]) + sb
  {
    assert evt.text != "" by {
      assert |Lines(evt)| > 0;
    }
    var lines := SodaliteUtils.Split(evt.text, '\n');
    LinesAreSplit(evt);
    ghost var painted := Painted(evt);
    assert |lines| == |painted| == LineCount(evt) && painted == PaintAll(evt.level, lines);
    ghost var top := |lines| - toSkip;
    ghost var inner: seq<string> := [];
    out, left, added := sb, toSkip, 0;
    var j := |lines| - 1;
    while j >= 0
      invariant -1 <= j < |lines|
      invariant left == if j + 1 >= top then j + 1 - top else 0
      invariant inner == if j + 1 >= top then [] else painted[j + 1..top]
      invariant added == |inner| && out == Terminated(inner) + sb
    {
      if left > 0 {
        left := left - 1;
      } else {
        var line := lines[j];
        PaintAllAt(evt.level, lines, j);
        PrependLine(painted, j, top, inner, sb, out);
        out := Paint(evt.level, line) + "\n" + out;
        inner := [painted[j]] + inner;
        added := added + 1;
      }
      j := j - 1;
    }
    assert painted[..added] == painted[0..top];
  }

  /** Putting line `j` in front of the lines after it up to `top` extends both the lines and the text. */
  lemma PrependLine(painted: seq<string>, j: nat, top: nat, inner: seq<string>, sb: string, out: string)
    requires j < top <= |painted| && inner == painted[j + 1..top] && out == Terminated(inner) + sb
    ensures [painted[j]] + inner == painted[j..top]
    ensures painted[j] + "\n" + out == Terminated([painted[j]] + inner) + sb
  {
    assert ([painted[j]] + inner)[1..] == inner;
  }

  /** Each block is its event's painted lines. */
  lemma {:induction false} BlocksAt(cache: seq<LogEvent>, k: nat)
    requires k < |cache|
    ensures Blocks(cache)[k] == Painted(cache[k])
  {
    if k < |cache| - 1 {
      BlocksAt(cache[..|cache| - 1], k);
    }
  }

  /** `blocks` holds the painted lines of each event of `c`, in the same order. */
  ghost predicate PaintedBlocks(blocks: seq<seq<string>>, c: seq<LogEvent>)
  {
    |blocks| == |c| && forall k {:trigger Painted(c[k])} :: 0 <= k < |c| ==> blocks[k] == Painted(c[k])
  }

  /** The blocks of a cache are its painted events. */
  lemma BlocksArePainted(c: seq<LogEvent>)
    ensures PaintedBlocks(Blocks(c), c)
  {
    forall k | 0 <= k < |c|
      ensures Blocks(c)[k] == Painted(c[k])
    {
      BlocksAt(c, k);
    }
  }

  /** `PrependEvent` for the `idx`th event, stated on its block. */
  method PrependBlock(c: seq<LogEvent>, ghost blocks: seq<seq<string>>, idx: nat, toSkip: nat, sb: string)
    returns (out: string, left: nat, added: nat)
    requires PaintedBlocks(blocks, c) && idx < |c| && |blocks[idx]| > toSkip
    ensures left == 0 && added == |blocks[idx]| - toSkip
    ensures out == Terminated(blocks[idx][..added]) + sb
  {
    assert blocks[idx] == Painted(c[idx]);
    out, left, added := PrependEvent(c[idx], toSkip, sb);
  }

  /**
   * The lines the loop of `UpdateText` still emits from its `i`th block from the newest on,
   * with `toSkip` lines left to skip and `count` lines emitted.
   */
  function Walk(blocks: seq<seq<string>>, i: nat, toSkip: nat, count: int, maxLines: int): seq<string>
    requires i <= |blocks|
    decreases |blocks| - i
  {
    if count >= maxLines || i == |blocks| then []
    else
      var b := blocks[|blocks| - 1 - i];
      if |b| <= toSkip then Walk(blocks, i + 1, toSkip - |b|, count, maxLines)
      else Walk(blocks, i + 1, 0, count + |b| - toSkip, maxLines) + b[..|b| - toSkip]
  }

  /** The walk of the loop from its `i`th block is the window of the blocks below it. */
  lemma {:induction false} WalkIsWindow(blocks: seq<seq<string>>, i: nat, toSkip: nat, count: int, maxLines: int)
    requires i <= |blocks|
    ensures Walk(blocks, i, toSkip, count, maxLines) == Window(blocks[..|blocks| - i], toSkip, count, maxLines)
    decreases |blocks| - i
  {
    if count < maxLines && i < |blocks| {
      var b := blocks[|blocks| - 1 - i];
      var pre := blocks[..|blocks| - i];
      var rest := blocks[..|blocks| - (i + 1)];
      assert pre[..|pre| - 1] == rest && pre[|pre| - 1] == b;
      if |b| <= toSkip {
        WindowSkip(pre, toSkip, count, maxLines);
        assert Window(pre, toSkip, count, maxLines) == Window(rest, toSkip - |b|, count, maxLines);
        assert Walk(blocks, i, toSkip, count, maxLines) == Walk(blocks, i + 1, toSkip - |b|, count, maxLines);
        WalkIsWindow(blocks, i + 1, toSkip - |b|, count, maxLines);
      } else {
        var kept := b[..|b| - toSkip];
        WindowKeep(pre, toSkip, count, maxLines);
        assert Window(pre, toSkip, count, maxLines) == Window(rest, 0, count + |b| - toSkip, maxLines) + kept;
        assert Walk(blocks, i, toSkip, count, maxLines) == Walk(blocks, i + 1, 0, count + |b| - toSkip, maxLines) + kept;
        WalkIsWindow(blocks, i + 1, 0, count + |b| - toSkip, maxLines);
      }
    }
  }

  /** One step of the walk past a block skipped whole. */
  lemma WalkSkip(blocks: seq<seq<string>>, i: nat, toSkip: nat, count: int, maxLines: int, shown: seq<string>)
    requires i < |blocks| && count < maxLines && |blocks[|blocks| - 1 - i]| <= toSkip
    ensures Walk(blocks, i, toSkip, count, maxLines) + shown
      == Walk(blocks, i + 1, toSkip - |blocks[|blocks| - 1 - i]|, count, maxLines) + shown
  {
  }

  /** One step of the walk past a block whose lines above the skipped ones are emitted. */
  lemma WalkKeep(blocks: seq<seq<string>>, i: nat, toSkip: nat, count: int, maxLines: int, shown: seq<string>,
                 b: seq<string>, kept: seq<string>)
    requires i < |blocks| && count < maxLines && b == blocks[|blocks| - 1 - i] && |b| > toSkip
    requires kept == b[..|b| - toSkip]
    ensures Walk(blocks, i, toSkip, count, maxLines) + shown
      == Walk(blocks, i + 1, 0, count + |kept|, maxLines) + (kept + shown)
  {
    var w := Walk(blocks, i + 1, 0, count + |kept|, maxLines);
    assert Walk(blocks, i, toSkip, count, maxLines) == w + kept;
    SodaliteUtils.ConcatAssoc(w, kept, shown);
  }

  /**
   * One pass of the loop of `UpdateText`, at the `i`th event from the newest: an event with
   * no more lines than are left to skip only lowers the lines to skip, any other one puts
   * its lines above the skipped ones in front of the text.
   */
  method EmitEvent(c: seq<LogEvent>, ghost blocks: seq<seq<string>>, i: nat, toSkip: nat, count: int, maxLines: int,
                   sb: string, ghost shown: seq<string>)
    returns (toSkip': nat, count': int, sb': string, ghost shown': seq<string>)
    requires PaintedBlocks(blocks, c) && i < |c| && count < maxLines
    requires count == |shown| && sb == Terminated(shown)
    ensures count' == |shown'| && sb' == Terminated(shown')
    ensures Walk(blocks, i, toSkip, count, maxLines) + shown == Walk(blocks, i + 1, toSkip', count', maxLines) + shown'
  {
    var idx := |c| - (1 + i);
    assert |blocks| - 1 - i == idx;
    var lineCount := LineCount(c[idx]);
    ghost var b := blocks[idx];
    assert b == blocks[|blocks| - 1 - i] && b == Painted(c[idx]) && |b| == lineCount;
    if lineCount <= toSkip {
      WalkSkip(blocks, i, toSkip, count, maxLines, shown);
      assert Walk(blocks, i, toSkip, count, maxLines) + shown == Walk(blocks, i + 1, toSkip - lineCount, count, maxLines) + shown;
      return toSkip - lineCount, count, sb, shown;
    }
    ghost var kept := b[..|b| - toSkip];
    var added;
    sb', toSkip', added := PrependBlock(c, blocks, idx, toSkip, sb);
    assert added == |kept| && toSkip' == 0;
    assert blocks[idx][..added] == kept;
    count' := count + added;
    TerminatedAppend(kept, shown);
    shown' := kept + shown;
    WalkKeep(blocks, i, toSkip, count, maxLines, shown, b, kept);
  }

  /**
   * The loop of `UpdateText`: walks the events from the newest with a count of emitted
   * lines and of lines still to skip, until `MaxLines` lines are out or the events run out.
   */
  method RenderLines(c: seq<LogEvent>, ghost blocks: seq<seq<string>>, off: nat, maxLines: int)
    returns (sb: string, ghost shown: seq<string>)
    requires PaintedBlocks(blocks, c)
    ensures shown == Walk(blocks, 0, off, 0, maxLines) && sb == Terminated(shown)
  {
    sb := "";
    shown := [];
    var count := 0;
    var toSkip: nat := off;
    var i := 0;
    while count < maxLines
      invariant 0 <= i <= |c|
      invariant count == |shown| && sb == Terminated(shown)
      invariant Walk(blocks, 0, off, 0, maxLines) == Walk(blocks, i, toSkip, count, maxLines) + shown
      decreases |c| - i
    {
      var idx := |c| - (1 + i);
      if idx < 0 {
        break;
      }
      toSkip, count, sb, shown := EmitEvent(c, blocks, i, toSkip, count, maxLines, sb, shown);
      i := i + 1;
    }
    assert Walk(blocks, i, toSkip, count, maxLines) == [];
  }

  /** The body of `UpdateText`: the lines of the loop with the trailing newline removed. */
  method Render(c: seq<LogEvent>, off: nat, maxLines: int) returns (text: string)
    ensures text == LogText(Window(Blocks(c), off, 0, maxLines))
  {
    ghost var bs := Blocks(c);
    BlocksArePainted(c);
    var sb;
    ghost var shown;
    sb, shown := RenderLines(c, bs, off, maxLines);
    WalkIsWindow(bs, 0, off, 0, maxLines);
    assert bs[..|bs| - 0] == bs;
    TerminatedJoin(shown);
    if |sb| > 0 {
      sb := sb[..|sb| - 1];
    } else {
      assert shown == [];
    }
    text := sb;
  }

  /** Sodalite's log and the level filter setting, which the log page reads. */
  class LogSource {
    /** `Sodalite.LogEvents`, oldest first. */
    var events: seq<LogEvent>
    /** `Sodalite.Config.LogPanelFilter.Value`. */
    var filter: LevelFlags

    constructor (events: seq<LogEvent>, filter: LevelFlags)
      ensures this.events == events && this.filter == filter
    {
      this.events := events;
      this.filter := filter;
    }
  }

  /** The Info toggle stands for both informational levels. */
  const InfoFlags: LevelFlags := {Info, Message}

  class UniversalModPanelLogPage {
    const source: LogSource
    /** `MaxLines`, set in the prefab. */
    const MaxLines: int
    /** The level toggles. */
    const DebugToggle: ControlButtonToggle.SodaliteToggleButton
    const InfoToggle: ControlButtonToggle.SodaliteToggleButton
    const WarningToggle: ControlButtonToggle.SodaliteToggleButton
    const ErrorToggle: ControlButtonToggle.SodaliteToggleButton
    /** `gameObject.activeSelf`. */
    var active: bool
    /** `_offset`, in lines above the newest. */
    var offset: int
    /** `_scrollValue`, the scrolling not yet turned into whole lines. */
    var scrollValue: real
    /** `_cache`, oldest first. */
    var cache: seq<LogEvent>
    /** `Log.text`. */
    var text: string

    /** The offset never goes below the newest line. */
    predicate Valid()
      reads this
    {
      offset >= 0
    }

    constructor (source: LogSource, maxLines: int, active: bool, debug: ControlButtonToggle.SodaliteToggleButton,
                 info: ControlButtonToggle.SodaliteToggleButton, warning: ControlButtonToggle.SodaliteToggleButton,
                 error: ControlButtonToggle.SodaliteToggleButton)
      ensures this.source == source && MaxLines == maxLines && this.active == active
      ensures DebugToggle == debug && InfoToggle == info && WarningToggle == warning && ErrorToggle == error
      ensures offset == 0 && scrollValue == 0.0 && cache == [] && text == ""
      ensures Valid()
    {
      this.source := source;
      MaxLines := maxLines;
      this.active := active;
      DebugToggle, InfoToggle, WarningToggle, ErrorToggle := debug, info, warning, error;
      offset := 0;
      scrollValue := 0.0;
      cache := [];
      text := "";
    }

    /** `UpdateText`: an inactive page is left alone unless forced; otherwise the window is drawn. */
    method UpdateText(evenIfDisabled: bool)
      requires Valid()
      modifies this
      ensures Valid()
      ensures !old(active) && !evenIfDisabled ==> text == old(text)
      ensures old(active) || evenIfDisabled ==> text == LogText(Window(Blocks(cache), offset, 0, MaxLines))
      ensures active == old(active) && offset == old(offset) && scrollValue == old(scrollValue) && cache == old(cache)
    {
      if !active && !evenIfDisabled {
        return;
      }
      text := Render(cache, offset, MaxLines);
    }

    /**
     * `RebuildFilterCache`: back at the newest line, with the cache rebuilt from every
     * logged event that passes the filter, and the text redrawn even while inactive.
     */
    method RebuildFilterCache()
      modifies this
      ensures Valid() && offset == 0 && cache == Filtered(source.events, source.filter)
      ensures text == LogText(Window(Blocks(cache), 0, 0, MaxLines))
      ensures active == old(active) && scrollValue == old(scrollValue)
    {
      offset := 0;
      cache := [];
      var events := source.events;
      var i := 0;
      while i < |events|
        invariant 0 <= i <= |events|
        invariant offset == 0 && source.events == events
        invariant active == old(active) && scrollValue == old(scrollValue)
        invariant cache == Filtered(events[..i], source.filter)
      {
        FilteredAppend(events[..i], events[i], source.filter);
        assert events[..i + 1] == events[..i] + [events[i]];
        if Matches(events[i], source.filter) {
          cache := cache + [events[i]];
        }
        i := i + 1;
      }
      assert events[..i] == events;
      UpdateText(true);
    }

    /**
     * `LogEvent`: a scrolled view moves up by the event's lines, matching or not; a matching
     * event joins the cache; the text is redrawn if the page is active.
     */
    method LogEvent(evt: LogEvent)
      requires Valid()
      modifies this
      ensures Valid() && offset == if old(offset) != 0 then old(offset) + LineCount(evt) else 0
      ensures cache == old(cache) + if Matches(evt, source.filter) then [evt] else []
      ensures old(cache) == Filtered(source.events, source.filter) ==> cache == Filtered(source.events + [evt], source.filter)
      ensures old(active) ==> text == LogText(Window(Blocks(cache), offset, 0, MaxLines))
      ensures !old(active) ==> text == old(text)
      ensures active == old(active) && scrollValue == old(scrollValue)
    {
      if offset != 0 {
        offset := offset + LineCount(evt);
      }
      if Matches(evt, source.filter) {
        cache := cache + [evt];
      }
      FilteredAppend(source.events, evt, source.filter);
      UpdateText(false);
    }

    /** The furthest the view scrolls up: the cache's event count less `MaxLines - 1`, at least 0. */
    function ScrollLimit(): (r: int)
      reads this
      ensures r >= 0
      ensures r >= |cache| - (MaxLines - 1)
      ensures r == 0 || r == |cache| - (MaxLines - 1)
    {
      if |cache| - (MaxLines - 1) > 0 then |cache| - (MaxLines - 1) else 0
    }

    /**
     * `Scroll`: `amount` is the frame's `x.y * Time.deltaTime * 25`. It builds up until it
     * reaches a whole line; then the offset moves by its whole part, clamped to the top and
     * the bottom, the text is redrawn and the build-up loses one line.
     */
    method Scroll(amount: real)
      requires Valid()
      modifies this
      ensures Valid() && cache == old(cache) && active == old(active)
      ensures -1.0 < old(scrollValue) + amount < 1.0 ==> scrollValue == old(scrollValue) + amount && offset == old(offset) && text == old(text)
      ensures !(-1.0 < old(scrollValue) + amount < 1.0) ==> offset == CsArith.MathfClamp(old(offset) + CsArith.TruncToInt(old(scrollValue) + amount), 0, ScrollLimit())
      ensures old(scrollValue) + amount >= 1.0 ==> scrollValue == old(scrollValue) + amount - 1.0
      ensures old(scrollValue) + amount <= -1.0 ==> scrollValue == old(scrollValue) + amount + 1.0
      ensures !(-1.0 < old(scrollValue) + amount < 1.0) && old(active) ==> text == LogText(Window(Blocks(cache), offset, 0, MaxLines))
      ensures 0 <= offset <= ScrollLimit() || offset == old(offset)
    {
      scrollValue := scrollValue + amount;
      if -1.0 < scrollValue < 1.0 {
        return;
      }
      offset := CsArith.MathfClamp(offset + CsArith.TruncToInt(scrollValue), 0, ScrollLimit());
      UpdateText(false);
      scrollValue := scrollValue + if scrollValue > 0.0 then -1.0 else 1.0;
    }

    /**
     * A toggle's `SetOrClearFlag` listener: the filter setting gains or loses the toggle's
     * levels, and a change of the setting rebuilds the cache.
     */
    method SetOrClearFlag(b: bool, flags: LevelFlags)
      requires Valid()
      modifies this, source
      ensures source.filter == LogEvents.SetOrClearFlag(b, old(source.filter), flags) && source.events == old(source.events)
      ensures source.filter != old(source.filter) ==> offset == 0 && cache == Filtered(source.events, source.filter)
      ensures source.filter == old(source.filter) ==> offset == old(offset) && cache == old(cache) && text == old(text)
      ensures active == old(active) && Valid()
    {
      var filter := LogEvents.SetOrClearFlag(b, source.filter, flags);
      if filter != source.filter {
        source.filter := filter;
        RebuildFilterCache();
      }
    }

    /**
     * `Start`: each toggle shows whether the filter has its levels, then the cache is built
     * and drawn. A toggle shared by two roles ends in the state of the last.
     */
    method Start()
      requires Valid()
      modifies this, DebugToggle, InfoToggle, WarningToggle, ErrorToggle
      ensures InfoToggle.state == (source.filter * InfoFlags != {})
      ensures ErrorToggle != InfoToggle ==> ErrorToggle.state == (Error in source.filter)
      ensures WarningToggle != InfoToggle && WarningToggle != ErrorToggle ==> WarningToggle.state == (Warning in source.filter)
      ensures DebugToggle !in {InfoToggle, ErrorToggle, WarningToggle} ==> DebugToggle.state == (Debug in source.filter)
      ensures offset == 0 && cache == Filtered(source.events, source.filter)
      ensures text == LogText(Window(Blocks(cache), 0, 0, MaxLines))
      ensures source.events == old(source.events) && source.filter == old(source.filter) && Valid()
    {
      var filter := source.filter;
      DebugToggle.SetState(Debug in filter);
      WarningToggle.SetState(Warning in filter);
      ErrorToggle.SetState(Error in filter);
      InfoToggle.SetState(filter * InfoFlags != {});
      RebuildFilterCache();
      UpdateText(true);
    }
  }
}
