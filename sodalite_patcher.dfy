/**
 * The preloader patcher (`SodalitePatcher.cs`): it makes up a Steam ID for the
 * session, and, once the chainloader starts, either hooks the game's Steam ID
 * getter to return it (when the configuration asks for spoofing) or takes the
 * real ID as the session's. Its log buffer keeps every BepInEx log event.
 */
module SodalitePatcher {
  import opened Wrappers

  /** `76_561_197_960_265_728ul`: universe 1, individual account, desktop instance, account 0. */
  const SteamIdBase: bv64 := 76561197960265728

  /** The line of the configuration file that turns spoofing on. */
  const SpoofSetting: string := "SpoofSteamUserID = true"

  /** The log message of the chainloader that triggers the check. */
  const ChainloaderStarted: string := "Chainloader started"

  /** `rand | 76_561_197_960_265_728ul`, with `rand` the four random bytes read as an unsigned number. */
  function SessionIdOf(rand: bv32): bv64
  {
    (rand as bv64) | SteamIdBase
  }

  /** The base's low word is zero and its high word is `0x01100001`. */
  lemma SteamIdBaseWords()
    ensures SteamIdBase & 0xFFFF_FFFF == 0
    ensures SteamIdBase >> 32 == 0x0110_0001
  {
  }

  /** The session ID is the random account number in the low word under the fixed high word. */
  lemma SessionIdWords(rand: bv32)
    ensures SessionIdOf(rand) & 0xFFFF_FFFF == rand as bv64
    ensures SessionIdOf(rand) >> 32 == 0x0110_0001
  {
    SteamIdBaseWords();
    assert (rand as bv64) >> 32 == 0;
  }

  /** Distinct random numbers make distinct session IDs. */
  lemma SessionIdInjective(a: bv32, b: bv32)
    requires a != b
    ensures SessionIdOf(a) != SessionIdOf(b)
  {
    SessionIdWords(a);
    SessionIdWords(b);
  }

  /** `line.Contains(pattern)`. */
  function Contains(line: string, pattern: string): bool
    decreases |line|
  {
    |pattern| <= |line| && (line[..|pattern|] == pattern || Contains(line[1..], pattern))
  }

  /** The pattern occurs in the line starting at position `i`. */
  predicate OccursAt(line: string, pattern: string, i: int)
  {
    0 <= i <= |line| - |pattern| && line[i..i + |pattern|] == pattern
  }

  /** `Contains` finds the pattern exactly when it occurs at some position. */
  lemma {:induction false} ContainsOccurs(line: string, pattern: string)
    ensures Contains(line, pattern) <==> exists i :: OccursAt(line, pattern, i)
    decreases |line|
  {
    if |pattern| <= |line| {
      if line[..|pattern|] == pattern {
        assert OccursAt(line, pattern, 0);
      } else {
        ContainsOccurs(line[1..], pattern);
        if Contains(line[1..], pattern) {
          var i :| OccursAt(line[1..], pattern, i);
          assert line[1..][i..i + |pattern|] == line[i + 1..i + 1 + |pattern|];
          assert OccursAt(line, pattern, i + 1);
        }
        if exists i :: OccursAt(line, pattern, i) {
          var i :| OccursAt(line, pattern, i);
          assert i != 0;
          assert line[1..][i - 1..i - 1 + |pattern|] == line[i..i + |pattern|];
          assert OccursAt(line[1..], pattern, i - 1);
        }
      }
    }
  }

  /** `File.ReadAllLines(configPath).Any(line => line.Contains(...))`, and false when there is no file. */
  function SpoofRequested(config: Option<seq<string>>): bool
  {
    config.Some? && AnyLineSpoofs(config.value)
  }

  /** Some line holds the spoof setting. */
  function AnyLineSpoofs(lines: seq<string>): bool
  {
    if lines == [] then false else Contains(lines[0], SpoofSetting) || AnyLineSpoofs(lines[1..])
  }

  /** The hook is asked for exactly when the file exists and one of its lines holds the setting. */
  lemma {:induction false} SpoofRequestedIff(config: Option<seq<string>>)
    ensures SpoofRequested(config) <==>
      config.Some? && exists k :: 0 <= k < |config.value| && Contains(config.value[k], SpoofSetting)
  {
    if config.Some? {
      AnyLineSpoofsIff(config.value);
    }
  }

  lemma {:induction false} AnyLineSpoofsIff(lines: seq<string>)
    ensures AnyLineSpoofs(lines) <==> exists k :: 0 <= k < |lines| && Contains(lines[k], SpoofSetting)
  {
    if lines != [] {
      AnyLineSpoofsIff(lines[1..]);
      if AnyLineSpoofs(lines[1..]) {
        var k :| 0 <= k < |lines[1..]| && Contains(lines[1..][k], SpoofSetting);
        assert Contains(lines[k + 1], SpoofSetting);
      }
      if exists k :: 0 <= k < |lines| && Contains(lines[k], SpoofSetting) {
        var k :| 0 <= k < |lines| && Contains(lines[k], SpoofSetting);
        if k > 0 {
          assert Contains(lines[1..][k - 1], SpoofSetting);
        }
      }
    }
  }

  /** A file of no lines, or no file at all, asks for no hook. */
  lemma NoConfigNoHook()
    ensures !SpoofRequested(None) && !SpoofRequested(Some([]))
  {
  }

  /** The patcher's static state: the session ID and whether the getter is hooked. */
  class Patcher {
    var sessionId: bv64
    var hooked: bool

    /** The static constructor, given the four random bytes as an unsigned number. */
    constructor (rand: bv32)
      ensures sessionId == SessionIdOf(rand) && !hooked
    {
      sessionId := SessionIdOf(rand);
      hooked := false;
    }

    /** `ISteamUser_GetSteamID` as the game sees it: the session ID once hooked, the real ID before. */
    function SteamId(realId: bv64): (r: bv64)
      reads this
      ensures hooked ==> r == sessionId
      ensures !hooked ==> r == realId
    {
      if hooked then sessionId else realId
    }

    /**
     * `CheckSpoofSteamUserID`: without the firstpass assembly, or when loading the native
     * Steam code throws (the exception is swallowed), nothing changes. Otherwise the
     * configuration decides: asked to spoof, the getter is hooked; not asked, the session ID
     * becomes what the getter returns. Before the hook that is the real ID. Once the getter
     * is hooked, the detour patched the function in place, so `original()` returns the
     * session ID itself and nothing changes.
     */
    method CheckSpoofSteamUserID(firstpassLoaded: bool, nativeLoads: bool, config: Option<seq<string>>, realId: bv64)
      modifies this
      ensures !firstpassLoaded || !nativeLoads ==> sessionId == old(sessionId) && hooked == old(hooked)
      ensures firstpassLoaded && nativeLoads && SpoofRequested(config) ==>
        hooked && sessionId == old(sessionId)
      ensures firstpassLoaded && nativeLoads && !SpoofRequested(config) ==>
        sessionId == (if old(hooked) then old(sessionId) else realId) && hooked == old(hooked)
      ensures firstpassLoaded && nativeLoads ==>
        SteamId(realId) == if SpoofRequested(config) || old(hooked) then old(sessionId) else realId
    {
      if !firstpassLoaded {
        return;
      }
      if !nativeLoads {
        return;
      }
      var applyHook := false;
      if config.Some? {
        applyHook := AnyLineSpoofs(config.value);
      }
      if applyHook {
        hooked := true;
      } else {
        sessionId := SteamId(realId);
      }
    }
  }

  /** The `Data` of a log event: a string, or some other object. */
  datatype LogData = Text(text: string) | OtherData

  /** `LogEventArgs`. */
  datatype LogEventArgs = LogEventArgs(data: LogData, source: string)

  /** Whether `eventArgs.Data is "Chainloader started"`. */
  predicate StartsChainloader(e: LogEventArgs)
  {
    e.data == Text(ChainloaderStarted)
  }

  /** `LogBuffer`: a log listener that keeps every event. */
  class LogBuffer {
    /** `LogEvents`, in arrival order. */
    var logEvents: seq<LogEventArgs>

    constructor ()
      ensures logEvents == []
    {
      logEvents := [];
    }

    /**
     * `LogEvent`: the event is kept at the end, and the chainloader's start message runs
     * the spoof check; any other event leaves the patcher as it was.
     */
    method LogEvent(e: LogEventArgs, patcher: Patcher, firstpassLoaded: bool, nativeLoads: bool,
                    config: Option<seq<string>>, realId: bv64)
      modifies this, patcher
      ensures logEvents == old(logEvents) + [e]
      ensures !StartsChainloader(e) ==> patcher.sessionId == old(patcher.sessionId) && patcher.hooked == old(patcher.hooked)
      ensures StartsChainloader(e) && firstpassLoaded && nativeLoads ==>
        patcher.SteamId(realId) == if SpoofRequested(config) || old(patcher.hooked) then old(patcher.sessionId) else realId
      ensures StartsChainloader(e) && firstpassLoaded && nativeLoads && SpoofRequested(config) ==> patcher.hooked
    {
      logEvents := logEvents + [e];
      if StartsChainloader(e) {
        patcher.CheckSpoofSteamUserID(firstpassLoaded, nativeLoads, config, realId);
      }
    }
  }
}
