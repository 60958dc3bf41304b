/** The small helpers of `SodaliteUtils`: `CountLines`, `HasFlag` and `GetRandom`. */
module SodaliteUtils {
  import opened Wrappers

  /** The exception thrown for a null or empty argument. */
  datatype UtilError = ArgumentNull | EmptyList

  /** The number of newline characters in `s`. */
  function Newlines(s: string): nat
  {
    multiset(s)['\n']
  }

  /** The number of lines of a string: none for the empty string, otherwise one more than its newlines. */
  function LineCount(s: string): nat
  {
    if s == "" then 0 else Newlines(s) + 1
  }

  /** `str.IndexOf(c, start)`: the first position at or after `start` holding `c`, or -1. */
  function IndexFrom(s: string, c: char, start: nat): (r: int)
    requires start <= |s|
    ensures r == -1 ==> c !in s[start..]
    ensures r != -1 ==> start <= r < |s| && s[r] == c && c !in s[start..r]
    decreases |s| - start
  {
    if start == |s| then -1
    else if s[start] == c then start
    else
      var r := IndexFrom(s, c, start + 1);
      assert s[start..] == [s[start]] + s[start + 1..];
      assert r != -1 ==> s[start..r] == [s[start]] + s[start + 1..r];
      r
  }

  /** A string cut at `i` and `j`, as multisets. */
  lemma SplitCount(s: string, i: nat, j: nat)
    requires i <= j < |s|
    ensures multiset(s[..j + 1]) == multiset(s[..i]) + multiset(s[i..j]) + multiset{s[j]}
  {
    assert s[..j + 1] == s[..i] + s[i..j] + [s[j]];
  }

  /** `CountLines`: the loop finds every newline with `IndexOf`, starting after the last one found. */
  method CountLines(str: Option<string>) returns (r: Result<nat, UtilError>)
    ensures str.None? <==> r.Err?
    ensures r.Err? ==> r.error == ArgumentNull
    ensures str.Some? ==> r == Ok(LineCount(str.value))
  {
    if str.None? {
      return Err(ArgumentNull);
    }
    var s := str.value;
    if s == "" {
      return Ok(0);
    }
    var index := -1;
    var count := 0;
    while true
      invariant -1 <= index < |s|
      invariant count == multiset(s[..index + 1])['\n']
      decreases |s| - index
    {
      var next := IndexFrom(s, '\n', index + 1);
      if next == -1 {
        assert s == s[..index + 1] + s[index + 1..];
        assert multiset(s[index + 1..])['\n'] == 0;
        return Ok(count + 1);
      }
      SplitCount(s, index + 1, next);
      assert multiset(s[index + 1..next])['\n'] == 0;
      count := count + 1;
      index := next;
    }
  }

  /** `s.Split(sep)`: the pieces between separators, an empty piece wherever two are adjacent. */
  function Split(s: string, sep: char): (r: seq<string>)
    ensures |r| > 0
    ensures forall k :: 0 <= k < |r| ==> sep !in r[k]
  {
    if s == [] then [""]
    else
      var rest := Split(s[1..], sep);
      if s[0] == sep then [""] + rest
      else [[s[0]] + rest[0]] + rest[1..]
  }

  /** Joining the pieces with the separator gives the string back. */
  function Join(parts: seq<string>, sep: char): string
  {
    if parts == [] then "" else if |parts| == 1 then parts[0] else parts[0] + [sep] + Join(parts[1..], sep)
  }

  lemma {:induction false} SplitJoin(s: string, sep: char)
    ensures Join(Split(s, sep), sep) == s
  {
    if s != [] {
      SplitJoin(s[1..], sep);
      var rest := Split(s[1..], sep);
      if s[0] != sep {
        if |rest| == 1 {
          assert Split(s, sep) == [[s[0]] + rest[0]];
        } else {
          assert Split(s, sep)[1..] == rest[1..];
          assert Join(rest, sep) == rest[0] + [sep] + Join(rest[1..], sep);
        }
      }
    }
  }

  /** Splitting pieces that hold no separator, joined by it, gives the pieces back. */
  lemma {:induction false} JoinSplit(parts: seq<string>, sep: char)
    requires |parts| > 0 && forall k :: 0 <= k < |parts| ==> sep !in parts[k]
    ensures Split(Join(parts, sep), sep) == parts
    decreases |parts|, |parts[0]|
  {
    if |parts| == 1 {
      SplitPlain(parts[0], sep);
    } else {
      var tail := Join(parts[1..], sep);
      JoinSplit(parts[1..], sep);
      SplitPrefix(parts[0], tail, sep);
      assert [parts[0]] + parts[1..] == parts;
    }
  }

  /** A string with no separator splits into itself alone. */
  lemma {:induction false} SplitPlain(s: string, sep: char)
    requires sep !in s
    ensures Split(s, sep) == [s]
  {
    if s != [] {
      SplitPlain(s[1..], sep);
      assert [s[0]] + s[1..] == s;
    }
  }

  /** A separator-free piece followed by a separator splits off as the first piece. */
  lemma {:induction false} SplitPrefix(a: string, t: string, sep: char)
    requires sep !in a
    ensures Split(a + [sep] + t, sep) == [a] + Split(t, sep)
  {
    if a == [] {
      assert a + [sep] + t == [sep] + t;
      assert ([sep] + t)[1..] == t;
    } else {
      SplitPrefix(a[1..], t, sep);
      assert (a + [sep] + t)[1..] == a[1..] + [sep] + t;
      assert [a[0]] + a[1..] == a;
    }
  }

  /** Every piece boundary is a separator: a string has as many pieces as separators, plus one. */
  lemma {:induction false} SplitLength(s: string, sep: char)
    ensures |Split(s, sep)| == multiset(s)[sep] + 1
  {
    if s != [] {
      SplitLength(s[1..], sep);
      assert s == [s[0]] + s[1..];
      assert multiset(s) == multiset{s[0]} + multiset(s[1..]);
    }
  }

  /** A non-empty string counts as many lines as `Split('\n')` gives pieces. */
  lemma CountLinesIsSplitLength(s: string)
    requires s != ""
    ensures LineCount(s) == |Split(s, '\n')|
  {
    SplitLength(s, '\n');
  }

  /** Joining two non-empty texts with a newline adds their line counts. */
  lemma CountLinesJoin(s: string, t: string)
    requires s != "" && t != ""
    ensures LineCount(s + "\n" + t) == LineCount(s) + LineCount(t)
  {
    assert multiset(s + "\n" + t) == multiset(s) + multiset{'\n'} + multiset(t);
  }

  /** `HasFlag` on the 32-bit values of two enum members: they share a set bit. */
  function HasFlag(value: bv32, flag: bv32): bool
  {
    value & flag != 0
  }

  /** No value has the zero flag, and a value has itself exactly when it is not zero. */
  lemma HasFlagZero(value: bv32)
    ensures !HasFlag(value, 0) && !HasFlag(0, value)
    ensures HasFlag(value, value) <==> value != 0
  {
  }

  /** A combined flag value has a flag exactly when one of its parts has it. */
  lemma HasFlagUnion(a: bv32, b: bv32, flag: bv32)
    ensures HasFlag(a | b, flag) <==> HasFlag(a, flag) || HasFlag(b, flag)
  {
    assert (a | b) & flag == (a & flag) | (b & flag);
  }

  /**
   * `GetRandom`: throws on an empty list, otherwise the element at the index the random
   * source produced; `draw` is that source's output, reduced into the list's range.
   */
  function GetRandom<T>(list: seq<T>, draw: nat): (r: Result<T, UtilError>)
    ensures r.Err? <==> |list| == 0
    ensures r.Err? ==> r.error == EmptyList
    ensures r.Ok? ==> r.value in list
  {
    if |list| < 1 then Err(EmptyList) else Ok(list[draw % |list|])
  }

  /** Every element of a non-empty list is a possible outcome. */
  lemma GetRandomReaches<T>(list: seq<T>, i: nat)
    requires i < |list|
    ensures GetRandom(list, i) == Ok(list[i])
  {
  }

  /** Concatenation is associative. */
  lemma ConcatAssoc<T>(a: seq<T>, b: seq<T>, c: seq<T>)
    ensures a + (b + c) == (a + b) + c
  {
  }
}
