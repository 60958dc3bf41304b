/**
 * `ObservableHashSet<T>`: a list that refuses duplicates on `Add` and reports every
 * item it adds or removes through the `ItemAdded` and `ItemRemoved` events. The
 * events are modelled as the logs of the items they were invoked with, in order.
 * The forwarding members (`Insert`, the indexer setter, `Clear`) bypass both the
 * duplicate check and the events.
 */
module ObservableHashSet {
  import opened Wrappers
  import LiveObjects

  /** The exceptions the list operations throw. */
  datatype ListError = IndexOutOfRange | ArgumentOutOfRange | Argument

  /** No item occurs twice: what a hash set promises. */
  predicate Distinct<T(==)>(s: seq<T>)
  {
    forall i, j :: 0 <= i < j < |s| ==> s[i] != s[j]
  }

  /** `List.Remove`: the list without the first occurrence of `x` (unchanged when `x` is absent). */
  function RemoveFirst<T(==)>(s: seq<T>, x: T): (r: seq<T>)
    ensures x !in s ==> r == s
    ensures x in s ==> |r| == |s| - 1 && multiset(r) == multiset(s) - multiset{x}
    ensures forall y :: y in r ==> y in s
  {
    if s == [] then []
    else
      assert s == [s[0]] + s[1..];
      if s[0] == x then s[1..] else [s[0]] + RemoveFirst(s[1..], x)
  }

  /** The list after `Add(x)`: `x` appended unless already present. */
  function Added<T(==)>(s: seq<T>, x: T): (r: seq<T>)
    ensures x in r
    ensures x in s ==> r == s
    ensures x !in s ==> r == s + [x]
  {
    if x in s then s else s + [x]
  }

  /** `List.Insert(index, x)`: `x` at position `index`, the rest shifted up; out of range throws. */
  function Inserted<T>(s: seq<T>, index: int, x: T): (r: Result<seq<T>, ListError>)
    ensures r.Err? <==> !(0 <= index <= |s|)
    ensures r.Ok? ==> |r.value| == |s| + 1 && r.value[index] == x
    ensures r.Ok? ==> r.value[..index] == s[..index] && r.value[index + 1..] == s[index..]
  {
    if 0 <= index <= |s| then Ok(s[..index] + [x] + s[index..]) else Err(ArgumentOutOfRange)
  }

  /** Adding keeps a duplicate-free list duplicate-free. */
  lemma AddKeepsDistinct<T>(s: seq<T>, x: T)
    requires Distinct(s)
    ensures Distinct(Added(s, x))
  {
    if x !in s {
      var r := s + [x];
      forall i, j | 0 <= i < j < |r| ensures r[i] != r[j] {
        if j == |s| {
          assert r[i] == s[i];
        }
      }
    }
  }

  /** Removing keeps a duplicate-free list duplicate-free, and then the item is gone. */
  lemma {:induction false} RemoveKeepsDistinct<T>(s: seq<T>, x: T)
    requires Distinct(s)
    ensures Distinct(RemoveFirst(s, x))
    ensures x !in RemoveFirst(s, x)
  {
    if s != [] {
      assert forall i :: 1 <= i < |s| ==> s[i] == s[1..][i - 1];
      if s[0] == x {
        assert x !in s[1..] by {
          forall i | 0 <= i < |s| - 1 ensures s[1..][i] != x {
            assert s[0] != s[i + 1];
          }
        }
      } else {
        RemoveKeepsDistinct(s[1..], x);
        var t := RemoveFirst(s[1..], x);
        var r := [s[0]] + t;
        assert s[0] !in t by {
          assert forall y :: y in t ==> y in s[1..];
          forall i | 0 <= i < |s| - 1 ensures s[1..][i] != s[0] {
            assert s[0] != s[i + 1];
          }
        }
        forall i, j | 0 <= i < j < |r| ensures r[i] != r[j] {
          if i == 0 {
            assert r[j] == t[j - 1];
          } else {
            assert r[i] == t[i - 1] && r[j] == t[j - 1];
          }
        }
      }
    }
  }

  /** On a duplicate-free list, removing an item keeps exactly the other items. */
  lemma RemoveOnDistinct<T>(s: seq<T>, x: T, y: T)
    requires Distinct(s)
    ensures y in RemoveFirst(s, x) <==> y in s && y != x
  {
    RemoveKeepsDistinct(s, x);
    var r := RemoveFirst(s, x);
    if y in s && y != x {
      assert multiset(s)[y] > 0;
      assert multiset(r)[y] == multiset(s)[y];
    }
  }

  /** Adding an item that was absent and then removing it gives the list back. */
  lemma {:induction false} AddThenRemove<T>(s: seq<T>, x: T)
    requires x !in s
    ensures RemoveFirst(Added(s, x), x) == s
  {
    if s != [] {
      assert (s + [x])[0] == s[0];
      assert (s + [x])[1..] == s[1..] + [x];
      AddThenRemove(s[1..], x);
      assert [s[0]] + s[1..] == s;
    }
  }

  /** An `Insert` can put a second copy of an item in the list. */
  lemma InsertMayDuplicate()
    ensures Distinct([1]) && Inserted([1], 0, 1) == Ok([1, 1]) && !Distinct([1, 1])
  {
    assert [1][..0] + [1] + [1][0..] == [1, 1];
  }

  /** The mutations that respect the set: `Add`, `Remove` and `RemoveAt`. */
  datatype SetOp<T> = AddOp(item: T) | RemoveOp(item: T) | RemoveAtOp(index: int)

  /** One such mutation on a list; a `RemoveAt` out of range throws and leaves the list as it is. */
  function Apply<T(==)>(s: seq<T>, op: SetOp<T>): seq<T>
  {
    match op
    case AddOp(x) => Added(s, x)
    case RemoveOp(x) => RemoveFirst(s, x)
    case RemoveAtOp(i) => if 0 <= i < |s| then RemoveFirst(s, s[i]) else s
  }

  /** A run of such mutations, oldest first. */
  function Run<T(==)>(s: seq<T>, ops: seq<SetOp<T>>): seq<T>
    decreases |ops|
  {
    if ops == [] then s else Run(Apply(s, ops[0]), ops[1..])
  }

  /** Starting from a duplicate-free list, no run of `Add`, `Remove` and `RemoveAt` creates a duplicate. */
  lemma {:induction false} RunKeepsDistinct<T>(s: seq<T>, ops: seq<SetOp<T>>)
    requires Distinct(s)
    ensures Distinct(Run(s, ops))
    decreases |ops|
  {
    if ops != [] {
      match ops[0] {
        case AddOp(x) => AddKeepsDistinct(s, x);
        case RemoveOp(x) => RemoveKeepsDistinct(s, x);
        case RemoveAtOp(i) => if 0 <= i < |s| { RemoveKeepsDistinct(s, s[i]); }
      }
      RunKeepsDistinct(Apply(s, ops[0]), ops[1..]);
    }
  }

  class ObservableHashSet<T(==)> {
    /** `_list`. */
    var list: seq<T>
    /** The items `ItemAdded` was invoked with, oldest first. */
    var added: seq<T>
    /** The items `ItemRemoved` was invoked with, oldest first. */
    var removed: seq<T>

    constructor ()
      ensures list == [] && added == [] && removed == []
    {
      list := [];
      added := [];
      removed := [];
    }

    /** `Add`: an item already present changes nothing and fires nothing; a new one is appended and fires once. */
    method Add(item: T)
      modifies this
      ensures list == Added(old(list), item)
      ensures added == if item in old(list) then old(added) else old(added) + [item]
      ensures removed == old(removed)
    {
      if item in list {
        return;
      }
      list := list + [item];
      added := added + [item];
    }

    /** `Remove`: true exactly when the item was present; then its first occurrence goes and the event fires. */
    method Remove(item: T) returns (ret: bool)
      modifies this
      ensures ret <==> item in old(list)
      ensures list == RemoveFirst(old(list), item)
      ensures removed == if ret then old(removed) + [item] else old(removed)
      ensures added == old(added)
    {
      ret := item in list;
      list := RemoveFirst(list, item);
      if ret {
        removed := removed + [item];
      }
    }

    /**
     * `RemoveAt`: an index at or past the end throws `IndexOutOfRangeException`, a negative
     * one the indexer's `ArgumentOutOfRangeException`; otherwise it is `Remove(list[index])`.
     */
    method RemoveAt(index: int) returns (r: Result<(), ListError>)
      modifies this
      ensures index >= |old(list)| <==> r == Err(IndexOutOfRange)
      ensures index < 0 <==> r == Err(ArgumentOutOfRange)
      ensures r.Err? ==> list == old(list) && added == old(added) && removed == old(removed)
      ensures r.Ok? ==> list == RemoveFirst(old(list), old(list)[index])
      ensures r.Ok? ==> removed == old(removed) + [old(list)[index]] && added == old(added)
    {
      if index >= |list| {
        return Err(IndexOutOfRange);
      }
      if index < 0 {
        return Err(ArgumentOutOfRange);
      }
      var _ := Remove(list[index]);
      r := Ok(());
    }

    /** The indexer's getter. */
    function Get(index: int): (r: Result<T, ListError>)
      reads this
      ensures r.Ok? <==> 0 <= index < |list|
      ensures r.Ok? ==> r.value == list[index]
      ensures r.Err? ==> r.error == ArgumentOutOfRange
    {
      if 0 <= index < |list| then Ok(list[index]) else Err(ArgumentOutOfRange)
    }

    /** The indexer's setter: overwrites without a duplicate check and fires nothing. */
    method Set(index: int, value: T) returns (r: Result<(), ListError>)
      modifies this
      ensures r.Ok? <==> 0 <= index < |old(list)|
      ensures r.Ok? ==> list == old(list)[index := value]
      ensures r.Err? ==> r.error == ArgumentOutOfRange && list == old(list)
      ensures added == old(added) && removed == old(removed)
    {
      if 0 <= index < |list| {
        list := list[index := value];
        return Ok(());
      }
      return Err(ArgumentOutOfRange);
    }

    function Count(): (n: nat)
      reads this
      ensures n == |list|
    {
      |list|
    }

    /** `Clear`: empties the list without firing `ItemRemoved`. */
    method Clear()
      modifies this
      ensures list == [] && added == old(added) && removed == old(removed)
    {
      list := [];
    }

    function Contains(item: T): (b: bool)
      reads this
      ensures b <==> exists i :: 0 <= i < |list| && list[i] == item
    {
      item in list
    }

    /** `List.IndexOf`: the first position holding the item, or -1. */
    function IndexOf(item: T): (r: int)
      reads this
      ensures -1 <= r < |list|
      ensures r == -1 <==> item !in list
      ensures r >= 0 ==> list[r] == item && item !in list[..r]
    {
      LiveObjects.IndexOf(list, item)
    }

    /** `Insert`: adds without a duplicate check and fires nothing. */
    method Insert(index: int, item: T) returns (r: Result<(), ListError>)
      modifies this
      ensures r.Ok? ==> Inserted(old(list), index, item) == Ok(list)
      ensures r.Err? ==> Inserted(old(list), index, item).Err? && list == old(list)
      ensures added == old(added) && removed == old(removed)
    {
      var ins := Inserted(list, index, item);
      if ins.Err? {
        return Err(ins.error);
      }
      list := ins.value;
      r := Ok(());
    }

    /**
     * `CopyTo`: the items into `arr` from `arrayIndex` on; a negative start and a
     * range that does not fit throw before anything is copied.
     */
    method CopyTo(arr: array<T>, arrayIndex: int) returns (r: Result<(), ListError>)
      modifies arr
      ensures r.Err? <==> arrayIndex < 0 || arr.Length - arrayIndex < |list|
      ensures r.Err? ==> r.error == (if arrayIndex < 0 then ArgumentOutOfRange else Argument)
      ensures r.Err? ==> arr[..] == old(arr[..])
      ensures r.Ok? ==> arr[arrayIndex..arrayIndex + |list|] == list
      ensures r.Ok? ==> arr[..arrayIndex] == old(arr[..arrayIndex])
      ensures r.Ok? ==> arr[arrayIndex + |list|..] == old(arr[arrayIndex + |list|..])
    {
      if arrayIndex < 0 {
        return Err(ArgumentOutOfRange);
      }
      if arr.Length - arrayIndex < |list| {
        return Err(Argument);
      }
      var k := 0;
      while k < |list|
        invariant 0 <= k <= |list|
        invariant arr[arrayIndex..arrayIndex + k] == list[..k]
        invariant arr[..arrayIndex] == old(arr[..arrayIndex])
        invariant arr[arrayIndex + k..] == old(arr[arrayIndex + k..])
      {
        arr[arrayIndex + k] := list[k];
        k := k + 1;
      }
      r := Ok(());
    }
  }
}
