/**
 * The loop-based magazine pickers of `FirearmUtils` and `FVRObjectExtensions`, which
 * share one algorithm each: the smallest-capacity pick, the next-highest pick with
 * its quirks, and the filtered compatible-magazine list of `FirearmUtils`.
 * A blacklist is a nullable list of item ids; `draw` is the random source's output.
 */
module MagazineSelection {
  import opened Wrappers
  import opened Host
  import SodaliteUtils
  import opened Firearm

  /** `blacklist is null || !blacklist.Contains(m.ItemID)`. */
  predicate Allowed(m: FVRObject, blacklist: Option<seq<string>>)
  {
    blacklist.None? || m.ItemID !in blacklist.value
  }

  /** The entries that are not blacklisted, in order. */
  function AllowedOf(s: seq<FVRObject>, blacklist: Option<seq<string>>): (r: seq<FVRObject>)
    ensures |r| <= |s|
  {
    if s == [] then [] else (if Allowed(s[0], blacklist) then [s[0]] else []) + AllowedOf(s[1..], blacklist)
  }

  /** An entry is kept exactly when it is in the list and not blacklisted. */
  lemma {:induction false} AllowedOfMembers(s: seq<FVRObject>, blacklist: Option<seq<string>>)
    ensures forall x :: x in AllowedOf(s, blacklist) <==> x in s && Allowed(x, blacklist)
  {
    if s != [] {
      AllowedOfMembers(s[1..], blacklist);
      assert s == [s[0]] + s[1..];
    }
  }

  /** The entries of one capacity, in order. */
  function WithCapacity(s: seq<FVRObject>, cap: int): (r: seq<FVRObject>)
    ensures |r| <= |s|
  {
    if s == [] then [] else (if s[0].MagazineCapacity == cap then [s[0]] else []) + WithCapacity(s[1..], cap)
  }

  /** An entry is kept exactly when it is in the list with that capacity. */
  lemma {:induction false} WithCapacityMembers(s: seq<FVRObject>, cap: int)
    ensures forall x :: x in WithCapacity(s, cap) <==> x in s && x.MagazineCapacity == cap
  {
    if s != [] {
      WithCapacityMembers(s[1..], cap);
      assert s == [s[0]] + s[1..];
    }
  }

  lemma {:induction false} AllowedOfAppend(s: seq<FVRObject>, m: FVRObject, blacklist: Option<seq<string>>)
    ensures AllowedOf(s + [m], blacklist) == AllowedOf(s, blacklist) + (if Allowed(m, blacklist) then [m] else [])
  {
    if s == [] {
      assert [m][1..] == [];
    } else {
      var head := if Allowed(s[0], blacklist) then [s[0]] else [];
      assert AllowedOf(s + [m], blacklist) == head + AllowedOf(s[1..] + [m], blacklist) by {
        assert (s + [m])[0] == s[0];
        assert (s + [m])[1..] == s[1..] + [m];
      }
      AllowedOfAppend(s[1..], m, blacklist);
    }
  }

  lemma {:induction false} WithCapacityAppend(s: seq<FVRObject>, m: FVRObject, cap: int)
    ensures WithCapacity(s + [m], cap) == WithCapacity(s, cap) + (if m.MagazineCapacity == cap then [m] else [])
  {
    if s == [] {
      assert [m][1..] == [];
    } else {
      var rest := s[1..];
      WithCapacityAppend(rest, m, cap);
      var head := if s[0].MagazineCapacity == cap then [s[0]] else [];
      var tail := if m.MagazineCapacity == cap then [m] else [];
      var w := WithCapacity(rest, cap);
      assert (s + [m])[0] == s[0];
      assert (s + [m])[1..] == rest + [m];
      assert WithCapacity(s, cap) == head + w;
      assert WithCapacity(s + [m], cap) == head + WithCapacity(rest + [m], cap);
      SodaliteUtils.ConcatAssoc(head, w, tail);
    }
  }

  lemma {:induction false} WithCapacityNone(s: seq<FVRObject>, cap: int)
    requires forall x :: x in s ==> x.MagazineCapacity != cap
    ensures WithCapacity(s, cap) == []
  {
    if s != [] {
      assert s[0] in s;
      assert forall x :: x in s[1..] ==> x in s;
      WithCapacityNone(s[1..], cap);
    }
  }

  // ---------------------------------------------------------------- smallest capacity

  /** The candidate list of the smallest pick: every allowed entry of the least allowed capacity, in order. */
  function Smallest(s: seq<FVRObject>, blacklist: Option<seq<string>>): seq<FVRObject>
  {
    var a := AllowedOf(s, blacklist);
    if a == [] then [] else WithCapacity(a, MinCapacity(a))
  }

  /** The candidates are exactly the allowed entries that no allowed entry undercuts. */
  lemma SmallestMeans(s: seq<FVRObject>, blacklist: Option<seq<string>>)
    ensures Smallest(s, blacklist) == [] <==> forall x :: x in s ==> !Allowed(x, blacklist)
    ensures forall x :: x in Smallest(s, blacklist) <==>
              x in s && Allowed(x, blacklist)
              && forall y :: y in s && Allowed(y, blacklist) ==> x.MagazineCapacity <= y.MagazineCapacity
  {
    var a := AllowedOf(s, blacklist);
    AllowedOfMembers(s, blacklist);
    if a != [] {
      var k := MinCapacity(a);
      WithCapacityMembers(a, k);
      var w :| w in a && w.MagazineCapacity == k;
      assert w in Smallest(s, blacklist);
    } else {
      assert forall x :: x in s ==> !Allowed(x, blacklist) by {
        forall x | x in s
          ensures !Allowed(x, blacklist)
        {
          assert Allowed(x, blacklist) ==> x in a;
        }
      }
    }
  }

  /** The least capacity of a list grown by one entry. */
  lemma MinCapacityAppend(a: seq<FVRObject>, m: FVRObject)
    requires a != []
    ensures MinCapacity(a + [m]) == if m.MagazineCapacity < MinCapacity(a) then m.MagazineCapacity else MinCapacity(a)
  {
    var n := MinCapacity(a + [m]);
    assert forall x :: x in a + [m] <==> x in a || x == m;
    var w :| w in a && w.MagazineCapacity == MinCapacity(a);
    assert w in a + [m] && m in a + [m];
  }

  /** A blacklisted entry leaves the candidates as they are. */
  lemma SmallestSkip(s: seq<FVRObject>, m: FVRObject, blacklist: Option<seq<string>>)
    requires !Allowed(m, blacklist)
    ensures Smallest(s + [m], blacklist) == Smallest(s, blacklist)
  {
    AllowedOfAppend(s, m, blacklist);
    assert AllowedOf(s + [m], blacklist) == AllowedOf(s, blacklist) + [];
    assert AllowedOf(s, blacklist) + [] == AllowedOf(s, blacklist);
  }

  /** One turn of the smallest-pick loop over an entry that is not blacklisted. */
  lemma SmallestStep(s: seq<FVRObject>, m: FVRObject, blacklist: Option<seq<string>>)
    requires Allowed(m, blacklist)
    ensures var c := Smallest(s, blacklist);
            Smallest(s + [m], blacklist) ==
              if c == [] then [m]
              else if m.MagazineCapacity < c[0].MagazineCapacity then [m]
              else if m.MagazineCapacity == c[0].MagazineCapacity then c + [m]
              else c
  {
    var a := AllowedOf(s, blacklist);
    AllowedOfAppend(s, m, blacklist);
    if a == [] {
      assert a + [m] == [m];
      assert WithCapacity([m], m.MagazineCapacity) == [m];
    } else {
      var k := MinCapacity(a);
      var c := WithCapacity(a, k);
      WithCapacityMembers(a, k);
      var w :| w in a && w.MagazineCapacity == k;
      assert w in c;
      assert c[0] in c;
      MinCapacityAppend(a, m);
      WithCapacityAppend(a, m, MinCapacity(a + [m]));
      if m.MagazineCapacity < k {
        WithCapacityNone(a, m.MagazineCapacity);
      }
    }
  }

  /** The candidates after one more entry: a blacklisted one changes nothing, a smaller one starts over, an equal one joins. */
  function Consider(c: seq<FVRObject>, m: FVRObject, blacklist: Option<seq<string>>): seq<FVRObject>
  {
    if !Allowed(m, blacklist) then c
    else if c == [] then [m]
    else if m.MagazineCapacity < c[0].MagazineCapacity then [m]
    else if m.MagazineCapacity == c[0].MagazineCapacity then c + [m]
    else c
  }

  /** One turn of the smallest-pick loop keeps the candidates of the prefix read so far. */
  lemma SmallestTurn(s: seq<FVRObject>, i: nat, blacklist: Option<seq<string>>)
    requires i < |s|
    ensures Smallest(s[..i + 1], blacklist) == Consider(Smallest(s[..i], blacklist), s[i], blacklist)
  {
    assert s[..i + 1] == s[..i] + [s[i]];
    if Allowed(s[i], blacklist) {
      SmallestStep(s[..i], s[i], blacklist);
    } else {
      SmallestSkip(s[..i], s[i], blacklist);
    }
  }

  /**
   * `GetSmallestCapacityMagazine(magazines, blacklist)`: null for a null or empty list and
   * when every entry is blacklisted; otherwise a random allowed entry of least capacity.
   */
  method GetSmallestCapacityMagazine(magazines: Option<seq<FVRObject>>, blacklist: Option<seq<string>>, draw: nat)
    returns (r: Option<FVRObject>)
    ensures r.None? <==> magazines.None? || forall x :: x in magazines.value ==> !Allowed(x, blacklist)
    ensures r.Some? ==> r.value in magazines.value && Allowed(r.value, blacklist)
    ensures r.Some? ==> forall y :: y in magazines.value && Allowed(y, blacklist) ==> r.value.MagazineCapacity <= y.MagazineCapacity
    ensures r.Some? ==> var c := Smallest(magazines.value, blacklist); |c| > 0 && r == Some(c[draw % |c|])
  {
    if magazines.None? || |magazines.value| == 0 {
      return None;
    }
    var s := magazines.value;
    var smallestMagazines: seq<FVRObject> := [];
    var i := 0;
    while i < |s|
      invariant 0 <= i <= |s|
      invariant smallestMagazines == Smallest(s[..i], blacklist)
    {
      var magazine := s[i];
      ghost var before := smallestMagazines;
      SmallestTurn(s, i, blacklist);
      if Allowed(magazine, blacklist) {
        if |smallestMagazines| == 0 {
          smallestMagazines := [magazine];
        } else if magazine.MagazineCapacity < smallestMagazines[0].MagazineCapacity {
          smallestMagazines := [magazine];
        } else if magazine.MagazineCapacity == smallestMagazines[0].MagazineCapacity {
          smallestMagazines := smallestMagazines + [magazine];
        }
      }
      assert smallestMagazines == Consider(before, magazine, blacklist);
      i := i + 1;
    }
    assert s[..i] == s;
    if |smallestMagazines| == 0 {
      SmallestPickMeans(s, blacklist, draw, None);
      return None;
    }
    var pick := SodaliteUtils.GetRandom(smallestMagazines, draw);
    r := Some(pick.value);
    SmallestPickMeans(s, blacklist, draw, r);
  }

  /** The random pick among the candidates is an allowed entry of the least allowed capacity; there is none when nothing is allowed. */
  lemma SmallestPickMeans(s: seq<FVRObject>, blacklist: Option<seq<string>>, draw: nat, r: Option<FVRObject>)
    requires var c := Smallest(s, blacklist); r == if c == [] then None else Some(c[draw % |c|])
    ensures r.None? <==> forall x :: x in s ==> !Allowed(x, blacklist)
    ensures r.Some? ==> r.value in s && Allowed(r.value, blacklist)
    ensures r.Some? ==> forall y :: y in s && Allowed(y, blacklist) ==> r.value.MagazineCapacity <= y.MagazineCapacity
  {
    SmallestMeans(s, blacklist);
    var c := Smallest(s, blacklist);
    if c != [] {
      assert c[draw % |c|] in c;
    }
  }

  /** `FirearmUtils.GetSmallestCapacityMagazine(firearm, blacklist)`: the firearm's own magazine list, unrefreshed. */
  method GetSmallestCapacityMagazineOf(firearm: FVRObject, blacklist: Option<seq<string>>, draw: nat)
    returns (r: Option<FVRObject>)
    ensures r.None? <==> firearm.CompatibleMagazines.None?
                         || forall x :: x in firearm.CompatibleMagazines.value ==> !Allowed(x, blacklist)
    ensures r.Some? ==> r.value in firearm.CompatibleMagazines.value && Allowed(r.value, blacklist)
    ensures r.Some? ==> forall y :: y in firearm.CompatibleMagazines.value && Allowed(y, blacklist)
                          ==> r.value.MagazineCapacity <= y.MagazineCapacity
  {
    r := GetSmallestCapacityMagazine(firearm.CompatibleMagazines, blacklist, draw);
  }

  /** `FVRObjectExtensions.GetSmallestCapacityMagazine(firearm, blacklist)`: the same pick over the catalog entry. */
  method GetSmallestCapacityMagazineFor(firearm: FVRObject, blacklist: Option<seq<string>>, catalog: Catalog, draw: nat)
    returns (r: Result<Option<FVRObject>, ApiError>)
    ensures r.Err? <==> firearm.ItemID !in catalog
    ensures r.Err? ==> r.error == KeyNotFound(firearm.ItemID)
    ensures r.Ok? ==> var e := catalog[firearm.ItemID];
                      (r.value.None? <==> e.CompatibleMagazines.None?
                                          || forall x :: x in e.CompatibleMagazines.value ==> !Allowed(x, blacklist))
                      && (r.value.Some? ==> r.value.value in e.CompatibleMagazines.value && Allowed(r.value.value, blacklist))
                      && (r.value.Some? ==> forall y :: y in e.CompatibleMagazines.value && Allowed(y, blacklist)
                                              ==> r.value.value.MagazineCapacity <= y.MagazineCapacity)
  {
    if firearm.ItemID !in catalog {
      return Err(KeyNotFound(firearm.ItemID));
    }
    var e := catalog[firearm.ItemID];
    var m := GetSmallestCapacityMagazine(e.CompatibleMagazines, blacklist, draw);
    return Ok(m);
  }

  // ---------------------------------------------------------------- next highest capacity

  /**
   * One turn of the next-highest loop over an entry that is not blacklisted: an empty
   * list takes the entry first and then, with no `continue`, carries on through the
   * three comparisons against the list's first entry.
   */
  function NextStep(c: seq<FVRObject>, m: FVRObject, cur: int): (r: seq<FVRObject>)
    ensures |r| > 0
  {
    var c1 := if c == [] then [m] else c;
    if m.MagazineCapacity > cur && cur == c1[0].MagazineCapacity then [m]
    else if m.MagazineCapacity > cur && m.MagazineCapacity < c1[0].MagazineCapacity then [m]
    else if m.MagazineCapacity == c1[0].MagazineCapacity then c1 + [m]
    else c1
  }

  /** The candidate list after the loop has visited every entry of `s`, in order. */
  function NextCandidates(s: seq<FVRObject>, blacklist: Option<seq<string>>, cur: int): seq<FVRObject>
  {
    if s == [] then []
    else
      var c := NextCandidates(s[..|s| - 1], blacklist, cur);
      var m := s[|s| - 1];
      if Allowed(m, blacklist) then NextStep(c, m, cur) else c
  }

  /** After the loop: index 0 of an empty list throws, equal capacity gives null, else a random candidate. */
  function NextPick(c: seq<FVRObject>, cur: int, draw: nat): Result<Option<FVRObject>, ApiError>
  {
    if c == [] then Err(IndexOutOfRange)
    else if c[0].MagazineCapacity == cur then Ok(None)
    else Ok(Some(c[draw % |c|]))
  }

  /** `GetNextHighestCapacityMagazine(currentMagazine, possibleMagazines, blacklist)` as written. */
  function NextHighestAsWritten(current: FVRObject, possible: Option<seq<FVRObject>>, blacklist: Option<seq<string>>, draw: nat): Result<Option<FVRObject>, ApiError>
  {
    if possible.None? || |possible.value| == 0 then Ok(None)
    else NextPick(NextCandidates(possible.value, blacklist, current.MagazineCapacity), current.MagazineCapacity, draw)
  }

  /** The loop of `GetNextHighestCapacityMagazine`. */
  method GetNextHighestCapacityMagazine(current: FVRObject, possible: Option<seq<FVRObject>>, blacklist: Option<seq<string>>, draw: nat)
    returns (r: Result<Option<FVRObject>, ApiError>)
    ensures r == NextHighestAsWritten(current, possible, blacklist, draw)
  {
    if possible.None? || |possible.value| == 0 {
      return Ok(None);
    }
    var s := possible.value;
    var cur := current.MagazineCapacity;
    var nextLargestMagazines: seq<FVRObject> := [];
    var i := 0;
    while i < |s|
      invariant 0 <= i <= |s|
      invariant nextLargestMagazines == NextCandidates(s[..i], blacklist, cur)
    {
      var magazine := s[i];
      assert s[..i + 1][..i] == s[..i];
      if Allowed(magazine, blacklist) {
        if |nextLargestMagazines| == 0 {
          nextLargestMagazines := [magazine];
        }
        if magazine.MagazineCapacity > cur && cur == nextLargestMagazines[0].MagazineCapacity {
          nextLargestMagazines := [magazine];
        } else if magazine.MagazineCapacity > cur && magazine.MagazineCapacity < nextLargestMagazines[0].MagazineCapacity {
          nextLargestMagazines := [magazine];
        } else if magazine.MagazineCapacity == nextLargestMagazines[0].MagazineCapacity {
          nextLargestMagazines := nextLargestMagazines + [magazine];
        }
      }
      i := i + 1;
    }
    assert s[..i] == s;
    if |nextLargestMagazines| == 0 {
      return Err(IndexOutOfRange);
    }
    if nextLargestMagazines[0].MagazineCapacity == cur {
      return Ok(None);
    }
    var pick := SodaliteUtils.GetRandom(nextLargestMagazines, draw);
    return Ok(Some(pick.value));
  }

  /** The candidates are allowed entries of one capacity, and there are some exactly when some entry is allowed. */
  lemma {:induction false} NextCandidatesShape(s: seq<FVRObject>, blacklist: Option<seq<string>>, cur: int)
    ensures var c := NextCandidates(s, blacklist, cur);
            (c == [] <==> AllowedOf(s, blacklist) == [])
            && forall x :: x in c ==> x in s && Allowed(x, blacklist) && x.MagazineCapacity == c[0].MagazineCapacity
  {
    if s != [] {
      var p, m := s[..|s| - 1], s[|s| - 1];
      assert s == p + [m];
      NextCandidatesShape(p, blacklist, cur);
      AllowedOfAppend(p, m, blacklist);
    }
  }

  /** The entries of a list strictly above a capacity, in order. */
  function AboveOf(s: seq<FVRObject>, cur: int): (r: seq<FVRObject>)
    ensures |r| <= |s|
  {
    if s == [] then [] else (if s[0].MagazineCapacity > cur then [s[0]] else []) + AboveOf(s[1..], cur)
  }

  lemma {:induction false} AboveOfMembers(s: seq<FVRObject>, cur: int)
    ensures forall x :: x in AboveOf(s, cur) <==> x in s && x.MagazineCapacity > cur
  {
    if s != [] {
      AboveOfMembers(s[1..], cur);
      assert s == [s[0]] + s[1..];
    }
  }

  /**
   * What the loop keeps when the first allowed entry is not below the current capacity:
   * the list's capacity is the current one exactly when no allowed entry is above it, and
   * otherwise it is the least capacity above it, with every allowed entry of that capacity.
   */
  predicate Tracks(c: seq<FVRObject>, s: seq<FVRObject>, blacklist: Option<seq<string>>, cur: int)
  {
    c != [] && c[0].MagazineCapacity >= cur
    && (c[0].MagazineCapacity == cur <==> forall x :: x in s && Allowed(x, blacklist) ==> x.MagazineCapacity <= cur)
    && (c[0].MagazineCapacity > cur ==>
          forall x :: x in s && Allowed(x, blacklist) && x.MagazineCapacity > cur ==>
            c[0].MagazineCapacity <= x.MagazineCapacity
            && (x.MagazineCapacity == c[0].MagazineCapacity ==> x in c))
  }

  /** One allowed entry keeps `Tracks`. */
  lemma TracksStep(c: seq<FVRObject>, p: seq<FVRObject>, m: FVRObject, blacklist: Option<seq<string>>, cur: int)
    requires Allowed(m, blacklist)
    requires Tracks(c, p, blacklist, cur)
    requires forall x :: x in c ==> x.MagazineCapacity == c[0].MagazineCapacity
    ensures Tracks(NextStep(c, m, cur), p + [m], blacklist, cur)
  {
    assert forall x :: x in p + [m] <==> x in p || x == m;
  }

  /** The first allowed entry starts `Tracks`. */
  lemma TracksStart(c: seq<FVRObject>, p: seq<FVRObject>, m: FVRObject, blacklist: Option<seq<string>>, cur: int)
    requires Allowed(m, blacklist) && m.MagazineCapacity >= cur
    requires c == [] && forall x :: x in p ==> !Allowed(x, blacklist)
    ensures Tracks(NextStep(c, m, cur), p + [m], blacklist, cur)
  {
    assert NextStep(c, m, cur) == [m, m];
    assert forall x :: x in p + [m] <==> x in p || x == m;
  }

  /** A blacklisted entry keeps `Tracks`. */
  lemma TracksSkip(c: seq<FVRObject>, p: seq<FVRObject>, m: FVRObject, blacklist: Option<seq<string>>, cur: int)
    requires !Allowed(m, blacklist)
    requires Tracks(c, p, blacklist, cur)
    ensures Tracks(c, p + [m], blacklist, cur)
  {
    assert forall x :: x in p + [m] <==> x in p || x == m;
  }

  /** The loop keeps `Tracks` once its first allowed entry is not below the current capacity. */
  lemma {:induction false} NextCandidatesTrack(s: seq<FVRObject>, blacklist: Option<seq<string>>, cur: int)
    requires AllowedOf(s, blacklist) != [] && AllowedOf(s, blacklist)[0].MagazineCapacity >= cur
    ensures Tracks(NextCandidates(s, blacklist, cur), s, blacklist, cur)
  {
    var p, m := s[..|s| - 1], s[|s| - 1];
    var c := NextCandidates(p, blacklist, cur);
    assert s == p + [m];
    assert NextCandidates(s, blacklist, cur) == if Allowed(m, blacklist) then NextStep(c, m, cur) else c;
    AllowedOfAppend(p, m, blacklist);
    NextCandidatesShape(p, blacklist, cur);
    if AllowedOf(p, blacklist) == [] {
      AllowedOfMembers(p, blacklist);
      TracksStart(c, p, m, blacklist, cur);
    } else {
      assert AllowedOf(s, blacklist)[0] == AllowedOf(p, blacklist)[0];
      NextCandidatesTrack(p, blacklist, cur);
      if Allowed(m, blacklist) {
        TracksStep(c, p, m, blacklist, cur);
      } else {
        TracksSkip(c, p, m, blacklist, cur);
      }
    }
  }

  /**
   * When the first allowed entry is not below the current capacity, the pick as written is
   * the next highest: null exactly when no allowed entry is above, otherwise an allowed
   * entry of the least capacity above, and every such entry can be drawn.
   */
  lemma NextHighestWhenFirstNotBelow(current: FVRObject, s: seq<FVRObject>, blacklist: Option<seq<string>>, draw: nat)
    requires AllowedOf(s, blacklist) != [] && AllowedOf(s, blacklist)[0].MagazineCapacity >= current.MagazineCapacity
    ensures var r := NextHighestAsWritten(current, Some(s), blacklist, draw);
            r.Ok?
            && (r.value.None? <==> forall x :: x in s && Allowed(x, blacklist) ==> x.MagazineCapacity <= current.MagazineCapacity)
            && (r.value.Some? ==>
                  r.value.value in s && Allowed(r.value.value, blacklist)
                  && r.value.value.MagazineCapacity > current.MagazineCapacity
                  && forall x :: x in s && Allowed(x, blacklist) && x.MagazineCapacity > current.MagazineCapacity ==>
                       r.value.value.MagazineCapacity <= x.MagazineCapacity)
  {
    var cur := current.MagazineCapacity;
    NextCandidatesShape(s, blacklist, cur);
    NextCandidatesTrack(s, blacklist, cur);
    var c := NextCandidates(s, blacklist, cur);
    assert c[draw % |c|] in c;
  }

  /** The pick as written never returns a blacklisted entry, nor one of the current capacity. */
  lemma NextHighestAllowed(current: FVRObject, possible: Option<seq<FVRObject>>, blacklist: Option<seq<string>>, draw: nat)
    ensures var r := NextHighestAsWritten(current, possible, blacklist, draw);
            (r.Err? <==> possible.Some? && |possible.value| > 0 && forall x :: x in possible.value ==> !Allowed(x, blacklist))
            && (r.Err? ==> r.error == IndexOutOfRange)
            && (r.Ok? && r.value.Some? ==>
                  possible.Some? && r.value.value in possible.value && Allowed(r.value.value, blacklist)
                  && r.value.value.MagazineCapacity != current.MagazineCapacity)
  {
    var r := NextHighestAsWritten(current, possible, blacklist, draw);
    if possible.Some? && |possible.value| > 0 {
      var s := possible.value;
      var cur := current.MagazineCapacity;
      var c := NextCandidates(s, blacklist, cur);
      assert r == NextPick(c, cur, draw);
      NextCandidatesShape(s, blacklist, cur);
      AllowedOfMembers(s, blacklist);
      if c != [] {
        var a := AllowedOf(s, blacklist);
        assert a[0] in a;
        if c[0].MagazineCapacity != cur {
          var pick := c[draw % |c|];
          assert r == Ok(Some(pick));
          assert pick in c;
        }
      } else {
        assert forall x :: x in s ==> !Allowed(x, blacklist) by {
          forall x | x in s
            ensures !Allowed(x, blacklist)
          {
            assert Allowed(x, blacklist) ==> x in AllowedOf(s, blacklist);
          }
        }
      }
    }
  }

  /** A magazine entry with no lists, for the examples below. */
  function Mag(id: string, cap: int): FVRObject
  {
    FVRObject(id, cap, None, None, None, None, Prefab(MagazinePart, 0, false))
  }

  /** A first candidate below the current capacity blocks every larger one: a 5 is returned for a 10. */
  lemma NextHighestReturnsSmaller(draw: nat)
    ensures NextHighestAsWritten(Mag("cur", 10), Some([Mag("a", 5), Mag("b", 15)]), None, draw) == Ok(Some(Mag("a", 5)))
  {
    var s := [Mag("a", 5), Mag("b", 15)];
    assert s[..1] == [Mag("a", 5)] && s[..1][..0] == [];
    assert NextCandidates(s[..1], None, 10) == [Mag("a", 5), Mag("a", 5)];
    assert s[..|s| - 1] == s[..1];
  }

  /** Every candidate blacklisted leaves the list empty, and reading its first entry throws. */
  lemma NextHighestThrowsWhenAllBlacklisted(draw: nat)
    ensures NextHighestAsWritten(Mag("cur", 10), Some([Mag("a", 15)]), Some(["a"]), draw) == Err(IndexOutOfRange)
  {
    assert [Mag("a", 15)][..0] == [];
  }

  /** The first allowed entry is added twice, so it is drawn twice as often as its equals. */
  lemma NextHighestDoublesFirst()
    ensures NextCandidates([Mag("a", 15), Mag("b", 15)], None, 10) == [Mag("a", 15), Mag("a", 15), Mag("b", 15)]
  {
    var s := [Mag("a", 15), Mag("b", 15)];
    assert s[..1] == [Mag("a", 15)] && s[..1][..0] == [];
    assert NextCandidates(s[..1], None, 10) == [Mag("a", 15), Mag("a", 15)];
    assert s[..|s| - 1] == s[..1];
  }

  /** The rule the documentation promises: a random allowed entry of the least capacity above the current one. */
  function NextHighestCapacityMagazine(current: FVRObject, possible: Option<seq<FVRObject>>, blacklist: Option<seq<string>>, draw: nat): (r: Option<FVRObject>)
    ensures r.None? <==> possible.None?
                         || forall x :: x in possible.value && Allowed(x, blacklist) ==> x.MagazineCapacity <= current.MagazineCapacity
    ensures r.Some? ==> r.value in possible.value && Allowed(r.value, blacklist)
                        && r.value.MagazineCapacity > current.MagazineCapacity
                        && forall x :: x in possible.value && Allowed(x, blacklist) && x.MagazineCapacity > current.MagazineCapacity ==>
                             r.value.MagazineCapacity <= x.MagazineCapacity
  {
    if possible.None? then None
    else
      var above := AboveOf(possible.value, current.MagazineCapacity);
      var c := Smallest(above, blacklist);
      AboveOfMembers(possible.value, current.MagazineCapacity);
      SmallestMeans(above, blacklist);
      if c == [] then None
      else
        assert c[draw % |c|] in c;
        Some(c[draw % |c|])
  }

  /** With the first allowed entry not below the current one, the code and the promise agree on null and on capacity. */
  lemma NextHighestAgreesWhenFirstNotBelow(current: FVRObject, s: seq<FVRObject>, blacklist: Option<seq<string>>, draw: nat)
    requires AllowedOf(s, blacklist) != [] && AllowedOf(s, blacklist)[0].MagazineCapacity >= current.MagazineCapacity
    ensures var r := NextHighestAsWritten(current, Some(s), blacklist, draw);
            var q := NextHighestCapacityMagazine(current, Some(s), blacklist, draw);
            r.Ok? && (r.value.None? <==> q.None?)
            && (q.Some? ==> r.value.value.MagazineCapacity == q.value.MagazineCapacity)
  {
    NextHighestWhenFirstNotBelow(current, s, blacklist, draw);
  }

  // ---------------------------------------------------------------- filtered compatible magazines

  /** `maxCapacity <= 0` means no ceiling, which the code writes as 9999. */
  function Ceiling(maxCapacity: int): (c: int)
    ensures c > 0
    ensures maxCapacity > 0 ==> c == maxCapacity
  {
    if maxCapacity <= 0 then 9999 else maxCapacity
  }

  /** An entry the filter loop keeps: not blacklisted and within the capacity bounds. */
  predicate Fits(m: FVRObject, blacklist: Option<seq<string>>, minCapacity: int, maxCapacity: int)
  {
    Allowed(m, blacklist) && minCapacity <= m.MagazineCapacity <= maxCapacity
  }

  /** The fitting entries, in order. */
  function FitsOf(s: seq<FVRObject>, blacklist: Option<seq<string>>, minCapacity: int, maxCapacity: int): (r: seq<FVRObject>)
    ensures |r| <= |s|
  {
    if s == [] then []
    else (if Fits(s[0], blacklist, minCapacity, maxCapacity) then [s[0]] else []) + FitsOf(s[1..], blacklist, minCapacity, maxCapacity)
  }

  lemma {:induction false} FitsOfMembers(s: seq<FVRObject>, blacklist: Option<seq<string>>, minCapacity: int, maxCapacity: int)
    ensures forall x :: x in FitsOf(s, blacklist, minCapacity, maxCapacity) <==> x in s && Fits(x, blacklist, minCapacity, maxCapacity)
  {
    if s != [] {
      FitsOfMembers(s[1..], blacklist, minCapacity, maxCapacity);
      assert s == [s[0]] + s[1..];
    }
  }

  /**
   * The backward `RemoveAt` loop over a list, as the part from position `i` on that it
   * leaves. Position `i` first loses a blacklisted entry, after which the same position,
   * now holding the first kept entry after it or past the end, is read for the capacity test.
   */
  function RemovedFrom(s: seq<FVRObject>, i: nat, blacklist: Option<seq<string>>, minCapacity: int, maxCapacity: int): Result<seq<FVRObject>, ApiError>
    requires i <= |s|
    decreases |s| - i
  {
    if i == |s| then Ok([])
    else
      match RemovedFrom(s, i + 1, blacklist, minCapacity, maxCapacity)
      case Err(e) => Err(e)
      case Ok(kept) => RemovedAt(s[i], kept, blacklist, minCapacity, maxCapacity)
  }

  /**
   * The two reads at one position, holding `x` with `kept` after it: a blacklisted `x` goes,
   * then whatever the position holds now is checked against the capacity bounds.
   */
  function RemovedAt(x: FVRObject, kept: seq<FVRObject>, blacklist: Option<seq<string>>, minCapacity: int, maxCapacity: int): Result<seq<FVRObject>, ApiError>
  {
    var after := if Allowed(x, blacklist) then [x] + kept else kept;
    if after == [] then Err(IndexOutOfRange)
    else if after[0].MagazineCapacity < minCapacity || after[0].MagazineCapacity > maxCapacity then Ok(after[1..])
    else Ok(after)
  }

  /**
   * Over entries that all fit, one position throws exactly when its entry is blacklisted and
   * nothing follows, and otherwise keeps its entry exactly when it fits.
   */
  lemma RemovedAtMeans(x: FVRObject, kept: seq<FVRObject>, blacklist: Option<seq<string>>, minCapacity: int, maxCapacity: int)
    requires forall y :: y in kept ==> Fits(y, blacklist, minCapacity, maxCapacity)
    ensures var r := RemovedAt(x, kept, blacklist, minCapacity, maxCapacity);
            (r.Err? <==> !Allowed(x, blacklist) && kept == [])
            && (r.Err? ==> r.error == IndexOutOfRange)
            && (r.Ok? ==> r.value == (if Fits(x, blacklist, minCapacity, maxCapacity) then [x] else []) + kept)
  {
    if kept != [] {
      assert kept[0] in kept;
    }
  }

  /** Some blacklisted entry at or after `i` has no fitting entry after it. */
  predicate ThrowsFrom(s: seq<FVRObject>, i: nat, blacklist: Option<seq<string>>, minCapacity: int, maxCapacity: int)
  {
    exists k :: i <= k < |s| && !Allowed(s[k], blacklist)
                && forall j :: k < j < |s| ==> !Fits(s[j], blacklist, minCapacity, maxCapacity)
  }

  /** No entry after `i` fits exactly when the fitting entries after `i` are none. */
  lemma NoneFitAfter(s: seq<FVRObject>, i: nat, blacklist: Option<seq<string>>, minCapacity: int, maxCapacity: int)
    requires i < |s|
    ensures (forall j :: i < j < |s| ==> !Fits(s[j], blacklist, minCapacity, maxCapacity))
            <==> FitsOf(s[i + 1..], blacklist, minCapacity, maxCapacity) == []
  {
    var t := s[i + 1..];
    var f := FitsOf(t, blacklist, minCapacity, maxCapacity);
    FitsOfMembers(t, blacklist, minCapacity, maxCapacity);
    if f != [] {
      assert f[0] in f;
      var j :| 0 <= j < |t| && t[j] == f[0];
      assert s[i + 1 + j] == f[0];
    }
    assert forall j :: i < j < |s| ==> s[j] in t by {
      forall j | i < j < |s| ensures s[j] in t { assert s[j] == t[j - i - 1]; }
    }
  }

  /**
   * The loop throws exactly when some blacklisted entry has no fitting entry after it;
   * otherwise it keeps exactly the fitting entries, in order, and the second read at a
   * position never removes a kept entry.
   */
  lemma {:induction false} RemovedFromMeans(s: seq<FVRObject>, i: nat, blacklist: Option<seq<string>>, minCapacity: int, maxCapacity: int)
    requires i <= |s|
    ensures var b := RemovedFrom(s, i, blacklist, minCapacity, maxCapacity);
            (b.Err? <==> ThrowsFrom(s, i, blacklist, minCapacity, maxCapacity))
            && (b.Err? ==> b.error == IndexOutOfRange)
            && (b.Ok? ==> b.value == FitsOf(s[i..], blacklist, minCapacity, maxCapacity))
    decreases |s| - i
  {
    if i < |s| {
      RemovedFromMeans(s, i + 1, blacklist, minCapacity, maxCapacity);
      NoneFitAfter(s, i, blacklist, minCapacity, maxCapacity);
      ThrowsFromStep(s, i, blacklist, minCapacity, maxCapacity);
      var f := FitsOf(s[i + 1..], blacklist, minCapacity, maxCapacity);
      assert s[i..] == [s[i]] + s[i + 1..];
      assert FitsOf(s[i..], blacklist, minCapacity, maxCapacity)
          == (if Fits(s[i], blacklist, minCapacity, maxCapacity) then [s[i]] else []) + f;
      FitsOfMembers(s[i + 1..], blacklist, minCapacity, maxCapacity);
      RemovedAtMeans(s[i], f, blacklist, minCapacity, maxCapacity);
    }
  }

  /** A throw from `i` is a throw from `i + 1` or one at `i` itself. */
  lemma ThrowsFromStep(s: seq<FVRObject>, i: nat, blacklist: Option<seq<string>>, minCapacity: int, maxCapacity: int)
    requires i < |s|
    ensures ThrowsFrom(s, i, blacklist, minCapacity, maxCapacity) <==>
              ThrowsFrom(s, i + 1, blacklist, minCapacity, maxCapacity)
              || (!Allowed(s[i], blacklist) && forall j :: i < j < |s| ==> !Fits(s[j], blacklist, minCapacity, maxCapacity))
  {
    if ThrowsFrom(s, i + 1, blacklist, minCapacity, maxCapacity) {
      var k :| i + 1 <= k < |s| && !Allowed(s[k], blacklist)
               && forall j :: k < j < |s| ==> !Fits(s[j], blacklist, minCapacity, maxCapacity);
      assert i <= k;
    }
  }

  /**
   * `FirearmUtils.GetCompatibleMagazines(firearm, minCapacity, maxCapacity, smallestIfEmpty, blacklist)`
   * as written: an empty list for no magazines, the firearm's own list when nothing is
   * filtered, the loop's result, and when that is empty the smallest of all the firearm's
   * magazines, whatever `smallestIfEmpty` says.
   */
  function CompatibleMagazinesAsWritten(firearm: FVRObject, minCapacity: int, maxCapacity: int, smallestIfEmpty: bool,
                                        blacklist: Option<seq<string>>, draw: nat): Result<seq<FVRObject>, ApiError>
  {
    var mags := firearm.CompatibleMagazines;
    if mags.None? || |mags.value| == 0 then Ok([])
    else
      var maxC := Ceiling(maxCapacity);
      if blacklist.None? && minCapacity <= 0 && maxC >= 9999 then Ok(mags.value)
      else
        match RemovedFrom(mags.value, 0, blacklist, minCapacity, maxC)
        case Err(e) => Err(e)
        case Ok(kept) =>
          if kept != [] then Ok(kept)
          else
            var c := Smallest(mags.value, None);
            if c == [] then Ok(kept) else Ok([c[draw % |c|]])
  }

  /** Removing the element after a prefix leaves the prefix and the rest. */
  lemma SpliceAt<T>(pre: seq<T>, mid: seq<T>, c: seq<T>)
    requires c == pre + mid && |mid| > 0
    ensures c[|pre|] == mid[0] && c[..|pre|] + c[|pre| + 1..] == pre + mid[1..]
  {
    assert c[..|pre|] == pre;
    assert c[|pre| + 1..] == mid[1..];
  }

  /** The backward `RemoveAt` loop over a copy of the list. */
  method RemoveUnfit(s: seq<FVRObject>, blacklist: Option<seq<string>>, minCapacity: int, maxCapacity: int)
    returns (r: Result<seq<FVRObject>, ApiError>)
    ensures r == RemovedFrom(s, 0, blacklist, minCapacity, maxCapacity)
  {
    var compatibleMagazines := s;
    var i := |compatibleMagazines| - 1;
    ghost var kept: seq<FVRObject> := [];
    while i >= 0
      invariant -1 <= i < |s|
      invariant RemovedFrom(s, i + 1, blacklist, minCapacity, maxCapacity) == Ok(kept)
      invariant compatibleMagazines == s[..i + 1] + kept
      decreases i + 1
    {
      ghost var after := if Allowed(s[i], blacklist) then [s[i]] + kept else kept;
      assert RemovedFrom(s, i, blacklist, minCapacity, maxCapacity) == RemovedAt(s[i], kept, blacklist, minCapacity, maxCapacity);
      assert s[..i + 1] == s[..i] + [s[i]];
      SpliceAt(s[..i], [s[i]] + kept, compatibleMagazines);
      if blacklist.Some? && compatibleMagazines[i].ItemID in blacklist.value {
        compatibleMagazines := compatibleMagazines[..i] + compatibleMagazines[i + 1..];
        assert after == kept;
      } else {
        assert after == [s[i]] + kept;
      }
      if i >= |compatibleMagazines| {
        RemovedErr(s, i, blacklist, minCapacity, maxCapacity);
        return Err(IndexOutOfRange);
      }
      SpliceAt(s[..i], after, compatibleMagazines);
      if compatibleMagazines[i].MagazineCapacity < minCapacity || compatibleMagazines[i].MagazineCapacity > maxCapacity {
        compatibleMagazines := compatibleMagazines[..i] + compatibleMagazines[i + 1..];
        kept := after[1..];
      } else {
        kept := after;
      }
      i := i - 1;
    }
    assert i == -1 && s[..0] == [];
    assert compatibleMagazines == kept;
    return Ok(compatibleMagazines);
  }

  /** A throw at position `i` makes the whole loop throw. */
  lemma {:induction false} RemovedErr(s: seq<FVRObject>, i: nat, blacklist: Option<seq<string>>, minCapacity: int, maxCapacity: int)
    requires i <= |s|
    requires RemovedFrom(s, i, blacklist, minCapacity, maxCapacity) == Err(IndexOutOfRange)
    ensures RemovedFrom(s, 0, blacklist, minCapacity, maxCapacity) == Err(IndexOutOfRange)
    decreases i
  {
    if i > 0 {
      RemovedErr(s, i - 1, blacklist, minCapacity, maxCapacity);
    }
  }

  /** `GetCompatibleMagazines`: the early returns, the loop, then the fallback. */
  method GetCompatibleMagazines(firearm: FVRObject, minCapacity: int, maxCapacity: int, smallestIfEmpty: bool,
                                blacklist: Option<seq<string>>, draw: nat)
    returns (r: Result<seq<FVRObject>, ApiError>)
    ensures r == CompatibleMagazinesAsWritten(firearm, minCapacity, maxCapacity, smallestIfEmpty, blacklist, draw)
  {
    if firearm.CompatibleMagazines.None? || |firearm.CompatibleMagazines.value| == 0 {
      return Ok([]);
    }
    var maxC := maxCapacity;
    if maxC <= 0 {
      maxC := 9999;
    }
    assert maxC == Ceiling(maxCapacity);
    if blacklist.None? && minCapacity <= 0 && maxC >= 9999 {
      return Ok(firearm.CompatibleMagazines.value);
    }
    var s := firearm.CompatibleMagazines.value;
    var filtered := RemoveUnfit(s, blacklist, minCapacity, maxC);
    if filtered.Err? {
      return filtered;
    }
    var compatibleMagazines := filtered.value;
    if |compatibleMagazines| == 0 {
      var magazine := GetSmallestCapacityMagazine(firearm.CompatibleMagazines, None, draw);
      SmallestMeans(s, None);
      if magazine.Some? {
        compatibleMagazines := compatibleMagazines + [magazine.value];
        assert compatibleMagazines == [magazine.value];
      }
    }
    return Ok(compatibleMagazines);
  }

  /**
   * Past the two early returns, the list throws exactly when `ThrowsFrom` holds from 0; otherwise it
   * is the fitting magazines when there are any, and else a single magazine of the least
   * capacity of all. That fallback happens only when no magazine is blacklisted, so it
   * never hands back a blacklisted magazine.
   */
  lemma CompatibleMagazinesMeans(firearm: FVRObject, minCapacity: int, maxCapacity: int, smallestIfEmpty: bool,
                                 blacklist: Option<seq<string>>, draw: nat)
    requires firearm.CompatibleMagazines.Some? && |firearm.CompatibleMagazines.value| > 0
    requires !(blacklist.None? && minCapacity <= 0 && Ceiling(maxCapacity) >= 9999)
    ensures var s, maxC := firearm.CompatibleMagazines.value, Ceiling(maxCapacity);
            var r := CompatibleMagazinesAsWritten(firearm, minCapacity, maxCapacity, smallestIfEmpty, blacklist, draw);
            (r.Err? <==> ThrowsFrom(s, 0, blacklist, minCapacity, maxC))
            && (r.Ok? && FitsOf(s, blacklist, minCapacity, maxC) != [] ==> r.value == FitsOf(s, blacklist, minCapacity, maxC))
            && (r.Ok? && FitsOf(s, blacklist, minCapacity, maxC) == [] ==>
                  |r.value| == 1 && r.value[0] in s
                  && (forall x :: x in s ==> Allowed(x, blacklist) && r.value[0].MagazineCapacity <= x.MagazineCapacity))
  {
    var s, maxC := firearm.CompatibleMagazines.value, Ceiling(maxCapacity);
    RemovedFromMeans(s, 0, blacklist, minCapacity, maxC);
    assert s[0..] == s;
    SmallestMeans(s, None);
    var c := Smallest(s, None);
    if c != [] {
      assert c[draw % |c|] in c;
    }
    if !ThrowsFrom(s, 0, blacklist, minCapacity, maxC) && FitsOf(s, blacklist, minCapacity, maxC) == [] {
      NothingFitsAllAllowed(s, blacklist, minCapacity, maxC);
    }
  }

  /** When nothing fits and the loop does not throw, no entry was blacklisted. */
  lemma NothingFitsAllAllowed(s: seq<FVRObject>, blacklist: Option<seq<string>>, minCapacity: int, maxCapacity: int)
    requires !ThrowsFrom(s, 0, blacklist, minCapacity, maxCapacity) && FitsOf(s, blacklist, minCapacity, maxCapacity) == []
    ensures forall x :: x in s ==> Allowed(x, blacklist)
  {
    FitsOfMembers(s, blacklist, minCapacity, maxCapacity);
    forall x | x in s
      ensures Allowed(x, blacklist)
    {
      var i :| 0 <= i < |s| && s[i] == x;
      assert forall j :: i < j < |s| ==> !Fits(s[j], blacklist, minCapacity, maxCapacity) by {
        forall j | i < j < |s| ensures !Fits(s[j], blacklist, minCapacity, maxCapacity) {
          assert s[j] in s;
        }
      }
    }
  }

  /** A blacklisted last magazine is removed, and reading its position again throws. */
  lemma CompatibleMagazinesThrows(draw: nat)
    ensures var firearm := FVRObject("gun", 0, Some([Mag("a", 10)]), None, None, None, Prefab(PlainPart, 0, false));
            CompatibleMagazinesAsWritten(firearm, 0, 9999, true, Some(["a"]), draw) == Err(IndexOutOfRange)
  {
    var s := [Mag("a", 10)];
    assert s[1..] == [];
  }

  /** With `smallestIfEmpty` false, a list the bounds empty still comes back with the smallest magazine. */
  lemma CompatibleMagazinesIgnoresSmallestIfEmpty(draw: nat)
    ensures var firearm := FVRObject("gun", 0, Some([Mag("a", 5)]), None, None, None, Prefab(PlainPart, 0, false));
            CompatibleMagazinesAsWritten(firearm, 10, 9999, false, None, draw) == Ok([Mag("a", 5)])
  {
    var s := [Mag("a", 5)];
    assert s[1..] == [];
    assert AllowedOf(s, None) == s;
    assert Smallest(s, None) == [Mag("a", 5)];
  }

  /** A non-empty list with a blacklist or a bound to apply: the case where magazines are filtered. */
  predicate Filtering(firearm: FVRObject, minCapacity: int, maxCapacity: int, blacklist: Option<seq<string>>)
  {
    firearm.CompatibleMagazines.Some? && |firearm.CompatibleMagazines.value| > 0
    && !(blacklist.None? && minCapacity <= 0 && Ceiling(maxCapacity) >= 9999)
  }

  /**
   * The list the parameters describe: the magazines that are not blacklisted and within
   * the bounds, and only when there are none and `smallestIfEmpty` is set, the smallest
   * magazine that is not blacklisted.
   */
  function CompatibleMagazines(firearm: FVRObject, minCapacity: int, maxCapacity: int, smallestIfEmpty: bool,
                               blacklist: Option<seq<string>>, draw: nat): (r: seq<FVRObject>)
    ensures forall x :: x in r ==> firearm.CompatibleMagazines.Some? && x in firearm.CompatibleMagazines.value
    ensures firearm.CompatibleMagazines.Some? &&
            (!smallestIfEmpty || FitsOf(firearm.CompatibleMagazines.value, blacklist, minCapacity, Ceiling(maxCapacity)) != []) &&
            !(blacklist.None? && minCapacity <= 0 && Ceiling(maxCapacity) >= 9999) ==>
              forall x :: x in r ==> Fits(x, blacklist, minCapacity, Ceiling(maxCapacity))
    ensures forall x :: x in r ==> Allowed(x, blacklist)
    ensures firearm.CompatibleMagazines.None? || |firearm.CompatibleMagazines.value| == 0 ==> r == []
    ensures firearm.CompatibleMagazines.Some? && |firearm.CompatibleMagazines.value| > 0 &&
            blacklist.None? && minCapacity <= 0 && Ceiling(maxCapacity) >= 9999 ==>
              r == firearm.CompatibleMagazines.value
    ensures Filtering(firearm, minCapacity, maxCapacity, blacklist) &&
            (FitsOf(firearm.CompatibleMagazines.value, blacklist, minCapacity, Ceiling(maxCapacity)) != [] || !smallestIfEmpty) ==>
              r == FitsOf(firearm.CompatibleMagazines.value, blacklist, minCapacity, Ceiling(maxCapacity))
    ensures Filtering(firearm, minCapacity, maxCapacity, blacklist) &&
            FitsOf(firearm.CompatibleMagazines.value, blacklist, minCapacity, Ceiling(maxCapacity)) == [] && smallestIfEmpty ==>
              |r| <= 1
              && (r == [] <==> forall y :: y in firearm.CompatibleMagazines.value ==> !Allowed(y, blacklist))
              && forall x :: x in r ==>
                   forall y :: y in firearm.CompatibleMagazines.value && Allowed(y, blacklist) ==> x.MagazineCapacity <= y.MagazineCapacity
  {
    var mags := firearm.CompatibleMagazines;
    if mags.None? || |mags.value| == 0 then []
    else
      var maxC := Ceiling(maxCapacity);
      if blacklist.None? && minCapacity <= 0 && maxC >= 9999 then mags.value
      else
        var kept := FitsOf(mags.value, blacklist, minCapacity, maxC);
        FitsOfMembers(mags.value, blacklist, minCapacity, maxC);
        if kept != [] || !smallestIfEmpty then kept
        else
          var c := Smallest(mags.value, blacklist);
          SmallestMeans(mags.value, blacklist);
          if c == [] then []
          else
            assert c[draw % |c|] in c;
            [c[draw % |c|]]
  }

  // ---------------------------------------------------------------- ammunition test

  /** `FVRObjectHasAmmoObject`: false for null, otherwise whether any of the four lists has an entry. */
  function HasAmmoObject(item: Option<FVRObject>): (r: bool)
    ensures r <==> item.Some? && (NonEmpty(item.value.CompatibleSingleRounds) || NonEmpty(item.value.CompatibleClips)
                                  || NonEmpty(item.value.CompatibleMagazines) || NonEmpty(item.value.CompatibleSpeedLoaders))
  {
    if item.None? then false
    else
      var i := item.value;
      (i.CompatibleSingleRounds.Some? && |i.CompatibleSingleRounds.value| != 0)
      || (i.CompatibleClips.Some? && |i.CompatibleClips.value| > 0)
      || (i.CompatibleMagazines.Some? && |i.CompatibleMagazines.value| > 0)
      || (i.CompatibleSpeedLoaders.Some? && |i.CompatibleSpeedLoaders.value| != 0)
  }

  /** On an entry that is its own catalog entry, this test is `Firearm.HasAmmo`. */
  lemma HasAmmoObjectIsHasAmmo(item: FVRObject, catalog: Catalog)
    requires item.ItemID in catalog && catalog[item.ItemID] == item
    ensures HasAmmo(item, catalog) == Ok(HasAmmoObject(Some(item)))
  {
  }
}
