/**
 * The firearm helpers of the `Sodalite.Api` firearm API: the root-first list of a
 * firearm's attached objects, the catalog check of a vault file, and the
 * magazine-selection rules over pools of catalog entries.
 */
module Firearm {
  import opened Wrappers
  import opened Host
  import opened LiveObjects
  import opened SavedGunModel
  import SodaliteUtils

  /** The exceptions of the selection helpers. */
  datatype ApiError =
    | KeyNotFound(id: string)   // IM.OD[id] with no such entry
    | NullList                  // Concat over a null compatibility list
    | EmptySequence             // Min() over an empty sequence
    | EmptyList                 // GetRandom over an empty list
    | IndexOutOfRange           // a List indexer past its end

  // ---------------------------------------------------------------- attached objects

  /** The attachments that have an object wrapper, in their order. */
  function Wrapped(atts: seq<PhysObj>): (r: seq<PhysObj>)
    ensures forall x :: x in r <==> x in atts && x.wrapper.Some?
    ensures |r| <= |atts|
  {
    if atts == [] then []
    else (if atts[0].wrapper.Some? then [atts[0]] else []) + Wrapped(atts[1..])
  }

  /** Filtering distributes over concatenation, so the kept attachments stay in order. */
  lemma {:induction false} WrappedAppend(a: seq<PhysObj>, b: seq<PhysObj>)
    ensures Wrapped(a + b) == Wrapped(a) + Wrapped(b)
  {
    if a != [] {
      WrappedAppend(a[1..], b);
      assert (a + b)[0] == a[0];
      assert (a + b)[1..] == a[1..] + b;
    } else {
      assert a + b == b;
    }
  }

  /** The firearm's magazine when it is listed: non-null, not integrated, and wrapped. */
  function ListedMagazine(fa: PhysObj): (r: seq<PhysObj>)
    requires fa.kind.FirearmObj? && Typed(fa)
    ensures |r| <= 1
    ensures |r| == 1 <==> (fa.kind.magazine.Some? && !fa.kind.magazine.value.kind.IsIntegrated
                            && fa.kind.magazine.value.wrapper.Some?)
    ensures |r| == 1 ==> r[0] == fa.kind.magazine.value
  {
    match fa.kind.magazine
    case None => []
    case Some(m) => if !m.kind.IsIntegrated && m.wrapper.Some? then [m] else []
  }

  /** `GetAttachedObjects`: the firearm, its listed magazine, then its wrapped attachments. */
  method GetAttachedObjects(fa: PhysObj) returns (r: seq<PhysObj>)
    requires fa.kind.FirearmObj? && Typed(fa)
    ensures |r| > 0 && r[0] == fa
    ensures r == [fa] + ListedMagazine(fa) + Wrapped(fa.kind.attachments)
  {
    r := [fa];
    match fa.kind.magazine {
      case Some(m) =>
        if !m.kind.IsIntegrated && m.wrapper.Some? {
          r := r + [m];
        }
      case None =>
    }
    r := r + Wrapped(fa.kind.attachments);
  }

  /** Every listed object but the firearm has a wrapper, and only the firearm may be a firearm. */
  lemma AttachedObjectsShape(fa: PhysObj, r: seq<PhysObj>)
    requires fa.kind.FirearmObj? && Typed(fa)
    requires r == [fa] + ListedMagazine(fa) + Wrapped(fa.kind.attachments)
    ensures forall i :: 0 < i < |r| ==> r[i].wrapper.Some? && !r[i].kind.FirearmObj?
    ensures forall a :: a in fa.kind.attachments && a.wrapper.Some? ==> a in r
  {
    forall i | 0 < i < |r|
      ensures r[i].wrapper.Some? && !r[i].kind.FirearmObj?
    {
      if i - 1 < |ListedMagazine(fa)| {
        assert r[i] == fa.kind.magazine.value;
      } else {
        assert r[i] == Wrapped(fa.kind.attachments)[i - 1 - |ListedMagazine(fa)|];
        assert r[i] in Wrapped(fa.kind.attachments);
      }
    }
    forall a | a in fa.kind.attachments && a.wrapper.Some?
      ensures a in r
    {
      var w := Wrapped(fa.kind.attachments);
      var k :| 0 <= k < |w| && w[k] == a;
      assert r[1 + |ListedMagazine(fa)| + k] == a;
    }
  }

  // ---------------------------------------------------------------- catalog check

  /** `AllComponentsLoaded`: every component id is in the catalog. */
  function AllComponentsLoaded(cs: seq<SavedGunComponent>, catalog: Catalog): (b: bool)
    ensures b <==> forall i :: 0 <= i < |cs| ==> cs[i].ObjectID in catalog
  {
    if cs == [] then true
    else cs[0].ObjectID in catalog && AllComponentsLoaded(cs[1..], catalog)
  }

  // ---------------------------------------------------------------- compatible containers

  /** `IM.OD[item.ItemID]`: every helper first refreshes its entry from the catalog. */
  function Refresh(item: FVRObject, catalog: Catalog): (r: Result<FVRObject, ApiError>)
    ensures r.Ok? <==> item.ItemID in catalog
    ensures r.Ok? ==> r.value == catalog[item.ItemID]
    ensures r.Err? ==> r.error == KeyNotFound(item.ItemID)
  {
    if item.ItemID in catalog then Ok(catalog[item.ItemID]) else Err(KeyNotFound(item.ItemID))
  }

  /**
   * `GetCompatibleMagazines`: the refreshed entry's magazines, then clips, then speedloaders;
   * a null list makes `Concat` throw.
   */
  function GetCompatibleMagazines(firearm: FVRObject, catalog: Catalog): (r: Result<seq<FVRObject>, ApiError>)
    ensures r.Ok? <==> (firearm.ItemID in catalog
                        && catalog[firearm.ItemID].CompatibleMagazines.Some?
                        && catalog[firearm.ItemID].CompatibleClips.Some?
                        && catalog[firearm.ItemID].CompatibleSpeedLoaders.Some?)
    ensures r.Ok? ==>
              var e := catalog[firearm.ItemID];
              var m := e.CompatibleMagazines.value;
              var c := e.CompatibleClips.value;
              |r.value| == |m| + |c| + |e.CompatibleSpeedLoaders.value|
              && r.value[..|m|] == m && r.value[|m|..|m| + |c|] == c
              && r.value[|m| + |c|..] == e.CompatibleSpeedLoaders.value
  {
    match Refresh(firearm, catalog)
    case Err(e) => Err(e)
    case Ok(e) =>
      if e.CompatibleMagazines.None? || e.CompatibleClips.None? || e.CompatibleSpeedLoaders.None? then Err(NullList)
      else
        var m, c, s := e.CompatibleMagazines.value, e.CompatibleClips.value, e.CompatibleSpeedLoaders.value;
        assert (m + c + s)[..|m|] == m && (m + c + s)[|m|..|m| + |c|] == c && (m + c + s)[|m| + |c|..] == s;
        Ok(m + c + s)
  }

  /** `list is { Count: > 0 }`. */
  predicate NonEmpty(l: Option<seq<FVRObject>>)
  {
    l.Some? && |l.value| > 0
  }

  /** `HasMagazine`: the refreshed entry has clips, magazines or speedloaders. */
  function HasMagazine(item: FVRObject, catalog: Catalog): (r: Result<bool, ApiError>)
    ensures r.Err? <==> item.ItemID !in catalog
  {
    match Refresh(item, catalog)
    case Err(e) => Err(e)
    case Ok(e) => Ok(NonEmpty(e.CompatibleClips) || NonEmpty(e.CompatibleMagazines) || NonEmpty(e.CompatibleSpeedLoaders))
  }

  /**
   * `HasAmmo`: the refreshed entry has single rounds, or `HasMagazine` holds of the
   * refreshed entry, which looks up that entry's own `ItemID` once more.
   */
  function HasAmmo(item: FVRObject, catalog: Catalog): (r: Result<bool, ApiError>)
    ensures r.Err? <==> item.ItemID !in catalog
                         || (!NonEmpty(catalog[item.ItemID].CompatibleSingleRounds) && catalog[item.ItemID].ItemID !in catalog)
    ensures r.Ok? && item.ItemID in catalog && NonEmpty(catalog[item.ItemID].CompatibleSingleRounds) ==> r.value
  {
    match Refresh(item, catalog)
    case Err(e) => Err(e)
    case Ok(e) =>
      if NonEmpty(e.CompatibleSingleRounds) then Ok(true)
      else HasMagazine(e, catalog)
  }

  /**
   * Where the container list exists, `HasMagazine` is exactly its being non-empty; on an
   * entry stored under its own `ItemID` it implies `HasAmmo`.
   */
  lemma HasMagazineIffContainers(item: FVRObject, catalog: Catalog)
    requires GetCompatibleMagazines(item, catalog).Ok?
    ensures HasMagazine(item, catalog) == Ok(|GetCompatibleMagazines(item, catalog).value| > 0)
    ensures HasMagazine(item, catalog) == Ok(true) && catalog[item.ItemID].ItemID == item.ItemID ==>
              HasAmmo(item, catalog) == Ok(true)
  {
  }

  /**
   * `HasAmmo` is false only when the entry has no rounds and the entry stored under its
   * own `ItemID` has no container of any kind.
   */
  lemma NoAmmoMeansNothing(item: FVRObject, catalog: Catalog)
    requires HasAmmo(item, catalog) == Ok(false)
    ensures item.ItemID in catalog && catalog[item.ItemID].ItemID in catalog
    ensures !NonEmpty(catalog[item.ItemID].CompatibleSingleRounds)
    ensures var f := catalog[catalog[item.ItemID].ItemID];
            !NonEmpty(f.CompatibleMagazines) && !NonEmpty(f.CompatibleClips) && !NonEmpty(f.CompatibleSpeedLoaders)
  {
  }

  // ---------------------------------------------------------------- selection

  /** `Where(filter)`: the passing entries, as often as in the pool (`WhereCounts`) and in pool order (`WhereAppend`). */
  function Where(pool: seq<FVRObject>, f: FVRObject -> bool): (r: seq<FVRObject>)
    ensures forall x :: x in r <==> x in pool && f(x)
    ensures |r| <= |pool|
  {
    if pool == [] then [] else (if f(pool[0]) then [pool[0]] else []) + Where(pool[1..], f)
  }

  /** `Where` keeps every passing entry as often as the pool has it, and no other. */
  lemma {:induction false} WhereCounts(pool: seq<FVRObject>, f: FVRObject -> bool, x: FVRObject)
    ensures multiset(Where(pool, f))[x] == if f(x) then multiset(pool)[x] else 0
  {
    if pool != [] {
      assert pool == [pool[0]] + pool[1..];
      WhereCounts(pool[1..], f, x);
    }
  }

  /** `Where` keeps order: filtering a concatenation concatenates the filtered parts. */
  lemma {:induction false} WhereAppend(a: seq<FVRObject>, b: seq<FVRObject>, f: FVRObject -> bool)
    ensures Where(a + b, f) == Where(a, f) + Where(b, f)
  {
    if a != [] {
      var h := if f(a[0]) then [a[0]] else [];
      assert (a + b)[0] == a[0] && (a + b)[1..] == a[1..] + b;
      assert Where(a + b, f) == h + Where(a[1..] + b, f);
      assert Where(a, f) == h + Where(a[1..], f);
      WhereAppend(a[1..], b, f);
      SodaliteUtils.ConcatAssoc(h, Where(a[1..], f), Where(b, f));
    } else {
      assert a + b == b;
    }
  }

  /** The pool an optional filter leaves. */
  function Filtered(pool: seq<FVRObject>, filter: Option<FVRObject -> bool>): seq<FVRObject>
  {
    match filter
    case None => pool
    case Some(f) => Where(pool, f)
  }

  /** `Select((x: FVRObject) => x.MagazineCapacity).Min()` over a non-empty pool. */
  function MinCapacity(pool: seq<FVRObject>): (m: int)
    requires |pool| > 0
    ensures forall x :: x in pool ==> m <= x.MagazineCapacity
    ensures exists x :: x in pool && x.MagazineCapacity == m
  {
    if |pool| == 1 then pool[0].MagazineCapacity
    else
      var rest := MinCapacity(pool[1..]);
      assert forall x :: x in pool ==> x == pool[0] || x in pool[1..];
      if pool[0].MagazineCapacity <= rest then pool[0].MagazineCapacity else rest
  }

  /**
   * `GetSmallestMagazine(pool, filter)`: a random one of the filtered entries of least
   * capacity. `Min()` throws on an empty filtered pool, so the null branch is never taken.
   */
  function GetSmallestMagazine(pool: seq<FVRObject>, filter: Option<FVRObject -> bool>, draw: nat): (r: Result<Option<FVRObject>, ApiError>)
    ensures r.Err? <==> |Filtered(pool, filter)| == 0
    ensures r.Err? ==> r.error == EmptySequence
    ensures r.Ok? ==> r.value.Some? && r.value.value in Filtered(pool, filter)
                      && forall x :: x in Filtered(pool, filter) ==> r.value.value.MagazineCapacity <= x.MagazineCapacity
  {
    var candidates := Filtered(pool, filter);
    if |candidates| == 0 then Err(EmptySequence)
    else
      var smallest := MinCapacity(candidates);
      var valid := Where(candidates, (x: FVRObject) => x.MagazineCapacity == smallest);
      match SodaliteUtils.GetRandom(valid, draw)
      case Err(_) => Ok(None)
      case Ok(m) => Ok(Some(m))
  }

  /** Every filtered entry of least capacity is a possible result. */
  lemma SmallestReachesEveryMinimum(pool: seq<FVRObject>, filter: Option<FVRObject -> bool>, x: FVRObject)
    requires x in Filtered(pool, filter)
    requires forall y :: y in Filtered(pool, filter) ==> x.MagazineCapacity <= y.MagazineCapacity
    ensures exists draw: nat :: GetSmallestMagazine(pool, filter, draw) == Ok(Some(x))
  {
    var candidates := Filtered(pool, filter);
    var smallest := MinCapacity(candidates);
    var valid := Where(candidates, (y: FVRObject) => y.MagazineCapacity == smallest);
    assert x in valid;
    var k :| 0 <= k < |valid| && valid[k] == x;
    SodaliteUtils.GetRandomReaches(valid, k);
    assert GetSmallestMagazine(pool, filter, k) == Ok(Some(x));
  }

  /** The filter `GetNextHighestCapacityMagazine` passes on: at least `currentCap`, and the caller's filter. */
  function AtLeast(currentCap: int, filter: Option<FVRObject -> bool>): FVRObject -> bool
  {
    match filter
    case None => (x: FVRObject) => x.MagazineCapacity >= currentCap
    case Some(f) => (x: FVRObject) => x.MagazineCapacity >= currentCap && f(x)
  }

  /**
   * `GetNextHighestCapacityMagazine(pool, currentCap, filter)` as written: the smallest
   * entry of capacity at least `currentCap` that passes the filter.
   */
  function GetNextHighestCapacityMagazine(pool: seq<FVRObject>, currentCap: int, filter: Option<FVRObject -> bool>, draw: nat): (r: Result<Option<FVRObject>, ApiError>)
    ensures r.Ok? ==> r.value.Some? && r.value.value in pool && r.value.value.MagazineCapacity >= currentCap
    ensures r.Ok? && filter.Some? ==> filter.value(r.value.value)
    ensures r.Ok? ==> forall x :: x in pool && x.MagazineCapacity >= currentCap && (filter.None? || filter.value(x))
                        ==> r.value.value.MagazineCapacity <= x.MagazineCapacity
    ensures r.Err? <==> forall x :: x in pool && x.MagazineCapacity >= currentCap ==> filter.Some? && !filter.value(x)
    ensures r.Err? ==> r.error == EmptySequence
  {
    AtLeastHolds(currentCap, filter);
    GetSmallestMagazine(pool, Some(AtLeast(currentCap, filter)), draw)
  }

  lemma AtLeastHolds(currentCap: int, filter: Option<FVRObject -> bool>)
    ensures forall x :: AtLeast(currentCap, filter)(x) <==> x.MagazineCapacity >= currentCap && (filter.None? || filter.value(x))
  {
  }

  /** A magazine of exactly the current capacity is returned: the rule is not "one step up". */
  lemma NextHighestReturnsSameCapacity(m: FVRObject)
    ensures GetNextHighestCapacityMagazine([m], m.MagazineCapacity, None, 0) == Ok(Some(m))
  {
    assert Where([m], AtLeast(m.MagazineCapacity, None)) == [m];
    assert Where([m], (x: FVRObject) => x.MagazineCapacity == m.MagazineCapacity) == [m];
  }

  /** The rule the name promises: the smallest entry strictly above `currentCap`. */
  function NextHighestCapacityMagazineStrict(pool: seq<FVRObject>, currentCap: int, filter: Option<FVRObject -> bool>, draw: nat): (r: Result<Option<FVRObject>, ApiError>)
    ensures r.Ok? ==> r.value.Some? && r.value.value in pool && r.value.value.MagazineCapacity > currentCap
    ensures r.Ok? && filter.Some? ==> filter.value(r.value.value)
    ensures r.Ok? ==> forall x :: x in pool && x.MagazineCapacity > currentCap && (filter.None? || filter.value(x))
                        ==> r.value.value.MagazineCapacity <= x.MagazineCapacity
    ensures r.Err? <==> forall x :: x in pool && x.MagazineCapacity > currentCap ==> filter.Some? && !filter.value(x)
    ensures r.Err? ==> r.error == EmptySequence
  {
    AboveHolds(currentCap, filter);
    GetSmallestMagazine(pool, Some(Above(currentCap, filter)), draw)
  }

  function Above(currentCap: int, filter: Option<FVRObject -> bool>): FVRObject -> bool
  {
    match filter
    case None => (x: FVRObject) => x.MagazineCapacity > currentCap
    case Some(f) => (x: FVRObject) => x.MagazineCapacity > currentCap && f(x)
  }

  lemma AboveHolds(currentCap: int, filter: Option<FVRObject -> bool>)
    ensures forall x :: Above(currentCap, filter)(x) <==> x.MagazineCapacity > currentCap && (filter.None? || filter.value(x))
  {
  }

  /**
   * `GetMagazineCompatibleWithAny`'s list: for each pool entry in turn, its filtered
   * compatible containers; the first entry whose lookup throws stops the query.
   */
  function CompatibleWithAny(pool: seq<FVRObject>, filter: Option<FVRObject -> bool>, catalog: Catalog): (r: Result<seq<FVRObject>, ApiError>)
    ensures r.Ok? <==> forall i :: 0 <= i < |pool| ==> GetCompatibleMagazines(pool[i], catalog).Ok?
    ensures r.Ok? ==> forall x :: x in r.value <==>
              exists i :: 0 <= i < |pool| && x in Filtered(GetCompatibleMagazines(pool[i], catalog).value, filter)
  {
    if pool == [] then Ok([])
    else
      match GetCompatibleMagazines(pool[0], catalog)
      case Err(e) => Err(e)
      case Ok(l) =>
        match CompatibleWithAny(pool[1..], filter, catalog)
        case Err(e) =>
          LookupFailsLater(pool, catalog);
          Err(e)
        case Ok(rest) =>
          var r := Filtered(l, filter) + rest;
          CompatibleConsMembers(pool, filter, catalog, l, rest);
          Ok(r)
  }

  /** A lookup that throws past the first entry is one that throws in the whole pool. */
  lemma LookupFailsLater(pool: seq<FVRObject>, catalog: Catalog)
    requires pool != []
    requires !forall i :: 0 <= i < |pool[1..]| ==> GetCompatibleMagazines(pool[1..][i], catalog).Ok?
    ensures !forall i :: 0 <= i < |pool| ==> GetCompatibleMagazines(pool[i], catalog).Ok?
  {
    var i :| 0 <= i < |pool[1..]| && !GetCompatibleMagazines(pool[1..][i], catalog).Ok?;
    assert pool[1..][i] == pool[i + 1];
  }

  /** The first entry's filtered list before the list of the others holds the filtered lists of every entry. */
  lemma CompatibleConsMembers(pool: seq<FVRObject>, filter: Option<FVRObject -> bool>, catalog: Catalog,
                              l: seq<FVRObject>, rest: seq<FVRObject>)
    requires pool != [] && GetCompatibleMagazines(pool[0], catalog) == Ok(l)
    requires forall i :: 0 <= i < |pool[1..]| ==> GetCompatibleMagazines(pool[1..][i], catalog).Ok?
    requires forall x :: x in rest <==>
      exists i :: 0 <= i < |pool[1..]| && x in Filtered(GetCompatibleMagazines(pool[1..][i], catalog).value, filter)
    ensures forall i :: 0 <= i < |pool| ==> GetCompatibleMagazines(pool[i], catalog).Ok?
    ensures forall x :: x in Filtered(l, filter) + rest <==>
      exists i :: 0 <= i < |pool| && x in Filtered(GetCompatibleMagazines(pool[i], catalog).value, filter)
  {
    LookupsSucceed(pool, catalog);
    forall x | x in Filtered(l, filter) + rest
      ensures exists i :: 0 <= i < |pool| && x in Filtered(GetCompatibleMagazines(pool[i], catalog).value, filter)
    {
      if x !in Filtered(l, filter) {
        var i :| 0 <= i < |pool[1..]| && x in Filtered(GetCompatibleMagazines(pool[1..][i], catalog).value, filter);
        InListAfterFirst(pool, filter, catalog, x, i);
      }
    }
    forall x, i | 0 <= i < |pool| && x in Filtered(GetCompatibleMagazines(pool[i], catalog).value, filter)
      ensures x in Filtered(l, filter) + rest
    {
      if i > 0 {
        InListOfLater(pool, filter, catalog, x, i);
      }
    }
  }

  lemma InListOfLater(pool: seq<FVRObject>, filter: Option<FVRObject -> bool>, catalog: Catalog, x: FVRObject, i: nat)
    requires 0 < i < |pool| && GetCompatibleMagazines(pool[i], catalog).Ok?
    requires x in Filtered(GetCompatibleMagazines(pool[i], catalog).value, filter)
    ensures 0 <= i - 1 < |pool[1..]| && GetCompatibleMagazines(pool[1..][i - 1], catalog).Ok?
    ensures x in Filtered(GetCompatibleMagazines(pool[1..][i - 1], catalog).value, filter)
  {
    assert pool[1..][i - 1] == pool[i];
  }

  lemma LookupsSucceed(pool: seq<FVRObject>, catalog: Catalog)
    requires pool != [] && GetCompatibleMagazines(pool[0], catalog).Ok?
    requires forall i :: 0 <= i < |pool[1..]| ==> GetCompatibleMagazines(pool[1..][i], catalog).Ok?
    ensures forall i :: 0 <= i < |pool| ==> GetCompatibleMagazines(pool[i], catalog).Ok?
  {
    forall i | 0 <= i < |pool|
      ensures GetCompatibleMagazines(pool[i], catalog).Ok?
    {
      if i > 0 {
        assert pool[1..][i - 1] == pool[i];
      }
    }
  }

  lemma InListAfterFirst(pool: seq<FVRObject>, filter: Option<FVRObject -> bool>, catalog: Catalog, x: FVRObject, i: nat)
    requires pool != [] && i < |pool[1..]| && GetCompatibleMagazines(pool[1..][i], catalog).Ok?
    requires x in Filtered(GetCompatibleMagazines(pool[1..][i], catalog).value, filter)
    ensures 0 <= i + 1 < |pool| && GetCompatibleMagazines(pool[i + 1], catalog).Ok?
    ensures x in Filtered(GetCompatibleMagazines(pool[i + 1], catalog).value, filter)
  {
    assert pool[1..][i] == pool[i + 1];
  }

  /** `GetMagazineCompatibleWithAny`: a random member of that list; `GetRandom` throws when it is empty. */
  function GetMagazineCompatibleWithAny(pool: seq<FVRObject>, filter: Option<FVRObject -> bool>, catalog: Catalog, draw: nat): (r: Result<FVRObject, ApiError>)
    ensures r.Ok? ==> exists i :: 0 <= i < |pool| && GetCompatibleMagazines(pool[i], catalog).Ok?
                                  && r.value in Filtered(GetCompatibleMagazines(pool[i], catalog).value, filter)
    ensures r.Err? && CompatibleWithAny(pool, filter, catalog).Ok? ==>
              r.error == EmptyList
              && forall i, x :: 0 <= i < |pool| ==> x !in Filtered(GetCompatibleMagazines(pool[i], catalog).value, filter)
  {
    match CompatibleWithAny(pool, filter, catalog)
    case Err(e) => Err(e)
    case Ok(l) =>
      match SodaliteUtils.GetRandom(l, draw)
      case Err(_) =>
        assert forall i, x :: 0 <= i < |pool| ==> x !in Filtered(GetCompatibleMagazines(pool[i], catalog).value, filter) by {
          forall i, x | 0 <= i < |pool|
            ensures x !in Filtered(GetCompatibleMagazines(pool[i], catalog).value, filter)
          {
            assert x in Filtered(GetCompatibleMagazines(pool[i], catalog).value, filter) ==> x in l;
          }
        }
        Err(EmptyList)
      case Ok(m) => Ok(m)
  }

  /** `GetSmallestMagazine(firearm, filter)`: the selection over the firearm's compatible containers. */
  function GetSmallestMagazineFor(firearm: FVRObject, filter: Option<FVRObject -> bool>, catalog: Catalog, draw: nat): (r: Result<Option<FVRObject>, ApiError>)
    ensures GetCompatibleMagazines(firearm, catalog).Err? ==> r == Err(GetCompatibleMagazines(firearm, catalog).error)
    ensures r.Ok? ==> r.value.Some? && r.value.value in Filtered(GetCompatibleMagazines(firearm, catalog).value, filter)
    ensures r.Ok? ==> forall x :: x in Filtered(GetCompatibleMagazines(firearm, catalog).value, filter)
                        ==> r.value.value.MagazineCapacity <= x.MagazineCapacity
    ensures GetCompatibleMagazines(firearm, catalog).Ok? ==>
              (r == Err(EmptySequence) <==> |Filtered(GetCompatibleMagazines(firearm, catalog).value, filter)| == 0)
  {
    match GetCompatibleMagazines(firearm, catalog)
    case Err(e) => Err(e)
    case Ok(l) => GetSmallestMagazine(l, filter, draw)
  }

  /** Every filtered container of the firearm with least capacity is a possible result. */
  lemma SmallestForReachesEveryMinimum(firearm: FVRObject, filter: Option<FVRObject -> bool>, catalog: Catalog, x: FVRObject)
    requires GetCompatibleMagazines(firearm, catalog).Ok?
    requires x in Filtered(GetCompatibleMagazines(firearm, catalog).value, filter)
    requires forall y :: y in Filtered(GetCompatibleMagazines(firearm, catalog).value, filter) ==> x.MagazineCapacity <= y.MagazineCapacity
    ensures exists draw: nat :: GetSmallestMagazineFor(firearm, filter, catalog, draw) == Ok(Some(x))
  {
    var l := GetCompatibleMagazines(firearm, catalog).value;
    SmallestReachesEveryMinimum(l, filter, x);
    var draw: nat :| GetSmallestMagazine(l, filter, draw) == Ok(Some(x));
    assert GetSmallestMagazineFor(firearm, filter, catalog, draw) == Ok(Some(x));
  }

  // ---------------------------------------------------------------- chambers

  /** A firearm's receiver class: one of the classes `GetFirearmChambers` lists, with its chambers, or another. */
  datatype ReceiverClass = ListedReceiver(chambers: seq<nat>) | UnlistedReceiver

  /** `GetFirearmChambers`: the listed class's chambers; any other class gives an empty array. */
  function GetFirearmChambers(receiver: ReceiverClass): (r: seq<nat>)
    ensures receiver.UnlistedReceiver? ==> r == []
    ensures receiver.ListedReceiver? ==> r == receiver.chambers
  {
    match receiver
    case ListedReceiver(cs) => cs
    case UnlistedReceiver => []
  }
}
