/**
 * `FirearmAPI`, the older copy of the firearm helpers. Its attached-object list,
 * catalog check, container list and ammunition tests are the ones of `Firearm`;
 * only its next-highest-capacity rule differs: it takes no filter, it looks
 * strictly above the current capacity, and it throws when nothing is above.
 */
module FirearmApi {
  import opened Wrappers
  import opened Host
  import SodaliteUtils
  import opened Firearm

  /** The pool entries strictly above a capacity. */
  function AboveCapacity(pool: seq<FVRObject>, currentCap: int): (r: seq<FVRObject>)
    ensures forall x :: x in r <==> x in pool && x.MagazineCapacity > currentCap
  {
    Where(pool, (x: FVRObject) => x.MagazineCapacity > currentCap)
  }

  /** The pool entries of exactly one capacity, in pool order. */
  function OfCapacity(pool: seq<FVRObject>, cap: int): (r: seq<FVRObject>)
    ensures forall x :: x in r <==> x in pool && x.MagazineCapacity == cap
  {
    Where(pool, (x: FVRObject) => x.MagazineCapacity == cap)
  }

  /**
   * `GetNextHighestCapacityMagazine(pool, currentCap)`: a random entry of the least capacity
   * above `currentCap`. `Min()` throws when no capacity is above, so the null branch is never taken.
   */
  function GetNextHighestCapacityMagazine(pool: seq<FVRObject>, currentCap: int, draw: nat): (r: Result<Option<FVRObject>, ApiError>)
    ensures r.Err? <==> forall x :: x in pool ==> x.MagazineCapacity <= currentCap
    ensures r.Err? ==> r.error == EmptySequence
    ensures r.Ok? ==> r.value.Some? && r.value.value in pool && r.value.value.MagazineCapacity > currentCap
    ensures r.Ok? ==> forall x :: x in pool && x.MagazineCapacity > currentCap ==> r.value.value.MagazineCapacity <= x.MagazineCapacity
  {
    var above := AboveCapacity(pool, currentCap);
    if |above| == 0 then Err(EmptySequence)
    else
      var nextHighestCap := MinCapacity(above);
      var valid := OfCapacity(pool, nextHighestCap);
      match SodaliteUtils.GetRandom(valid, draw)
      case Err(_) => Ok(None)
      case Ok(m) => Ok(Some(m))
  }

  /** Every pool entry of the least capacity above `currentCap` is a possible result. */
  lemma NextHighestReachesEveryCandidate(pool: seq<FVRObject>, currentCap: int, x: FVRObject)
    requires x in pool && x.MagazineCapacity > currentCap
    requires forall y :: y in pool && y.MagazineCapacity > currentCap ==> x.MagazineCapacity <= y.MagazineCapacity
    ensures exists draw: nat :: GetNextHighestCapacityMagazine(pool, currentCap, draw) == Ok(Some(x))
  {
    var above := AboveCapacity(pool, currentCap);
    assert x in above;
    var valid := OfCapacity(pool, MinCapacity(above));
    assert x in valid;
    var k :| 0 <= k < |valid| && valid[k] == x;
    SodaliteUtils.GetRandomReaches(valid, k);
    assert GetNextHighestCapacityMagazine(pool, currentCap, k) == Ok(Some(x));
  }

  /** Two filters that agree on every entry keep the same entries. */
  lemma {:induction false} WhereSame(pool: seq<FVRObject>, f: FVRObject -> bool, g: FVRObject -> bool)
    requires forall x :: f(x) == g(x)
    ensures Where(pool, f) == Where(pool, g)
  {
    if pool != [] {
      WhereSame(pool[1..], f, g);
    }
  }

  /** Keeping one capacity above `currentCap` from the entries above it is keeping it from the pool. */
  lemma OfCapacityAbove(pool: seq<FVRObject>, currentCap: int, cap: int)
    requires cap > currentCap
    ensures OfCapacity(AboveCapacity(pool, currentCap), cap) == OfCapacity(pool, cap)
  {
    var f := (x: FVRObject) => x.MagazineCapacity > currentCap;
    var g := (x: FVRObject) => x.MagazineCapacity == cap;
    assert AboveCapacity(pool, currentCap) == Where(pool, f);
    WhereNarrower(pool, f, g);
  }

  /** Filtering by a test that implies the first one leaves the same entries as filtering once. */
  lemma {:induction false} WhereNarrower(pool: seq<FVRObject>, f: FVRObject -> bool, g: FVRObject -> bool)
    requires forall x :: g(x) ==> f(x)
    ensures Where(Where(pool, f), g) == Where(pool, g)
  {
    if pool != [] {
      var rest := Where(pool[1..], f);
      WhereNarrower(pool[1..], f, g);
      if f(pool[0]) {
        assert Where(pool, f) == [pool[0]] + rest;
        assert ([pool[0]] + rest)[1..] == rest;
      } else {
        assert Where(pool, f) == rest;
      }
    }
  }

  /**
   * This copy's rule is the strict rule of `Firearm` with no filter: the same error on
   * the same pools and, for every draw, the same entry.
   */
  lemma AgreesWithStrictRule(pool: seq<FVRObject>, currentCap: int, draw: nat)
    ensures GetNextHighestCapacityMagazine(pool, currentCap, draw) == NextHighestCapacityMagazineStrict(pool, currentCap, None, draw)
  {
    var f := (x: FVRObject) => x.MagazineCapacity > currentCap;
    WhereSame(pool, Above(currentCap, None), f);
    var above := AboveCapacity(pool, currentCap);
    if |above| > 0 {
      var next := MinCapacity(above);
      OfCapacityAbove(pool, currentCap, next);
      WhereSame(above, (x: FVRObject) => x.MagazineCapacity == next, (y: FVRObject) => y.MagazineCapacity == next);
    }
  }
}
