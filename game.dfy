/**
 * Resource injection (`GameAPI` in `Game.cs`, a static class, here one object):
 * resources handed to `InjectResource` are kept per exact runtime type, and the
 * detoured `Resources.LoadAll` appends those of the requested type to what the
 * game itself loads.
 */
module Game {
  /** A Unity object, by the name of its runtime type and its own name. */
  datatype Resource = Resource(runtimeType: string, name: string)

  /** The injected list of a type; none is the empty list. */
  function ListOf(m: map<string, seq<Resource>>, t: string): seq<Resource>
  {
    if t in m then m[t] else []
  }

  /** One injection: the resource goes at the end of the list of its exact type, created when missing. */
  function Inject(m: map<string, seq<Resource>>, r: Resource): map<string, seq<Resource>>
  {
    m[r.runtimeType := ListOf(m, r.runtimeType) + [r]]
  }

  /** Injections one after another, oldest first. */
  function InjectAll(m: map<string, seq<Resource>>, rs: seq<Resource>): map<string, seq<Resource>>
  {
    if rs == [] then m else Inject(InjectAll(m, rs[..|rs| - 1]), rs[|rs| - 1])
  }

  /** The resources of exactly type `t`, in order. */
  function OfType(rs: seq<Resource>, t: string): (r: seq<Resource>)
    ensures forall k :: 0 <= k < |r| ==> r[k].runtimeType == t && r[k] in rs
    ensures forall x :: x in rs && x.runtimeType == t ==> x in r
  {
    if rs == [] then []
    else OfType(rs[..|rs| - 1], t) + (if rs[|rs| - 1].runtimeType == t then [rs[|rs| - 1]] else [])
  }

  /**
   * After any injections from nothing, the list of a type holds exactly the resources of
   * that type, in the order they came.
   */
  lemma {:induction false} InjectAllLists(rs: seq<Resource>, t: string)
    ensures ListOf(InjectAll(map[], rs), t) == OfType(rs, t)
  {
    if rs != [] {
      InjectAllLists(rs[..|rs| - 1], t);
    }
  }

  /** A type has a list exactly when a resource of that type came. */
  lemma {:induction false} InjectAllDomain(rs: seq<Resource>, t: string)
    ensures t in InjectAll(map[], rs) <==> exists k :: 0 <= k < |rs| && rs[k].runtimeType == t
  {
    if rs != [] {
      var front := rs[..|rs| - 1];
      InjectAllDomain(front, t);
      if t in InjectAll(map[], front) {
        var k :| 0 <= k < |front| && front[k].runtimeType == t;
        assert rs[k].runtimeType == t;
      }
      if t !in InjectAll(map[], front) && rs[|rs| - 1].runtimeType != t {
        assert forall k :: 0 <= k < |front| ==> rs[k] == front[k];
      }
    }
  }

  class GameApi {
    /** `InjectedAssets`. */
    var injected: map<string, seq<Resource>>
    /** The resources injected so far, oldest first. */
    ghost var history: seq<Resource>

    /** The lists hold what the injections so far put there. */
    ghost predicate Valid()
      reads this
    {
      injected == InjectAll(map[], history)
    }

    constructor ()
      ensures injected == map[] && history == [] && Valid()
    {
      injected := map[];
      history := [];
    }

    /**
     * `InjectResource`: the list of the resource's exact type gets it at the end, and is
     * created when it is the first of its type; no other list changes.
     */
    method InjectResource(resource: Resource)
      requires Valid()
      modifies this
      ensures history == old(history) + [resource] && Valid()
      ensures injected.Keys == old(injected).Keys + {resource.runtimeType}
      ensures injected[resource.runtimeType] == ListOf(old(injected), resource.runtimeType) + [resource]
      ensures forall t :: t in old(injected) && t != resource.runtimeType ==> injected[t] == old(injected)[t]
    {
      var t := resource.runtimeType;
      if t !in injected {
        injected := injected[t := []];
      }
      injected := injected[t := injected[t] + [resource]];
      history := history + [resource];
      assert history[..|history| - 1] == old(history);
    }

    /**
     * The detoured `Resources.LoadAll(path, type)`: what the game loaded, followed by the
     * injected resources of exactly that type; only what the game loaded when none was.
     */
    function LoadAll(original: seq<Resource>, t: string): (r: seq<Resource>)
      reads this
      ensures |r| >= |original| && r[..|original|] == original
      ensures t !in injected ==> r == original
      ensures t in injected ==> r[|original|..] == injected[t]
    {
      if t in injected then original + injected[t] else original
    }

    /**
     * With the lists kept by `InjectResource`, loading a type appends every resource ever
     * injected with exactly that type, in the order of injection, and nothing else.
     */
    lemma LoadAllAppendsInjected(original: seq<Resource>, t: string)
      requires Valid()
      ensures LoadAll(original, t) == original + OfType(history, t)
    {
      InjectAllLists(history, t);
    }

    /** A type nothing was injected for loads only what the game loaded. */
    lemma UninjectedTypeUnchanged(original: seq<Resource>, t: string)
      requires Valid()
      requires forall k :: 0 <= k < |history| ==> history[k].runtimeType != t
      ensures LoadAll(original, t) == original
    {
      InjectAllDomain(history, t);
    }
  }
}
