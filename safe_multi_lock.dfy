/**
 * `SafeMultiLock`: any number of mods may each hold a lock; the state counts as
 * locked while at least one of them is held. The locks live in one `HashSet<Lock>`
 * that the lock object and every lock it hands out share: a new `Lock` puts itself
 * in, `Dispose` takes itself out.
 */
module SafeMultiLock {

  /** The shared `HashSet<Lock>`. */
  class LockSet {
    var members: set<Lock>

    constructor ()
      ensures members == {}
    {
      members := {};
    }
  }

  /** A taken lock, which keeps a reference to the set it registered itself in. */
  class Lock {
    const locks: LockSet

    /** The constructor adds the new lock to the shared set. */
    constructor (locks: LockSet)
      modifies locks
      ensures this.locks == locks
      ensures locks.members == old(locks.members) + {this}
    {
      this.locks := locks;
      new;
      locks.members := locks.members + {this};
    }

    /** `Dispose` removes this lock, and only this one; a second call finds nothing to remove. */
    method Dispose()
      modifies locks
      ensures locks.members == old(locks.members) - {this}
    {
      locks.members := locks.members - {this};
    }
  }

  class SafeMultiLock {
    /** `_locks`. */
    const locks: LockSet

    constructor ()
      ensures fresh(locks) && locks.members == {}
    {
      locks := new LockSet();
    }

    /** True while one or more locks are held. */
    function IsLocked(): (b: bool)
      reads this, locks
      ensures b <==> exists l :: l in locks.members
    {
      |locks.members| > 0
    }

    /** `TakeLock`: a new lock, distinct from every lock held so far, registered in the set. */
    method TakeLock() returns (l: Lock)
      modifies locks
      ensures fresh(l) && l.locks == locks
      ensures l !in old(locks.members)
      ensures locks.members == old(locks.members) + {l}
    {
      l := new Lock(locks);
    }
  }

  /** What a user of the lock does: take a lock under a name, or dispose the lock taken under a name. */
  datatype LockEvent = Take(name: nat) | Dispose(name: nat)

  /** The locks held after a run of events, oldest first; each take makes a fresh lock. */
  function Held(events: seq<LockEvent>): set<nat>
  {
    if events == [] then {}
    else
      var before := Held(events[..|events| - 1]);
      match events[|events| - 1]
      case Take(n) => before + {n}
      case Dispose(n) => before - {n}
  }

  /** A lock taken at position `i` and not disposed later. */
  predicate HeldSince(events: seq<LockEvent>, name: nat, i: int)
  {
    0 <= i < |events| && events[i] == Take(name)
      && forall j :: i < j < |events| ==> events[j] != Dispose(name)
  }

  /** A lock is held exactly when it was taken and not disposed since. */
  lemma {:induction false} HeldIff(events: seq<LockEvent>, name: nat)
    ensures name in Held(events) <==> exists i :: HeldSince(events, name, i)
    decreases |events|
  {
    if events != [] {
      var k := |events| - 1;
      var before := events[..k];
      HeldIff(before, name);
      if events[k] == Take(name) {
        assert HeldSince(events, name, k);
      }
      if exists i :: HeldSince(before, name, i) {
        var i :| HeldSince(before, name, i);
        if events[k] != Dispose(name) {
          assert HeldSince(events, name, i);
        }
      }
      if exists i :: HeldSince(events, name, i) {
        var i :| HeldSince(events, name, i);
        if i < k {
          assert HeldSince(before, name, i);
          assert events[k] != Dispose(name);
        } else {
          assert events[k] == Take(name);
        }
      }
    }
  }

  /** The state is unlocked exactly when every lock taken has been disposed after it was taken. */
  lemma UnlockedIffAllDisposed(events: seq<LockEvent>)
    ensures Held(events) == {} <==>
      forall i :: 0 <= i < |events| && events[i].Take? ==>
        exists j :: i < j < |events| && events[j] == Dispose(events[i].name)
  {
    if Held(events) == {} {
      forall i | 0 <= i < |events| && events[i].Take?
        ensures exists j :: i < j < |events| && events[j] == Dispose(events[i].name)
      {
        HeldIff(events, events[i].name);
        assert !HeldSince(events, events[i].name, i);
      }
    } else {
      var n :| n in Held(events);
      HeldIff(events, n);
      var i :| HeldSince(events, n, i);
      assert events[i].Take?;
    }
  }

  /** Disposing a lock twice leaves the same locks held as disposing it once. */
  lemma DisposeTwice(events: seq<LockEvent>, name: nat)
    ensures Held(events + [Dispose(name), Dispose(name)]) == Held(events + [Dispose(name)])
  {
    assert (events + [Dispose(name), Dispose(name)])[..|events| + 1] == events + [Dispose(name)];
    assert (events + [Dispose(name)])[..|events|] == events;
  }

  /** Disposing one lock leaves every other lock held as it was. */
  lemma DisposeOnlyThat(events: seq<LockEvent>, name: nat, other: nat)
    requires other != name
    ensures other in Held(events + [Dispose(name)]) <==> other in Held(events)
  {
    assert (events + [Dispose(name)])[..|events|] == events;
  }

  /** A run names each lock it takes once: every `TakeLock` hands out a new lock. */
  predicate FreshNames(events: seq<LockEvent>)
  {
    forall i, j :: 0 <= i < j < |events| && events[i].Take? && events[j].Take? ==> events[i].name != events[j].name
  }

  /**
   * A run of events played on the classes: `Take(n)` calls `TakeLock` and keeps the lock
   * under `n`, `Dispose(n)` disposes the lock kept under `n` (a name never taken holds
   * no lock to dispose). Afterwards the shared set holds exactly the locks whose names
   * `Held` gives, and `IsLocked` agrees with it.
   */
  method Replay(m: SafeMultiLock, events: seq<LockEvent>) returns (named: map<nat, Lock>)
    requires m.locks.members == {} && FreshNames(events)
    modifies m.locks
    ensures forall n :: n in Held(events) ==> n in named
    ensures forall n :: n in named ==> (named[n] in m.locks.members <==> n in Held(events))
    ensures forall l :: l in m.locks.members ==> exists n :: n in named && named[n] == l
    ensures m.IsLocked() <==> Held(events) != {}
  {
    named := map[];
    var i := 0;
    while i < |events|
      invariant 0 <= i <= |events|
      invariant forall n :: n in Held(events[..i]) ==> n in named
      invariant forall n :: n in named ==> named[n].locks == m.locks
      invariant forall a, b :: a in named && b in named && a != b ==> named[a] != named[b]
      invariant forall n :: n in named ==> (named[n] in m.locks.members <==> n in Held(events[..i]))
      invariant forall l :: l in m.locks.members ==> exists n :: n in named && named[n] == l
      invariant forall n :: n in named ==> exists k :: 0 <= k < i && events[k] == Take(n)
    {
      assert events[..i + 1][..i] == events[..i];
      match events[i] {
        case Take(n) =>
          assert n !in named;
          var l := m.TakeLock();
          named := named[n := l];
        case Dispose(n) =>
          if n in named {
            named[n].Dispose();
          }
      }
      i := i + 1;
    }
    assert events[..i] == events;
    if Held(events) != {} {
      var n :| n in Held(events);
      assert named[n] in m.locks.members;
    }
  }
}
