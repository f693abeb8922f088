/** The set of volumes with a call in flight (pkg/csi/lvm/inflight.go). */
module InFlight {

  /** What one call under the mutex does to the set, and what Insert answers. */
  function Inserted(keys: set<string>, key: string): (set<string>, bool) {
    (keys + {key}, key !in keys)
  }

  function Deleted(keys: set<string>, key: string): set<string> {
    keys - {key}
  }

  class Db {
    var inFlight: set<string>

    constructor ()
      ensures inFlight == {}
    {
      inFlight := {};
    }

    method Insert(key: string) returns (ok: bool)
      modifies this
      ensures (inFlight, ok) == Inserted(old(inFlight), key)
    {
      if key in inFlight {
        assert inFlight + {key} == inFlight;
        return false;
      }
      inFlight := inFlight + {key};
      return true;
    }

    method Delete(key: string)
      modifies this
      ensures inFlight == Deleted(old(inFlight), key)
    {
      inFlight := inFlight - {key};
    }
  }

  // ---------- any number of callers ----------

  /** The shared set, and the keys that each caller inserted and still holds. */
  datatype System = System(keys: set<string>, held: map<nat, set<string>>)

  datatype Step = TryInsert(caller: nat, key: string) | Release(caller: nat, key: string)

  function Holds(s: System, caller: nat): set<string> {
    if caller in s.held then s.held[caller] else {}
  }

  /** Each call is atomic under the mutex; a caller deletes only what it holds. */
  predicate Allowed(s: System, step: Step) {
    step.Release? ==> step.key in Holds(s, step.caller)
  }

  function Next(s: System, step: Step): System {
    match step
    case TryInsert(caller, key) =>
      var (keys, ok) := Inserted(s.keys, key);
      System(keys, if ok then s.held[caller := Holds(s, caller) + {key}] else s.held)
    case Release(caller, key) => System(Deleted(s.keys, key), s.held[caller := Holds(s, caller) - {key}])
  }

  function Exec(s: System, steps: seq<Step>): System
    decreases |steps|
  {
    if steps == [] then s else Exec(Next(s, steps[0]), steps[1..])
  }

  predicate AllAllowed(s: System, steps: seq<Step>)
    decreases |steps|
  {
    steps != [] ==> Allowed(s, steps[0]) && AllAllowed(Next(s, steps[0]), steps[1..])
  }

  /** At most one caller holds each key, and the set holds exactly the held keys. */
  ghost predicate Exclusive(s: System) {
    && (forall a, b, k :: a in s.held && b in s.held && k in s.held[a] && k in s.held[b] ==> a == b)
    && (forall k :: k in s.keys <==> exists a :: a in s.held && k in s.held[a])
  }

  lemma StepExclusive(s: System, step: Step)
    requires Exclusive(s) && Allowed(s, step)
    ensures Exclusive(Next(s, step))
  {
    var s' := Next(s, step);
    forall k | k in s'.keys ensures exists a :: a in s'.held && k in s'.held[a] {
      if k in s.keys {
        var a :| a in s.held && k in s.held[a];
        assert a in s'.held && k in s'.held[a];
      } else {
        assert step.caller in s'.held && k in s'.held[step.caller];
      }
    }
  }

  /** In every interleaving of any number of callers that delete only what they hold, the keys stay
      exclusive and the set stays exact. */
  lemma {:induction false} AlwaysExclusive(s: System, steps: seq<Step>)
    requires Exclusive(s) && AllAllowed(s, steps)
    ensures Exclusive(Exec(s, steps))
    decreases |steps|
  {
    if steps != [] {
      StepExclusive(s, steps[0]);
      AlwaysExclusive(Next(s, steps[0]), steps[1..]);
    }
  }

  /** The rule on deletes is needed: with it broken, two callers come to hold one key. */
  lemma ForeignDeleteBreaksExclusion(key: string)
    ensures var s := Exec(System({}, map[]), [TryInsert(0, key), Release(1, key), TryInsert(2, key)]);
      key in Holds(s, 0) && key in Holds(s, 2)
  {
    var s1 := Next(System({}, map[]), TryInsert(0, key));
    var s2 := Next(s1, Release(1, key));
    var steps := [TryInsert(0, key), Release(1, key), TryInsert(2, key)];
    assert steps[1..][1..] == [TryInsert(2, key)] && steps[1..][0] == Release(1, key);
    assert Exec(s2, [TryInsert(2, key)]) == Next(s2, TryInsert(2, key)) by { assert [TryInsert(2, key)][1..] == []; }
  }
}
