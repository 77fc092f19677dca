/** The coordinator object itself: mutable root states shared by the `roots` map and by the callbacks of probes that are
    still running. Each method is shown to be a step of CompatibilityMachine. */
module CompatibilityCoordinators {
  import opened Options
  import M = CompatibilityMachine

  class RootState {
    var generation: nat
    var invalidated: bool
    var snapshot: Option<M.Snapshot>
    var inflight: Option<M.Inflight>
    ghost const id: nat
    ghost const key: string
    ghost var history: seq<M.Commit>

    constructor (ghost id: nat, ghost key: string)
      ensures this.id == id && this.key == key && Value() == M.Root(0, false, None, None, key, [])
    {
      generation, invalidated, snapshot, inflight := 0, false, None, None;
      this.id, this.key, this.history := id, key, [];
    }

    ghost function Value(): M.Root
      reads this
    {
      M.Root(generation, invalidated, snapshot, inflight, key, history)
    }

    /** What eviction and disposal do to one root. */
    method Retire()
      modifies this
      ensures Value() == M.Retired(old(Value()))
    {
      invalidated := true;
      generation := generation + 1;
      snapshot := None;
      inflight := None;
    }
  }

  /** The callbacks of a started probe: they hold the root object itself, not its key alone. */
  datatype Probe = Probe(id: nat, key: string, state: RootState, generation: nat, lifecycleGeneration: nat) {
    ghost function Value(): M.Flight { M.Flight(id, key, state.id, generation, lifecycleGeneration) }
  }

  class CompatibilityCoordinator {
    const ttlMs: real
    var roots: map<string, RootState>
    var lifecycleGeneration: nat
    var disposed: bool
    var probesStarted: nat  // names the promise of each probe
    ghost var created: seq<RootState>
    ghost var outstanding: set<M.Flight>

    ghost predicate Linked()
      reads this, created
    {
      && (forall i :: 0 <= i < |created| ==> created[i].id == i)
      && (forall k :: k in roots ==> roots[k] in created)
    }

    ghost function Value(): M.Cache
      requires Linked()
      reads this, created
    {
      M.Cache(map k | k in roots :: roots[k].id,
              seq(|created|, i requires 0 <= i < |created| reads this, created => created[i].Value()),
              outstanding, probesStarted, lifecycleGeneration, disposed)
    }

    ghost predicate Valid()
      reads this, created
    {
      Linked() && M.Inv(Value())
    }

    constructor (ttlMs: real)
      requires ttlMs >= 0.0
      ensures Valid() && Value() == M.Empty && this.ttlMs == ttlMs
    {
      this.ttlMs := ttlMs;
      roots, lifecycleGeneration, disposed, probesStarted := map[], 0, false, 0;
      created, outstanding := [], {};
      new;
      assert Value().states == [];
    }

    method GetOrProbe(key: string, force: bool, now: real) returns (outcome: M.Outcome, probe: Option<Probe>)
      requires Valid()
      modifies this, created
      ensures Valid() && old(created) <= created && fresh(created[|old(created)|..])
      ensures M.WellFormed(old(Value())) && (Value(), outcome) == M.GetOrProbe(old(Value()), key, force, now, ttlMs)
      ensures probe.Some? <==> outcome.Started?
      ensures probe.Some? ==>
        && probe.value.state in created && probe.value.Value() in outstanding && probe.value.id == outcome.flight
    {
      hide M.Inv;
      ghost var before := Value();
      M.GetKeepsInv(before, key, force, now, ttlMs);
      probe := None;
      if disposed {
        outcome := M.Rejected;
        return;
      }
      var state := StateFor(key);
      if !force && state.snapshot.Some? && M.IsFresh(state.snapshot.value, now, ttlMs) {
        outcome := M.Cached(state.snapshot.value);
        return;
      }
      if state.inflight.Some? && (!force || state.inflight.value.force) {
        outcome := M.Joined(state.inflight.value.flight);
        return;
      }
      var p := StartProbe(key, state, force);
      outcome, probe := M.Started(p.id), Some(p);
    }

    method StateFor(key: string) returns (state: RootState)
      requires Linked() && M.WellFormed(Value())
      modifies this`roots, this`created
      ensures Linked() && M.WellFormed(Value()) && old(created) <= created && fresh(created[|old(created)|..])
      ensures Value() == M.StateFor(old(Value()), key)
      ensures key in roots && roots[key] == state && state in created
    {
      if key in roots {
        return roots[key];
      }
      state := AddRoot(key);
      assert Value().roots == old(Value()).roots[key := |old(created)|];
    }

    method AddRoot(key: string) returns (state: RootState)
      requires Linked()
      modifies this`roots, this`created
      ensures Linked() && created == old(created) + [state] && fresh(state)
      ensures roots == old(roots)[key := state] && state.id == |old(created)|
      ensures Value().states == old(Value()).states + [M.Root(0, false, None, None, key, [])]
    {
      state := new RootState(|created|, key);
      roots := roots[key := state];
      created := created + [state];
      assert Value().states == old(Value()).states + [state.Value()];
    }

    method StartProbe(key: string, state: RootState, force: bool) returns (p: Probe)
      requires Linked() && state in created
      modifies this`probesStarted, this`outstanding, state
      ensures Linked()
      ensures Value() == M.StartProbe(old(Value()), key, state.id, force)
      ensures p.id == old(probesStarted) && p.state == state && p.Value() in outstanding
    {
      var generation := state.generation + 1;
      state.generation := generation;
      p := Probe(probesStarted, key, state, generation, lifecycleGeneration);
      state.inflight := Some(M.Inflight(generation, force, p.id));
      probesStarted := probesStarted + 1;
      outstanding := outstanding + {p.Value()};
      assert Value().states == old(Value()).states[state.id := state.Value()];
    }

    method Peek(key: string) returns (snapshot: Option<M.Snapshot>)
      requires Valid()
      ensures snapshot == if key in roots then roots[key].snapshot else None
      ensures snapshot.Some? ==> M.VerdictOf(snapshot.value) == M.Verdict(roots[key].history)
    {
      if key in roots {
        M.PeekIsVerdict(Value(), key);
        assert Value().states[roots[key].id] == roots[key].Value();
        return roots[key].snapshot;
      }
      return None;
    }

    /** The end of a probe, with its result or (when it failed) without. */
    method FinishProbe(p: Probe, result: Option<M.Handshake>, now: real) returns (outcome: M.Outcome)
      requires Valid() && p.state in created && p.Value() in outstanding
      modifies this`outstanding, p.state
      ensures Valid()
      ensures M.WellFormed(old(Value())) && (Value(), outcome) == M.FinishProbe(old(Value()), p.Value(), result, now)
    {
      hide M.Inv;
      ghost var before := Value();
      M.FinishKeepsInv(before, p.Value(), result, now);
      assert before.states[p.state.id] == p.state.Value();
      var commits := CanCommit(p);
      outstanding := outstanding - {p.Value()};
      if !commits {
        assert Value().states == before.states;
        return M.Stale;
      }
      var state := p.state;
      var snapshot := M.NextSnapshot(state.snapshot, result, p.generation, now);
      state.snapshot := Some(snapshot);
      state.history := state.history + [M.Commit(p.generation, result)];
      if state.inflight.Some? && state.inflight.value.generation == p.generation {
        state.inflight := None;
      }
      assert Value().states == before.states[state.id := state.Value()];
      return M.Committed(snapshot);
    }

    method CanCommit(p: Probe) returns (b: bool)
      requires Linked() && p.state in created && M.WellFormed(Value())
      ensures b == M.CanCommit(Value(), p.Value())
    {
      assert Value().states[p.state.id] == p.state.Value();
      assert p.key in roots ==> (roots[p.key] == p.state <==> roots[p.key].id == p.state.id);
      b := !disposed && p.lifecycleGeneration == lifecycleGeneration && !p.state.invalidated
        && p.key in roots && roots[p.key] == p.state && p.state.generation == p.generation;
    }

    method Evict(key: string)
      requires Valid()
      modifies this`roots, roots.Values
      ensures Valid() && M.WellFormed(old(Value())) && Value() == M.Evict(old(Value()), key)
    {
      hide M.Inv;
      ghost var before := Value();
      M.EvictKeepsInv(before, key);
      if key !in roots {
        return;
      }
      var state := roots[key];
      state.Retire();
      roots := roots - {key};
      assert Value().states == before.states[state.id := state.Value()];
      assert Value().roots == before.roots - {key};
    }

    method Dispose()
      requires Valid()
      modifies this, roots.Values
      ensures Valid() && Value() == M.Dispose(old(Value()))
    {
      hide M.Inv, M.Retired;
      ghost var before := Value();
      M.DisposeKeepsInv(before);
      if disposed {
        return;
      }
      RetireAll();
      disposed := true;
      lifecycleGeneration := lifecycleGeneration + 1;
      forall i | 0 <= i < |created|
        ensures created[i].Value() == M.Dispose(before).states[i]
      {
        HeldObjects(i);
      }
      roots := map[];
      assert Value().states == M.Dispose(before).states;
      assert Value().roots == map[];
    }

    method RetireAll()
      modifies roots.Values
      ensures forall s :: s in roots.Values ==> s.Value() == M.Retired(old(s.Value()))
    {
      var rest := roots.Values;
      while rest != {}
        invariant rest <= roots.Values
        invariant forall s :: s in roots.Values ==>
          s.Value() == if s in rest then old(s.Value()) else M.Retired(old(s.Value()))
        decreases |rest|
      {
        var s :| s in rest;
        s.Retire();
        rest := rest - {s};
      }
    }

    twostate lemma {:induction false} HeldObjects(i: nat)
      requires old(Linked()) && roots == old(roots) && created == old(created) && i < |created|
      ensures created[i] in roots.Values <==> i in old(Value()).roots.Values
    {
      var m := old(Value()).roots;
      if created[i] in roots.Values {
        var k :| k in roots && roots[k] == created[i];
        assert m[k] == i;
      }
      if i in m.Values {
        var k :| k in m && m[k] == i;
        assert roots[k] in created;
      }
    }
  }
}
