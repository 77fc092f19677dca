/** The per-root compatibility cache of apps/cognis-mcp/src/compatibilityCoordinator.ts as a state machine over
    plain values. A RootState object is named by its position in the sequence of all objects ever created, so that
    object identity is kept apart from the generation numbers, which start again after an eviction. */
module CompatibilityMachine {
  import opened Options

  datatype Kind = Ok | BackendOlder | BackendNewer | EngineOutdated | EngineNewer | CapabilitiesMissing | Unreadable

  /** A handshake verdict; `detail` stands for the fields the cache passes through untouched. */
  datatype Handshake = Handshake(kind: Kind, detail: string)

  datatype Snapshot =
    | Confirmed(result: Handshake, generation: nat, observedAt: real)
    | Unavailable(generation: nat, observedAt: real)

  datatype Inflight = Inflight(generation: nat, force: bool, flight: nat)

  /** One committed probe. */
  datatype Commit = Commit(generation: nat, result: Option<Handshake>)

  /** A RootState object. `key` and `history` record under which key it was created and what was committed to it. */
  datatype Root = Root(
    generation: nat, invalidated: bool, snapshot: Option<Snapshot>, inflight: Option<Inflight>,
    key: string, history: seq<Commit>)

  /** What the callbacks of a started probe hold on to. */
  datatype Flight = Flight(id: nat, key: string, root: nat, generation: nat, lifecycle: nat)

  datatype Cache = Cache(
    roots: map<string, nat>, states: seq<Root>, flights: set<Flight>, nextFlight: nat, lifecycle: nat, disposed: bool)

  datatype Outcome =
    | Rejected                     // the coordinator has been disposed
    | Cached(snapshot: Snapshot)
    | Joined(flight: nat)
    | Started(flight: nat)
    | Committed(snapshot: Snapshot)
    | Stale                        // the probe's promise rejects
    | Done

  const Empty := Cache(map[], [], {}, 0, 0, false)

  // ---- The steps --------------------------------------------------------------------------------------

  predicate WellFormed(c: Cache) {
    && (forall k :: k in c.roots ==> c.roots[k] < |c.states|)
    && (forall f :: f in c.flights ==> f.root < |c.states|)
  }

  predicate IsFresh(s: Snapshot, now: real, ttl: real) {
    0.0 <= now - s.observedAt < ttl
  }

  function StateFor(c: Cache, key: string): Cache {
    if key in c.roots then c
    else c.(roots := c.roots[key := |c.states|], states := c.states + [Root(0, false, None, None, key, [])])
  }

  function StartProbe(c: Cache, key: string, r: nat, force: bool): Cache
    requires r < |c.states|
  {
    var g := c.states[r].generation + 1;
    c.(states := c.states[r := c.states[r].(generation := g, inflight := Some(Inflight(g, force, c.nextFlight)))],
       flights := c.flights + {Flight(c.nextFlight, key, r, g, c.lifecycle)},
       nextFlight := c.nextFlight + 1)
  }

  function GetOrProbe(c: Cache, key: string, force: bool, now: real, ttl: real): (Cache, Outcome)
    requires WellFormed(c)
  {
    if c.disposed then (c, Rejected)
    else
      var c1 := StateFor(c, key);
      var r := c1.roots[key];
      var s := c1.states[r];
      if !force && s.snapshot.Some? && IsFresh(s.snapshot.value, now, ttl) then (c1, Cached(s.snapshot.value))
      else if s.inflight.Some? && (!force || s.inflight.value.force) then (c1, Joined(s.inflight.value.flight))
      else (StartProbe(c1, key, r, force), Started(c1.nextFlight))
  }

  predicate CanCommit(c: Cache, f: Flight)
    requires f.root < |c.states|
  {
    && !c.disposed
    && f.lifecycle == c.lifecycle
    && !c.states[f.root].invalidated
    && f.key in c.roots && c.roots[f.key] == f.root
    && c.states[f.root].generation == f.generation
  }

  function NextSnapshot(previous: Option<Snapshot>, result: Option<Handshake>, g: nat, now: real): Snapshot {
    if result.Some? then Confirmed(result.value, g, now)
    else if previous.Some? && previous.value.Confirmed? && previous.value.result.kind != Ok
    then Confirmed(previous.value.result, g, now)
    else Unavailable(g, now)
  }

  function FinishProbe(c: Cache, f: Flight, result: Option<Handshake>, now: real): (Cache, Outcome)
    requires WellFormed(c) && f in c.flights
  {
    var c1 := c.(flights := c.flights - {f});
    if !CanCommit(c, f) then (c1, Stale)
    else
      var s := c.states[f.root];
      var snapshot := NextSnapshot(s.snapshot, result, f.generation, now);
      var landed := s.inflight.Some? && s.inflight.value.generation == f.generation;
      var s1 := s.(snapshot := Some(snapshot),
                   inflight := if landed then None else s.inflight,
                   history := s.history + [Commit(f.generation, result)]);
      (c1.(states := c.states[f.root := s1]), Committed(snapshot))
  }

  function Retired(s: Root): Root {
    s.(invalidated := true, generation := s.generation + 1, snapshot := None, inflight := None)
  }

  function Evict(c: Cache, key: string): Cache
    requires WellFormed(c)
  {
    if key !in c.roots then c
    else c.(states := c.states[c.roots[key] := Retired(c.states[c.roots[key]])], roots := c.roots - {key})
  }

  function Dispose(c: Cache): Cache {
    if c.disposed then c
    else c.(disposed := true, lifecycle := c.lifecycle + 1, roots := map[],
            states := seq(|c.states|, i requires 0 <= i < |c.states| =>
              if i in c.roots.Values then Retired(c.states[i]) else c.states[i]))
  }

  datatype Event =
    | Get(key: string, force: bool, now: real)
    | Finish(flight: Flight, result: Option<Handshake>, now: real)
    | EvictRoot(key: string)
    | DisposeAll

  /** One event; finishing a probe that is not outstanding is no event at all. */
  function Step(c: Cache, ttl: real, e: Event): Cache
    requires WellFormed(c)
  {
    match e
    case Get(key, force, now) => GetOrProbe(c, key, force, now, ttl).0
    case Finish(f, result, now) => if f in c.flights then FinishProbe(c, f, result, now).0 else c
    case EvictRoot(key) => Evict(c, key)
    case DisposeAll => Dispose(c)
  }

  // ---- The invariant of every run ---------------------------------------------------------------------

  predicate Mismatch(r: Option<Handshake>) { r.Some? && r.value.kind != Ok }

  /** The position of the last probe that obtained a verdict, or -1. */
  function LastDefined(h: seq<Commit>): (j: int)
    ensures -1 <= j < |h|
    ensures j >= 0 ==> h[j].result.Some?
    ensures forall i :: j < i < |h| ==> h[i].result.None?
  {
    if h == [] then -1
    else if h[|h| - 1].result.Some? then |h| - 1
    else LastDefined(h[..|h| - 1])
  }

  /** The verdict a history of committed probes amounts to: the last one obtained, if it is the latest or a mismatch. */
  function Verdict(h: seq<Commit>): Option<Handshake> {
    var j := LastDefined(h);
    if j >= 0 && (j == |h| - 1 || Mismatch(h[j].result)) then h[j].result else None
  }

  function VerdictOf(s: Snapshot): Option<Handshake> {
    if s.Confirmed? then Some(s.result) else None
  }

  predicate Ascending(h: seq<Commit>) {
    forall i, j :: 0 <= i < j < |h| ==> h[i].generation < h[j].generation
  }

  predicate Outstanding(c: Cache, i: nat, id: nat)
    requires i < |c.states|
  {
    Flight(id, c.states[i].key, i, c.states[i].generation, c.lifecycle) in c.flights
  }

  /** What a root the cache still holds says about its commits. */
  predicate HeldOk(c: Cache, i: nat)
    requires i < |c.states|
  {
    var s := c.states[i];
    && !c.disposed
    && s.key in c.roots && c.roots[s.key] == i
    && (s.snapshot.Some? <==> s.history != [])
    && (s.snapshot.Some? ==>
          && s.snapshot.value.generation == s.history[|s.history| - 1].generation
          && VerdictOf(s.snapshot.value) == Verdict(s.history))
  }

  /** Either a probe of the current generation is under way and nothing that new is committed yet, or the current
      generation is committed and nothing is under way. */
  predicate ProbedOk(c: Cache, i: nat)
    requires i < |c.states|
  {
    var s := c.states[i];
    match s.inflight
    case Some(x) =>
      && x.generation == s.generation
      && Outstanding(c, i, x.flight)
      && (s.snapshot.Some? ==> s.snapshot.value.generation < s.generation)
    case None => s.snapshot.Some? && s.snapshot.value.generation == s.generation
  }

  predicate CommitsOk(s: Root) {
    && Ascending(s.history)
    && (s.history != [] ==> s.history[|s.history| - 1].generation <= s.generation)
    && (s.invalidated ==> s.snapshot == None && s.inflight == None)
  }

  predicate StateOk(c: Cache, i: nat)
    requires i < |c.states|
  {
    && CommitsOk(c.states[i])
    && (!c.states[i].invalidated ==> HeldOk(c, i) && ProbedOk(c, i))
  }

  predicate FlightOk(c: Cache, f: Flight)
  {
    && f.id < c.nextFlight
    && f.root < |c.states|
    && f.key == c.states[f.root].key
    && f.generation <= c.states[f.root].generation
    && f.lifecycle <= c.lifecycle
    && (!c.disposed ==> f.lifecycle == c.lifecycle)
    && (!c.states[f.root].invalidated && f.generation == c.states[f.root].generation ==>
          c.states[f.root].inflight.Some? && c.states[f.root].inflight.value.flight == f.id)
  }

  predicate LinksOk(c: Cache) {
    && (c.disposed ==> c.roots == map[])
    && (forall k :: k in c.roots ==>
          c.roots[k] < |c.states| && !c.states[c.roots[k]].invalidated && c.states[c.roots[k]].key == k)
    && (forall f :: f in c.flights ==> FlightOk(c, f))
    && (forall f, g :: f in c.flights && g in c.flights && f.root == g.root && f.generation == g.generation ==> f == g)
  }

  predicate Inv(c: Cache) {
    LinksOk(c) && forall i :: 0 <= i < |c.states| ==> StateOk(c, i)
  }

  lemma {:induction false} InvGivesWellFormed(c: Cache)
    requires Inv(c)
    ensures WellFormed(c)
  {
    forall f | f in c.flights ensures f.root < |c.states| { assert FlightOk(c, f); }
  }

  lemma {:induction false} InvEmpty()
    ensures Inv(Empty)
  {
  }

  /** Starting a probe on a held root, whether it was just created or has been probed before. */
  lemma {:induction false} StartKeepsInv(c: Cache, key: string, r: nat, force: bool)
    requires LinksOk(c) && forall i :: 0 <= i < |c.states| && i != r ==> StateOk(c, i)
    requires key in c.roots && c.roots[key] == r
    requires CommitsOk(c.states[r]) && HeldOk(c, r)
    ensures Inv(StartProbe(c, key, r, force))
  {
    var d := StartProbe(c, key, r, force);
    forall i | 0 <= i < |d.states| ensures StateOk(d, i) {
      if i != r { assert StateOk(c, i); }
    }
    forall f | f in d.flights ensures FlightOk(d, f) {
      if f in c.flights { assert FlightOk(c, f); }
    }
    forall f, g | f in d.flights && g in d.flights && f.root == g.root && f.generation == g.generation
      ensures f == g
    {
      if f in c.flights { assert FlightOk(c, f); }
      if g in c.flights { assert FlightOk(c, g); }
    }
  }

  lemma {:induction false} StateForKeepsLinks(c: Cache, key: string)
    requires Inv(c) && !c.disposed
    ensures var d := StateFor(c, key);
      && LinksOk(d)
      && key in d.roots && CommitsOk(d.states[d.roots[key]]) && HeldOk(d, d.roots[key])
      && (forall i :: 0 <= i < |d.states| && i != d.roots[key] ==> StateOk(d, i))
      && (key in c.roots ==> d == c)
  {
    var d := StateFor(c, key);
    if key in c.roots {
      assert StateOk(c, c.roots[key]);
    } else {
      forall i | 0 <= i < |c.states| ensures StateOk(d, i) { assert StateOk(c, i); }
      forall f | f in d.flights ensures FlightOk(d, f) { assert FlightOk(c, f); }
    }
  }

  lemma {:induction false} GetKeepsInv(c: Cache, key: string, force: bool, now: real, ttl: real)
    requires Inv(c)
    ensures WellFormed(c) && Inv(GetOrProbe(c, key, force, now, ttl).0)
  {
    InvGivesWellFormed(c);
    if !c.disposed {
      StateForKeepsLinks(c, key);
      var d := StateFor(c, key);
      StartKeepsInv(d, key, d.roots[key], force);
    }
  }

  lemma {:induction false} LastDefinedStep(h: seq<Commit>, x: Commit)
    ensures LastDefined(h + [x]) == if x.result.Some? then |h| else LastDefined(h)
  {
    assert (h + [x])[..|h|] == h;
  }

  /** The reference verdict moves exactly as the committed snapshot does. */
  lemma {:induction false} VerdictStep(
      h: seq<Commit>, previous: Option<Snapshot>, result: Option<Handshake>, g: nat, now: real)
    requires previous.Some? <==> h != []
    requires previous.Some? ==> VerdictOf(previous.value) == Verdict(h)
    ensures VerdictOf(NextSnapshot(previous, result, g, now)) == Verdict(h + [Commit(g, result)])
  {
    LastDefinedStep(h, Commit(g, result));
    var j := LastDefined(h);
    assert j >= 0 ==> (h + [Commit(g, result)])[j] == h[j];
  }

  lemma {:induction false} CommittedRootOk(c: Cache, f: Flight, result: Option<Handshake>, now: real)
    requires Inv(c) && WellFormed(c) && f in c.flights && CanCommit(c, f)
    ensures StateOk(FinishProbe(c, f, result, now).0, f.root)
  {
    assert FlightOk(c, f) && StateOk(c, f.root);
    var s := c.states[f.root];
    assert s.history != [] ==> s.history[|s.history| - 1].generation < f.generation;
    AscendingPush(s.history, Commit(f.generation, result));
    VerdictStep(s.history, s.snapshot, result, f.generation, now);
    NextIsDated(s.snapshot, result, f.generation, now);
    hide Inv, Verdict, VerdictOf, Ascending, FlightOk, NextSnapshot;
    var d := FinishProbe(c, f, result, now).0;
    assert d.states[f.root].history == s.history + [Commit(f.generation, result)];
    assert CommitsOk(d.states[f.root]) && HeldOk(d, f.root) && ProbedOk(d, f.root);
  }

  lemma {:induction false} AscendingPush(h: seq<Commit>, x: Commit)
    requires Ascending(h) && (h != [] ==> h[|h| - 1].generation < x.generation)
    ensures Ascending(h + [x])
  {
  }

  lemma {:induction false} NextIsDated(previous: Option<Snapshot>, result: Option<Handshake>, g: nat, now: real)
    ensures NextSnapshot(previous, result, g, now).generation == g
  {
  }

  lemma {:induction false} OtherRootOk(c: Cache, f: Flight, result: Option<Handshake>, now: real, i: nat)
    requires Inv(c) && WellFormed(c) && f in c.flights && i < |c.states| && !(CanCommit(c, f) && i == f.root)
    ensures StateOk(FinishProbe(c, f, result, now).0, i)
  {
    hide LastDefined, Verdict, VerdictOf, NextSnapshot;
    assert FlightOk(c, f) && StateOk(c, i);
    if !c.states[i].invalidated && c.states[i].inflight.Some? {
      assert Outstanding(c, i, c.states[i].inflight.value.flight);
    }
  }

  lemma {:induction false} FinishKeepsLinks(c: Cache, f: Flight, result: Option<Handshake>, now: real)
    requires Inv(c) && WellFormed(c) && f in c.flights
    ensures LinksOk(FinishProbe(c, f, result, now).0)
  {
    hide LastDefined, Verdict, VerdictOf, NextSnapshot, HeldOk, CommitsOk;
    var d := FinishProbe(c, f, result, now).0;
    assert FlightOk(c, f) && StateOk(c, f.root);
    forall g | g in d.flights ensures FlightOk(d, g) { assert FlightOk(c, g); }
  }

  lemma {:induction false} FinishKeepsInv(c: Cache, f: Flight, result: Option<Handshake>, now: real)
    requires Inv(c) && f in c.flights
    ensures WellFormed(c) && Inv(FinishProbe(c, f, result, now).0)
  {
    InvGivesWellFormed(c);
    var d := FinishProbe(c, f, result, now).0;
    FinishKeepsLinks(c, f, result, now);
    forall i | 0 <= i < |d.states| ensures StateOk(d, i) {
      if CanCommit(c, f) && i == f.root {
        CommittedRootOk(c, f, result, now);
      } else {
        OtherRootOk(c, f, result, now, i);
      }
    }
  }

  lemma {:induction false} EvictKeepsInv(c: Cache, key: string)
    requires Inv(c)
    ensures WellFormed(c) && Inv(Evict(c, key))
  {
    InvGivesWellFormed(c);
    var d := Evict(c, key);
    forall i | 0 <= i < |d.states| ensures StateOk(d, i) { assert StateOk(c, i); }
    forall f | f in d.flights ensures FlightOk(d, f) { assert FlightOk(c, f); }
  }

  lemma {:induction false} DisposeKeepsInv(c: Cache)
    requires Inv(c)
    ensures Inv(Dispose(c))
  {
    var d := Dispose(c);
    forall i | 0 <= i < |d.states| ensures StateOk(d, i) {
      assert StateOk(c, i);
      if !c.states[i].invalidated && !c.disposed {
        assert c.roots[c.states[i].key] in c.roots.Values;
      }
    }
    forall f | f in d.flights ensures FlightOk(d, f) { assert FlightOk(c, f); }
  }

  lemma {:induction false} StepKeepsInv(c: Cache, ttl: real, e: Event)
    requires Inv(c)
    ensures WellFormed(c) && Inv(Step(c, ttl, e))
  {
    InvGivesWellFormed(c);
    match e
    case Get(key, force, now) => GetKeepsInv(c, key, force, now, ttl);
    case Finish(f, result, now) => if f in c.flights { FinishKeepsInv(c, f, result, now); }
    case EvictRoot(key) => EvictKeepsInv(c, key);
    case DisposeAll => DisposeKeepsInv(c);
  }

  // ---- Whole runs -------------------------------------------------------------------------------------

  function Run(c: Cache, ttl: real, es: seq<Event>): (d: Cache)
    requires Inv(c)
    ensures Inv(d)
    decreases |es|
  {
    if es == [] then c
    else
      StepKeepsInv(c, ttl, es[0]);
      Run(Step(c, ttl, es[0]), ttl, es[1..])
  }

  /** What time does to the objects that exist already: generations and commits only grow, an invalidated object stays
      so, and a disposed coordinator stays so. */
  predicate Ages(c: Cache, d: Cache) {
    && |c.states| <= |d.states|
    && c.lifecycle <= d.lifecycle
    && (c.disposed ==> d.disposed)
    && forall i :: 0 <= i < |c.states| ==> RootAges(c.states[i], d.states[i])
  }

  predicate RootAges(s: Root, t: Root) {
    && s.key == t.key
    && s.generation <= t.generation
    && (s.invalidated ==> t.invalidated)
    && s.history <= t.history
  }

  lemma {:induction false} StepAges(c: Cache, ttl: real, e: Event)
    requires Inv(c)
    ensures WellFormed(c) && Ages(c, Step(c, ttl, e))
  {
    InvGivesWellFormed(c);
    hide Inv, NextSnapshot, IsFresh, CanCommit;
    if e.Get? { GetAges(c, e.key, e.force, e.now, ttl); }
  }

  lemma {:induction false} GetAges(c: Cache, key: string, force: bool, now: real, ttl: real)
    requires WellFormed(c)
    ensures Ages(c, GetOrProbe(c, key, force, now, ttl).0)
  {
    hide IsFresh;
  }

  lemma {:induction false} RunAges(c: Cache, ttl: real, es: seq<Event>)
    requires Inv(c)
    ensures Ages(c, Run(c, ttl, es))
    decreases |es|
  {
    if es != [] {
      StepKeepsInv(c, ttl, es[0]);
      StepAges(c, ttl, es[0]);
      var m := Step(c, ttl, es[0]);
      RunAges(m, ttl, es[1..]);
      var d := Run(m, ttl, es[1..]);
      forall i | 0 <= i < |c.states| ensures RootAges(c.states[i], d.states[i]) {
        assert RootAges(c.states[i], m.states[i]) && RootAges(m.states[i], d.states[i]);
      }
    }
  }

  /** A probe that may not commit now may never commit again, in any interleaving that follows. */
  lemma {:induction false} StaleForever(c: Cache, ttl: real, f: Flight, es: seq<Event>)
    requires Inv(c) && f in c.flights && f.root < |c.states| && !CanCommit(c, f)
    ensures f.root < |Run(c, ttl, es).states| && !CanCommit(Run(c, ttl, es), f)
  {
    RunAges(c, ttl, es);
    assert FlightOk(c, f) && StateOk(c, f.root);
    assert RootAges(c.states[f.root], Run(c, ttl, es).states[f.root]);
  }

  /** A probe started before its root was evicted rejects whenever it ends, and changes no root: not even one recreated
      under the same key with the same generation number. */
  lemma {:induction false} EvictedProbeNeverCommits(
      c: Cache, ttl: real, f: Flight, es: seq<Event>, result: Option<Handshake>, now: real)
    requires Inv(c) && f in c.flights
    ensures var d := Run(c, ttl, [EvictRoot(f.key)] + es);
      WellFormed(d) && (f in d.flights ==> FinishProbe(d, f, result, now) == (d.(flights := d.flights - {f}), Stale))
  {
    StepKeepsInv(c, ttl, EvictRoot(f.key));
    assert FlightOk(c, f) && StateOk(c, f.root);
    var m := Evict(c, f.key);
    assert ([EvictRoot(f.key)] + es)[1..] == es;
    StaleForever(m, ttl, f, es);
    InvGivesWellFormed(Run(m, ttl, es));
  }

  /** An evicted root is forgotten, so that the next request for it probes again; the other roots stay as they are. */
  lemma {:induction false} EvictForgets(c: Cache, key: string, force: bool, now: real, ttl: real)
    requires Inv(c)
    ensures WellFormed(c) && WellFormed(Evict(c, key))
    ensures var d := Evict(c, key);
      && d.roots.Keys == c.roots.Keys - {key}
      && (forall k :: k in d.roots ==> d.roots[k] == c.roots[k] && d.states[d.roots[k]] == c.states[c.roots[k]])
      && (!c.disposed ==> GetOrProbe(d, key, force, now, ttl).1 == Started(c.nextFlight))
  {
    InvGivesWellFormed(c);
    EvictKeepsInv(c, key);
    InvGivesWellFormed(Evict(c, key));
  }

  /** Eviction and disposal retire a root that is held: it moves on to a generation no probe has, and shows nothing. Disposal
      also begins a new lifecycle, in which no probe was started. */
  lemma {:induction false} HeldRootsRetire(c: Cache, key: string, f: Flight)
    requires Inv(c) && key in c.roots && c.roots[key] < |c.states| && f in c.flights
    ensures WellFormed(c) && f.root < |c.states|
    ensures var r := c.roots[key]; var s, e, d := c.states[r], Evict(c, key).states[r], Dispose(c).states[r];
      && e == d && e.invalidated && e.snapshot.None? && e.inflight.None? && e.history == s.history
      && s.generation < e.generation && (f.root == r ==> f.generation < e.generation)
      && f.lifecycle < Dispose(c).lifecycle
  {
    InvGivesWellFormed(c);
    assert FlightOk(c, f) && StateOk(c, c.roots[key]);
  }

  /** After disposal no probe started before it commits, and no request starts another. */
  lemma {:induction false} DisposedForGood(
      c: Cache, ttl: real, f: Flight, es: seq<Event>, result: Option<Handshake>, now: real)
    requires Inv(c)
    ensures var d := Run(c, ttl, [DisposeAll] + es);
      && WellFormed(d) && d.roots == map[]
      && (f in d.flights ==> FinishProbe(d, f, result, now) == (d.(flights := d.flights - {f}), Stale))
      && (forall key, force :: GetOrProbe(d, key, force, now, ttl) == (d, Rejected))
  {
    DisposeKeepsInv(c);
    var m := Dispose(c);
    assert ([DisposeAll] + es)[1..] == es;
    RunAges(m, ttl, es);
    var d := Run(m, ttl, es);
    InvGivesWellFormed(d);
  }

  /** Generation and lifecycle numbers do not tell the two probes apart: after an eviction they are reused, and only the
      identity of the root object keeps the old probe from committing. */
  lemma {:induction false} NumbersAloneDoNotGuard(ttl: real)
    ensures var d := Run(Empty, ttl, [Get("r", false, 0.0), EvictRoot("r"), Get("r", false, 0.0)]);
      exists f, g ::
        && f in d.flights && g in d.flights && f != g && f.root < |d.states| && g.root < |d.states|
        && f.key == g.key && f.generation == g.generation && f.lifecycle == g.lifecycle
        && !CanCommit(d, f) && CanCommit(d, g)
  {
    InvEmpty();
    var es := [Get("r", false, 0.0), EvictRoot("r"), Get("r", false, 0.0)];
    var a := Step(Empty, ttl, es[0]);
    StepKeepsInv(Empty, ttl, es[0]);
    var b := Step(a, ttl, es[1]);
    StepKeepsInv(a, ttl, es[1]);
    var d := Step(b, ttl, es[2]);
    StepKeepsInv(b, ttl, es[2]);
    assert es[1..] == [EvictRoot("r"), Get("r", false, 0.0)] && es[1..][1..] == [Get("r", false, 0.0)];
    assert Run(b, ttl, [Get("r", false, 0.0)]) == d;
    assert Run(a, ttl, es[1..]) == d;
    var f, g := Flight(0, "r", 0, 1, 0), Flight(1, "r", 1, 1, 0);
    assert f in d.flights && g in d.flights && !CanCommit(d, f) && CanCommit(d, g);
  }

  /** Commits to one root object carry strictly increasing generations, and are never undone. */
  lemma {:induction false} CommitsAscendAndStay(ttl: real, es: seq<Event>, later: seq<Event>, i: nat)
    requires Inv(Empty) && i < |Run(Empty, ttl, es).states|
    ensures var c := Run(Empty, ttl, es);
      var d := Run(c, ttl, later);
      i < |d.states| && Ascending(d.states[i].history) && c.states[i].history <= d.states[i].history
  {
    var c := Run(Empty, ttl, es);
    RunAges(c, ttl, later);
    var d := Run(c, ttl, later);
    assert StateOk(d, i) && RootAges(c.states[i], d.states[i]);
  }

  /** In every reachable state the committed snapshot of a root is the verdict of all probes committed to it. */
  lemma {:induction false} PeekIsVerdict(c: Cache, key: string)
    requires Inv(c) && key in c.roots
    ensures var s := c.states[c.roots[key]];
      && (s.snapshot.None? <==> s.history == [])
      && (s.snapshot.Some? ==> VerdictOf(s.snapshot.value) == Verdict(s.history))
  {
    assert StateOk(c, c.roots[key]);
  }

  /** A probe that obtains a verdict decides; failed probes keep a mismatch and forget an "ok". */
  lemma {:induction false} VerdictLaws(h: seq<Commit>, g: nat, r: Handshake, failures: seq<Commit>)
    requires failures != [] && forall i :: 0 <= i < |failures| ==> failures[i].result.None?
    ensures Verdict(h + [Commit(g, Some(r))]) == Some(r)
    ensures Verdict(h + failures) == if Mismatch(Verdict(h)) then Verdict(h) else None
    decreases |failures|
  {
    var n := |failures| - 1;
    var x := failures[n];
    LastDefinedStep(h, Commit(g, Some(r)));
    LastDefinedStep(h + failures[..n], x);
    assert failures == failures[..n] + [x];
    assert h + failures == (h + failures[..n]) + [x];
    if n == 0 {
      assert h + failures[..n] == h;
    } else {
      VerdictLaws(h, g, r, failures[..n]);
    }
  }

  /** Single flight: of the outstanding probes of one root at most one may commit, and it is the one on record. */
  lemma {:induction false} SingleFlight(c: Cache, f: Flight, g: Flight)
    requires Inv(c) && f in c.flights && g in c.flights && f.key == g.key
    requires f.root < |c.states| && g.root < |c.states| && CanCommit(c, f) && CanCommit(c, g)
    ensures f == g
    ensures c.states[f.root].inflight.Some? && c.states[f.root].inflight.value.flight == f.id
  {
    assert FlightOk(c, f) && FlightOk(c, g);
  }

  /** The record of a probe under way is never out of date: its probe is outstanding, of the current generation, and
      may commit. */
  lemma {:induction false} RecordIsCommittable(c: Cache, key: string)
    requires Inv(c) && key in c.roots && c.states[c.roots[key]].inflight.Some?
    ensures var r := c.roots[key];
      var x := c.states[r].inflight.value;
      var f := Flight(x.flight, key, r, c.states[r].generation, c.lifecycle);
      x.generation == c.states[r].generation && f in c.flights && CanCommit(c, f)
  {
    assert StateOk(c, c.roots[key]);
  }

  /** A request while a probe may commit: an ordinary one is answered from a fresh snapshot or joins it; a forced one
      joins a forced probe, and otherwise starts a new one, after which the old one may not commit. */
  lemma {:induction false} RequestsShareTheFlight(c: Cache, f: Flight, key: string, force: bool, now: real, ttl: real)
    requires Inv(c) && f in c.flights && f.key == key && f.root < |c.states| && CanCommit(c, f)
    ensures WellFormed(c)
    ensures var (d, outcome) := GetOrProbe(c, key, force, now, ttl);
      var s := c.states[f.root];
      if !force && s.snapshot.Some? && IsFresh(s.snapshot.value, now, ttl) then d == c && outcome == Cached(s.snapshot.value)
      else if !force || s.inflight.value.force then d == c && outcome == Joined(f.id)
      else outcome == Started(c.nextFlight) && f.root < |d.states| && !CanCommit(d, f)
  {
    InvGivesWellFormed(c);
    SingleFlight(c, f, f);
  }

  /** Some outstanding probe of the key may commit. */
  predicate Probed(c: Cache, key: string) {
    exists f :: f in c.flights && f.key == key && f.root < |c.states| && CanCommit(c, f)
  }

  /** A request is refused exactly when the coordinator is disposed. Otherwise, unless it is answered from the cache, it is
      given a probe of its key that may commit: a new one exactly when none could before, or the request is forced and the
      one on record is not. A new probe goes on record with the request's own force. */
  lemma {:induction false} RequestsAreServed(c: Cache, key: string, force: bool, now: real, ttl: real)
    requires Inv(c)
    ensures WellFormed(c)
    ensures var (d, outcome) := GetOrProbe(c, key, force, now, ttl);
      && (outcome.Rejected? <==> c.disposed) && (outcome.Rejected? ==> d == c)
      && (!c.disposed ==> outcome.Cached? || outcome.Joined? || outcome.Started?)
      && (outcome.Joined? || outcome.Started? ==>
            exists f :: f in d.flights && f.id == outcome.flight && f.key == key && f.root < |d.states| && CanCommit(d, f))
      && (!c.disposed && !outcome.Cached? ==>
            (outcome.Started? <==>
               !Probed(c, key) || (force && key in c.roots && c.states[c.roots[key]].inflight.Some?
                                   && !c.states[c.roots[key]].inflight.value.force)))
      && (outcome.Started? ==>
            && key in d.roots && d.roots[key] < |d.states|
            && d.states[d.roots[key]].inflight.Some?
            && d.states[d.roots[key]].inflight.value.flight == outcome.flight
            && d.states[d.roots[key]].inflight.value.force == force)
  {
    InvGivesWellFormed(c);
    GetKeepsInv(c, key, force, now, ttl);
    var (d, outcome) := GetOrProbe(c, key, force, now, ttl);
    ProbedIff(c, key);
    if outcome.Joined? || outcome.Started? {
      RecordIsCommittable(d, key);
      var r := d.roots[key];
      var f := Flight(d.states[r].inflight.value.flight, key, r, d.states[r].generation, d.lifecycle);
      assert f in d.flights && f.id == outcome.flight && CanCommit(d, f);
    }
  }

  /** A probe of a key may commit exactly when one is on record for it. */
  lemma {:induction false} ProbedIff(c: Cache, key: string)
    requires Inv(c)
    ensures WellFormed(c)
    ensures Probed(c, key) <==> key in c.roots && c.states[c.roots[key]].inflight.Some?
  {
    InvGivesWellFormed(c);
    if Probed(c, key) {
      var f :| f in c.flights && f.key == key && f.root < |c.states| && CanCommit(c, f);
      SingleFlight(c, f, f);
    }
    if key in c.roots && c.states[c.roots[key]].inflight.Some? {
      RecordIsCommittable(c, key);
    }
  }

  /** Once no probe is outstanding, every root in the cache shows the snapshot of its latest generation, with no
      probe on record. */
  lemma {:induction false} Quiescent(c: Cache, key: string)
    requires Inv(c) && c.flights == {} && key in c.roots
    ensures var s := c.states[c.roots[key]];
      s.inflight == None && s.snapshot.Some? && s.snapshot.value.generation == s.generation
  {
    assert StateOk(c, c.roots[key]);
  }

  predicate Keeps(es: seq<Event>, key: string) {
    forall i :: 0 <= i < |es| ==> es[i] != EvictRoot(key) && es[i] != DisposeAll
  }

  /** A root that was asked for stays in the cache until it is evicted or the coordinator disposed. */
  lemma {:induction false} AskedRootStays(c: Cache, ttl: real, key: string, es: seq<Event>)
    requires Inv(c) && !c.disposed && Keeps(es, key)
    requires key in c.roots || (es != [] && es[0].Get? && es[0].key == key)
    ensures key in Run(c, ttl, es).roots
    decreases |es|
  {
    if es != [] {
      StepKeepsInv(c, ttl, es[0]);
      assert Keeps(es[1..], key);
      AskedRootStays(Step(c, ttl, es[0]), ttl, key, es[1..]);
    }
  }

  /** So when everything asked for has ended, every root asked for has a current answer. */
  lemma {:induction false} AskedRootAnswered(c: Cache, ttl: real, key: string, force: bool, now: real, es: seq<Event>)
    requires Inv(c) && !c.disposed && Keeps(es, key)
    requires Run(c, ttl, [Get(key, force, now)] + es).flights == {}
    ensures var d := Run(c, ttl, [Get(key, force, now)] + es);
      key in d.roots && d.states[d.roots[key]].inflight == None && d.states[d.roots[key]].snapshot.Some?
  {
    AskedRootStays(c, ttl, key, [Get(key, force, now)] + es);
    Quiescent(Run(c, ttl, [Get(key, force, now)] + es), key);
  }

  /** A request is answered from the cache exactly when it is not forced and the committed snapshot is at least zero and
      less than `ttl` old; with a zero time to live it never is. A committed snapshot is dated by its probe. */
  lemma {:induction false} CachedExactlyWhenFresh(c: Cache, key: string, force: bool, now: real, ttl: real,
                               f: Flight, result: Option<Handshake>, done: real)
    requires Inv(c) && f in c.flights
    ensures WellFormed(c)
    ensures GetOrProbe(c, key, force, now, ttl).1.Cached? <==>
      && !c.disposed && !force && key in c.roots
      && c.states[c.roots[key]].snapshot.Some?
      && c.states[c.roots[key]].snapshot.value.observedAt <= now < c.states[c.roots[key]].snapshot.value.observedAt + ttl
    ensures ttl == 0.0 ==> !GetOrProbe(c, key, force, now, ttl).1.Cached?
    ensures var (d, outcome) := FinishProbe(c, f, result, done);
      outcome.Committed? ==>
        && outcome.snapshot.generation == f.generation && outcome.snapshot.observedAt == done
        && f.key in d.roots && d.states[d.roots[f.key]].snapshot == Some(outcome.snapshot)
  {
    InvGivesWellFormed(c);
    FinishKeepsInv(c, f, result, done);
  }
}
