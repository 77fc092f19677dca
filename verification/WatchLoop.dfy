/** The daemon's watch loop (bins/cognis-indexd/src/lib.rs): nested receive loops that turn file events into batches and
    publish a status. Clock, stop flag, channel and disk answer from a script, which may say anything. */
module WatchLoops {
  import opened Orders

  datatype EventKind = Create | Modify | Remove | Access | Other

  /** A watcher event, or its failure to tell. */
  datatype Event = Event(kind: EventKind, paths: seq<Path>) | Lost

  /** The status published; `After` is what the batch handler made of it. */
  datatype Snapshot = Starting | Watching | After(batch: seq<Path>) | Stopped

  // ---- Which paths count ------------------------------------------------------------------------------

  const ConfigDirName := ".cognis"

  function StripPrefix(path: Path, root: Path): Path {
    if root <= path then path[|root|..] else path
  }

  /** Some component below the root is an ignored name, or that of the runtime directory. */
  predicate ShouldIgnore(path: Path, root: Path, ignored: seq<string>) {
    var rel := StripPrefix(path, root);
    exists i :: 0 <= i < |rel| && (rel[i] in ignored || rel[i] == ConfigDirName)
  }

  predicate Counts(e: Event) { e.Event? && (e.kind.Create? || e.kind.Modify? || e.kind.Remove?) }

  /** The path is one that some received event reports as changed and that is not ignored. */
  predicate Admissible(events: seq<Event>, root: Path, ignored: seq<string>, p: Path) {
    !ShouldIgnore(p, root, ignored) && exists i :: 0 <= i < |events| && Counts(events[i]) && p in events[i].paths
  }

  // ---- The batches of some windows --------------------------------------------------------------------

  function CollectPaths(changes: seq<Path>, paths: seq<Path>, root: Path, ignored: seq<string>): seq<Path> {
    if paths == [] then changes
    else
      var before, p := CollectPaths(changes, paths[..|paths| - 1], root, ignored), paths[|paths| - 1];
      if ShouldIgnore(p, root, ignored) then before else Insert(before, p)
  }

  function Collect(changes: seq<Path>, e: Event, root: Path, ignored: seq<string>): seq<Path> {
    if Counts(e) then CollectPaths(changes, e.paths, root, ignored) else changes
  }

  function CollectAll(events: seq<Event>, root: Path, ignored: seq<string>): seq<Path> {
    if events == [] then []
    else Collect(CollectAll(events[..|events| - 1], root, ignored), events[|events| - 1], root, ignored)
  }

  /** One batch for each window that collects anything. */
  function BatchesOf(windows: seq<seq<Event>>, root: Path, ignored: seq<string>): seq<seq<Path>> {
    if windows == [] then []
    else
      var batch := CollectAll(windows[|windows| - 1], root, ignored);
      BatchesOf(windows[..|windows| - 1], root, ignored) + if batch == [] then [] else [batch]
  }

  function Joined(windows: seq<seq<Event>>): seq<Event> {
    if windows == [] then [] else Joined(windows[..|windows| - 1]) + windows[|windows| - 1]
  }

  /** What is published over some batches, from beginning to end. */
  function Body(batches: seq<seq<Path>>): seq<Snapshot> {
    if batches == [] then [Starting, Watching]
    else Body(batches[..|batches| - 1]) + [After(batches[|batches| - 1]), Watching]
  }

  function Transcript(batches: seq<seq<Path>>): seq<Snapshot> { Body(batches) + [Stopped] }

  /** The start, twice two statuses for what follows: each batch, and that the loop is watching again; and the end. */
  lemma {:induction false} TranscriptMeans(batches: seq<seq<Path>>, i: nat)
    ensures var all := Transcript(batches);
      && |all| == 2 * |batches| + 3 && all[0] == Starting && all[1] == Watching && all[|all| - 1] == Stopped
      && (i < |batches| ==> all[2 * i + 2] == After(batches[i]) && all[2 * i + 3] == Watching)
  {
    if batches != [] {
      TranscriptMeans(batches[..|batches| - 1], i);
    }
  }

  /** A proper beginning of it. */
  predicate CutShort(published: seq<Snapshot>, batches: seq<seq<Path>>) {
    published <= Transcript(batches) && |published| < |Transcript(batches)|
  }

  lemma {:induction false} CollectPathsMeans(
      changes: seq<Path>, paths: seq<Path>, root: Path, ignored: seq<string>, p: Path)
    requires Ascending(changes)
    ensures Ascending(CollectPaths(changes, paths, root, ignored))
    ensures p in CollectPaths(changes, paths, root, ignored) <==>
      p in changes || (p in paths && !ShouldIgnore(p, root, ignored))
  {
    hide ShouldIgnore, Ascending, Insert;
    if paths != [] {
      var q := paths[|paths| - 1];
      CollectPathsMeans(changes, paths[..|paths| - 1], root, ignored, p);
      InsertMeans(CollectPaths(changes, paths[..|paths| - 1], root, ignored), q);
      assert p in paths <==> p in paths[..|paths| - 1] || p == q;
    }
  }

  /** A window collects the admissible paths of its events, each once, in order. */
  lemma {:induction false} CollectAllMeans(events: seq<Event>, root: Path, ignored: seq<string>, p: Path)
    ensures Ascending(CollectAll(events, root, ignored))
    ensures p in CollectAll(events, root, ignored) <==> Admissible(events, root, ignored, p)
  {
    hide ShouldIgnore;
    if events != [] {
      var before, e := events[..|events| - 1], events[|events| - 1];
      CollectAllMeans(before, root, ignored, p);
      if Counts(e) {
        CollectPathsMeans(CollectAll(before, root, ignored), e.paths, root, ignored, p);
      }
      AdmissibleLast(before, e, root, ignored, p);
      assert before + [e] == events;
    }
  }

  lemma {:induction false} CollectAllPush(window: seq<Event>, e: Event, root: Path, ignored: seq<string>)
    ensures CollectAll(window + [e], root, ignored) == Collect(CollectAll(window, root, ignored), e, root, ignored)
  {
    assert (window + [e])[..|window|] == window;
  }

  lemma {:induction false} AdmissibleLast(before: seq<Event>, e: Event, root: Path, ignored: seq<string>, p: Path)
    ensures Admissible(before + [e], root, ignored, p) <==>
      Admissible(before, root, ignored, p) || (Counts(e) && p in e.paths && !ShouldIgnore(p, root, ignored))
  {
    hide ShouldIgnore;
    var events := before + [e];
    assert events[|before|] == e;
    if Admissible(before, root, ignored, p) {
      var i :| 0 <= i < |before| && Counts(before[i]) && p in before[i].paths;
      assert events[i] == before[i];
    }
  }

  lemma {:induction false} AdmissibleJoin(a: seq<Event>, b: seq<Event>, root: Path, ignored: seq<string>, p: Path)
    ensures Admissible(a + b, root, ignored, p) <==> Admissible(a, root, ignored, p) || Admissible(b, root, ignored, p)
  {
    hide ShouldIgnore;
    if b == [] {
      assert a + b == a;
    } else {
      var c, e := b[..|b| - 1], b[|b| - 1];
      AdmissibleJoin(a, c, root, ignored, p);
      AdmissibleLast(a + c, e, root, ignored, p);
      AdmissibleLast(c, e, root, ignored, p);
      assert a + b == a + c + [e] && b == c + [e];
    }
  }

  predicate Held(batches: seq<seq<Path>>, p: Path) { exists i :: 0 <= i < |batches| && p in batches[i] }

  lemma {:induction false} HeldPush(batches: seq<seq<Path>>, batch: seq<Path>, p: Path)
    ensures Held(batches + [batch], p) <==> Held(batches, p) || p in batch
  {
    var all := batches + [batch];
    assert all[|batches|] == batch;
    if Held(batches, p) {
      var i :| 0 <= i < |batches| && p in batches[i];
      assert all[i] == batches[i];
    }
  }

  /** Nothing is lost and nothing is made up: the batches hold exactly the admissible paths of all events. */
  lemma {:induction false} BatchesConserve(windows: seq<seq<Event>>, root: Path, ignored: seq<string>, p: Path)
    ensures Held(BatchesOf(windows, root, ignored), p) <==> Admissible(Joined(windows), root, ignored, p)
  {
    hide ShouldIgnore, Counts, CollectAll;
    if windows != [] {
      var before, w := windows[..|windows| - 1], windows[|windows| - 1];
      BatchesConserve(before, root, ignored, p);
      CollectAllMeans(w, root, ignored, p);
      AdmissibleJoin(Joined(before), w, root, ignored, p);
      var bs, batch := BatchesOf(before, root, ignored), CollectAll(w, root, ignored);
      HeldPush(bs, batch, p);
      hide Admissible, Held;
      assert bs + [] == bs;
    }
  }

  /** Below the root, exactly the ignored names and the runtime directory's matter, wherever they stand in the path; where the
      root itself lies does not. */
  lemma {:induction false} IgnoredIff(root: Path, rel: Path, ignored: seq<string>)
    ensures ShouldIgnore(root + rel, root, ignored) <==> ".cognis" in rel || exists name :: name in rel && name in ignored
  {
    assert (root + rel)[|root|..] == rel;
    assert StripPrefix(root + rel, root) == rel;
    if exists name :: name in rel && name in ignored {
      var name :| name in rel && name in ignored;
      var i :| 0 <= i < |rel| && rel[i] == name;
    }
    if ".cognis" in rel {
      var i :| 0 <= i < |rel| && rel[i] == ".cognis";
    }
  }

  /** A file under the root is in some batch exactly when some event says that it was created, modified or removed, and no
      directory or file name on the way to it is ignored. */
  lemma {:induction false} BatchedIff(windows: seq<seq<Event>>, root: Path, rel: Path, ignored: seq<string>)
    ensures Held(BatchesOf(windows, root, ignored), root + rel) <==>
      && ".cognis" !in rel && (forall name :: name in rel ==> name !in ignored)
      && exists i :: 0 <= i < |Joined(windows)| && Reports(Joined(windows)[i], root + rel)
  {
    BatchesConserve(windows, root, ignored, root + rel);
    IgnoredIff(root, rel, ignored);
    hide ShouldIgnore, Held, BatchesOf, Joined;
    var events := Joined(windows);
    if Admissible(events, root, ignored, root + rel) {
      var i :| 0 <= i < |events| && Counts(events[i]) && root + rel in events[i].paths;
      assert Reports(events[i], root + rel);
    }
    if exists i :: 0 <= i < |events| && Reports(events[i], root + rel) {
      var i :| 0 <= i < |events| && Reports(events[i], root + rel);
      assert Counts(events[i]) && root + rel in events[i].paths;
    }
  }

  /** The event tells of a change of this file. */
  predicate Reports(e: Event, p: Path) {
    match e
    case Event(Create, paths) => p in paths
    case Event(Modify, paths) => p in paths
    case Event(Remove, paths) => p in paths
    case Event(Access, _) => false
    case Event(Other, _) => false
    case Lost => false
  }

  /** Batches are non-empty, free of duplicates, and free of ignored paths. */
  lemma {:induction false} BatchesAreProper(windows: seq<seq<Event>>, root: Path, ignored: seq<string>, i: nat)
    requires i < |BatchesOf(windows, root, ignored)|
    ensures var b := BatchesOf(windows, root, ignored)[i];
      b != [] && Ascending(b) && forall p :: p in b ==> !ShouldIgnore(p, root, ignored)
  {
    hide ShouldIgnore, CollectAll, Ascending, Counts;
    var before, w := windows[..|windows| - 1], windows[|windows| - 1];
    if i < |BatchesOf(before, root, ignored)| {
      BatchesAreProper(before, root, ignored, i);
    } else {
      CollectAllMeans(w, root, ignored, []);
      forall p | p in CollectAll(w, root, ignored) ensures !ShouldIgnore(p, root, ignored) {
        CollectAllMeans(w, root, ignored, p);
      }
      assert BatchesOf(windows, root, ignored)[i] == CollectAll(w, root, ignored);
    }
  }

  /** The daemon does not wake itself: events inside its own runtime directory make no batch. */
  lemma {:induction false} OwnWritesMakeNoBatch(windows: seq<seq<Event>>, root: Path, ignored: seq<string>)
    requires forall i, p :: 0 <= i < |Joined(windows)| && Counts(Joined(windows)[i]) && p in Joined(windows)[i].paths ==>
      root + [ConfigDirName] <= p
    ensures BatchesOf(windows, root, ignored) == []
  {
    var bs := BatchesOf(windows, root, ignored);
    if bs != [] {
      BatchesAreProper(windows, root, ignored, 0);
      var p := bs[0][0];
      assert p in bs[0];
      BatchesConserve(windows, root, ignored, p);
      assert Admissible(Joined(windows), root, ignored, p);
      var rel := StripPrefix(p, root);
      assert p[|root|] == ConfigDirName == rel[0];
      assert ShouldIgnore(p, root, ignored);
    }
  }

  // ---- The loop ---------------------------------------------------------------------------------------

  /** An answer of the outside world. One that does not fit the question counts as `No`, or as `Gone`. */
  datatype Answer = Yes | No | Got(event: Event) | TimedOut | Gone

  /** What has happened, in order. */
  datatype Fact =
    | Runs(yes: bool)             // the stop flag was looked at
    | InWindow(yes: bool)         // the clock was looked at
    | Receives(answer: Answer)
    | Watches(ok: bool)           // the watcher was started
    | Writes(status: Snapshot, ok: bool)

  /** The i-th fact of a window that goes on: it is still open, and then an event comes. */
  predicate GoesOn(f: Fact, i: nat) {
    if i % 2 == 0 then f == InWindow(true) else f.Receives? && f.answer.Got?
  }

  /** The fact ends a window. */
  predicate EndsWindow(f: Fact) { f == InWindow(false) || (f.Receives? && !f.answer.Got?) }

  /** A write, or the start of the watcher, has failed. */
  predicate Fails(f: Fact) { f == Watches(false) || (f.Writes? && !f.ok) }

  /** No failure, and no word to stop. */
  predicate Steady(facts: seq<Fact>) { forall i :: 0 <= i < |facts| ==> !Fails(facts[i]) && facts[i] != Runs(false) }

  /** All was steady until the loop was told to stop, or the channel was closed; then came the last write. */
  predicate Ended(facts: seq<Fact>, ok: bool) {
    var n := |facts| - 2;
    n >= 0 && Steady(facts[..n]) && (facts[n] == Runs(false) || facts[n] == Receives(Gone)) && facts[n + 1] == Writes(Stopped, ok)
  }

  /** All was steady until something failed. */
  predicate BrokeOff(facts: seq<Fact>) {
    facts != [] && Steady(facts[..|facts| - 1]) && Fails(facts[|facts| - 1])
  }

  lemma {:induction false} SteadyThrough(facts: seq<Fact>, more: seq<Fact>)
    requires Steady(facts) && WholeWindow(more)
    ensures Steady(facts + more)
  {
  }

  lemma {:induction false} SteadyPush(facts: seq<Fact>, f: Fact)
    requires Steady(facts)
    ensures !Fails(f) && f != Runs(false) ==> Steady(facts + [f])
    ensures Fails(f) ==> BrokeOff(facts + [f])
    ensures f == Runs(false) || f == Receives(Gone) ==>
      Ended(facts + [f] + [Writes(Stopped, true)], true) && Ended(facts + [f] + [Writes(Stopped, false)], false)
  {
    assert (facts + [f])[..|facts|] == facts;
    assert (facts + [f] + [Writes(Stopped, true)])[..|facts|] == facts;
    assert (facts + [f] + [Writes(Stopped, false)])[..|facts|] == facts;
  }

  /** The facts of a window that goes on. */
  predicate OpenWindow(more: seq<Fact>) { |more| % 2 == 0 && forall i :: 0 <= i < |more| ==> GoesOn(more[i], i) }

  /** Those of a window that has ended, and with which one it has. */
  predicate WholeWindow(more: seq<Fact>) {
    && more != [] && EndsWindow(more[|more| - 1])
    && forall i :: 0 <= i < |more| - 1 ==> GoesOn(more[i], i)
  }

  lemma {:induction false} WindowCloses(more: seq<Fact>, a: Answer)
    requires OpenWindow(more)
    ensures WholeWindow(more + [InWindow(false)])
    ensures !a.Got? ==> WholeWindow(more + [InWindow(true)] + [Receives(a)])
    ensures a.Got? ==> OpenWindow(more + [InWindow(true)] + [Receives(a)])
  {
  }

  class World {
    const script: seq<Answer>
    var position: nat
    var published: seq<Snapshot>
    var batches: seq<seq<Path>>
    ghost var received: seq<Event>
    ghost var facts: seq<Fact>

    constructor (script: seq<Answer>)
      ensures position == 0 && published == [] && batches == [] && received == [] && facts == [] && this.script == script
    {
      this.script, position, published, batches, received, facts := script, 0, [], [], [], [];
    }

    function Left(): nat
      reads this`position
    {
      if position < |script| then |script| - position else 0
    }

    method Ask() returns (a: Answer)
      modifies this`position
      ensures Left() <= old(Left())
      ensures a != Gone ==> Left() < old(Left())
    {
      if position < |script| {
        a := script[position];
        position := position + 1;
      } else {
        a := Gone;
      }
    }

    method Running() returns (yes: bool)
      modifies this`position, this`facts
      ensures Left() <= old(Left()) && (yes ==> Left() < old(Left()))
      ensures facts == old(facts) + [Runs(yes)]
    {
      var a := Ask();
      yes := a.Yes?;
      facts := facts + [Runs(yes)];
    }

    method WindowOpen() returns (yes: bool)
      modifies this`position, this`facts
      ensures Left() <= old(Left()) && (yes ==> Left() < old(Left()))
      ensures facts == old(facts) + [InWindow(yes)]
    {
      var a := Ask();
      yes := a.Yes?;
      facts := facts + [InWindow(yes)];
    }

    method Receive() returns (a: Answer)
      modifies this`position, this`received, this`facts
      ensures Left() <= old(Left())
      ensures a.Got? || a.TimedOut? || a.Gone?
      ensures a != Gone ==> Left() < old(Left())
      ensures received == old(received) + if a.Got? then [a.event] else []
      ensures facts == old(facts) + [Receives(a)]
    {
      a := Ask();
      if a.Yes? || a.No? {
        a := Gone;
      }
      if a.Got? {
        received := received + [a.event];
      }
      facts := facts + [Receives(a)];
    }

    method StartWatcher() returns (ok: bool)
      modifies this`position, this`facts
      ensures Left() <= old(Left()) && facts == old(facts) + [Watches(ok)]
    {
      var a := Ask();
      ok := !a.No?;
      facts := facts + [Watches(ok)];
    }

    /** Writes the status file, which may fail. */
    method WriteStatus(status: Snapshot) returns (ok: bool)
      modifies this`position, this`published, this`facts
      ensures Left() <= old(Left())
      ensures published == old(published) + if ok then [status] else []
      ensures facts == old(facts) + [Writes(status, ok)]
    {
      var a := Ask();
      ok := !a.No?;
      if ok {
        published := published + [status];
      }
      facts := facts + [Writes(status, ok)];
    }

    method CollectEvent(e: Event, root: Path, ignored: seq<string>, changes: seq<Path>) returns (changes': seq<Path>)
      ensures changes' == Collect(changes, e, root, ignored)
    {
      changes' := changes;
      if e.Lost? || !(e.kind.Create? || e.kind.Modify? || e.kind.Remove?) {
        return;
      }
      for i := 0 to |e.paths|
        invariant changes' == CollectPaths(changes, e.paths[..i], root, ignored)
      {
        assert e.paths[..i + 1][..i] == e.paths[..i];
        if !ShouldIgnore(e.paths[i], root, ignored) {
          changes' := Insert(changes', e.paths[i]);
        }
      }
      assert e.paths[..|e.paths|] == e.paths;
    }

    /** Collects events as long as they come, until the batch window is over. */
    method DrainWindow(first: Event, root: Path, ignored: seq<string>)
      returns (changes: seq<Path>, ghost window: seq<Event>, ghost more: seq<Fact>)
      requires received != [] && received[|received| - 1] == first
      modifies this`position, this`received, this`facts
      ensures Left() <= old(Left())
      ensures changes == CollectAll(window, root, ignored)
      ensures received == old(received)[..|old(received)| - 1] + window
      ensures facts == old(facts) + more && WholeWindow(more)
    {
      changes := CollectEvent(first, root, ignored, []);
      CollectAllPush([], first, root, ignored);
      assert changes == CollectAll([] + [first], root, ignored);
      window, more := [] + [first], [];
      hide CollectAll, Collect, OpenWindow, WholeWindow;
      while true
        invariant changes == CollectAll(window, root, ignored)
        invariant received == old(received)[..|old(received)| - 1] + window
        invariant facts == old(facts) + more && OpenWindow(more)
        invariant Left() <= old(Left())
        decreases Left()
      {
        var open := WindowOpen();
        WindowCloses(more, Gone);
        more := more + [InWindow(open)];
        if !open {
          break;
        }
        var a := Receive();
        WindowCloses(more[..|more| - 1], a);
        more := more + [Receives(a)];
        if !a.Got? {
          break;
        }
        changes := CollectEvent(a.event, root, ignored, changes);
        CollectAllPush(window, a.event, root, ignored);
        window := window + [a.event];
      }
    }

    method Begin() returns (ok: bool)
      requires published == [] && batches == [] && facts == []
      modifies this`position, this`published, this`facts
      ensures if ok then published == Body(batches) && Steady(facts) else CutShort(published, batches) && BrokeOff(facts)
    {
      ok := WriteStatus(Starting);
      SteadyPush([], Writes(Starting, ok));
      assert facts == [] + [Writes(Starting, ok)];
      if !ok {
        return;
      }
      SteadyPush(facts, Watches(true));
      SteadyPush(facts, Watches(false));
      ok := StartWatcher();
      if !ok {
        return;
      }
      SteadyPush(facts, Writes(Watching, true));
      SteadyPush(facts, Writes(Watching, false));
      ok := WriteStatus(Watching);
    }

    /** Hands a batch over and publishes what came of it. */
    method Dispatch(changes: seq<Path>) returns (ok: bool)
      requires published == Body(batches) && Steady(facts)
      modifies this`position, this`published, this`batches, this`facts
      ensures Left() <= old(Left()) && batches == old(batches) + [changes]
      ensures if ok then published == Body(batches) && Steady(facts) else CutShort(published, batches) && BrokeOff(facts)
    {
      hide Steady, BrokeOff, Ended;
      assert (batches + [changes])[..|batches|] == batches;
      batches := batches + [changes];
      SteadyPush(facts, Writes(After(changes), true));
      SteadyPush(facts, Writes(After(changes), false));
      ok := WriteStatus(After(changes));
      if !ok {
        return;
      }
      SteadyPush(facts, Writes(Watching, true));
      SteadyPush(facts, Writes(Watching, false));
      ok := WriteStatus(Watching);
    }

    /** The loop from start to stop, or to the first failure. It stops only when told to, or when no event can come any
        more. */
    method WatchLoop(root: Path, ignored: seq<string>) returns (ok: bool, ghost windows: seq<seq<Event>>)
      requires published == [] && batches == [] && received == [] && facts == []
      modifies this
      ensures received == Joined(windows) && batches == BatchesOf(windows, root, ignored)
      ensures if ok then published == Transcript(batches) else CutShort(published, batches)
      ensures if ok then Ended(facts, true) else Ended(facts, false) || BrokeOff(facts)
    {
      hide CollectAll, Body, Steady, BrokeOff, Ended, Fails, WholeWindow;
      windows := [];
      ok := Begin();
      if !ok {
        return;
      }
      while true
        invariant received == Joined(windows) && batches == BatchesOf(windows, root, ignored)
        invariant published == Body(batches) && Steady(facts)
        decreases Left()
      {
        StepsOn(facts);
        var running := Running();
        if !running {
          break;
        }
        StepsOn(facts);
        var a := Receive();
        if a.TimedOut? {
          continue;
        }
        if a.Gone? {
          break;
        }
        ghost var before := facts;
        var changes, window, more := DrainWindow(a.event, root, ignored);
        SteadyThrough(before, more);
        assert (windows + [window])[..|windows|] == windows;
        windows := windows + [window];
        if changes != [] {
          ok := Dispatch(changes);
          if !ok {
            return;
          }
        }
      }
      ok := WriteStatus(Stopped);
    }

    /** What the loop may see next while all is steady. */
    lemma {:induction false} StepsOn(facts: seq<Fact>)
      requires Steady(facts)
      ensures Steady(facts + [Runs(true)])
      ensures forall ok :: Ended(facts + [Runs(false)] + [Writes(Stopped, ok)], ok)
      ensures forall a :: Steady(facts + [Receives(a)])
      ensures forall ok :: Ended(facts + [Receives(Gone)] + [Writes(Stopped, ok)], ok)
    {
      SteadyPush(facts, Runs(true));
      SteadyPush(facts, Runs(false));
      SteadyPush(facts, Receives(Gone));
      forall a ensures Steady(facts + [Receives(a)]) { SteadyPush(facts, Receives(a)); }
      hide Steady, Ended;
    }
  }
}
