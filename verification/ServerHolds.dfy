/** Reference counting of one repository's server with the single hold of the tool panel
    (apps/cognis-mcp/src/mcpServer.ts), as a state machine over plain values. */
module ServerHolds {
  import opened Options

  datatype Phase = StartingUp | Running

  /** A server handle. Beside the count and the flag it carries an account of what happened to it: starts by clients and
      by tool calls, tool calls that have settled their reference, graceful stops, and what the lower bound of one has
      added. */
  datatype Handle = Handle(
    phase: Phase, refCount: nat, toolHold: bool, killed: bool,
    starts: nat, callStarts: nat, bounds: nat, stops: nat, padding: nat)
  {
    /** Tool calls between their start and the settling of their reference. */
    function Calls(): int { callStarts - bounds }

    function Hold(): nat { if toolHold then 1 else 0 }
  }

  datatype Event =
    | Start(call: bool)                  // a client or a tool call asks for the server
    | Retry(call: bool, timedOut: bool)  // a launch has failed, its process gone or still there: it launches again,
                                         // whatever is there now
    | GiveUp(timedOut: bool)             // ... or has no port left to try, and forgets whatever is there
    | Ready
    | Exit
    | Bound                              // a tool call settles its reference
    | Stop(force: bool, mismatch: bool)

  function Max(a: int, b: int): int { if a >= b then a else b }

  function Launched(call: bool): Handle {
    Handle(StartingUp, 1, false, false, if call then 0 else 1, if call then 1 else 0, 0, 0, 0)
  }

  function StartOn(s: Option<Handle>, call: bool): Option<Handle> {
    if s.None? then Some(Launched(call))
    else
      var h := s.value;
      Some(h.(refCount := h.refCount + 1,
              starts := h.starts + if call then 0 else 1, callStarts := h.callStarts + if call then 1 else 0))
  }

  function BoundToolHold(h: Handle): Handle {
    if h.toolHold then
      var n := Max(1, h.refCount - 1);
      h.(refCount := n, bounds := h.bounds + 1, padding := h.padding + (n - (h.refCount - 1)))
    else h.(toolHold := true, bounds := h.bounds + 1)
  }

  function StopOn(h: Handle, force: bool, mismatch: bool): Option<Handle> {
    var n := if force then h.refCount else Max(0, h.refCount - 1);
    var h1 := h.(refCount := n, stops := h.stops + if !force && h.refCount > 0 then 1 else 0);
    if !force && n > 0 then Some(h1)
    else if mismatch then None
    else Some(h1.(killed := true))
  }

  function Step(s: Option<Handle>, e: Event): Option<Handle> {
    match e
    case Start(call) => StartOn(s, call)
    case Retry(call, _) => Some(Launched(call))
    case GiveUp(_) => None
    case Ready => if s.Some? then Some(s.value.(phase := Running)) else s
    case Exit => None
    case Bound => if s.Some? then Some(BoundToolHold(s.value)) else s
    case Stop(force, mismatch) => if s.Some? then StopOn(s.value, force, mismatch) else s
  }

  /** Whether an event can happen here: no start between a kill and the exit it causes, and a tool call settles a
      reference it has on this very handle. */
  predicate Possible(s: Option<Handle>, e: Event) {
    match e
    case Start(_) => s.Some? ==> !s.value.killed
    case Bound => s.Some? ==> s.value.Calls() > 0
    case _ => true
  }

  function Run(s: Option<Handle>, es: seq<Event>): Option<Handle> {
    if es == [] then s else Step(Run(s, es[..|es| - 1]), es[|es| - 1])
  }

  predicate PossibleRun(s: Option<Handle>, es: seq<Event>) {
    es != [] ==> PossibleRun(s, es[..|es| - 1]) && Possible(Run(s, es[..|es| - 1]), es[|es| - 1])
  }

  // ---- Conservation -----------------------------------------------------------------------------------

  /** The count is what the account says it should be. */
  predicate Balanced(h: Handle) {
    && h.Calls() >= 0
    && h.refCount == h.starts - h.stops + h.Calls() + h.Hold() + h.padding
    && (h.refCount > 0 || h.killed)
    && (h.toolHold <==> h.bounds > 0) && (h.bounds == 0 ==> h.padding == 0)
  }

  predicate Inv(s: Option<Handle>) { s.Some? ==> Balanced(s.value) }

  lemma {:induction false} Conserved(es: seq<Event>)
    requires PossibleRun(None, es)
    ensures Inv(Run(None, es))
  {
    if es != [] {
      Conserved(es[..|es| - 1]);
      StepBalances(Run(None, es[..|es| - 1]), es[|es| - 1]);
    }
  }

  lemma {:induction false} StepBalances(s: Option<Handle>, e: Event)
    requires Inv(s) && Possible(s, e)
    ensures Inv(Step(s, e))
  {
  }

  /** The lower bound of one comes into play exactly when, as a tool call settles under a hold already taken, at least as
      many references have been given up as clients and unsettled calls have taken. */
  lemma {:induction false} PaddingIff(h: Handle)
    requires Balanced(h) && h.Calls() > 0
    ensures BoundToolHold(h).padding > h.padding <==> h.toolHold && h.stops >= h.starts + h.Calls() + h.padding
  {
  }

  /** A graceful stop gives up a reference some client took, or comes when no tool call is in between. */
  predicate Fair(s: Option<Handle>, e: Event) {
    e.Stop? && !e.force && s.Some? ==> s.value.stops < s.value.starts || s.value.Calls() == 0
  }

  predicate FairRun(s: Option<Handle>, es: seq<Event>) {
    es != [] ==> FairRun(s, es[..|es| - 1]) && Fair(Run(s, es[..|es| - 1]), es[|es| - 1])
  }

  predicate NeverPadded(s: Option<Handle>) {
    s.Some? ==>
      && s.value.padding == 0
      && (s.value.Calls() > 0 || !s.value.killed ==> s.value.stops <= s.value.starts)
  }

  /** In fair runs the bound never comes into play, not even for a call that settles on a server killed under it: the
      count is exactly the clients, the calls in between and the one hold. */
  lemma {:induction false} FairRunsNeverPad(es: seq<Event>)
    requires PossibleRun(None, es) && FairRun(None, es)
    ensures Inv(Run(None, es)) && NeverPadded(Run(None, es))
  {
    if es != [] {
      var before := es[..|es| - 1];
      FairRunsNeverPad(before);
      Conserved(before);
      StepBalances(Run(None, before), es[|es| - 1]);
    }
  }

  /** A forced stop ends the server however many hold it, and so does a graceful one when at most one does; a process that is
      no longer ours is let go instead. Any other stop takes one reference and nothing else. */
  lemma {:induction false} StopMeans(h: Handle, force: bool, mismatch: bool)
    ensures var s := Step(Some(h), Stop(force, mismatch));
      if force || h.refCount <= 1 then
        (s.None? <==> mismatch) && (s.Some? ==> s.value.killed && s.value.toolHold == h.toolHold)
      else s.Some? && s.value == h.(refCount := h.refCount - 1, stops := h.stops + 1)
  {
  }

  /** After which event, if any, the last launch became ready. */
  predicate ReadySince(es: seq<Event>) {
    es != [] &&
    match es[|es| - 1]
    case Ready => Run(None, es).Some?
    case Retry(_, _) => false
    case _ => Run(None, es).Some? && ReadySince(es[..|es| - 1])
  }

  /** A server counts as running exactly once its port was reached since it was last launched. */
  lemma {:induction false} RunningIff(es: seq<Event>)
    ensures ReadySince(es) <==> Run(None, es).Some? && Run(None, es).value.phase.Running?
  {
    if es != [] {
      RunningIff(es[..|es| - 1]);
    }
  }

  // ---- Ending the server ------------------------------------------------------------------------------

  function Stops(k: nat): seq<Event> { seq(k, _ => Stop(false, false)) }

  /** It takes as many graceful stops to end a server as its count says, and no fewer. */
  lemma {:induction false} StopsNeeded(h: Handle, k: nat)
    requires Balanced(h) && !h.killed
    ensures Run(Some(h), Stops(k)).Some?
    ensures var h1 := Run(Some(h), Stops(k)).value;
      h1.refCount == Max(0, h.refCount - k) && (h1.killed <==> k >= h.refCount)
  {
    if k > 0 {
      StopsNeeded(h, k - 1);
      assert Stops(k)[..k - 1] == Stops(k - 1);
    }
  }

  /** After two fair runs that leave as many clients, no tool call in between and at least one settled, the servers take
      equally many stops to end, however many tool calls either run holds. */
  lemma {:induction false} ToolCallsDoNotCount(es: seq<Event>, fs: seq<Event>, k: nat)
    requires PossibleRun(None, es) && FairRun(None, es) && PossibleRun(None, fs) && FairRun(None, fs)
    requires Run(None, es).Some? && Run(None, fs).Some?
    requires var a, b := Run(None, es).value, Run(None, fs).value;
      && !a.killed && !b.killed && a.Calls() == b.Calls() == 0 && a.bounds > 0 && b.bounds > 0
      && a.starts - a.stops == b.starts - b.stops
    ensures var a := Run(None, es).value;
      var a1, b1 := Run(Run(None, es), Stops(k)), Run(Run(None, fs), Stops(k));
      a1.Some? && b1.Some? && (a1.value.killed <==> k > a.starts - a.stops) && (b1.value.killed <==> a1.value.killed)
  {
    FairRunsNeverPad(es);
    FairRunsNeverPad(fs);
    StopsNeeded(Run(None, es).value, k);
    StopsNeeded(Run(None, fs).value, k);
  }

  function ToolCalls(k: nat): seq<Event> {
    if k == 0 then [] else ToolCalls(k - 1) + [Start(true), Bound]
  }

  lemma {:induction false} OneToolCall(h: Handle)
    requires Balanced(h) && h.toolHold && !h.killed
    ensures var s := Step(Some(h), Start(true));
      && Possible(Some(h), Start(true)) && Possible(s, Bound)
      && Step(s, Bound) == Some(h.(callStarts := h.callStarts + 1, bounds := h.bounds + 1))
  {
  }

  /** Any number of whole tool calls leaves the count of a server with a hold as it was. */
  lemma {:induction false} ToolCallsKeepCount(h: Handle, k: nat)
    requires Balanced(h) && h.toolHold && !h.killed
    ensures Run(Some(h), ToolCalls(k)) == Some(h.(callStarts := h.callStarts + k, bounds := h.bounds + k))
    ensures PossibleRun(Some(h), ToolCalls(k))
  {
    hide Step, Possible;
    if k > 0 {
      ToolCallsKeepCount(h, k - 1);
      OneToolCall(h.(callStarts := h.callStarts + k - 1, bounds := h.bounds + k - 1));
      var before := ToolCalls(k - 1);
      assert before + [Start(true)] + [Bound] == ToolCalls(k);
      RunTo(Some(h), before, Start(true));
      RunTo(Some(h), before + [Start(true)], Bound);
    }
  }

  /** A stop during a tool call, after all clients have gone, makes the bound come into play: the call leaves a reference
      behind that nobody gave it. */
  lemma {:induction false} StopDuringCallPads()
    ensures var es := [Start(true), Bound, Start(true), Stop(false, false), Bound];
      && PossibleRun(None, es) && !FairRun(None, es)
      && Run(None, es).Some? && Run(None, es).value.padding == 1 && Run(None, es).value.refCount == 1
  {
    hide Run, PossibleRun, FairRun;
    var h1 := Handle(StartingUp, 1, false, false, 0, 1, 0, 0, 0);
    var h2 := Handle(StartingUp, 1, true, false, 0, 1, 1, 0, 0);
    var h3 := Handle(StartingUp, 2, true, false, 0, 2, 1, 0, 0);
    var h4 := Handle(StartingUp, 1, true, false, 0, 2, 1, 1, 0);
    assert Step(None, Start(true)) == Some(h1) && Step(Some(h1), Bound) == Some(h2);
    assert Step(Some(h2), Start(true)) == Some(h3) && Step(Some(h3), Stop(false, false)) == Some(h4);
    assert h1.Calls() == 1 && h3.Calls() == 1 && h4.Calls() == 1;
    FiveSteps(Start(true), Bound, Start(true), Stop(false, false), Bound);
  }

  lemma {:induction false} FiveSteps(e1: Event, e2: Event, e3: Event, e4: Event, e5: Event)
    ensures var (s1, es) := (Step(None, e1), [e1, e2, e3, e4, e5]);
      var s2 := Step(s1, e2); var s3 := Step(s2, e3); var s4 := Step(s3, e4);
      && Run(None, es) == Step(s4, e5)
      && (PossibleRun(None, es) <==>
            Possible(None, e1) && Possible(s1, e2) && Possible(s2, e3) && Possible(s3, e4) && Possible(s4, e5))
      && (FairRun(None, es) <==> Fair(None, e1) && Fair(s1, e2) && Fair(s2, e3) && Fair(s3, e4) && Fair(s4, e5))
  {
    hide Step, Possible, Fair;
    RunTo(None, [], e1);
    RunTo(None, [e1], e2);
    RunTo(None, [e1, e2], e3);
    RunTo(None, [e1, e2, e3], e4);
    RunTo(None, [e1, e2, e3, e4], e5);
    assert [] + [e1] == [e1] && [e1] + [e2] == [e1, e2] && [e1, e2] + [e3] == [e1, e2, e3];
    assert [e1, e2, e3] + [e4] == [e1, e2, e3, e4] && [e1, e2, e3, e4] + [e5] == [e1, e2, e3, e4, e5];
  }

  lemma {:induction false} RunTo(s: Option<Handle>, es: seq<Event>, e: Event)
    ensures Run(s, es + [e]) == Step(Run(s, es), e)
    ensures PossibleRun(s, es + [e]) <==> PossibleRun(s, es) && Possible(Run(s, es), e)
    ensures FairRun(s, es + [e]) <==> FairRun(s, es) && Fair(Run(s, es), e)
  {
    assert (es + [e])[..|es|] == es;
  }
}
