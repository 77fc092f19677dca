/** What failed launches do to the reference count of a server (apps/cognis-mcp/src/mcpServer.ts): an account of the
    holds that callers have taken and not given back, kept across handles, against the count of the handle in place. */
module LaunchBooks {
  import opened Options
  import opened ServerHolds

  /** `holds` outlives the handle; `relaunching` counts launchers between the failure of an attempt and their next move.
      A launch that fails under others leaves them forgotten, and one that fails after all of its holds were given back
      is revived. */
  datatype Books = Books(server: Option<Handle>, holds: int, relaunching: nat, forgotten: nat, revived: nat)

  const Opened := Books(None, 0, 0, 0, 0)

  function Count(s: Option<Handle>): nat { if s.Some? then s.value.refCount else 0 }

  function Padding(s: Option<Handle>): nat { if s.Some? then s.value.padding else 0 }

  /** What callers hold of a handle: what starts took, less what stops and all settled tool calls but the first gave
      back. The count has no part in it. */
  function Held(s: Option<Handle>): int {
    if s.None? then 0
    else
      var h := s.value;
      h.starts + h.callStarts - h.stops - (h.bounds - h.Hold())
  }

  predicate LaunchFails(b: Books, e: Event) { e.Exit? && b.server.Some? && b.server.value.phase == StartingUp }

  /** The holds that an event takes away with a handle, beside that of the launcher who goes on. */
  function Surplus(b: Books, e: Event): int {
    if LaunchFails(b, e) then Held(b.server) - 1
    else if e.Retry? || e.GiveUp? then Held(b.server) - if e.timedOut then 1 else 0
    else 0
  }

  /** What callers give back: one in a graceful stop while anything is counted, one for a tool call that settles under a
      hold already taken, and all they have when a server that ran ends or is no longer ours. */
  function GivenBack(b: Books, e: Event): int {
    if b.server.None? then 0
    else match e
      case Stop(force, mismatch) =>
        if mismatch && (force || b.server.value.refCount <= 1) then Held(b.server)
        else if !force && b.server.value.refCount > 0 then 1
        else 0
      case Bound => if b.server.value.toolHold then 1 else 0
      case Exit => if LaunchFails(b, e) then 0 else Held(b.server)
      case _ => 0
  }

  /** A start takes a hold; a launcher that gives up has none left. */
  function HoldsAfter(b: Books, e: Event): int {
    b.holds - GivenBack(b, e) + (if e.Start? then 1 else 0) - (if e.GiveUp? then 1 else 0)
  }

  function Keep(b: Books, e: Event): Books {
    var relaunching :=
      if LaunchFails(b, e) then b.relaunching + 1
      else if (e.Retry? || e.GiveUp?) && !e.timedOut && b.relaunching > 0 then b.relaunching - 1
      else b.relaunching;
    Books(Step(b.server, e), HoldsAfter(b, e), relaunching,
          b.forgotten + Max(Surplus(b, e), 0), b.revived + Max(-Surplus(b, e), 0))
  }

  /** Only a launcher whose attempt has failed launches again or gives up: its process has gone, or is still in place
      without having bound its port. */
  predicate CanHappen(b: Books, e: Event) {
    && Possible(b.server, e)
    && (e.Retry? || e.GiveUp? ==>
          if e.timedOut then b.server.Some? && b.server.value.phase == StartingUp else b.relaunching > 0)
  }

  function Kept(es: seq<Event>): Books {
    if es == [] then Opened else Keep(Kept(es[..|es| - 1]), es[|es| - 1])
  }

  predicate CanRun(es: seq<Event>) {
    es != [] ==> CanRun(es[..|es| - 1]) && CanHappen(Kept(es[..|es| - 1]), es[|es| - 1])
  }

  /** What callers hold is the count, less what the lower bound of one has added to it, and what launches have lost. */
  predicate Even(b: Books) {
    b.holds == Count(b.server) - Padding(b.server) + b.relaunching + b.forgotten - b.revived
  }

  lemma {:induction false} HeldIsCounted(s: Option<Handle>)
    requires Inv(s)
    ensures Held(s) == Count(s) - Padding(s)
  {
  }

  lemma {:induction false} KeepIsEven(b: Books, e: Event)
    requires Even(b) && Inv(b.server) && CanHappen(b, e)
    ensures Even(Keep(b, e))
  {
    HeldIsCounted(b.server);
  }

  /** The books follow the server, and always balance. */
  lemma {:induction false} BooksBalance(es: seq<Event>)
    requires CanRun(es)
    ensures PossibleRun(None, es) && Kept(es).server == Run(None, es) && Even(Kept(es))
  {
    hide Step, Possible;
    if es != [] {
      var before, e := Kept(es[..|es| - 1]), es[|es| - 1];
      BooksBalance(es[..|es| - 1]);
      Conserved(es[..|es| - 1]);
      KeepIsEven(before, e);
      hide Even, Inv;
    }
  }

  /** No event of the run takes a handle away from anyone but the launcher who goes on. */
  predicate NobodyElse(es: seq<Event>) {
    es != [] ==> NobodyElse(es[..|es| - 1]) && Surplus(Kept(es[..|es| - 1]), es[|es| - 1]) <= 0
  }

  /** No launch fails after all of its holds were given back. */
  predicate NobodyGone(es: seq<Event>) {
    es != [] ==> NobodyGone(es[..|es| - 1]) && Surplus(Kept(es[..|es| - 1]), es[|es| - 1]) >= 0
  }

  lemma {:induction false} ForgottenIff(es: seq<Event>)
    ensures Kept(es).forgotten == 0 <==> NobodyElse(es)
    ensures Kept(es).revived == 0 <==> NobodyGone(es)
  {
    if es != [] {
      ForgottenIff(es[..|es| - 1]);
    }
  }

  /** When no launcher is between attempts, the count is what callers hold exactly when as many holds were forgotten as
      launches revived and references added by the lower bound. In fair runs without a revived launch: exactly when nobody
      else ever held a launch that failed or was replaced. In fair runs where nobody did: exactly when none was revived. */
  lemma {:induction false} CountIsHoldsIff(es: seq<Event>)
    requires CanRun(es) && Kept(es).relaunching == 0
    ensures var b := Kept(es);
      && (Count(b.server) == b.holds <==> b.forgotten == b.revived + Padding(b.server))
      && (FairRun(None, es) ==> Padding(b.server) == 0)
      && (FairRun(None, es) && NobodyGone(es) ==> (Count(b.server) == b.holds <==> NobodyElse(es)))
      && (FairRun(None, es) && NobodyElse(es) ==> (Count(b.server) == b.holds <==> NobodyGone(es)))
  {
    BooksBalance(es);
    ForgottenIff(es);
    if FairRun(None, es) { FairRunsNeverPad(es); }
    hide Kept, NobodyElse, NobodyGone, FairRun, PossibleRun, Run, Inv;
  }

  /** One launch, with no reference settled or given up yet: launching again keeps its count exactly when it had a single
      caller, and otherwise loses all the others. */
  lemma {:induction false} RetryForgetsJoiners(h: Handle, call: bool)
    requires Balanced(h) && h.bounds == 0 && h.stops == 0
    ensures var again := Step(Step(Some(h), Exit), Retry(call, false));
      && again.Some?
      && (again.value.refCount == h.refCount <==> h.starts + h.callStarts == 1)
      && h.refCount - again.value.refCount == h.starts + h.callStarts - 1
  {
  }

  lemma {:induction false} KeptPush(es: seq<Event>, e: Event)
    ensures Kept(es + [e]) == Keep(Kept(es), e)
    ensures CanRun(es + [e]) <==> CanRun(es) && CanHappen(Kept(es), e)
  {
    assert (es + [e])[..|es|] == es;
  }

  lemma {:induction false} FiveKept(e1: Event, e2: Event, e3: Event, e4: Event, e5: Event)
    ensures var (b1, es) := (Keep(Opened, e1), [e1, e2, e3, e4, e5]);
      var b2 := Keep(b1, e2); var b3 := Keep(b2, e3); var b4 := Keep(b3, e4);
      && Kept(es) == Keep(b4, e5)
      && (CanRun(es) <==>
            CanHappen(Opened, e1) && CanHappen(b1, e2) && CanHappen(b2, e3) && CanHappen(b3, e4) && CanHappen(b4, e5))
  {
    hide Keep, CanHappen;
    KeptPush([], e1);
    KeptPush([e1], e2);
    KeptPush([e1, e2], e3);
    KeptPush([e1, e2, e3], e4);
    KeptPush([e1, e2, e3, e4], e5);
    assert [] + [e1] == [e1] && [e1] + [e2] == [e1, e2] && [e1, e2] + [e3] == [e1, e2, e3];
    assert [e1, e2, e3] + [e4] == [e1, e2, e3, e4] && [e1, e2, e3, e4] + [e5] == [e1, e2, e3, e4, e5];
  }

  lemma {:induction false} KeepLaunch(b: Books, h: Handle)
    requires b.server == Some(h) && h.phase == StartingUp
    ensures var held := Held(Some(h));
      Keep(b, Exit) ==
        Books(None, b.holds, b.relaunching + 1, b.forgotten + Max(held - 1, 0), b.revived + Max(1 - held, 0))
    ensures Keep(b, Ready) == b.(server := Some(h.(phase := Running)))
    ensures Keep(b, Start(false)) == b.(server := StartOn(b.server, false), holds := b.holds + 1)
  {
  }

  lemma {:induction false} KeepNothing(b: Books)
    requires b.server == None
    ensures Keep(b, Start(false)) == b.(server := Some(Launched(false)), holds := b.holds + 1)
    ensures b.relaunching > 0 ==>
      Keep(b, Retry(false, false)) == b.(server := Some(Launched(false)), relaunching := b.relaunching - 1)
  {
  }

  lemma {:induction false} KeepLastStop(b: Books, h: Handle)
    requires b.server == Some(h) && h.refCount == 1
    ensures Keep(b, Stop(false, false)) ==
      b.(server := Some(h.(refCount := 0, stops := h.stops + 1, killed := true)), holds := b.holds - 1)
  {
  }

  /** A client joins a launch that then fails: two clients hold a server with a count of one. */
  lemma {:induction false} JoinerIsForgotten(es: seq<Event>)
    requires es == [Start(false), Start(false), Exit, Retry(false, false), Ready]
    ensures CanRun(es) && Kept(es).holds == 2 && Count(Kept(es).server) == 1
  {
    hide Kept, CanRun, Keep;
    var h := Launched(false);
    KeepNothing(Opened);
    var b1 := Keep(Opened, Start(false));
    KeepLaunch(b1, h);
    var b2 := Keep(b1, Start(false));
    KeepLaunch(b2, b2.server.value);
    var b3 := Keep(b2, Exit);
    KeepNothing(b3);
    KeepLaunch(Keep(b3, Retry(false, false)), h);
    FiveKept(Start(false), Start(false), Exit, Retry(false, false), Ready);
  }

  /** The only client gives a launch up, which ends the process; the launcher takes that for a failure and launches again:
      a server that nobody holds. */
  lemma {:induction false} StoppedLaunchReturns(es: seq<Event>)
    requires es == [Start(false), Stop(false, false), Exit, Retry(false, false), Ready]
    ensures CanRun(es) && Kept(es).holds == 0 && Count(Kept(es).server) == 1
    ensures !Kept(es).server.value.killed
  {
    hide Kept, CanRun, Keep;
    var h := Launched(false);
    KeepNothing(Opened);
    var b1 := Keep(Opened, Start(false));
    KeepLastStop(b1, h);
    var b2 := Keep(b1, Stop(false, false));
    KeepLaunch(b2, b2.server.value);
    var b3 := Keep(b2, Exit);
    KeepNothing(b3);
    KeepLaunch(Keep(b3, Retry(false, false)), h);
    FiveKept(Start(false), Stop(false, false), Exit, Retry(false, false), Ready);
  }
}
