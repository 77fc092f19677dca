/** The single-slot runner of apps/cognis-mcp/src/toggle.ts as a state machine over plain values. A workspace is named by
    its canonical key. A transition that has been started is named by its place in the sequence of all that were; its
    abort controller goes by the same number. */
module ToggleMachine {
  import opened Options

  datatype ToggleState = On | Off

  /** What the workspace state holds under a key: a toggle value, or something else. */
  type Storage = map<string, Option<ToggleState>>

  datatype Slot = Slot(persisted: ToggleState, inFlight: Option<ToggleState>, controller: Option<nat>, generation: nat)

  /** A started transition; it is open until its work settles, and writing while it then waits for storage. */
  datatype Transition = Transition(
    key: string, value: ToggleState, generation: nat, aborted: bool, open: bool, writing: bool)

  datatype Control = Control(slots: map<string, Slot>, stored: Storage, started: seq<Transition>)

  /** How the work of a transition ends; it may end well and the value still not be stored. */
  datatype Ending = Fails | Succeeds | SucceedsUnstored

  datatype Event =
    | Set(key: string, value: ToggleState)
    | Settle(transition: nat, ending: Ending)
    | WriteEnds(transition: nat, ok: bool)
    | Reopen(key: string)
    | Look(key: string)

  datatype Answer =
    | Reported(displayed: ToggleState)
    | Ignored                  // already on the way to that value
    | Started(transition: nat)
    | Landed                   // in force, with the write requested
    | Finished
    | Superseded
    | Thrown
    | Looked

  function ReadPersisted(stored: Storage, key: string): ToggleState {
    if key in stored && stored[key].Some? then stored[key].value else Off
  }

  /** The slot of a workspace, which is made when first asked for. */
  function SlotOf(c: Control, key: string): Slot {
    if key in c.slots then c.slots[key] else Slot(ReadPersisted(c.stored, key), None, None, 0)
  }

  function Displayed(c: Control, key: string): ToggleState {
    var s := SlotOf(c, key);
    if s.inFlight.Some? then s.inFlight.value else s.persisted
  }

  // ---- The steps --------------------------------------------------------------------------------------

  /** The control as constructed: a slot for every toggle value found in storage. */
  function Fresh(stored: Storage): Control {
    Control(map k | k in stored && stored[k].Some? :: Slot(stored[k].value, None, None, 0), stored, [])
  }

  function Abort(started: seq<Transition>, controller: Option<nat>): seq<Transition> {
    if controller.Some? && controller.value < |started|
    then started[controller.value := started[controller.value].(aborted := true)]
    else started
  }

  function SetTo(c: Control, key: string, value: ToggleState): (Control, Answer) {
    var s := SlotOf(c, key);
    if s.inFlight.None? && s.persisted == value then (c.(slots := c.slots[key := s]), Reported(value))
    else if s.inFlight == Some(value) then (c.(slots := c.slots[key := s]), Ignored)
    else
      var t := Transition(key, value, s.generation + 1, false, true, false);
      var s1 := Slot(s.persisted, Some(value), Some(|c.started|), s.generation + 1);
      (Control(c.slots[key := s1], c.stored, Abort(c.started, s.controller) + [t]), Started(|c.started|))
  }

  function SettleWith(c: Control, i: nat, ending: Ending): (Control, Answer)
    requires i < |c.started|
  {
    var t := c.started[i];
    var c1 := c.(started := c.started[i := t.(open := false)]);
    var s := SlotOf(c, t.key);
    if s.generation != t.generation then (c1, Superseded)
    else if ending == Fails then (c1, if t.aborted then Superseded else Thrown)
    else
      (Control(c.slots[t.key := s.(persisted := t.value, inFlight := None, controller := None)],
               if ending == Succeeds then c.stored[t.key := Some(t.value)] else c.stored,
               c.started[i := t.(open := false, writing := true)]),
       Landed)
  }

  /** The write is over; its failure is heard only while nothing newer was asked for. */
  function EndWrite(c: Control, i: nat, ok: bool): (Control, Answer)
    requires i < |c.started|
  {
    var t := c.started[i];
    (c.(started := c.started[i := t.(writing := false)]),
     if ok then Finished else if SlotOf(c, t.key).generation != t.generation || t.aborted then Superseded else Thrown)
  }

  function ReopenAt(c: Control, key: string): (Control, Answer) {
    var s := SlotOf(c, key);
    (Control(c.slots[key := Slot(s.persisted, None, None, s.generation + 1)], c.stored, Abort(c.started, s.controller)),
     Reported(s.persisted))
  }

  /** One event; settling what is not open is no event at all. */
  function Step(c: Control, e: Event): (Control, Answer) {
    match e
    case Set(key, value) => SetTo(c, key, value)
    case Settle(i, ending) => if i < |c.started| && c.started[i].open then SettleWith(c, i, ending) else (c, Looked)
    case WriteEnds(i, ok) => if i < |c.started| && c.started[i].writing then EndWrite(c, i, ok) else (c, Looked)
    case Reopen(key) => ReopenAt(c, key)
    case Look(key) => (c.(slots := c.slots[key := SlotOf(c, key)]), Looked)
  }

  /** The control after each of some events. */
  function Run(c: Control, es: seq<Event>): Control {
    if es == [] then c else Step(Run(c, es[..|es| - 1]), es[|es| - 1]).0
  }

  lemma {:induction false} Overwrite(slots: map<string, Slot>, key: string, first: Slot, last: Slot)
    ensures slots[key := first][key := last] == slots[key := last]
  {
  }

  // ---- The invariant of every run ---------------------------------------------------------------------

  /** A transition against the slot of its workspace: it is the one in flight exactly while it is open, not aborted and
      of the newest generation, and each of the last two follows from the other. */
  predicate TransitionOk(c: Control, i: nat)
    requires i < |c.started|
  {
    var t := c.started[i];
    && t.key in c.slots && 1 <= t.generation <= c.slots[t.key].generation
    && (t.open ==> (t.aborted <==> t.generation < c.slots[t.key].generation))
    && (t.open && t.generation == c.slots[t.key].generation ==> c.slots[t.key].controller == Some(i))
    && (t.aborted ==> t.generation < c.slots[t.key].generation)
    && (t.writing ==> !t.open && !t.aborted)
  }

  predicate SlotOk(c: Control, key: string)
    requires key in c.slots
  {
    var s := c.slots[key];
    && (s.inFlight.Some? <==> s.controller.Some?)
    && (s.controller.Some? ==>
          && s.controller.value < |c.started|
          && var t := c.started[s.controller.value];
          && t.key == key && t.value == s.inFlight.value && t.generation == s.generation
          && !t.aborted && !t.writing)
  }

  predicate GenerationsGrow(c: Control) {
    forall i, j :: 0 <= i < j < |c.started| && c.started[i].key == c.started[j].key ==>
      c.started[i].generation < c.started[j].generation
  }

  predicate Inv(c: Control) {
    && (forall k :: k in c.slots ==> SlotOk(c, k))
    && (forall i :: 0 <= i < |c.started| ==> TransitionOk(c, i))
    && GenerationsGrow(c)
  }

  lemma {:induction false} FreshInv(stored: Storage)
    ensures Inv(Fresh(stored))
  {
  }

  lemma {:induction false} SetKeepsInv(c: Control, key: string, value: ToggleState)
    requires Inv(c)
    ensures Inv(SetTo(c, key, value).0)
  {
    var s, c1 := SlotOf(c, key), SetTo(c, key, value).0;
    assert key in c.slots ==> SlotOk(c, key);
    forall k | k in c1.slots ensures SlotOk(c1, k) {
      if k != key { assert SlotOk(c, k); }
    }
    forall i | 0 <= i < |c1.started| ensures TransitionOk(c1, i) {
      if i < |c.started| { assert TransitionOk(c, i); }
    }
    SetKeepsOrder(c, key, value);
  }

  lemma {:induction false} SetKeepsOrder(c: Control, key: string, value: ToggleState)
    requires Inv(c)
    ensures GenerationsGrow(SetTo(c, key, value).0)
  {
    var c1 := SetTo(c, key, value).0;
    forall i, j | 0 <= i < j < |c1.started| && c1.started[i].key == c1.started[j].key
      ensures c1.started[i].generation < c1.started[j].generation
    {
      assert TransitionOk(c, i);
    }
  }

  lemma {:induction false} ReopenKeepsInv(c: Control, key: string)
    requires Inv(c)
    ensures Inv(ReopenAt(c, key).0)
  {
    var s, c1 := SlotOf(c, key), ReopenAt(c, key).0;
    assert key in c.slots ==> SlotOk(c, key);
    forall k | k in c1.slots ensures SlotOk(c1, k) {
      if k != key { assert SlotOk(c, k); }
    }
    forall i | 0 <= i < |c1.started| ensures TransitionOk(c1, i) {
      assert TransitionOk(c, i);
    }
  }

  lemma {:induction false} SettleKeepsInv(c: Control, i: nat, ending: Ending)
    requires Inv(c) && i < |c.started| && c.started[i].open
    ensures Inv(SettleWith(c, i, ending).0)
  {
    var t, c1 := c.started[i], SettleWith(c, i, ending).0;
    assert TransitionOk(c, i);
    forall k | k in c1.slots ensures SlotOk(c1, k) {
      assert SlotOk(c, k);
    }
    forall j | 0 <= j < |c1.started| ensures TransitionOk(c1, j) {
      assert TransitionOk(c, j);
    }
  }

  lemma {:induction false} EndWriteKeepsInv(c: Control, i: nat, ok: bool)
    requires Inv(c) && i < |c.started|
    ensures Inv(EndWrite(c, i, ok).0)
  {
    var c1 := EndWrite(c, i, ok).0;
    forall k | k in c1.slots ensures SlotOk(c1, k) {
      assert SlotOk(c, k);
    }
    forall j | 0 <= j < |c1.started| ensures TransitionOk(c1, j) {
      assert TransitionOk(c, j);
    }
  }

  lemma {:induction false} StepKeepsInv(c: Control, e: Event)
    requires Inv(c)
    ensures Inv(Step(c, e).0)
  {
    match e
    case Set(key, value) => SetKeepsInv(c, key, value);
    case Settle(i, ending) => if i < |c.started| && c.started[i].open { SettleKeepsInv(c, i, ending); }
    case WriteEnds(i, ok) => if i < |c.started| && c.started[i].writing { EndWriteKeepsInv(c, i, ok); }
    case Reopen(key) => ReopenKeepsInv(c, key);
    case Look(key) =>
      var c1 := Step(c, e).0;
      forall k | k in c1.slots ensures SlotOk(c1, k) {
        if k in c.slots { assert SlotOk(c, k); }
      }
      forall i | 0 <= i < |c1.started| ensures TransitionOk(c1, i) {
        assert TransitionOk(c, i);
      }
  }

  lemma {:induction false} RunKeepsInv(c: Control, es: seq<Event>)
    requires Inv(c)
    ensures Inv(Run(c, es))
  {
    if es != [] {
      RunKeepsInv(c, es[..|es| - 1]);
      StepKeepsInv(Run(c, es[..|es| - 1]), es[|es| - 1]);
    }
  }

  // ---- What is displayed ------------------------------------------------------------------------------

  /** The last value asked for; reopening the workspace falls back to the value that had come into force. */
  function Requested(c: Control, es: seq<Event>, key: string): ToggleState {
    if es == [] then Displayed(c, key)
    else
      var before, e := es[..|es| - 1], es[|es| - 1];
      if e.Set? && e.key == key then e.value
      else if e.Reopen? && e.key == key then SlotOf(Run(c, before), key).persisted
      else Requested(c, before, key)
  }

  lemma {:induction false} StepDisplays(c: Control, e: Event, key: string)
    requires Inv(c)
    ensures Displayed(Step(c, e).0, key) ==
      if e.Set? && e.key == key then e.value
      else if e.Reopen? && e.key == key then SlotOf(c, key).persisted
      else Displayed(c, key)
  {
    if e.Settle? && e.transition < |c.started| && c.started[e.transition].open {
      assert TransitionOk(c, e.transition);
      assert SlotOk(c, c.started[e.transition].key);
    }
  }

  /** At all times the control shows the last value asked for, however the transitions end and in whatever order. */
  lemma {:induction false} DisplaysLastRequest(c: Control, es: seq<Event>, key: string)
    requires Inv(c)
    ensures Displayed(Run(c, es), key) == Requested(c, es, key)
  {
    if es != [] {
      var before := es[..|es| - 1];
      DisplaysLastRequest(c, before, key);
      RunKeepsInv(c, before);
      StepDisplays(Run(c, before), es[|es| - 1], key);
    }
  }

  // ---- Who writes -------------------------------------------------------------------------------------

  /** Only the newest transition of a workspace changes its slot or its stored value, and it is told to stop by nobody.
      Any other one was told to stop and ends without a trace. */
  lemma {:induction false} OnlyNewestWrites(c: Control, i: nat, ending: Ending)
    requires Inv(c) && i < |c.started| && c.started[i].open
    ensures var (c1, answer) := SettleWith(c, i, ending); var key := c.started[i].key;
      && (answer == Superseded <==> c.started[i].aborted)
      && (answer == Thrown <==> !c.started[i].aborted && ending == Fails)
      && (answer == Superseded ==> c1.slots == c.slots && c1.stored == c.stored)
      && (answer != Superseded ==>
            && key in c.slots && c.slots[key].controller == Some(i)
            && forall j :: 0 <= j < |c.started| && j != i && c.started[j].key == key ==>
                 c.started[j].generation < c.started[i].generation)
  {
    assert TransitionOk(c, i);
    forall j | 0 <= j < |c.started| && j != i && c.started[j].key == c.started[i].key
      ensures c.started[j].generation != c.started[i].generation
        && c.started[j].generation <= c.slots[c.started[j].key].generation
    {
      assert TransitionOk(c, j);
    }
  }

  /** The end of a write changes no slot and nothing stored; its failure is reported exactly when no transition has been
      started for the workspace, and it has not been reopened, since the transition landed. */
  lemma {:induction false} WriteEndsQuietly(c: Control, i: nat, ok: bool)
    requires Inv(c) && i < |c.started| && c.started[i].writing
    ensures var (c1, answer) := Step(c, WriteEnds(i, ok)); var t := c.started[i];
      && c1.slots == c.slots && c1.stored == c.stored
      && (answer == Finished <==> ok)
      && (answer == Thrown <==> !ok && t.key in c.slots && c.slots[t.key].generation == t.generation)
      && (answer == Finished || answer == Thrown || answer == Superseded)
      && (answer == Thrown ==> c.slots[t.key].inFlight.None?)
      && (answer == Thrown ==> forall j :: i < j < |c.started| ==> c.started[j].key != t.key)
  {
    assert TransitionOk(c, i);
    assert SlotOk(c, c.started[i].key);
    forall j | i < j < |c.started| && c.started[j].key == c.started[i].key
      ensures c.started[i].generation < c.started[j].generation <= c.slots[c.started[i].key].generation
    {
      assert TransitionOk(c, j);
    }
  }

  /** At most one transition of a workspace is at work without having been told to stop. */
  lemma {:induction false} SingleSlot(c: Control, i: nat, j: nat)
    requires Inv(c) && i < |c.started| && j < |c.started| && c.started[i].key == c.started[j].key
    requires c.started[i].open && !c.started[i].aborted && c.started[j].open && !c.started[j].aborted
    ensures i == j
  {
    assert TransitionOk(c, i) && TransitionOk(c, j);
  }

  function KeyOf(c: Control, e: Event): Option<string> {
    match e
    case Set(key, _) => Some(key)
    case Reopen(key) => Some(key)
    case Look(key) => Some(key)
    case Settle(i, _) => if i < |c.started| then Some(c.started[i].key) else None
    case WriteEnds(i, _) => if i < |c.started| then Some(c.started[i].key) else None
  }

  /** What happens to one workspace leaves the others, and whatever else is stored, as they were. */
  lemma {:induction false} OthersUntouched(c: Control, e: Event, key: string)
    requires Inv(c) && KeyOf(c, e) != Some(key)
    ensures var c1 := Step(c, e).0;
      && SlotOf(c1, key) == SlotOf(c, key)
      && (key in c1.stored <==> key in c.stored) && (key in c.stored ==> c1.stored[key] == c.stored[key])
      && |c.started| <= |c1.started|
      && forall i :: 0 <= i < |c.started| && c.started[i].key == key ==> c1.started[i] == c.started[i]
  {
    if e.Set? || e.Reopen? {
      if e.key in c.slots { assert SlotOk(c, e.key); }
    }
  }

  /** A slot agrees with storage. */
  predicate InStore(c: Control, key: string) { ReadPersisted(c.stored, key) == SlotOf(c, key).persisted }

  /** The event brings a value into force in this workspace. */
  predicate Lands(c: Control, e: Event, key: string) {
    && e.Settle? && e.ending != Fails && e.transition < |c.started| && c.started[e.transition].open
    && c.started[e.transition].key == key && c.started[e.transition].generation == SlotOf(c, key).generation
  }

  /** The last value to come into force in this workspace was stored, or what was stored already reads the same; what
      becomes of other workspaces' writes does not matter. */
  predicate LastWriteKept(c: Control, es: seq<Event>, key: string) {
    es != [] ==>
      var before, e := Run(c, es[..|es| - 1]), es[|es| - 1];
      if Lands(before, e, key)
      then e.ending == Succeeds || ReadPersisted(before.stored, key) == before.started[e.transition].value
      else LastWriteKept(c, es[..|es| - 1], key)
  }

  lemma {:induction false} StepStores(c: Control, e: Event, key: string)
    requires Inv(c)
    ensures InStore(Step(c, e).0, key) <==>
      if Lands(c, e, key) then e.ending == Succeeds || ReadPersisted(c.stored, key) == c.started[e.transition].value
      else InStore(c, key)
  {
    if KeyOf(c, e) != Some(key) {
      OthersUntouched(c, e, key);
    } else if e.Settle? {
      assert TransitionOk(c, e.transition);
    }
  }

  /** The value in force is the value stored exactly when the last write of this workspace was kept. */
  lemma {:induction false} InForceIsStoredIff(stored: Storage, es: seq<Event>, key: string)
    ensures InStore(Run(Fresh(stored), es), key) <==> LastWriteKept(Fresh(stored), es, key)
  {
    FreshInv(stored);
    if es != [] {
      var before := es[..|es| - 1];
      InForceIsStoredIff(stored, before, key);
      RunKeepsInv(Fresh(stored), before);
      StepStores(Run(Fresh(stored), before), es[|es| - 1], key);
    }
  }

  /** No toggle value is stored for this workspace. */
  predicate NothingStored(stored: Storage, key: string) { key in stored ==> stored[key].None? }

  predicate LeftAlone(c: Control, es: seq<Event>, key: string) {
    es != [] ==> LeftAlone(c, es[..|es| - 1], key) && KeyOf(Run(c, es[..|es| - 1]), es[|es| - 1]) != Some(key)
  }

  /** Whatever happens elsewhere, a workspace never toggled shows Off, takes a request for Off as done, and sets to work on
      one for On; one with a stored value shows that. */
  lemma {:induction false} FirstSight(stored: Storage, es: seq<Event>, key: string)
    requires LeftAlone(Fresh(stored), es, key)
    ensures var c := Run(Fresh(stored), es);
      && SlotOf(c, key).inFlight.None? && SlotOf(c, key).controller.None?
      && (NothingStored(stored, key) ==>
            Displayed(c, key) == Off && SetTo(c, key, Off).1 == Reported(Off) && SetTo(c, key, On).1.Started?)
      && (!NothingStored(stored, key) ==> Displayed(c, key) == stored[key].value)
  {
    FreshInv(stored);
    if es != [] {
      var before := es[..|es| - 1];
      FirstSight(stored, before, key);
      RunKeepsInv(Fresh(stored), before);
      OthersUntouched(Run(Fresh(stored), before), es[|es| - 1], key);
    }
  }

  /** What a request and a reopening answer. */
  lemma {:induction false} AnswersMean(c: Control, key: string, value: ToggleState)
    ensures var answer := SetTo(c, key, value).1; var s := SlotOf(c, key);
      && (s.inFlight.None? && s.persisted == value <==> answer == Reported(value))
      && (s.inFlight == Some(value) <==> answer == Ignored)
      && (s.inFlight == Some(value) || (s.inFlight.None? && s.persisted == value) || answer == Started(|c.started|))
    ensures ReopenAt(c, key).1 == Reported(Displayed(ReopenAt(c, key).0, key))
    ensures ReopenAt(c, key).1 == Reported(SlotOf(c, key).persisted)
  {
  }

  // ---- Convergence ------------------------------------------------------------------------------------

  /** The newest transition of a workspace is at work towards a value. */
  predicate Underway(c: Control, key: string, value: ToggleState, i: nat) {
    && i < |c.started| && c.started[i].open && !c.started[i].aborted && c.started[i].key == key
    && c.started[i].value == value && SlotOf(c, key).inFlight == Some(value) && SlotOf(c, key).controller == Some(i)
  }

  /** The value is in force, and nothing is under way. */
  predicate InForce(c: Control, key: string, value: ToggleState) {
    key in c.slots && c.slots[key].inFlight.None? && c.slots[key].persisted == value
  }

  /** It is stored as well. */
  predicate Rested(c: Control, key: string, value: ToggleState) {
    InForce(c, key, value) && key in c.stored && c.stored[key] == Some(value)
  }

  /** The newest transition has failed, yet still counts as under way. */
  predicate Stuck(c: Control, key: string, value: ToggleState) {
    && key in c.slots && c.slots[key].inFlight == Some(value) && c.slots[key].controller.Some?
    && c.slots[key].controller.value < |c.started| && !c.started[c.slots[key].controller.value].open
  }

  /** Nothing but the value itself is asked of the workspace. */
  predicate Undisturbed(es: seq<Event>, key: string, value: ToggleState) {
    forall i :: 0 <= i < |es| ==> Harmless(es[i], key, value)
  }

  predicate Harmless(e: Event, key: string, value: ToggleState) {
    (e.Set? && e.key == key ==> e.value == value) && (e.Reopen? ==> e.key != key)
  }

  lemma {:induction false} UnderwayStep(c: Control, e: Event, key: string, value: ToggleState, i: nat)
    requires Inv(c) && Harmless(e, key, value) && Underway(c, key, value, i)
    ensures !(e.Settle? && e.transition == i) ==>
      Underway(Step(c, e).0, key, value, i) && SlotOf(Step(c, e).0, key).persisted == SlotOf(c, key).persisted
    ensures e == Settle(i, Succeeds) ==> Rested(Step(c, e).0, key, value)
    ensures e == Settle(i, SucceedsUnstored) ==> InForce(Step(c, e).0, key, value)
    ensures e == Settle(i, Fails) ==>
      Stuck(Step(c, e).0, key, value) && Step(c, e).0.slots == c.slots && Step(c, e).0.stored == c.stored
  {
    assert TransitionOk(c, i);
    assert SlotOk(c, key);
    match e
    case Set(k, _) => if k in c.slots { assert SlotOk(c, k); }
    case Reopen(k) => if k in c.slots { assert SlotOk(c, k); }
    case Settle(j, _) => if j < |c.started| { assert TransitionOk(c, j); }
    case WriteEnds(j, _) => if j < |c.started| { assert TransitionOk(c, j); }
    case Look(_) =>
  }

  lemma {:induction false} RestedStep(c: Control, e: Event, key: string, value: ToggleState)
    requires Inv(c) && Harmless(e, key, value) && InForce(c, key, value)
    ensures InForce(Step(c, e).0, key, value) && (Rested(c, key, value) ==> Rested(Step(c, e).0, key, value))
  {
    assert SlotOk(c, key);
    if e.Settle? && e.transition < |c.started| { assert TransitionOk(c, e.transition); }
  }

  lemma {:induction false} StuckStep(c: Control, e: Event, key: string, value: ToggleState)
    requires Inv(c) && Harmless(e, key, value) && Stuck(c, key, value)
    ensures Stuck(Step(c, e).0, key, value) && SlotOf(Step(c, e).0, key) == SlotOf(c, key)
  {
    assert SlotOk(c, key);
    match e
    case Set(k, _) => if k in c.slots { assert SlotOk(c, k); }
    case Reopen(k) => if k in c.slots { assert SlotOk(c, k); }
    case Settle(j, _) => if j < |c.started| { assert TransitionOk(c, j); }
    case WriteEnds(j, _) => if j < |c.started| { assert TransitionOk(c, j); }
    case Look(_) =>
  }

  /** The first thing that happens to transition i, if anything does. */
  function FateOf(es: seq<Event>, i: nat): Option<Ending> {
    if es == [] then None
    else
      var before, e := es[..|es| - 1], es[|es| - 1];
      var fate := FateOf(before, i);
      if fate.None? && e.Settle? && e.transition == i then Some(e.ending) else fate
  }

  /** A value that is asked for, and whose transition ends well without another being asked for, comes into force and is
      stored, and stays so; if its transition fails it stays displayed but never comes into force. */
  lemma {:induction false} Convergence(c: Control, es: seq<Event>, key: string, value: ToggleState, i: nat)
    requires Inv(c) && Underway(c, key, value, i) && Undisturbed(es, key, value)
    ensures var c1 := Run(c, es);
      match FateOf(es, i)
      case None => Underway(c1, key, value, i)
      case Some(Succeeds) => Rested(c1, key, value)
      case Some(Fails) => Stuck(c1, key, value) && SlotOf(c1, key).persisted == SlotOf(c, key).persisted
      case Some(SucceedsUnstored) => InForce(c1, key, value)
    ensures FateOf(es, i).None? ==> SlotOf(Run(c, es), key).persisted == SlotOf(c, key).persisted
  {
    if es != [] {
      var before, e := es[..|es| - 1], es[|es| - 1];
      Convergence(c, before, key, value, i);
      RunKeepsInv(c, before);
      var m := Run(c, before);
      assert Harmless(e, key, value);
      if Underway(m, key, value, i) { UnderwayStep(m, e, key, value, i); }
      if InForce(m, key, value) { RestedStep(m, e, key, value); }
      if Stuck(m, key, value) { StuckStep(m, e, key, value); }
    }
  }

  /** Asking for a value gets it into force, or sets a transition to work towards it, except when the last transition
      towards it has failed: then nothing happens at all. */
  lemma {:induction false} RequestServedUnlessStuck(c: Control, key: string, value: ToggleState)
    requires Inv(c)
    ensures var (c1, answer) := SetTo(c, key, value); var s := SlotOf(c1, key);
      && ((s.inFlight.None? && s.persisted == value)
          || (s.controller.Some? && Underway(c1, key, value, s.controller.value))
          <==> !Stuck(c, key, value))
      && (Stuck(c, key, value) ==> answer == Ignored && c1 == c)
      && (answer.Started? ==> Underway(c1, key, value, answer.transition))
  {
    if key in c.slots { assert SlotOk(c, key); }
  }
}
