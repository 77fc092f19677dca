/** The toggle control itself: slot objects and abort controllers shared between the control and the transitions still at
    work. Each method is shown to be a step of ToggleMachine. */
module ToggleControls {
  import opened Options
  import M = ToggleMachine

  class AbortController {
    var aborted: bool
    ghost const id: nat

    constructor (ghost id: nat)
      ensures !aborted && this.id == id
    {
      aborted := false;
      this.id := id;
    }

    method Abort()
      modifies this
      ensures aborted
    {
      aborted := true;
    }
  }

  class ToggleSlot {
    var persisted: M.ToggleState
    var inFlight: Option<M.ToggleState>
    var controller: Option<AbortController>
    var generation: nat
    ghost const key: string

    constructor (persisted: M.ToggleState, ghost key: string)
      ensures Value() == M.Slot(persisted, None, None, 0) && this.key == key
    {
      this.persisted, inFlight, controller, generation := persisted, None, None, 0;
      this.key := key;
    }

    ghost function Value(): M.Slot
      reads this
    {
      M.Slot(persisted, inFlight, if controller.Some? then Some(controller.value.id) else None, generation)
    }

    method Occupy(value: M.ToggleState, controller: AbortController)
      modifies this
      ensures Value() == M.Slot(old(persisted), Some(value), Some(controller.id), old(generation) + 1)
      ensures this.controller == Some(controller)
    {
      generation := generation + 1;
      this.controller := Some(controller);
      inFlight := Some(value);
    }

    /** Brings a value into force. */
    method Land(value: M.ToggleState)
      modifies this
      ensures Value() == M.Slot(value, None, None, old(generation)) && controller.None?
    {
      persisted := value;
      inFlight := None;
      controller := None;
    }

    method Empty()
      modifies this
      ensures Value() == M.Slot(old(persisted), None, None, old(generation) + 1) && controller.None?
    {
      controller := None;
      inFlight := None;
      generation := generation + 1;
    }
  }

  /** The rest of a call of `Set`, waiting for its work to settle. */
  datatype Transition = Transition(
    slot: ToggleSlot, controller: AbortController, key: string, value: M.ToggleState, generation: nat)

  class ToggleControl {
    var slots: map<string, ToggleSlot>
    var workspaceState: M.Storage
    var transitionsStarted: nat  // names the work of each transition
    ghost var started: seq<Transition>
    ghost var controllers: seq<AbortController>
    ghost var ledger: seq<M.Transition>  // the transitions and the slots as plain values
    ghost var table: map<string, M.Slot>

    ghost predicate Linked()
      reads this`slots, this`started, this`transitionsStarted, this`controllers, this`ledger, this`table,
        slots.Values, controllers
    {
      TransitionsLinked() && ControllersLinked() && SlotsLinked()
    }

    ghost predicate TransitionsLinked()
      reads this`started, this`transitionsStarted, this`controllers, this`ledger, this`slots
    {
      && transitionsStarted == |started| == |ledger| == |controllers|
      && forall i {:trigger started[i]} :: 0 <= i < |started| ==>
           var t := started[i];
           && t.controller == controllers[i] && t.key in slots && slots[t.key] == t.slot
           && ledger[i].key == t.key && ledger[i].value == t.value && ledger[i].generation == t.generation
    }

    ghost predicate ControllersLinked()
      reads this`controllers, this`ledger, controllers
    {
      && |ledger| == |controllers|
      && forall i {:trigger controllers[i]} :: 0 <= i < |controllers| ==>
           controllers[i].id == i && controllers[i].aborted == ledger[i].aborted
    }

    ghost predicate SlotsLinked()
      reads this`slots, this`table, this`controllers, slots.Values
    {
      && (forall k :: k in slots <==> k in table)
      && (forall k :: k in slots ==> slots[k].key == k && slots[k].Value() == table[k] && ControllerKnown(slots[k]))
    }

    ghost predicate ControllerKnown(s: ToggleSlot)
      reads this`controllers, s`controller
    {
      s.controller.Some? ==>
        s.controller.value.id < |controllers| && controllers[s.controller.value.id] == s.controller.value
    }

    ghost function Value(): M.Control
      reads this`workspaceState, this`ledger, this`table
    {
      M.Control(table, workspaceState, ledger)
    }

    ghost predicate Valid()
      reads this, slots.Values, controllers
    {
      Linked() && M.Inv(Value())
    }

    /** Slots for the toggle values found in storage. */
    constructor (workspaceState: M.Storage)
      ensures Valid() && Value() == M.Fresh(workspaceState)
    {
      this.workspaceState, slots, transitionsStarted := workspaceState, map[], 0;
      started, ledger, table, controllers := [], [], map[], [];
      new;
      Hydrate();
      M.FreshInv(workspaceState);
      assert table == M.Fresh(workspaceState).slots;
    }

    method Hydrate()
      requires Linked() && slots == map[] && started == []
      modifies this`slots, this`table
      ensures Linked()
      ensures forall k :: k in table <==> k in workspaceState && workspaceState[k].Some?
      ensures forall k :: k in table ==> table[k] == M.Slot(workspaceState[k].value, None, None, 0)
    {
      var rest := workspaceState.Keys;
      while rest != {}
        invariant rest <= workspaceState.Keys && Linked()
        invariant forall k :: k in table <==> k in workspaceState && k !in rest && workspaceState[k].Some?
        invariant forall k :: k in table ==> table[k] == M.Slot(workspaceState[k].value, None, None, 0)
        decreases |rest|
      {
        var key :| key in rest;
        rest := rest - {key};
        if workspaceState[key].Some? {
          var slot := Add(key, workspaceState[key].value);
        }
      }
    }

    method ReadPersisted(key: string) returns (value: M.ToggleState)
      ensures value == M.ReadPersisted(workspaceState, key)
    {
      if key in workspaceState && workspaceState[key].Some? {
        return workspaceState[key].value;
      }
      return M.Off;
    }

    method Slot(key: string) returns (slot: ToggleSlot)
      requires Linked()
      modifies this`slots, this`table
      ensures Linked() && key in slots && slots[key] == slot
      ensures if key in old(slots) then slots == old(slots) else slots == old(slots)[key := slot] && fresh(slot)
      ensures slot.Value() == M.SlotOf(old(Value()), key) && table == old(table)[key := slot.Value()]
    {
      if key in slots {
        return slots[key];
      }
      var persisted := ReadPersisted(key);
      slot := Add(key, persisted);
    }

    method Add(key: string, value: M.ToggleState) returns (slot: ToggleSlot)
      requires Linked() && key !in slots
      modifies this`slots, this`table
      ensures Linked() && slots == old(slots)[key := slot] && fresh(slot)
      ensures table == old(table)[key := M.Slot(value, None, None, 0)] && slot.Value() == table[key]
    {
      slot := new ToggleSlot(value, key);
      slots, table := slots[key := slot], table[key := slot.Value()];
    }

    /** The value displayed: the one in flight, or else the one in force. */
    method Displayed(key: string) returns (value: M.ToggleState)
      requires Valid()
      modifies this`slots, this`table
      ensures Valid() && Value() == M.Step(old(Value()), M.Look(key)).0 && value == M.Displayed(old(Value()), key)
    {
      hide M.Inv, Linked;
      M.StepKeepsInv(Value(), M.Look(key));
      var slot := Slot(key);
      return if slot.inFlight.Some? then slot.inFlight.value else slot.persisted;
    }

    method Persisted(key: string) returns (value: M.ToggleState)
      requires Valid()
      modifies this`slots, this`table
      ensures Valid() && Value() == M.Step(old(Value()), M.Look(key)).0 && value == M.SlotOf(old(Value()), key).persisted
    {
      hide M.Inv, Linked;
      M.StepKeepsInv(Value(), M.Look(key));
      var slot := Slot(key);
      return slot.persisted;
    }

    method AbortCurrent(slot: ToggleSlot)
      requires Linked() && slot in slots.Values
      modifies this`ledger, controllers
      ensures Linked() && ledger == M.Abort(old(ledger), slot.Value().controller)
    {
      if slot.controller.Some? {
        ghost var i := slot.controller.value.id;
        slot.controller.value.Abort();
        ledger := ledger[i := ledger[i].(aborted := true)];
      }
    }

    /** Asks for a value, up to where the work of the transition is awaited. */
    method Set(key: string, value: M.ToggleState) returns (answer: M.Answer, transition: Option<Transition>)
      requires Valid()
      modifies this`slots, this`started, this`transitionsStarted, this`ledger, this`table, this`controllers,
        slots.Values, controllers
      ensures Valid() && (Value(), answer) == M.SetTo(old(Value()), key, value)
      ensures transition.Some? <==> answer.Started?
      ensures answer.Started? ==> answer.transition == |old(started)| && started == old(started) + [transition.value]
    {
      hide M.Inv, M.Abort, Linked;
      Counted();
      M.SetKeepsInv(Value(), key, value);
      var slot := Slot(key);
      transition := None;
      if slot.inFlight.None? && slot.persisted == value {
        answer := M.Reported(value);
        return;
      }
      if slot.inFlight == Some(value) {
        answer := M.Ignored;
        return;
      }
      AbortCurrent(slot);
      Counted();
      M.Overwrite(old(table), key, slot.Value(),
                  M.Slot(slot.persisted, Some(value), Some(transitionsStarted), slot.generation + 1));
      var t := Begin(key, slot, value);
      Counted();
      answer, transition := M.Started(transitionsStarted - 1), Some(t);
    }

    /** Puts a new transition into the slot. */
    method Begin(key: string, slot: ToggleSlot, value: M.ToggleState) returns (t: Transition)
      requires Linked() && key in slots && slots[key] == slot
      modifies slot, this`started, this`transitionsStarted, this`ledger, this`table, this`controllers
      ensures Linked() && started == old(started) + [t]
      ensures var s := old(slot.Value());
        && table == old(table)[key := M.Slot(s.persisted, Some(value), Some(|old(started)|), s.generation + 1)]
        && ledger == old(ledger) + [M.Transition(key, value, s.generation + 1, false, true, false)]
    {
      hide Linked;
      Counted();
      var controller := new AbortController(transitionsStarted);
      t := Transition(slot, controller, key, value, slot.generation + 1);
      Register(t);
      Occupy(key, slot, value, controller);
    }

    method Occupy(key: string, slot: ToggleSlot, value: M.ToggleState, controller: AbortController)
      requires Linked() && key in slots && slots[key] == slot
      requires controllers != [] && controllers[|controllers| - 1] == controller
      modifies slot, this`table
      ensures Linked()
      ensures var s := old(slot.Value());
        table == old(table)[key := M.Slot(s.persisted, Some(value), Some(controller.id), s.generation + 1)]
    {
      slot.Occupy(value, controller);
      Note(key, slot);
    }

    method Register(t: Transition)
      requires Linked() && t.key in slots && slots[t.key] == t.slot
      requires t.controller.id == transitionsStarted && !t.controller.aborted
      modifies this`started, this`transitionsStarted, this`ledger, this`controllers
      ensures Linked() && started == old(started) + [t]
      ensures ledger == old(ledger) + [M.Transition(t.key, t.value, t.generation, false, true, false)]
      ensures controllers == old(controllers) + [t.controller]
    {
      ledger := ledger + [M.Transition(t.key, t.value, t.generation, false, true, false)];
      controllers := controllers + [t.controller];
      transitionsStarted := transitionsStarted + 1;
      started := started + [t];
    }

    /** Notes a change of one slot. */
    ghost method Note(key: string, slot: ToggleSlot)
      requires TransitionsLinked() && ControllersLinked() && key in slots && slots[key] == slot
      requires forall k :: k in slots <==> k in table
      requires forall k :: k in slots ==>
        slots[k].key == k && ControllerKnown(slots[k]) && (k != key ==> slots[k].Value() == table[k])
      modifies this`table
      ensures Linked() && table == old(table)[key := slot.Value()]
    {
      table := table[key := slot.Value()];
    }

    method Land(key: string, slot: ToggleSlot, value: M.ToggleState)
      requires Linked() && key in slots && slots[key] == slot
      modifies slot, this`table
      ensures Linked() && table == old(table)[key := M.Slot(value, None, None, old(slot.generation))]
    {
      slot.Land(value);
      Note(key, slot);
    }

    method Empty(key: string, slot: ToggleSlot)
      requires Linked() && key in slots && slots[key] == slot
      modifies slot, this`table
      ensures Linked() && slot.persisted == old(slot.persisted)
      ensures table == old(table)[key := M.Slot(slot.persisted, None, None, old(slot.generation) + 1)]
    {
      slot.Empty();
      Note(key, slot);
    }

    method WritePersisted(key: string, value: M.ToggleState)
      modifies this`workspaceState
      ensures workspaceState == old(workspaceState)[key := Some(value)]
    {
      workspaceState := workspaceState[key := Some(value)];
    }

    ghost method CloseEntry(i: nat, writing: bool)
      requires Linked() && i < |ledger|
      modifies this`ledger
      ensures Linked() && ledger == old(ledger)[i := old(ledger)[i].(open := false, writing := writing)]
    {
      ledger := ledger[i := ledger[i].(open := false, writing := writing)];
    }

    lemma {:induction false} Counted()
      requires Linked()
      ensures transitionsStarted == |started| == |ledger|
    {
    }

    lemma {:induction false} TransitionFacts(i: nat)
      requires Linked() && i < |started|
      ensures var t := started[i];
        && |started| == |ledger| && ledger[i].key == t.key && ledger[i].value == t.value
        && ledger[i].generation == t.generation && ledger[i].aborted == t.controller.aborted
        && t.key in slots && slots[t.key] == t.slot && t.key in table && table[t.key] == t.slot.Value()
    {
    }

    /** What is left of `Set` once the work of the transition has ended, up to where the write is awaited. */
    method Settle(ghost i: nat, t: Transition, ending: M.Ending) returns (answer: M.Answer)
      requires Valid() && i < |started| && started[i] == t && ledger[i].open
      modifies this`workspaceState, this`ledger, this`table, t.slot
      ensures Valid() && i < |old(ledger)| && (Value(), answer) == M.SettleWith(old(Value()), i, ending)
    {
      hide M.Inv, Linked;
      TransitionFacts(i);
      M.SettleKeepsInv(Value(), i, ending);
      var slot := t.slot;
      if ending == M.Fails {
        CloseEntry(i, ledger[i].writing);
        if slot.generation != t.generation || t.controller.aborted {
          return M.Superseded;
        }
        return M.Thrown;
      }
      if slot.generation != t.generation {
        CloseEntry(i, ledger[i].writing);
        return M.Superseded;
      }
      CloseEntry(i, true);
      Land(t.key, slot, t.value);
      if ending == M.Succeeds {
        WritePersisted(t.key, t.value);
      }
      return M.Landed;
    }

    /** The end of the call, once the write is over. */
    method EndWrite(ghost i: nat, t: Transition, ok: bool) returns (answer: M.Answer)
      requires Valid() && i < |started| && started[i] == t && ledger[i].writing
      modifies this`ledger
      ensures Valid() && i < |old(ledger)| && (Value(), answer) == M.EndWrite(old(Value()), i, ok)
    {
      hide M.Inv, Linked;
      TransitionFacts(i);
      M.EndWriteKeepsInv(Value(), i, ok);
      StopWriting(i);
      if ok {
        return M.Finished;
      }
      if t.slot.generation != t.generation || t.controller.aborted {
        return M.Superseded;
      }
      return M.Thrown;
    }

    ghost method StopWriting(i: nat)
      requires Linked() && i < |ledger|
      modifies this`ledger
      ensures Linked() && ledger == old(ledger)[i := old(ledger)[i].(writing := false)]
    {
      ledger := ledger[i := ledger[i].(writing := false)];
    }

    method Reopen(key: string) returns (answer: M.Answer)
      requires Valid()
      modifies this`slots, this`ledger, this`table, slots.Values, controllers
      ensures Valid() && (Value(), answer) == M.ReopenAt(old(Value()), key)
    {
      hide M.Inv, M.Abort, Linked;
      M.ReopenKeepsInv(Value(), key);
      var slot := Slot(key);
      AbortCurrent(slot);
      M.Overwrite(old(table), key, slot.Value(), M.Slot(slot.persisted, None, None, slot.generation + 1));
      Empty(key, slot);
      return M.Reported(slot.persisted);
    }
  }
}
