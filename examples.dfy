/** Machines built the way the example programs build them, and the engine's
    edge cases, each with the answers the engine gives. */
module Examples {
  import opened Tables
  import opened Engine

  /** The clock: two states 1 and 2, tick (action 0) from 1 to 2 and tock
      (action 1) from 2 to 1.  Tock from 1 has no effect. */
  method Clock() returns (tickFrom1: Id, tockFrom2: Id, tockFrom1: Id)
    ensures tickFrom1 == 2 && tockFrom2 == 1 && tockFrom1 == 0
  {
    var m := StateMachine.New(2, 2, Bits64, _ => true);
    assert m != null;
    assert m.Ids() == [0, 0];
    var ok := m.AddState(1);
    assert m.Ids() == [1, 0];
    ok := m.AddState(2);
    ghost var ids := m.Ids();
    assert ids == [1, 2];
    ghost var c0 := m.Cells();
    ok := m.AddTransition(0, 1, 2);
    ghost var c1 := m.Cells();
    ok := m.AddTransition(1, 2, 1);
    ghost var c2 := m.Cells();
    forall s: Id, a: nat
      ensures Dispatch(ids, c2, 2, s, a)
           == if s == 1 && a == 0 then 2 else if s == 2 && a == 1 then 1 else NO_EFFECT
    {
      NoTransitionsNoEffect(ids, c0, 2, s, a);
      DispatchAfterSet(ids, c0, 2, 0, 1, 2, s, a);
      DispatchAfterSet(ids, c1, 2, 1, 2, 1, s, a);
    }
    tickFrom1 := m.TakeAction(1, 0);
    tockFrom2 := m.TakeAction(2, 1);
    tockFrom1 := m.TakeAction(1, 1);
  }

  /** The lamp's transition table: both toggles written over an empty table,
      then break from every WORKING (4) state and fix from every BROKEN (8)
      state. */
  lemma LampTable(ids: seq<Id>, c0: seq<nat>, c1: seq<nat>, c2: seq<nat>, c3: seq<nat>, c4: seq<nat>)
    requires ids == [6, 5, 10] && |c0| == 12
    requires forall c :: 0 <= c < |c0| ==> c0[c] == NONE
    requires c1 == SetTransition(ids, c0, 4, 1, 6, 5)
    requires c2 == SetTransition(ids, c1, 4, 1, 5, 6)
    requires c3 == Bulk(ids, c2, 4, 2, Find(ids, 10), 4, 3)
    requires c4 == Bulk(ids, c3, 4, 3, Find(ids, 6), 8, 3)
    ensures forall s: Id, a: nat ::
              Dispatch(ids, c4, 4, s, a)
              == if a == 1 && s == 6 then 5
                 else if a == 1 && s == 5 then 6
                 else if a == 2 && (s == 6 || s == 5) then 10
                 else if a == 3 && s == 10 then 6
                 else NO_EFFECT
  {
    forall s: Id, a: nat
      ensures Dispatch(ids, c2, 4, s, a)
           == if a == 1 && s == 6 then 5 else if a == 1 && s == 5 then 6 else NO_EFFECT
    {
      NoTransitionsNoEffect(ids, c0, 4, s, a);
      DispatchAfterSet(ids, c0, 4, 1, 6, 5, s, a);
      DispatchAfterSet(ids, c1, 4, 1, 5, 6, s, a);
    }
    forall s: Id, a: nat
      ensures Dispatch(ids, c4, 4, s, a)
           == if a == 3 && s == 10 then 6
              else if a == 2 && (s == 6 || s == 5) then 10
              else Dispatch(ids, c2, 4, s, a)
    {
      BulkDispatch(ids, c2, 4, 2, 10, 4, s, a);
      BulkDispatch(ids, c3, 4, 3, 6, 8, s, a);
    }
  }

  /** The lamp's three states, registered in a new machine of three slots
      and four actions; every registration succeeds. */
  method LampStates() returns (m: StateMachine)
    ensures fresh(m.transitions)
    ensures m.Valid() && m.Ids() == [6, 5, 10] && m.actions == 4 && m.states == 3
    ensures forall c :: 0 <= c < |m.Cells()| ==> m.Cells()[c] == NONE
  {
    var built := StateMachine.New(3, 4, Bits64, _ => true);
    assert built != null;
    m := built;
    assert m.Ids() == [0, 0, 0];
    var ok := m.AddState(6);
    assert ok;
    assert m.Ids() == [6, 0, 0];
    FindIs(m.Ids(), EMPTY, 1);
    ok := m.AddState(5);
    assert ok;
    assert m.Ids() == [6, 5, 0];
    FindIs(m.Ids(), EMPTY, 2);
    ok := m.AddState(10);
    assert ok;
  }

  /** The lamp's setup, as its example program performs it; every call it
      asserts succeeds. */
  method BuildLamp() returns (m: StateMachine)
    ensures m.Valid() && m.Ids() == [6, 5, 10] && m.actions == 4
    ensures forall s: Id, a: nat ::
              Dispatch(m.Ids(), m.Cells(), 4, s, a)
              == if a == 1 && s == 6 then 5
                 else if a == 1 && s == 5 then 6
                 else if a == 2 && (s == 6 || s == 5) then 10
                 else if a == 3 && s == 10 then 6
                 else NO_EFFECT
  {
    m := LampStates();
    ghost var ids := m.Ids();
    ghost var c0 := m.Cells();
    var ok := m.AddTransition(1, 6, 5);
    assert ok;
    ghost var c1 := m.Cells();
    ok := m.AddTransition(1, 5, 6);
    assert ok;
    ghost var c2 := m.Cells();
    ok := m.AddTransitionFromAllStates(2, 10, 4);
    assert ok;
    ghost var c3 := m.Cells();
    ok := m.AddTransitionFromAllStates(3, 6, 8);
    assert ok;
    LampTable(ids, c0, c1, c2, c3, m.Cells());
  }

  /** The lamp driven from OFF|WORKING: toggle on, toggle off, break, fix;
      once broken, neither break nor toggle has an effect. */
  method Lamp() returns (toggleOn: Id, toggleOff: Id, breakIt: Id, fixIt: Id, breakBroken: Id, toggleBroken: Id)
    ensures toggleOn == 5 && toggleOff == 6 && breakIt == 10 && fixIt == 6
    ensures breakBroken == 0 && toggleBroken == 0
  {
    var m := BuildLamp();
    toggleOn := m.TakeAction(6, 1);
    toggleOff := m.TakeAction(toggleOn, 1);
    breakIt := m.TakeAction(toggleOff, 2);
    fixIt := m.TakeAction(breakIt, 3);
    breakBroken := m.TakeAction(breakIt, 2);
    toggleBroken := m.TakeAction(breakIt, 1);
  }

  /** A duplicate id is accepted and takes a slot of its own, the lookup
      resolves it to its first copy, and a full table refuses more. */
  method DuplicateIds() returns (first: bool, second: bool, third: bool, index: nat)
    ensures first && second && !third && index == 0
  {
    var m := StateMachine.New(2, 1, Bits64, _ => true);
    assert m != null;
    assert m.Ids() == [0, 0];
    first := m.AddState(5);
    assert m.Ids() == [5, 0];
    second := m.AddState(5);
    assert m.Ids() == [5, 5];
    third := m.AddState(7);
    index := m.StateIndex(5);
  }

  /** Id 0 resolves to the first empty slot, so a transition "from 0" lands
      in that slot's row; add_state does not reset the row, and the state
      registered there next inherits the transition. */
  method InheritedRow() returns (added: bool, next: Id)
    ensures added && next == 1
  {
    var m := StateMachine.New(2, 1, Bits64, _ => true);
    assert m != null;
    assert m.Ids() == [0, 0];
    var ok := m.AddState(1);
    assert m.Ids() == [1, 0];
    added := m.AddTransition(0, EMPTY, 1);
    ghost var c1 := m.Cells();
    assert c1[1] == 0;
    ok := m.AddState(2);
    assert m.Ids() == [1, 2];
    DispatchFollows(m.Ids(), m.Cells(), 1, 2, 0);
    next := m.TakeAction(2, 0);
  }

  /** A machine with no states or no actions is never built, nor one whose
      allocator refuses a request.  With one action both tables have the same
      size; an allocator that grants the state table and then runs out of
      memory still refuses the machine.  On a 32-bit build, 2^30 states of
      one action need 2^32 bytes, which wrap to a zero-byte request. */
  method Refused() returns (noStates: bool, noActions: bool, noMemory: bool, lateRefusal: bool, wrappedToZero: bool)
    ensures noStates && noActions && noMemory && lateRefusal && wrappedToZero
  {
    var m := StateMachine.New(0, 3, Bits64, _ => true);
    noStates := m == null;
    m := StateMachine.New(3, 0, Bits64, _ => true);
    noActions := m == null;
    m := StateMachine.New(3, 3, Bits64, r => r == Record);
    noMemory := m == null;
    m := StateMachine.New(3, 1, Bits64, (r: Request) => !(r.Block? && r.table == Transitions));
    lateRefusal := m == null;
    m := StateMachine.New(0x4000_0000, 1, Bits32, _ => true);
    wrappedToZero := m == null;
  }
}
