/** The state machine engine: a fixed-capacity state table and a dense
    transition table, both updated in place. */
module Engine {
  import opened Tables

  /** The two tables a machine allocates, in the order it allocates them. */
  datatype Table = StateIds | Transitions

  /** A request made to the caller's allocator while a machine is built: the
      machine record itself, or a block of the given number of bytes for one
      of the tables.  Each request is made at most once, so an answer per
      request is an answer per call, in call order. */
  datatype Request = Record | Block(table: Table, bytes: nat)

  /** The size in bytes of one table entry (an unsigned int). */
  const ENTRY_BYTES: nat := 4

  class StateMachine {
    /** Capacity of the state table. */
    const states: nat
    /** Size of the action alphabet. */
    const actions: nat
    /** Slot index -> state id; EMPTY marks a free slot. */
    const stateId: array<Id>
    /** Cell `row * actions + action` -> destination slot index, or NONE. */
    const transitions: array<nat>

    /** Both tables are allocated, separately, with their fixed sizes. */
    ghost predicate Shaped()
      reads this
    {
      0 < states && 0 < actions && states * actions <= NONE &&
      stateId.Length == states && transitions.Length == states * actions &&
      stateId as object != transitions
    }

    /** The machine's invariant: the tables are shaped, every cell holds NONE
        or a slot index, and the occupied slots form a prefix. */
    ghost predicate Valid()
      reads this, stateId, transitions
    {
      Shaped() &&
      CellsInRange(transitions[..], states) &&
      Packed(stateId[..])
    }

    /** The state table as a value. */
    ghost function Ids(): seq<Id>
      reads this, stateId
    {
      stateId[..]
    }

    /** The transition table as a value. */
    ghost function Cells(): seq<nat>
      reads this, transitions
    {
      transitions[..]
    }

    /** Every slot empty and every cell without a transition. */
    ghost predicate IsCleared()
      reads this, stateId, transitions
    {
      (forall i :: 0 <= i < stateId.Length ==> stateId[i] == EMPTY) &&
      (forall c :: 0 <= c < transitions.Length ==> transitions[c] == NONE)
    }

    /** The successful path of construction: both tables allocated, then
        cleared. */
    constructor (states: nat, actions: nat)
      requires 0 < states && 0 < actions && states * actions <= NONE
      ensures Valid() && IsCleared()
      ensures this.states == states && this.actions == actions
      ensures fresh(stateId) && fresh(transitions)
    {
      this.states := states;
      this.actions := actions;
      stateId := new Id[states];
      transitions := new nat[states * actions];
      new;
      var _ := Clear();
    }

    /** Builds a machine, asking `grant` whether the allocator satisfies each
        request.  The byte count of each table is computed in `size_t`, which
        wraps at the width of the build.  A request whose count is 0 never
        reaches the allocator and fails, so a machine without states or
        without actions is never built. */
    static method New(states: nat, actions: nat, bits: Bitspace, grant: Request -> bool) returns (m: StateMachine?)
      requires states <= NONE && states * actions <= NONE
      ensures m != null <==>
        grant(Record) &&
        ByteCount(bits, ENTRY_BYTES * states) > 0 &&
        grant(Block(StateIds, ByteCount(bits, ENTRY_BYTES * states))) &&
        ByteCount(bits, ENTRY_BYTES * states * actions) > 0 &&
        grant(Block(Transitions, ByteCount(bits, ENTRY_BYTES * states * actions)))
      ensures m != null ==>
        fresh(m) && fresh(m.stateId) && fresh(m.transitions) &&
        m.Valid() && m.IsCleared() && m.states == states && m.actions == actions
    {
      if !grant(Record) { return null; }
      if !Granted(grant, StateIds, ByteCount(bits, ENTRY_BYTES * states)) { return null; }
      if !Granted(grant, Transitions, ByteCount(bits, ENTRY_BYTES * states * actions)) { return null; }
      m := new StateMachine(states, actions);
    }

    /** Empties every slot and removes every transition; the capacities do
        not change.  Always succeeds. */
    method Clear() returns (ok: bool)
      requires Shaped()
      modifies stateId, transitions
      ensures Valid() && IsCleared() && ok
    {
      for i := 0 to states
        invariant forall j :: 0 <= j < i ==> stateId[j] == EMPTY
      {
        stateId[i] := EMPTY;
      }
      for i := 0 to states * actions
        invariant forall j :: 0 <= j < states ==> stateId[j] == EMPTY
        invariant forall j :: 0 <= j < i ==> transitions[j] == NONE
      {
        transitions[i] := NONE;
      }
      ok := true;
    }

    /** Registers `id` in the lowest empty slot.  Fails, changing nothing,
        when `id` is EMPTY or no slot is free.  A duplicate id is accepted.
        The transition row of the filled slot is left as it was. */
    method AddState(id: Id) returns (ok: bool)
      requires Valid()
      modifies stateId
      ensures Valid()
      ensures ok == (id != EMPTY && EMPTY in old(Ids()))
      ensures Ids() == if ok then AddedState(old(Ids()), id) else old(Ids())
      ensures Cells() == old(Cells())
    {
      if id == EMPTY { return false; }
      var top := NONE;
      var i := 0;
      while i < states
        invariant 0 <= i <= states
        invariant forall j :: 0 <= j < i ==> stateId[j] != EMPTY
      {
        if stateId[i] == EMPTY { top := i; break; }
        i := i + 1;
      }
      if top >= states { return false; }
      FindIs(Ids(), EMPTY, top);
      AddedStateKeepsPacked(Ids(), id);
      stateId[top] := id;
      ok := true;
    }

    /** The lowest slot index holding `id`, or NONE when no slot does. */
    method StateIndex(id: Id) returns (index: nat)
      requires Valid()
      ensures index == Find(Ids(), id)
      ensures index == NONE || (index < states && stateId[index] == id)
    {
      var i := 0;
      while i < states
        invariant 0 <= i <= states
        invariant forall j :: 0 <= j < i ==> stateId[j] != id
      {
        if stateId[i] == id {
          FindIs(Ids(), id, i);
          return i;
        }
        i := i + 1;
      }
      return NONE;
    }

    /** Sets the destination of `action` from `from` to `to`, replacing any
        earlier one.  Fails, changing nothing, when either state is
        unregistered or the action is outside the alphabet. */
    method AddTransition(action: nat, from: Id, to: Id) returns (ok: bool)
      requires Valid()
      modifies transitions
      ensures Valid()
      ensures ok == (from in Ids() && to in Ids() && action < actions)
      ensures Cells() == if ok then SetTransition(Ids(), old(Cells()), actions, action, from, to) else old(Cells())
    {
      var a := StateIndex(from);
      var b := StateIndex(to);
      if a >= states { return false; }
      if b >= states { return false; }
      if action >= actions { return false; }
      CellInTable(a, action, states, actions);
      transitions[a * actions + action] := b;
      ok := true;
    }

    /** Sets the destination of `action` to `to` from every registered state
        whose id carries all bits of `mask`.  Fails, changing nothing, when
        `to` is unregistered or the action is outside the alphabet. */
    method AddTransitionFromAllStates(action: nat, to: Id, mask: Id) returns (ok: bool)
      requires Valid()
      modifies transitions
      ensures Valid()
      ensures ok == (to in Ids() && action < actions)
      ensures Cells() == if ok then Bulk(Ids(), old(Cells()), actions, action, Find(Ids(), to), mask, states) else old(Cells())
    {
      var dest := StateIndex(to);
      if RejectsDestination(dest, states) { return false; }
      if action >= actions { return false; }
      ghost var ids, cells := Ids(), Cells();
      var i := 0;
      while i < states
        invariant 0 <= i <= states
        invariant Valid() && Ids() == ids
        invariant Cells() == Bulk(ids, cells, actions, action, dest, mask, i)
      {
        BulkStep(ids, cells, actions, action, to, mask, i);
        var state := stateId[i];
        if Selects(mask, state) {
          var added := AddTransition(action, state, to);
          assert added;
        }
        i := i + 1;
      }
      ok := true;
    }

    /** The state reached by taking `action` from `state`, or NO_EFFECT for
        no effect. */
    method TakeAction(state: Id, action: nat) returns (next: Id)
      requires Valid()
      ensures next == Dispatch(Ids(), Cells(), actions, state, action)
      ensures next == NO_EFFECT || next in Ids()
    {
      if action >= actions { return NO_EFFECT; }
      var from := StateIndex(state);
      if from >= states { return NO_EFFECT; }
      DispatchFollows(Ids(), Cells(), actions, state, action);
      var to := transitions[from * actions + action];
      if to >= states { return NO_EFFECT; }
      return stateId[to];
    }
  }

  /** The width of `size_t` the program is built for. */
  datatype Bitspace = Bits32 | Bits64

  /** One more than the largest `size_t` value. */
  function SizeLimit(bits: Bitspace): nat {
    match bits
    case Bits32 => 0x1_0000_0000
    case Bits64 => 0x1_0000_0000_0000_0000
  }

  /** A byte count as `size_t` holds it: wrapped at the build's width, and
      unchanged when it fits. */
  function ByteCount(bits: Bitspace, n: nat): (r: nat)
    ensures r < SizeLimit(bits)
    ensures n < SizeLimit(bits) ==> r == n
  {
    n % SizeLimit(bits)
  }

  /** On a 64-bit build the byte counts of both tables are exact, so a
      machine is built exactly when both capacities are positive and the
      allocator grants the full sizes. */
  lemma FullSizeOn64(states: nat, actions: nat)
    requires states <= NONE && states * actions <= NONE
    ensures ByteCount(Bits64, ENTRY_BYTES * states) == ENTRY_BYTES * states
    ensures ByteCount(Bits64, ENTRY_BYTES * states * actions) == ENTRY_BYTES * states * actions
    ensures ByteCount(Bits64, ENTRY_BYTES * states * actions) > 0 <==> states > 0 && actions > 0
  {
    assert ENTRY_BYTES * states * actions == ENTRY_BYTES * (states * actions);
  }

  /** Whether allocating `bytes` bytes for `table` yields memory: a request of
      zero bytes fails without reaching the allocator. */
  function Granted(grant: Request -> bool, table: Table, bytes: nat): (ok: bool)
    ensures bytes == 0 ==> !ok
    ensures ok ==> grant(Block(table, bytes))
  {
    bytes != 0 && grant(Block(table, bytes))
  }
}
