/** The two tables of a state machine, as values.

    The state table is a sequence of 32-bit ids, one per slot; id 0 marks an
    empty slot.  The transition table is a dense sequence of
    `|ids| * actions` cells: cell `row * actions + action` holds the slot index
    of the destination of `action` from the state in slot `row`, or NONE.
    Everything here is a specification that the methods of the engine are
    proved against. */
module Tables {

  /** UINT_MAX: the "invalid index" answered by a failed lookup, and the
      contents of a cell that holds no transition. */
  const NONE: nat := 0xFFFF_FFFF

  /** A state id, conventionally an OR of flag bits. */
  type Id = bv32

  /** The id stored in a slot that holds no state. */
  const EMPTY: Id := 0

  /** The answer of take_action when an action has no effect. */
  const NO_EFFECT: Id := 0

  /** `mask` selects `id` when `id` carries every bit of `mask`. */
  predicate Selects(mask: Id, id: Id) {
    mask & id == mask
  }

  /** The occupied slots of a state table form a prefix: no state is stored
      after an empty slot. */
  predicate Packed(ids: seq<Id>) {
    forall i, j :: 0 <= i < j < |ids| && ids[i] == EMPTY ==> ids[j] == EMPTY
  }

  /** Every cell of a transition table holds NONE or the index of one of
      `rows` slots. */
  predicate CellsInRange(cells: seq<nat>, rows: nat) {
    forall c :: 0 <= c < |cells| ==> cells[c] == NONE || cells[c] < rows
  }

  /** The slot lookup: the lowest slot index holding `id`, or NONE when no
      slot does.  Looking up EMPTY finds the first empty slot. */
  function Find(ids: seq<Id>, id: Id): (r: nat)
    requires |ids| <= NONE
    ensures r == NONE || r < |ids|
    ensures r < |ids| ==> ids[r] == id
    ensures forall j :: 0 <= j < |ids| && j < r ==> ids[j] != id
    ensures r == NONE <==> id !in ids
  {
    FindFrom(ids, id, 0)
  }

  /** The scan of the lookup from slot `i` on. */
  function FindFrom(ids: seq<Id>, id: Id, i: nat): (r: nat)
    requires |ids| <= NONE && i <= |ids|
    ensures r == NONE || i <= r < |ids|
    ensures r < |ids| ==> ids[r] == id
    ensures forall j :: i <= j < |ids| && j < r ==> ids[j] != id
    decreases |ids| - i
  {
    if i == |ids| then NONE
    else if ids[i] == id then i
    else FindFrom(ids, id, i + 1)
  }

  /** A slot holding `id` with no earlier copy is what Find answers. */
  lemma FindIs(ids: seq<Id>, id: Id, r: nat)
    requires |ids| <= NONE && r < |ids| && ids[r] == id
    requires forall j :: 0 <= j < r ==> ids[j] != id
    ensures Find(ids, id) == r
  {
  }

  /** The cell of (row, action) lies inside a table of `rows` rows. */
  lemma CellInTable(row: nat, action: nat, rows: nat, actions: nat)
    requires row < rows && action < actions
    ensures row * actions + action < rows * actions
  {
    calc {
      row * actions + action;
    <
      row * actions + actions;
    ==
      (row + 1) * actions;
    <=  { MulLeq(row + 1, rows, actions); }
      rows * actions;
    }
  }

  lemma MulLeq(a: nat, b: nat, c: nat)
    requires a <= b
    ensures a * c <= b * c
  {
  }

  /** Distinct (row, action) pairs have distinct cells. */
  lemma CellsDistinct(r1: nat, a1: nat, r2: nat, a2: nat, actions: nat)
    requires a1 < actions && a2 < actions
    requires r1 * actions + a1 == r2 * actions + a2
    ensures r1 == r2 && a1 == a2
  {
    if r1 < r2 {
      CellInTable(r1, a1, r2, actions);
      assert false;
    } else if r2 < r1 {
      CellInTable(r2, a2, r1, actions);
      assert false;
    }
  }

  /** Writing the cell of (r, a) changes the cell of (row, b) exactly when the
      pairs are equal. */
  lemma WriteAt(cells: seq<nat>, rows: nat, actions: nat, r: nat, a: nat, v: nat, row: nat, b: nat)
    requires |cells| == rows * actions && r < rows && a < actions && row < rows && b < actions
    ensures r * actions + a < |cells| && row * actions + b < |cells|
    ensures cells[r * actions + a := v][row * actions + b]
         == if r == row && a == b then v else cells[row * actions + b]
  {
    CellInTable(r, a, rows, actions);
    CellInTable(row, b, rows, actions);
    if r * actions + a == row * actions + b {
      CellsDistinct(r, a, row, b, actions);
    }
  }

  /** The id a cell leads to: the id in slot `to`, or no effect (0) when `to`
      is no slot. */
  function Follow(ids: seq<Id>, to: nat): (next: Id)
    ensures next == NO_EFFECT || next in ids
  {
    if to >= |ids| then NO_EFFECT else ids[to]
  }

  /** The take-action query.  No effect (0) for an action outside the
      alphabet, for an unregistered state and for a cell with no transition;
      otherwise the id stored in the destination slot. */
  function Dispatch(ids: seq<Id>, cells: seq<nat>, actions: nat, state: Id, action: nat): (next: Id)
    requires |ids| <= NONE && |cells| == |ids| * actions
    ensures next == NO_EFFECT || next in ids
    ensures action >= actions || state !in ids ==> next == NO_EFFECT
  {
    if action >= actions then NO_EFFECT
    else
      var from := Find(ids, state);
      if from >= |ids| then NO_EFFECT
      else
        CellInTable(from, action, |ids|, actions);
        Follow(ids, cells[from * actions + action])
  }

  /** A registered state on an action of the alphabet follows its cell. */
  lemma DispatchFollows(ids: seq<Id>, cells: seq<nat>, actions: nat, state: Id, action: nat)
    requires |ids| <= NONE && |cells| == |ids| * actions
    requires action < actions && state in ids
    ensures Find(ids, state) * actions + action < |cells|
    ensures Dispatch(ids, cells, actions, state, action) == Follow(ids, cells[Find(ids, state) * actions + action])
  {
    CellInTable(Find(ids, state), action, |ids|, actions);
  }

  /** A table whose every cell is NONE answers "no effect" to every query,
      whatever states are registered. */
  lemma NoTransitionsNoEffect(ids: seq<Id>, cells: seq<nat>, actions: nat, state: Id, action: nat)
    requires |ids| <= NONE && |cells| == |ids| * actions
    requires forall c :: 0 <= c < |cells| ==> cells[c] == NONE
    ensures Dispatch(ids, cells, actions, state, action) == NO_EFFECT
  {
    if action < actions && state in ids {
      DispatchFollows(ids, cells, actions, state, action);
    }
  }

  /** The transition table after the single write of add_transition. */
  function SetTransition(ids: seq<Id>, cells: seq<nat>, actions: nat, action: nat, from: Id, to: Id): (r: seq<nat>)
    requires |ids| <= NONE && |cells| == |ids| * actions
    requires action < actions && from in ids && to in ids
    ensures |r| == |cells|
  {
    CellInTable(Find(ids, from), action, |ids|, actions);
    cells[Find(ids, from) * actions + action := Find(ids, to)]
  }

  /** After add_transition(action, from, to), taking `action` from `from`
      yields `to`, and every other query answers as before. */
  lemma {:induction false} DispatchAfterSet(ids: seq<Id>, cells: seq<nat>, actions: nat, action: nat, from: Id, to: Id, state: Id, b: nat)
    requires |ids| <= NONE && |cells| == |ids| * actions
    requires action < actions && from in ids && to in ids
    ensures Dispatch(ids, SetTransition(ids, cells, actions, action, from, to), actions, state, b)
         == if state == from && b == action then to else Dispatch(ids, cells, actions, state, b)
  {
    var cells' := SetTransition(ids, cells, actions, action, from, to);
    if b < actions && state in ids {
      DispatchFollows(ids, cells, actions, state, b);
      DispatchFollows(ids, cells', actions, state, b);
      WriteAt(cells, |ids|, actions, Find(ids, from), action, Find(ids, to), Find(ids, state), b);
    }
  }

  /** Re-adding a transition for the same (from, action) overwrites: only the
      last destination is seen. */
  lemma LastWriteWins(ids: seq<Id>, cells: seq<nat>, actions: nat, action: nat, from: Id, to1: Id, to2: Id)
    requires |ids| <= NONE && |cells| == |ids| * actions
    requires action < actions && from in ids && to1 in ids && to2 in ids
    ensures var once := SetTransition(ids, cells, actions, action, from, to1);
            Dispatch(ids, SetTransition(ids, once, actions, action, from, to2), actions, from, action) == to2
  {
    var once := SetTransition(ids, cells, actions, action, from, to1);
    DispatchAfterSet(ids, once, actions, action, from, to2, from, action);
  }

  /** Whether slot `row` holds the first copy of its id: only such rows are
      ever reached by a lookup. */
  predicate FirstCopy(ids: seq<Id>, row: nat)
    requires |ids| <= NONE && row < |ids|
  {
    Find(ids, ids[row]) == row
  }

  /** The transition table after the first `n` iterations of the loop of
      add_transition_from_all_states: each slot whose id `mask` selects gets
      the cell of its id's row on `action` set to `dest`. */
  function Bulk(ids: seq<Id>, cells: seq<nat>, actions: nat, action: nat, dest: nat, mask: Id, n: nat): (r: seq<nat>)
    requires |ids| <= NONE && |cells| == |ids| * actions
    requires action < actions && n <= |ids|
    ensures |r| == |cells|
  {
    if n == 0 then cells
    else
      var prev := Bulk(ids, cells, actions, action, dest, mask, n - 1);
      if Selects(mask, ids[n - 1]) then
        var row := Find(ids, ids[n - 1]);
        CellInTable(row, action, |ids|, actions);
        prev[row * actions + action := dest]
      else prev
  }

  /** One iteration of the loop of add_transition_from_all_states: slot `n`
      either is skipped or gets the transition add_transition(action, ids[n],
      to) would write. */
  lemma BulkStep(ids: seq<Id>, cells: seq<nat>, actions: nat, action: nat, to: Id, mask: Id, n: nat)
    requires |ids| <= NONE && |cells| == |ids| * actions
    requires action < actions && n < |ids| && to in ids
    ensures Bulk(ids, cells, actions, action, Find(ids, to), mask, n + 1)
         == if Selects(mask, ids[n])
            then SetTransition(ids, Bulk(ids, cells, actions, action, Find(ids, to), mask, n), actions, action, ids[n], to)
            else Bulk(ids, cells, actions, action, Find(ids, to), mask, n)
  {
  }

  /** Whether the first `n` iterations of that loop redirect row `row`: some
      slot among the first `n` is selected by `mask` and resolves to `row`,
      that is, `row` itself is such a slot and holds the first copy of its
      id. */
  predicate Redirected(ids: seq<Id>, mask: Id, n: nat, row: nat)
    requires |ids| <= NONE && row < |ids|
  {
    row < n && Selects(mask, ids[row]) && FirstCopy(ids, row)
  }

  /** Iteration `n` redirects exactly the row its slot's id resolves to. */
  lemma RedirectedStep(ids: seq<Id>, mask: Id, n: nat, row: nat)
    requires |ids| <= NONE && row < |ids| && 0 < n <= |ids|
    ensures Redirected(ids, mask, n, row)
        <==> Redirected(ids, mask, n - 1, row) || (Selects(mask, ids[n - 1]) && Find(ids, ids[n - 1]) == row)
  {
    if Selects(mask, ids[n - 1]) && Find(ids, ids[n - 1]) == row {
      assert ids[row] == ids[n - 1];
    }
  }

  /** The cell of (row, b) after the first `n` iterations: `dest` exactly when
      b is the action and the iterations redirected the row; otherwise what it
      held before. */
  lemma {:induction false} BulkAt(ids: seq<Id>, cells: seq<nat>, actions: nat, action: nat, dest: nat, mask: Id, n: nat, row: nat, b: nat)
    requires |ids| <= NONE && |cells| == |ids| * actions
    requires action < actions && n <= |ids| && row < |ids| && b < actions
    ensures row * actions + b < |cells|
    ensures Bulk(ids, cells, actions, action, dest, mask, n)[row * actions + b]
         == if b == action && Redirected(ids, mask, n, row) then dest else cells[row * actions + b]
  {
    CellInTable(row, b, |ids|, actions);
    if n > 0 {
      BulkAt(ids, cells, actions, action, dest, mask, n - 1, row, b);
      RedirectedStep(ids, mask, n, row);
      var prev := Bulk(ids, cells, actions, action, dest, mask, n - 1);
      if Selects(mask, ids[n - 1]) {
        WriteAt(prev, |ids|, actions, Find(ids, ids[n - 1]), action, dest, row, b);
      }
    }
  }

  /** After add_transition_from_all_states(action, to, mask), taking `action`
      from any registered state that `mask` selects yields `to`, and every
      other query answers as before. */
  lemma BulkDispatch(ids: seq<Id>, cells: seq<nat>, actions: nat, action: nat, to: Id, mask: Id, state: Id, b: nat)
    requires |ids| <= NONE && |cells| == |ids| * actions
    requires action < actions && to in ids
    ensures Dispatch(ids, Bulk(ids, cells, actions, action, Find(ids, to), mask, |ids|), actions, state, b)
         == if b == action && state in ids && Selects(mask, state) then to
            else Dispatch(ids, cells, actions, state, b)
  {
    if b < actions && state in ids {
      var r := Find(ids, state);
      BulkAt(ids, cells, actions, action, Find(ids, to), mask, |ids|, r, b);
    }
  }

  /** The guard of add_transition_from_all_states as written: rejects the
      destination when its index exceeds the capacity. */
  predicate RejectsDestinationAsWritten(index: nat, states: nat) {
    index > states
  }

  /** With a capacity of UINT_MAX slots, the guard as written lets an
      unregistered destination through, although its lookup found no slot. */
  lemma AsWrittenAdmitsUnregistered(ids: seq<Id>, to: Id)
    requires |ids| == NONE && to !in ids
    ensures !RejectsDestinationAsWritten(Find(ids, to), |ids|)
    ensures Find(ids, to) >= |ids|
  {
  }

  /** The guard as the other guards of the engine write it. */
  predicate RejectsDestination(index: nat, states: nat) {
    index >= states
  }

  /** The corrected guard rejects exactly the unregistered destinations. */
  lemma RejectsDestinationExactly(ids: seq<Id>, to: Id)
    requires |ids| <= NONE
    ensures RejectsDestination(Find(ids, to), |ids|) <==> to !in ids
  {
  }

  /** Below UINT_MAX slots the two guards agree. */
  lemma GuardsAgreeBelowMax(ids: seq<Id>, to: Id)
    requires |ids| < NONE
    ensures RejectsDestinationAsWritten(Find(ids, to), |ids|) <==> RejectsDestination(Find(ids, to), |ids|)
  {
  }

  /** In a packed table the registered ids occupy exactly the slots below the
      first empty one (all slots when none is empty). */
  lemma PackedPrefix(ids: seq<Id>, j: nat)
    requires |ids| <= NONE && Packed(ids) && j < |ids|
    ensures ids[j] != EMPTY <==> j < Find(ids, EMPTY)
  {
    var k := Find(ids, EMPTY);
    if k < j {
      assert ids[k] == EMPTY;
    }
  }

  /** The state table after add_state(id) has succeeded. */
  function AddedState(ids: seq<Id>, id: Id): (r: seq<Id>)
    requires |ids| <= NONE && EMPTY in ids
    ensures |r| == |ids|
  {
    ids[Find(ids, EMPTY) := id]
  }

  /** add_state keeps the occupied slots a prefix. */
  lemma AddedStateKeepsPacked(ids: seq<Id>, id: Id)
    requires |ids| <= NONE && EMPTY in ids && id != EMPTY && Packed(ids)
    ensures Packed(AddedState(ids, id))
  {
    var k := Find(ids, EMPTY);
    var r := AddedState(ids, id);
    forall i, j | 0 <= i < j < |r| && r[i] == EMPTY
      ensures r[j] == EMPTY
    {
      assert i != k && ids[i] == EMPTY;
      assert k <= i;
    }
  }

  /** Lookups after add_state(id) on a packed table: `id` resolves to its
      earlier copy if it had one and to the slot just filled otherwise; other
      ids resolve as before; the next free slot is the following one. */
  lemma {:induction false} FindAfterAddedState(ids: seq<Id>, id: Id, x: Id)
    requires |ids| <= NONE && EMPTY in ids && id != EMPTY && Packed(ids)
    ensures Find(AddedState(ids, id), x)
         == if x == id then (if id in ids then Find(ids, id) else Find(ids, EMPTY))
            else if x == EMPTY then (if Find(ids, EMPTY) + 1 < |ids| then Find(ids, EMPTY) + 1 else NONE)
            else Find(ids, x)
  {
    var k := Find(ids, EMPTY);
    var r := AddedState(ids, id);
    if x == id {
      if id in ids {
        FindIs(r, id, Find(ids, id));
      } else {
        FindIs(r, id, k);
      }
    } else if x == EMPTY {
      if k + 1 < |ids| {
        FindIs(r, EMPTY, k + 1);
      } else {
        assert x !in r;
      }
    } else if x in ids {
      FindIs(r, x, Find(ids, x));
    } else {
      assert x !in r;
    }
  }
}
