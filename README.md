# A finite-state-machine engine, modelled in Dafny

The engine stores a fixed number of states and a dense transition table. Each
state has a caller-chosen 32-bit id, conventionally an OR of flag bits. Id 0
marks an empty slot. The transition table has one cell per (state slot,
action) pair. A cell holds the slot index of the destination or the sentinel
UINT_MAX, meaning "no transition". Callers register states, then
transitions, then repeatedly ask which state an action leads to; the answer
0 means "no effect".

The model has three modules:

- `Tables` (tables.dfy) describes the two tables as values. It holds the slot
  lookup `Find` (the lowest slot holding an id, or `NONE` = UINT_MAX), the
  dispatch query `Dispatch`, the single write of add_transition
  (`SetTransition`) and the bulk write of add_transition_from_all_states
  (`Bulk`), with the lemmas that say what each query answers after each write.
- `Engine` (state_machine.dfy) holds the class `StateMachine`. Its fields are
  the two capacities and two arrays, `stateId: array<bv32>` and
  `transitions: array<nat>`, which the methods update in place as the C code
  does. `Valid()` is the machine's invariant: the arrays have their fixed
  sizes; every cell is `NONE` or a slot index; and the occupied slots form a
  prefix. Every method is proved against the functions of `Tables`.
- `Examples` (examples.dfy) builds the clock and lamp machines of the example
  programs and the engine's edge cases, and proves what the engine answers
  for each.

The model keeps the engine's quirks as the code has them:

- Duplicate ids are accepted.
- A lookup resolves an id to its first copy.
- Looking up id 0 finds the first empty slot, so a transition "from 0" or
  "to 0" can be written while such a slot exists.
- add_state does not reset the transition row of the slot it fills.

A zero capacity is refused. A zero-sized table request returns NULL before
the allocator is called (state-machine.c:31), so the checks at lines 60
and 63 fail and no machine is built (`Engine.StateMachine.New`,
`Examples.Refused`).

## Model

| member | source | states |
|---|---|---|
| `Tables.Find` | src/state-machine/state-machine.c:141-151 | The lookup answers the lowest slot whose id equals the argument, with no earlier copy, or UINT_MAX exactly when no slot holds it; a found index is below the capacity |
| `Tables.FindFrom` | src/state-machine/state-machine.c:145-148 | The scan from slot i answers the first matching slot at or after i, or UINT_MAX |
| `Tables.PackedPrefix` | src/state-machine/state-machine.c:124-131 | In a packed table a slot holds a state exactly when it lies below the first empty slot |
| `Tables.AddedState` | src/state-machine/state-machine.c:131 | A successful add_state writes only the first empty slot; the table keeps its size |
| `Tables.AddedStateKeepsPacked` | src/state-machine/state-machine.c:124-131 | add_state keeps the occupied slots a prefix |
| `Tables.FindAfterAddedState` | src/state-machine/state-machine.c:119-151 | After add_state(id), id resolves to its earlier copy if it had one and otherwise to the slot just filled; other ids resolve as before; the next free slot is the following one, or none |
| `Tables.Dispatch` | src/state-machine/state-machine.c:196-212 | take_action answers 0 for an action outside the alphabet or an unregistered state, and otherwise 0 or an id stored in some slot |
| `Tables.NoTransitionsNoEffect` | src/state-machine/state-machine.c:102-116 | After clear, whatever states are added later, every take_action answers 0 |
| `Tables.SetTransition` | src/state-machine/state-machine.c:165 | The single cell write of add_transition keeps the table's size |
| `Tables.DispatchAfterSet` | src/state-machine/state-machine.c:154-171 | After add_transition(action, from, to), take_action(from, action) answers to, and every other (state, action) query answers as before |
| `Tables.LastWriteWins` | src/state-machine/state-machine.h:45-49 | Repeating add_transition for the same (from, action) overwrites: only the last destination is seen |
| `Tables.Bulk` | src/state-machine/state-machine.c:181-187 | The loop's writes after n iterations keep the table's size |
| `Tables.BulkStep` | src/state-machine/state-machine.c:183-186 | Iteration n skips slot n when the mask does not select its id, and otherwise performs exactly the write of add_transition(action, id, to) |
| `Tables.RedirectedStep` | src/state-machine/state-machine.c:181-187 | Iteration n redirects exactly the row that the id in slot n resolves to, which is the first copy of that id |
| `Tables.BulkAt` | src/state-machine/state-machine.c:181-187 | After n iterations, cell (row, b) holds the destination exactly when b is the action and row is a selected first copy among the first n slots; every other cell is unchanged |
| `Tables.BulkDispatch` | src/state-machine/state-machine.c:174-193 | After add_transition_from_all_states(action, to, mask), take_action on that action from every registered state that the mask selects answers to, and every other query answers as before |
| `Tables.AsWrittenAdmitsUnregistered` | src/state-machine/state-machine.c:178 | With UINT_MAX slots, the guard as written lets an unregistered destination pass although its lookup found no slot |
| `Tables.RejectsDestinationExactly` | src/state-machine/state-machine.c:178 | The corrected guard rejects a destination exactly when it is unregistered |
| `Tables.GuardsAgreeBelowMax` | src/state-machine/state-machine.c:178 | Below UINT_MAX slots the guard as written and the corrected guard agree |
| `Engine.StateMachine.New` | src/state-machine/state-machine.c:29-75 | Construction succeeds exactly when the allocator grants the record, and both tables' byte counts, wrapped at the build's `size_t` width, are non-zero and granted; a new machine is valid, has the requested capacities and is cleared |
| `Engine.ByteCount` | src/state-machine/state-machine.c:59-62 | A byte count held in `size_t` is below the build's limit and is exact whenever it fits |
| `Engine.FullSizeOn64` | src/state-machine/state-machine.c:59-62 | On a 64-bit build both byte counts are exact, and the transition table's count is non-zero exactly when both capacities are |
| `Engine.Granted` | src/state-machine/state-machine.c:29-33 | A zero-byte request fails without reaching the allocator; a granted request is one the allocator satisfied for that table |
| `Engine.StateMachine.Clear` | src/state-machine/state-machine.c:102-116 | clear empties every slot, sets every cell to UINT_MAX, keeps the capacities and returns 1 |
| `Engine.StateMachine.AddState` | src/state-machine/state-machine.c:119-138 | add_state fails and changes nothing for id 0 or a full table; otherwise it writes the id into the lowest empty slot and changes no other slot and no cell; the invariant is kept |
| `Engine.StateMachine.StateIndex` | src/state-machine/state-machine.c:141-151 | The scan answers what `Find` answers: the first slot holding the id, or UINT_MAX |
| `Engine.StateMachine.AddTransition` | src/state-machine/state-machine.c:154-171 | add_transition fails and changes nothing for an unregistered from or to or an action outside the alphabet; otherwise it writes exactly the cell (index(from), action) with index(to); the invariant is kept |
| `Engine.StateMachine.AddTransitionFromAllStates` | src/state-machine/state-machine.c:174-193 | Fails and changes nothing for an unregistered destination or an action outside the alphabet; otherwise the table becomes `Bulk` of the old one and the asserted inner add_transition never fails |
| `Engine.StateMachine.TakeAction` | src/state-machine/state-machine.c:196-212 | take_action answers what `Dispatch` answers, which is 0 or an id stored in some slot |
| `Examples.Clock` | src/example/5-example.c:24-31 | In the clock, tick from 1 gives 2, tock from 2 gives 1, and tock from 1 has no effect |
| `Examples.LampTable` | src/example/1-example.c:37-49 | The lamp's transition table answers toggle between 6 and 5, break from 6 and 5 to 10, fix from 10 to 6, and no effect for everything else |
| `Examples.LampStates` | src/example/1-example.c:30-35 | The lamp's three states occupy slots 0, 1 and 2 in registration order, and no transition exists yet |
| `Examples.BuildLamp` | src/example/1-example.c:30-49 | The lamp's setup yields the table `LampTable` describes |
| `Examples.Lamp` | src/example/1-example.c:51-76 | Driven from state 6 (off and working), the lamp goes 5, 6, 10, 6, and from the broken state break and toggle have no effect |
| `Examples.DuplicateIds` | src/state-machine/state-machine.c:119-151 | A duplicate id is accepted into a slot of its own, the lookup resolves it to the first copy, and a full table refuses another state |
| `Examples.InheritedRow` | src/state-machine/state-machine.c:124-165 | A transition from id 0 lands in the first empty slot's row, and the state registered there next inherits it |
| `Examples.Refused` | src/state-machine/state-machine.c:29-63 | No machine is built with 0 states, with 0 actions, when the allocator refuses a table, when it grants the state table and then refuses the equally sized transition table, or, on a 32-bit build, with 2^30 states whose byte count wraps to 0 |

## Findings

| source | as written | input that shows it | evidently intended | confidence | as-written member | corrected member |
|---|---|---|---|---|---|---|
| src/state-machine/state-machine.c:178 | `P(state_index)(m, to) > m->states` rejects the destination only when its index exceeds the capacity | a machine with 0xFFFFFFFF slots and one action, and a `to` that is not registered: the lookup answers UINT_MAX, which equals the capacity, so the guard passes and the asserted add_transition at line 186 fails at the first slot the mask selects | `>=`, as in the guards at lines 161, 162 and 203 | low impact, needs a capacity of UINT_MAX; not executed | `Tables.AsWrittenAdmitsUnregistered` | `Tables.RejectsDestinationExactly` |

`Engine.StateMachine.AddTransitionFromAllStates` uses the corrected guard
`RejectsDestination`. Below UINT_MAX slots the two guards agree
(`Tables.GuardsAgreeBelowMax`).

## Left out

- Engine.StateMachine.New: requires `states * actions` to be at most UINT_MAX. Above that, on a 64-bit build, the byte counts at lines 62 and 93 (allocation and free) still hold the full size, because they are computed in a 64-bit `size_t`. But the 32-bit products wrap: clear's loop bound (line 109) and the cell index in add_transition (line 165) and take_action (line 205). That wrap-around is not modelled.
- Engine.StateMachine.New: on a 32-bit build (src/base.h:98-110) the byte counts at lines 59 and 62 wrap once `states` or `states * actions` reaches 2^30. A count that wraps to 0 is modelled: the request fails and no machine is built. A count that wraps to a small non-zero value gives the C a block shorter than the table, which clear then overruns; the model builds full-size tables there.
- Engine.StateMachine.New: the allocator is a parameter `grant` that answers, per request, whether memory was obtained. Each request names its table, and each is made at most once, so this is one answer per call in call order. The null-manager check (line 46), the copy of the manager (line 51) and the unwinding frees on failure (lines 69-74) are not modelled: a Dafny function value cannot be null, and Dafny has no explicit deallocation. `state_machine_new` is `New` with the platform allocator's answers.
- `state_machine_free` (lines 89-99) only hands memory back to the allocator; there is nothing to model.
- `state_machine_print` (lines 215-233) is output only; its declared signature in state-machine.h:68 does not match its definition either.
- `state_machine_add_transition_from_all_states_replacing` and the public `state_machine_state_index` are not defined in state-machine.c. The header declares `state_machine_state_index` at state-machine.h:66. button.c:116 calls the replacing operation, which state-machine.h does not declare. `StateIndex` models the private lookup at lines 141-151.
- The GUI button model (src/state-machine/models/gui/button.c), gui.c, gui.h and gui-elements/common.h are configuration tables and constants. The button mostly uses the undefined replacing operation.
- The engine is modelled with assertions enabled. Under NDEBUG the call inside `assert(...)` at line 186 would not run, so the bulk write would write nothing.
- base.c, base.h, the test host and the interactive loops of the example programs are diagnostics, process handling and console I/O. Failures are modelled only as return values.
- Action numbers are unbounded naturals rather than 32-bit unsigned values. They are only compared with `actions`, so every value at least `actions` is rejected either way.
- The alarm clock (4-example.c) and GUI button (2-example.c, 3-example.c) programs are not turned into scenarios.
