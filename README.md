# A hierarchical timing wheel (later.go), modelled in Dafny

`later.go` implements a hierarchical timing wheel. The wheel is a chain of
levels (`timePanel`), finest first. Each level has `num` slots and a cursor
`idx`. Every tick processes the finest level (`timePanel.process`):

- Its cursor moves one slot on.
- On reaching `num` the cursor goes back to 0 and the level above is
  processed first.
- Then the slot under the cursor is drained:
  - On the finest level every callback in it runs, front first.
  - On a coarser level every `task` in it moves to the back of the slot of
    the level below that its last index names. It loses that index, and
    becomes a bare callback once no index is left.

Registering a callback due in `d` (`timeWheel.register`) first computes
one slot index per level with `calcAccurateNextTime`. The level is taken
from `v = d / interval` and each cursor, and the list stops after the first
level whose quotient is 0. The entry then goes to the back of the slot named
by the last index, on the last level listed.

The model has three modules:

- `Coordinates` (`coordinates.dfy`) holds what `calcAccurateNextTime`
  computes, as the function `Coords`. It also reads the wheel as a
  mixed-radix counter: `Eval` gives the value of per-level digits and
  `Product` the number of positions.
- `Cascade` (`cascade.dfy`) holds the data model:
  - `Entry` is either `Ready(cb)`, a bare callback, or `Pending(rest, cb)`,
    a `task`.
  - `Queue` is one slot's list.
  - `WheelState` holds the cursors, the slots of every level, and the
    callbacks run so far.

  It also holds the specification functions of one tick (`Processed`, built
  from `BeforeDrain` and `Drained`) and of one registration (`Registered`),
  with the lemmas about them.
- `Wheel` (`wheel.dfy`) holds the class `TimeWheel`. Its constructor is
  `NewTimeWheel`, with one array of cursors and one array of levels. Each
  level is a sequence of queues, and a level's `prev`/`next` are levels
  k - 1 and k + 1. The methods change those arrays in place:
  - `CalcAccurateNextTime` is the loop of `calcAccurateNextTime`.
  - `Register` is `register`.
  - `Process` is `process`, split into `Advance`, `DrainFinest` and
    `DrainCoarse`.

  Each method is proved against the specification function of its
  operation.

A callback is known only by an id (`Callback = nat`). Running it is recorded
by appending its id to the wheel's `fired` log. A nil slot list is the empty
queue.

## Model

| member | source | states |
|---|---|---|
| Coordinates.Coords | later.go:146-159 | there is one index per listed level, at least one and at most one per level, and each index lies within its level's slot count |
| Coordinates.CoordsAt | later.go:147-156 | index i is (cursor of level i + q_i) mod num[i], where q_0 = d / interval and q_{i+1} = q_i / num[i] |
| Coordinates.CoordsLength | later.go:149-156 | a level beyond the first is listed only if its quotient is non-zero; the list stops early only at a zero quotient |
| Coordinates.CoordsDigits | later.go:146-159 | with all cursors at 0 the indices are the mixed-radix digits of v mod the wheel's size, so delays past the coarsest level are silently truncated |
| Coordinates.CoordsDigitsFit | later.go:146-159 | with all cursors at 0, a delay below the wheel's size is placed at exactly its own digits |
| Coordinates.CarryCoords | later.go:150-153 | (corrected placement) carrying (idx + q_i) / num[i] into the next level still gives in-range indices, one per listed level |
| Coordinates.CarryTarget | later.go:150-153 | (corrected placement) the target cursors have one entry per level: the listed indices, then the unchanged coarser cursors |
| Coordinates.CarryCoordsTarget | later.go:150-153 | (corrected placement) the target read as a number is (current cursors + v) mod the wheel's size, i.e. exactly v ticks ahead |
| Coordinates.CarryCoordsAtZero | later.go:150-153 | with every cursor at 0 the corrected and the as-written placements agree |
| Coordinates.CoordsDropsCarry | later.go:150-153 | counterexample: with 60 and 60 slots, cursors (30, 0) and v = 90, the as-written indices are [0, 1] and not [0, 2], and they are not v ticks ahead |
| Cascade.SettleShape | later.go:75-80 | `Settle` builds the entry a demoted task (and, the same way, a new registration at later.go:136-143) leaves: it keeps its callback, is bare exactly when one index was left, and otherwise carries every index but the last, which named its slot |
| Cascade.Fire | later.go:56-62 | the drain of a finest-level slot runs at most one callback per element, front to back, skipping elements that are not bare callbacks |
| Cascade.FireFromSlot | later.go:56-62 | every callback the finest-level drain runs comes from the slot, with multiplicity, even on a badly shaped slot |
| Cascade.FireInOrder | later.go:56-62 | on a well-shaped finest level, draining a slot runs every entry's callback in insertion order and skips none |
| Cascade.DemoteOne | later.go:68-80 | one element taken off a coarse slot leaves the level below with its number of slots unchanged |
| Cascade.DemoteOneAt | later.go:68-80 | after one element is moved, slot j of the level below holds its old contents followed by the settled entry when the element is a task naming j, and nothing more otherwise |
| Cascade.Demote | later.go:66-82 | demoting a slot leaves the level below with its number of slots unchanged |
| Cascade.DemoteAppends | later.go:66-82 | after demotion each slot of the level below keeps its old contents followed by the tasks that name it, in their original order |
| Cascade.DemoteFits | later.go:66-82 | a well-shaped coarse slot always names an existing slot below and leaves the level below well shaped, so the type assertion never drops anything |
| Cascade.DemoteConserves | later.go:66-82 | demoting a slot of tasks moves all of its callbacks, with multiplicity, to the level below |
| Cascade.Processed | later.go:39-83 | one process on level k keeps the wheel invariant, leaves the cursors of lower levels and all levels below k - 1 untouched, and runs nothing when k > 0 |
| Cascade.BeforeDrain | later.go:40-46 | the cursor of level k becomes idx + 1, or 0 on reaching num; nothing below level k changes and nothing runs |
| Cascade.Drained | later.go:47-82 | the slot under the cursor is emptied and the cursors are unchanged; only level k and level k - 1 change, and nothing runs above level 0 |
| Cascade.ProcessedCursor | later.go:40-46 | level k's cursor becomes (idx + 1) mod num; the level above moves exactly when level k wraps, and no coarser cursor moves otherwise |
| Cascade.ProcessedCountsAbove | later.go:41-45 | the levels above k, read as one counter, stay put unless level k wraps, and then count one on |
| Cascade.ProcessedCounts | later.go:40-46 | the cursors form a mixed-radix counter: processing level k adds one, mod the size, to the counter made of levels k and above |
| Cascade.ProcessedVisits | later.go:39-83 | after a process every level it visited has an empty slot under its cursor, and every level above those is untouched |
| Cascade.ProcessedConserves | later.go:39-83 | a tick loses and duplicates no callback: the callbacks scheduled plus those run are the same multiset before and after |
| Cascade.DrainedConserves | later.go:47-82 | draining one slot moves its callbacks either to the run log (finest level) or to the level below, losing none |
| Cascade.Registered | later.go:129-144 | registration keeps the wheel invariant, so the entry has the shape its level expects |
| Cascade.RegisteredAddsOne | later.go:129-144 | registration adds exactly one callback, at the back of the slot named by the last index on the last listed level (a task with the other indices, or a bare callback on level 0); no cursor and no other slot changes |
| Wheel.TimeWheel.constructor | later.go:107-127 | a new wheel has one level per slot count, every cursor 0, every slot empty, nothing run, and satisfies the invariant |
| Wheel.TimeWheel.CalcAccurateNextTime | later.go:146-159 | the loop returns exactly Coords of the cursors and d / interval, with in-range indices and between 1 and \|num\| of them |
| Wheel.TimeWheel.Register | later.go:129-144 | the wheel's new state is Registered of its old state and d / interval, so the invariant is kept |
| Wheel.TimeWheel.Process | later.go:39-83 | the wheel's new state is Processed of its old state, so the invariant is kept |
| Wheel.TimeWheel.Advance | later.go:40-46 | the cursor update, including the recursive process of the level above, yields BeforeDrain of the old state |
| Wheel.TimeWheel.DrainFinest | later.go:56-62 | the loop empties the slot and appends its callbacks to the run log in order: the state becomes Drained on level 0 |
| Wheel.TimeWheel.DrainCoarse | later.go:66-82 | the loop empties slot i of level k and leaves level k - 1 as Demote of its old contents; no other level changes |

## Left out

- `Start` (later.go:162-180) is left out. Its goroutine, ticker and `select` are concurrency. A tick is modelled as `Process(0)` and an add as `Register`, taken in any order the caller chooses. `Start`'s early return on a wheel with no levels is why `Register` requires at least one level.
- `After` and `Stop` (later.go:93-95, 183-188) only send on channels. `After` corresponds to `Register`, and `Stop` to making no further calls.
- `Every` (later.go:192-198) re-registers from inside the callback. Callback bodies are not modelled, since callbacks are ids.
- The channel capacity `cap` and `_defaultCap` are left out: they only size a channel.
- `NewSecondTimeWheel` is a call of `NewTimeWheel` with fixed arguments (one second; 60, 60 and 24 slots) and is not modelled separately.
- `time.Duration` is left out beyond `d / interval`. Delays are natural numbers, and the interval must be positive, because the source divides by it.
- Wheel.TimeWheel.CalcAccurateNextTime: negative delays and Go `int` overflow are not modelled (`d: nat`, unbounded integers). In the source (later.go:147-153), a delay with -interval < d < 0 truncates to v = 0 and behaves like d = 0; a v with -idx <= v < 0 still gives a valid index behind the cursor, which fires after num[0] + v ticks; only larger negative v give a negative index, which panics in `register` (later.go:133) or during a later demotion (later.go:72). The addition `tp.idx + v` (later.go:150) can also overflow for v near the largest `int`, which unbounded integers do not capture.
- Wheel.TimeWheel.constructor: requires positive slot counts. With a count of 0 the source's first `process` on that level indexes out of range, and a negative count makes `make` fail.
- Pointers between panels and `container/list` are replaced by arrays indexed by level and by sequences. Aliasing between panels is therefore not modelled; the source has none. The lazy allocation of a nil list is the empty queue.
- The type assertions that skip an element of the wrong kind are modelled (`Fire` skips tasks, `DemoteOne` skips bare callbacks). `FireInOrder`, `DemoteFits` and `DemoteConserves` show that under the invariant no element is ever skipped.
- The test file of the repository is not part of this model.

## Findings

| source | as written | input that shows it | evidently intended | confidence | as-written member | corrected member |
|---|---|---|---|---|---|---|
| later.go:150-153 | `v /= tp.num` divides the remaining ticks only, dropping the carry out of `tp.idx + v` | two levels of 60 slots, cursors (30, 0), delay of 90 ticks: indices [0, 1], which mature after 30 ticks, instead of [0, 2] | the slot that is exactly v ticks ahead of the cursors, with the carry of each level's addition passed on (`v = acc / tp.num`) | not executed | Coordinates.CoordsDropsCarry | Coordinates.CarryCoordsTarget |

`Coordinates.Coords` is the placement as written. `Coordinates.CarryCoords`
is the corrected one, and `CarryCoordsTarget` proves it lands v ticks ahead.
The two agree whenever every cursor is 0 (`CarryCoordsAtZero`).
`TimeWheel.Register` and `Cascade.Registered` keep the as-written placement,
so that the wheel model describes `later.go` as it is.
