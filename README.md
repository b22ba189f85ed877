# Intervention store

A model, in Dafny, of the `intervention` store of the admin front end: a Pinia
store holding a `counter` (initially 0) and a `name` (initially `"Lutz"`), with
two actions, `reset` (the counter becomes 0) and `addOne` (the counter goes up
by one), and one getter, `doubleCount`.

The getter is modelled as written: its body increments the counter and, being a
block without `return`, yields `undefined`. It does not compute twice the
counter. That is most likely not what its name intends, but the model follows
the code, so reading `doubleCount` behaves exactly like `addOne`.

Everything lives in module `Intervention` (`intervention.dfy`):

- `InterventionStore` is the store: a class with fields `counter: int` and
  `name: string`, a constructor for the initial state, and methods `Reset`,
  `AddOne` and `DoubleCount` that update `counter` in place. A ghost field
  `History` records the operations applied since creation, and the class
  invariant `Valid()` says that the counter is what that history produces from
  0, that it is never negative, and that the name is still `"Lutz"`.
- `Op`, `Step` and `Run` are the trace semantics the class is proved against:
  `Step` applies one operation to a counter value, `Run` a sequence of them. The
  lemmas about `Run` (composition, non-negativity, what a reset forgets,
  idempotence of reset, reachable values) therefore hold of every store.
- `CountFromFresh` and `ResetThenAddOne` are callers. They show that the
  methods' contracts alone are enough to predict what a user of the store
  observes.

## Model

| member | source | states |
|---|---|---|
| `Intervention.InterventionStore.constructor` | src/store/intervention.ts:4-7 | a fresh store has counter 0, name "Lutz" and an empty history, and satisfies the invariant |
| `Intervention.InterventionStore.Reset` | src/store/intervention.ts:14-16 | the counter becomes 0 whatever it was; name unchanged; invariant kept |
| `Intervention.InterventionStore.AddOne` | src/store/intervention.ts:17-19 | the counter becomes its old value plus exactly 1; name unchanged; invariant kept |
| `Intervention.InterventionStore.DoubleCount` | src/store/intervention.ts:9-11 | reading the getter increments the counter by exactly 1 and returns no value (not twice the counter); name unchanged; invariant kept |
| `Intervention.RunAppend` | src/store/intervention.ts:9-19 | applying two sequences of operations one after the other is the same as applying their concatenation |
| `Intervention.RunNonNegative` | src/store/intervention.ts:5-19 | from a non-negative counter, any sequence of reset / addOne / doubleCount leaves the counter non-negative |
| `Intervention.RunWithoutReset` | src/store/intervention.ts:9-11 | with no reset among them, n operations raise the counter by exactly n |
| `Intervention.RunAfterLastReset` | src/store/intervention.ts:14-19 | after the last reset the counter equals the number of operations that followed it, whatever happened before the reset |
| `Intervention.ResetIdempotent` | src/store/intervention.ts:14-16 | two resets in a row give the same counter as one, in any surrounding sequence of operations |
| `Intervention.RepeatFromFresh` | src/store/intervention.ts:5-11 | from counter 0, n calls to addOne, or n reads of doubleCount, leave the counter at n |
| `Intervention.ReachableIffNonNegative` | src/store/intervention.ts:4-19 | a counter value can be reached from the initial state if and only if it is non-negative |
| `Intervention.CountFromFresh` | src/store/intervention.ts:4-19 | a caller that creates a store and calls addOne (or reads doubleCount) n times observes counter n and name "Lutz" |
| `Intervention.ResetThenAddOne` | src/store/intervention.ts:14-19 | a reset followed by addOne leaves the counter at 1, from any valid state |

## Left out

- Registration of the store under the id `intervention` through Pinia's
  `defineStore`, and the one-store-per-application registry behind it: library
  plumbing, not the store's logic. The model's store is created explicitly with
  its constructor.
- `acceptHMRUpdate` (hot module replacement during development): imported but
  unused by the store, and a concern of the development server.
- Vue/Pinia reactivity, including the caching of getters as computed values:
  when and how often the framework evaluates `doubleCount` is outside the
  store. Each read of the getter is modelled as one explicit `DoubleCount`
  call.
- JavaScript number semantics: `counter` is an IEEE-754 double in the source
  and loses integer precision above 2^53. The model uses an unbounded `int`.
- The `name` field has no setter in the store; direct assignment to store state
  from outside (which Pinia permits) is not modelled.
- Any component or view that consumes the store.
