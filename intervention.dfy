/** A model of the `intervention` store: a container with a `counter`, a `name`,
    the `reset` and `addOne` actions and the `doubleCount` getter.

    The store is modelled twice and the two are tied together:
    - as a trace semantics: `Op` names the three transitions, `Step` applies one
      of them to a counter and `Run` applies a whole sequence of them;
    - as the object itself: `InterventionStore` holds the two fields, its methods
      update `counter` in place, and a ghost `History` records which transitions
      brought it to its current state, so that every lemma about `Run` speaks
      about the object as well.
 */
module Intervention {

  /** The label the store is created with. */
  const DefaultName: string := "Lutz"

  /** The three operations that assign `counter`. */
  datatype Op = Reset | AddOne | DoubleCount

  /** The value of `counter` after one operation.
      `DoubleCount` is the getter: as written it increments the counter
      (and yields nothing); it does not compute twice the counter. */
  function Step(counter: int, op: Op): int
  {
    match op
    case Reset => 0
    case AddOne => counter + 1
    case DoubleCount => counter + 1
  }

  /** The value of `counter` after the operations `ops`, in order, starting from `counter`. */
  function Run(counter: int, ops: seq<Op>): int
    decreases |ops|
  {
    if ops == [] then counter else Run(Step(counter, ops[0]), ops[1..])
  }

  /** True when no operation of `ops` is a reset. */
  predicate NoReset(ops: seq<Op>)
  {
    forall i :: 0 <= i < |ops| ==> ops[i] != Reset
  }

  /** `n` operations `op` in a row. */
  function Repeat(op: Op, n: nat): (r: seq<Op>)
    ensures |r| == n
    ensures forall i :: 0 <= i < n ==> r[i] == op
  {
    if n == 0 then [] else [op] + Repeat(op, n - 1)
  }

  /** Running two traces one after the other is running their concatenation. */
  lemma {:induction false} RunAppend(counter: int, a: seq<Op>, b: seq<Op>)
    ensures Run(counter, a + b) == Run(Run(counter, a), b)
    decreases |a|
  {
    if a == [] {
      assert a + b == b;
    } else {
      assert (a + b)[1..] == a[1..] + b;
      RunAppend(Step(counter, a[0]), a[1..], b);
    }
  }

  /** From a non-negative counter every trace ends non-negative: no operation
      ever makes the counter negative. */
  lemma {:induction false} RunNonNegative(counter: int, ops: seq<Op>)
    requires counter >= 0
    ensures Run(counter, ops) >= 0
    decreases |ops|
  {
    if ops != [] {
      RunNonNegative(Step(counter, ops[0]), ops[1..]);
    }
  }

  /** Without a reset, every operation adds exactly one: the counter ends at its
      start plus the number of operations. */
  lemma {:induction false} RunWithoutReset(counter: int, ops: seq<Op>)
    requires NoReset(ops)
    ensures Run(counter, ops) == counter + |ops|
    decreases |ops|
  {
    if ops != [] {
      assert ops[0] != Reset;
      assert NoReset(ops[1..]) by {
        forall i | 0 <= i < |ops| - 1 ensures ops[1..][i] != Reset {
          assert ops[1..][i] == ops[i + 1];
        }
      }
      RunWithoutReset(Step(counter, ops[0]), ops[1..]);
    }
  }

  /** A reset forgets everything before it: after the last reset the counter is
      the number of operations that followed it, whatever came before. */
  lemma RunAfterLastReset(counter: int, before: seq<Op>, after: seq<Op>)
    requires NoReset(after)
    ensures Run(counter, before + [Reset] + after) == |after|
  {
    RunAppend(counter, before + [Reset], after);
    RunAppend(counter, before, [Reset]);
    RunWithoutReset(0, after);
  }

  /** Two resets in a row leave the same state as one, wherever they occur. */
  lemma ResetIdempotent(counter: int, before: seq<Op>, after: seq<Op>)
    ensures Run(counter, before + [Reset, Reset] + after) == Run(counter, before + [Reset] + after)
  {
    assert before + [Reset, Reset] + after == (before + [Reset]) + [Reset] + after;
    RunAppend(counter, before + [Reset] + [Reset], after);
    RunAppend(counter, before + [Reset], [Reset]);
    RunAppend(counter, before + [Reset], after);
    RunAppend(counter, before, [Reset]);
  }

  /** From a fresh counter, `n` calls to `addOne`, or `n` reads of `doubleCount`,
      leave the counter at `n`. */
  lemma RepeatFromFresh(op: Op, n: nat)
    requires op != Reset
    ensures Run(0, Repeat(op, n)) == n
  {
    RunWithoutReset(0, Repeat(op, n));
  }

  /** A counter value is reachable when some trace from the initial counter 0 produces it. */
  ghost predicate Reachable(counter: int)
  {
    exists ops :: Run(0, ops) == counter
  }

  /** The reachable counter values are exactly the non-negative integers. */
  lemma ReachableIffNonNegative(counter: int)
    ensures Reachable(counter) <==> counter >= 0
  {
    if Reachable(counter) {
      var ops :| Run(0, ops) == counter;
      RunNonNegative(0, ops);
    }
    if counter >= 0 {
      RepeatFromFresh(AddOne, counter);
      assert Run(0, Repeat(AddOne, counter)) == counter;
    }
  }

  /** The store. Only `counter` is ever assigned; `name` keeps its initial value. */
  class InterventionStore {
    var counter: int
    var name: string
    /** The operations applied since creation, oldest first. */
    ghost var History: seq<Op>

    /** The class invariant: the counter is what the history produces from 0,
        it is never negative, and the name is the one the store was created with. */
    ghost predicate Valid()
      reads this
    {
      counter == Run(0, History) && counter >= 0 && name == DefaultName
    }

    /** The initial state: counter 0, name "Lutz". */
    constructor ()
      ensures Valid()
      ensures counter == 0 && name == DefaultName && History == []
    {
      counter := 0;
      name := DefaultName;
      History := [];
    }

    /** `reset`: the counter becomes 0, whatever it was. */
    method Reset()
      requires Valid()
      modifies this
      ensures Valid()
      ensures counter == 0 && name == old(name)
      ensures History == old(History) + [Op.Reset]
    {
      RunAppend(0, History, [Op.Reset]);
      counter := 0;
      History := History + [Op.Reset];
    }

    /** `addOne`: the counter goes up by exactly one. */
    method AddOne()
      requires Valid()
      modifies this
      ensures Valid()
      ensures counter == old(counter) + 1 && name == old(name)
      ensures History == old(History) + [Op.AddOne]
    {
      RunAppend(0, History, [Op.AddOne]);
      counter := counter + 1;
      History := History + [Op.AddOne];
    }

    /** The `doubleCount` getter, as written: reading it increments the counter
        and yields no value. It does not compute twice the counter; that was most
        likely the intent, but the model follows the code. */
    method DoubleCount()
      requires Valid()
      modifies this
      ensures Valid()
      ensures counter == old(counter) + 1 && name == old(name)
      ensures History == old(History) + [Op.DoubleCount]
    {
      RunAppend(0, History, [Op.DoubleCount]);
      counter := counter + 1;
      History := History + [Op.DoubleCount];
    }
  }

  /** A caller that creates a store and then calls `addOne` (or reads
      `doubleCount`, when `viaGetter` holds) `n` times; it observes the
      counter at `n` and the name unchanged. */
  method CountFromFresh(n: nat, viaGetter: bool) returns (counter: int, name: string)
    ensures counter == n && name == DefaultName
  {
    var store := new InterventionStore();
    var i := 0;
    while i < n
      invariant 0 <= i <= n
      invariant store.Valid()
      invariant store.counter == i
    {
      if viaGetter {
        store.DoubleCount();
      } else {
        store.AddOne();
      }
      i := i + 1;
    }
    counter, name := store.counter, store.name;
  }

  /** A caller that resets a store in any valid state and then calls `addOne`
      once; it observes the counter at 1. */
  method ResetThenAddOne(store: InterventionStore) returns (counter: int)
    requires store.Valid()
    modifies store
    ensures counter == 1 && store.Valid()
  {
    store.Reset();
    store.AddOne();
    counter := store.counter;
  }
}
