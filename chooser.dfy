/**
 * The deterministic chooser (SeededRandom). The std::mt19937 engine and
 * std::uniform_int_distribution are abstracted into an Oracle: given the seed,
 * the sizes of every earlier draw and the size n of this one, it yields an
 * offset in [0, n). Any deterministic generator is such a function, so two
 * choosers with the same seed, oracle and draw history always choose alike.
 */
module Chooser {
  import opened Outcomes

  type Oracle = f: (nat, seq<nat>, nat) -> nat
    | forall seed: nat, history: seq<nat>, n: nat :: 0 < n ==> f(seed, history, n) < n
    witness (seed: nat, history: seq<nat>, n: nat) => 0

  class SeededRandom {
    const seed: nat
    const oracle: Oracle
    /** The size of every draw made so far: the generator's progress. */
    var history: seq<nat>

    constructor (seed: nat, oracle: Oracle)
      ensures this.seed == seed && this.oracle == oracle && history == []
    {
      this.seed := seed;
      this.oracle := oracle;
      history := [];
    }

    /** What NextInt(min, max) yields in the current state: min when the interval is empty, else a value of [min, max - 1]. */
    function Peek(min: int, max: int): (r: int)
      reads this
      ensures min >= max ==> r == min
      ensures min < max ==> min <= r <= max - 1
    {
      if min >= max then min else min + oracle(seed, history, max - min)
    }

    /** nextInt: an empty interval yields min and consumes nothing; otherwise one draw. */
    method NextInt(min: int, max: int) returns (r: int)
      modifies this
      ensures r == old(Peek(min, max))
      ensures history == if min >= max then old(history) else old(history) + [max - min]
    {
      if min >= max {
        return min;
      }
      r := min + oracle(seed, history, max - min);
      history := history + [max - min];
    }

    /** choice: fails on an empty sequence, otherwise returns the element at index nextInt(0, |items|). */
    method Choice<T>(items: seq<T>) returns (r: Result<T>)
      modifies this
      ensures items == [] ==> r == Err(EmptyChoice) && history == old(history)
      ensures items != [] ==> 0 <= old(Peek(0, |items|)) < |items|
      ensures items != [] ==> r == Ok(items[old(Peek(0, |items|))]) && history == old(history) + [|items|]
    {
      if items == [] {
        return Err(EmptyChoice);
      }
      var i := NextInt(0, |items|);
      r := Ok(items[i]);
    }
  }
}
