/** The six usage counters of a token record and the record `addCounters` updates in place. */
module Counters {

  datatype Counters = Counters(
    input: nat,
    cached: nat,
    output: nat,
    reasoning: nat,
    total: nat,
    cacheWrite: nat
  ) {
    function Plus(other: Counters): Counters {
      Counters(
        input + other.input,
        cached + other.cached,
        output + other.output,
        reasoning + other.reasoning,
        total + other.total,
        cacheWrite + other.cacheWrite)
    }
  }

  function EmptyCounters(): Counters {
    Counters(0, 0, 0, 0, 0, 0)
  }

  const ZERO: Counters := EmptyCounters()

  class CounterRecord {
    var input: nat
    var cached: nat
    var output: nat
    var reasoning: nat
    var total: nat
    var cacheWrite: nat

    function Value(): Counters
      reads this
    {
      Counters(input, cached, output, reasoning, total, cacheWrite)
    }

    constructor Empty()
      ensures Value() == ZERO
    {
      input, cached, output, reasoning, total, cacheWrite := 0, 0, 0, 0, 0, 0;
    }

    constructor Clone(source: Counters)
      ensures Value() == source
    {
      input, cached, output := source.input, source.cached, source.output;
      reasoning, total, cacheWrite := source.reasoning, source.total, source.cacheWrite;
    }

    method Add(source: Counters)
      modifies this
      ensures Value() == old(Value()).Plus(source)
    {
      input := input + source.input;
      cached := cached + source.cached;
      output := output + source.output;
      reasoning := reasoning + source.reasoning;
      total := total + source.total;
      cacheWrite := cacheWrite + source.cacheWrite;
    }
  }

  lemma PlusZero(c: Counters)
    ensures c.Plus(ZERO) == c && ZERO.Plus(c) == c
  {
  }

  lemma PlusAssociates(a: Counters, b: Counters, c: Counters)
    ensures a.Plus(b).Plus(c) == a.Plus(b.Plus(c))
  {
  }
}
