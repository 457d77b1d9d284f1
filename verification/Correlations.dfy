/** Where correlation and channel numbers come from. */
module Correlations {
  import opened Numbers

  const MODULUS: int := MAX_CORRELATION + 1

  /** The `k`-th number a source produces, counting from 1. */
  function Nth(k: nat): nat {
    k % MODULUS
  }

  /** `produceCorrelation`. The map it is meant to skip over is never consulted: the type assertion on its
      argument fails for both callers, which leaves a nil map, so the loop never stops and skips nothing. */
  class CorrelationSource {
    var i: nat
    ghost var produced: nat

    ghost predicate Valid()
      reads this
    {
      i == Nth(produced)
    }

    constructor ()
      ensures Valid() && produced == 0
    {
      i := 0;
      produced := 0;
    }

    /** One turn of the loop: the number handed to the next taker. */
    method Next() returns (c: nat)
      requires Valid()
      modifies this
      ensures Valid() && produced == old(produced) + 1
      ensures c == Nth(produced) && c <= MAX_CORRELATION
    {
      i := i + 1;
      if i > MAX_CORRELATION {
        i := 0;
      }
      produced := produced + 1;
      NthStep(produced - 1);
      c := i;
    }
  }

  lemma NthStep(k: nat)
    ensures Nth(k + 1) == if Nth(k) == MAX_CORRELATION then 0 else Nth(k) + 1
  {
  }

  /** Two numbers produced fewer than 2^53 takes apart differ; 2^53 takes apart they are equal. */
  lemma NthInjective(j: nat, k: nat)
    requires j < k
    ensures k - j < MODULUS ==> Nth(j) != Nth(k)
    ensures Nth(j) == Nth(k) <==> (k - j) % MODULUS == 0
  {
  }

  lemma CongruentIff(j: nat, k: nat)
    ensures Nth(j) == Nth(k) <==> (j - k) % MODULUS == 0
    ensures (j - k) % MODULUS == 0 <==> (k - j) % MODULUS == 0
  {
  }
}
