/** 64-bit atomic counters that hand out ids. */
module Counters {
  const U64_VALUES: nat := 0x1_0000_0000_0000_0000

  class AtomicU64 {
    var value: nat

    constructor ()
      ensures value == 0
    {
      value := 0;
    }

    /** `fetch_add(1)`, which wraps around. */
    method FetchAdd() returns (r: nat)
      modifies this
      ensures r == old(value) && value == (old(value) + 1) % U64_VALUES
    {
      r := value;
      value := (value + 1) % U64_VALUES;
    }
  }

  /** The `n`th id that a new counter hands out. */
  function NthId(n: nat): nat {
    n % U64_VALUES
  }

  /** Ids are distinct exactly until the counter wraps around. */
  lemma IdsDistinctExactly(n: nat)
    ensures (forall i: nat, j: nat :: i < j < n ==> NthId(i) != NthId(j)) <==> n <= U64_VALUES
  {
    if n > U64_VALUES {
      assert NthId(0) == NthId(U64_VALUES);
    }
  }
}
