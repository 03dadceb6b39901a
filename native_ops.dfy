/**
 * The native `doOps(ops)` routine of the demo library: a counting loop that
 * adds 0, 1, …, ops − 1 into a `long` accumulator (64 bits on the 64-bit
 * Android ABIs) with an `int` loop counter.
 */
module NativeOps {
  import opened KotlinNum

  /** Reference definition: 0 + 1 + … + (n − 1), and 0 when n <= 0. */
  function SumBelow(n: int): int
    decreases if n <= 0 then 0 else n
  {
    if n <= 0 then 0 else SumBelow(n - 1) + (n - 1)
  }

  lemma {:induction false} SumBelowClosedForm(n: int)
    requires n >= 0
    ensures SumBelow(n) == n * (n - 1) / 2
  {
    if n > 0 {
      SumBelowClosedForm(n - 1);
      assert (n - 1) * (n - 2) + 2 * (n - 1) == n * (n - 1);
    }
  }

  lemma MulMonotone(a: int, b: int, c: int, d: int)
    requires 0 <= a <= c && 0 <= b <= d
    ensures a * b <= c * d
  {
    assert a * b <= c * b;
    assert c * b <= c * d;
  }

  /** Every partial sum the loop can reach (counter within the int range) fits a 64-bit long. */
  lemma SumBelowFitsLong(n: int)
    requires 0 <= n <= IntMax + 1
    ensures 0 <= SumBelow(n) <= LongMax
  {
    SumBelowClosedForm(n);
    if n > 0 {
      MulMonotone(n, n - 1, 0x8000_0000, 0x7fff_ffff);
      assert 0x8000_0000 * 0x7fff_ffff == 0x3fff_ffff_8000_0000;
    }
  }

  /**
   * `doOps`: the sum of the counter values 0 … ops − 1. The int counter is
   * incremented up to `ops`, so the routine is only defined for ops within
   * the int range; every intermediate sum then fits the long accumulator.
   */
  method DoOps(ops: int) returns (sum: int)
    requires IsLong(ops)
    requires ops <= IntMax
    ensures sum == SumBelow(ops)
    ensures ops <= 0 ==> sum == 0
    ensures ops > 0 ==> sum == ops * (ops - 1) / 2
    ensures IsLong(sum)
  {
    sum := 0;
    var i := 0;
    while i < ops
      invariant 0 <= i && IsInt(i)
      invariant ops > 0 ==> i <= ops
      invariant ops <= 0 ==> i == 0
      invariant sum == SumBelow(i)
      invariant IsLong(sum)
    {
      SumBelowFitsLong(i + 1);
      sum := sum + i;
      i := i + 1;
    }
    if ops > 0 {
      SumBelowClosedForm(ops);
    }
  }
}
