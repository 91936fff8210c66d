/**
 * The sum-of-N comparator behind `/sum-of-n-numbers`: three ways to add
 * up `0 + 1 + ... + target`. `method_1` is the library sum
 * `sum(range(target + 1))`, `method_2` the closed form
 * `target * (target + 1) // 2` and `method_3` an accumulator loop.
 */
module SumOfN {

  /** Python's `sum(range(lo, hi))`: `lo + ... + (hi - 1)`, or 0 for an empty range. */
  function RangeSum(lo: int, hi: int): int
    decreases hi - lo
  {
    if hi <= lo then 0 else RangeSum(lo, hi - 1) + (hi - 1)
  }

  /** `method_1`: the library range sum. */
  function Method1(target: int): int
  {
    RangeSum(0, target + 1)
  }

  /**
   * `method_2`: the closed form. Python's `//` floors, and with the
   * positive divisor 2 Dafny's Euclidean `/` is the same operation.
   */
  function Method2(target: int): int
  {
    target * (target + 1) / 2
  }

  /** `method_3`: the accumulator loop agrees with the library sum for every target. */
  method Method3(target: int) returns (result: int)
    ensures result == Method1(target)
  {
    result := 0;
    var i := 0;
    while i < target + 1
      invariant 0 <= i
      invariant if target + 1 >= 0 then i <= target + 1 else i == 0
      invariant result == RangeSum(0, i)
      decreases target + 1 - i
    {
      result := result + i;
      i := i + 1;
    }
  }

  /** Gauss: twice the sum of `0..n` is `n * (n + 1)`. */
  lemma {:induction false} GaussSum(n: nat)
    ensures 2 * RangeSum(0, n + 1) == n * (n + 1)
  {
    if n > 0 {
      GaussSum(n - 1);
      assert RangeSum(0, n + 1) == RangeSum(0, n) + n;
      assert (n - 1) * n + 2 * n == n * (n + 1);
    }
  }

  /**
   * The product of two consecutive integers is even, so the `//` of
   * `method_2` never discards a remainder.
   */
  lemma ClosedFormIsExact(target: int)
    ensures (target * (target + 1)) % 2 == 0
    ensures 2 * Method2(target) == target * (target + 1)
  {
    var h := target / 2;
    if target % 2 == 0 {
      assert target * (target + 1) == 2 * (h * (target + 1));
    } else {
      assert target + 1 == 2 * (h + 1);
      assert target * (target + 1) == 2 * (target * (h + 1));
    }
  }

  /**
   * For every target from -1 on, the library sum and the closed form agree
   * (`Method3` equals the library sum for every target).
   */
  lemma MethodsAgree(target: int)
    requires target >= -1
    ensures Method1(target) == Method2(target)
  {
    if target >= 0 {
      GaussSum(target);
      ClosedFormIsExact(target);
    }
  }

  /**
   * Below -1 the library sum is empty while the closed form is positive:
   * the methods agree only on the targets the endpoint admits and on -1.
   */
  lemma MethodsDisagreeBelowMinusOne(target: int)
    requires target <= -2
    ensures Method1(target) == 0 < Method2(target)
  {
    ClosedFormIsExact(target);
    var m := -target;
    assert target * (target + 1) == m * (m - 1);
    assert m * (m - 1) >= m * 1;
  }

  /** The `/sum-of-n-numbers` response: the three results. */
  datatype SumResponse = SumResponse(method1Result: int, method2Result: int, method3Result: int)

  /**
   * `sum_of_n_numbers`: for every `target >= 1` (the query bound) the
   * three results are identical and equal `target * (target + 1) / 2`.
   */
  method SumOfNNumbers(target: int) returns (response: SumResponse)
    requires target >= 1
    ensures response.method1Result == response.method2Result == response.method3Result
    ensures 2 * response.method1Result == target * (target + 1)
  {
    var result1 := Method1(target);
    var result2 := Method2(target);
    var result3 := Method3(target);
    MethodsAgree(target);
    ClosedFormIsExact(target);
    response := SumResponse(result1, result2, result3);
  }
}
