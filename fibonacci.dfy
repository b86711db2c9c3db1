/**
  The iterative Fibonacci routine of the Rust tutorial: a `for` loop over
  `2..n` that keeps the last two Fibonacci numbers in two `i32` locals.
 */
module Fibonacci {
  import opened RustPrim

  /** The Fibonacci numbers: Fib(0) = 0, Fib(1) = Fib(2) = 1. */
  function Fib(n: nat): nat {
    if n < 2 then n else Fib(n - 1) + Fib(n - 2)
  }

  /** Every Fibonacci number from Fib(1) on is at least 1. */
  lemma {:induction false} FibPositive(n: nat)
    requires n >= 1
    ensures Fib(n) >= 1
  {
    if n > 2 { FibPositive(n - 1); }
  }

  /** Fib is monotone from index 1 on. */
  lemma {:induction false} FibMonotone(j: nat, k: nat)
    requires 1 <= j <= k
    ensures Fib(j) <= Fib(k)
  {
    if j < k {
      FibMonotone(j, k - 1);
      if k >= 2 { assert Fib(k) == Fib(k - 1) + Fib(k - 2); }
    }
  }

  /** The first nine Fibonacci numbers, the values `test_fibonacci` prints. */
  lemma FibFirstNine()
    ensures Fib(1) == 1 && Fib(2) == 1 && Fib(3) == 2 && Fib(4) == 3 && Fib(5) == 5
    ensures Fib(6) == 8 && Fib(7) == 13 && Fib(8) == 21 && Fib(9) == 34
  {
  }

  /** Fib(46) is the last Fibonacci number below i32::MAX, Fib(47) the first above it. */
  lemma FibAtI32Limit()
    ensures Fib(46) == 1836311903 <= I32_MAX
    ensures Fib(47) == 2971215073 > I32_MAX
  {
    FibFirstNine();
    assert Fib(10) == 55; assert Fib(11) == 89; assert Fib(12) == 144; assert Fib(13) == 233;
    assert Fib(14) == 377; assert Fib(15) == 610; assert Fib(16) == 987; assert Fib(17) == 1597;
    assert Fib(18) == 2584; assert Fib(19) == 4181; assert Fib(20) == 6765; assert Fib(21) == 10946;
    assert Fib(22) == 17711; assert Fib(23) == 28657; assert Fib(24) == 46368; assert Fib(25) == 75025;
    assert Fib(26) == 121393; assert Fib(27) == 196418; assert Fib(28) == 317811; assert Fib(29) == 514229;
    assert Fib(30) == 832040; assert Fib(31) == 1346269; assert Fib(32) == 2178309; assert Fib(33) == 3524578;
    assert Fib(34) == 5702887; assert Fib(35) == 9227465; assert Fib(36) == 14930352; assert Fib(37) == 24157817;
    assert Fib(38) == 39088169; assert Fib(39) == 63245986; assert Fib(40) == 102334155; assert Fib(41) == 165580141;
    assert Fib(42) == 267914296; assert Fib(43) == 433494437; assert Fib(44) == 701408733; assert Fib(45) == 1134903170;
    assert Fib(46) == 1836311903; assert Fib(47) == 2971215073;
  }

  /** Fib(k) fits in an `i32` exactly when k <= 46. */
  lemma FibFitsI32(k: nat)
    requires k >= 1
    ensures Fib(k) <= I32_MAX <==> k <= 46
  {
    FibAtI32Limit();
    if k <= 46 { FibMonotone(k, 46); } else { FibMonotone(47, k); }
  }

  /** What `fibonacci(n)` returns when it does not overflow: 1 below 3, Fib(n) from 3 on. */
  function FibonacciValue(n: int): (v: nat)
    ensures v >= 1
    ensures n >= 1 ==> v == Fib(n)
  {
    if n < 3 then 1 else FibPositive(n); Fib(n)
  }

  /**
    `fibonacci(n)`.  Below 3 it returns 1 at once.  Otherwise the loop over
    the half-open range `2..n` runs n - 2 times; before the step with index
    `i`, `prev_value` is Fib(i - 1) and `current_value` is Fib(i).  The sum
    `current_value + prev_value` is an `i32` addition, which panics once it
    reaches Fib(47); so the call finishes exactly when n <= 46.
    `steps` counts the loop bodies executed.
   */
  method Fibonacci(n: i32) returns (r: Outcome<i32>, ghost steps: nat)
    ensures r.Done? <==> n <= 46
    ensures r.Done? ==> r.value as int == FibonacciValue(n as int)
    ensures r.Done? ==> steps == if n < 3 then 0 else n as int - 2
    ensures r.Panicked? ==> r.reason == AddOverflow
  {
    steps := 0;
    if n < 3 {
      return Done(1), steps;
    }
    var prevValue: i32 := 1;
    var currentValue: i32 := 1;
    var i: i32 := 2;
    while i < n
      invariant 2 <= i <= n
      invariant prevValue as int == Fib(i as nat - 1)
      invariant currentValue as int == Fib(i as nat)
      invariant steps == i as int - 2
    {
      var sum := CheckedAdd(currentValue, prevValue);
      if sum.Panicked? {
        FibFitsI32(i as nat + 1);
        return Panicked(sum.reason), steps;
      }
      prevValue, currentValue := currentValue, sum.value;
      i := i + 1;
      steps := steps + 1;
    }
    FibFitsI32(n as nat);
    r := Done(currentValue);
  }

  /** `test_fibonacci`: the values printed for n = 1..9, in order. */
  method TestFibonacci() returns (values: seq<i32>)
    ensures values == [1, 1, 2, 3, 5, 8, 13, 21, 34]
  {
    values := [];
    for n: i32 := 1 to 10
      invariant |values| == n as int - 1
      invariant forall k :: 0 <= k < |values| ==> values[k] as int == Fib(k + 1)
    {
      var r, _ := Fibonacci(n);
      values := values + [r.value];
    }
    FibFirstNine();
  }
}
