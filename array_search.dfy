/**
  The array-search exercise: a linear search for the first element of an
  `i32` slice that is divisible by a given divisor, an in-place increment
  through `&mut i32`, and the driver that increments the number read from
  the user and searches a fixed array with it.
 */
module ArraySearch {
  import opened RustPrim

  /** `x` is divisible by `d`: `d` is nonzero and divides `x`. */
  predicate Divisible(x: i32, d: i32) {
    d != 0 && x as int % d as int == 0
  }

  /** `x % d` runs without panicking and leaves a nonzero remainder. */
  predicate Indivisible(x: i32, d: i32) {
    d != 0 && x as int % d as int != 0
  }

  /** `get_length`: the slice's length, read once as the loop's bound. */
  function GetLength(arr: seq<i32>): (len: nat)
    ensures len == |arr|
  {
    |arr|
  }

  /**
    `find_thingy`: scans indices 0 .. len in increasing order and returns the
    first index whose element is divisible by `divisor`, with that element.
    The remainder is Rust's `%`, which panics on a zero divisor and on
    i32::MIN % -1.  Since every element is divisible by -1, a panic can only
    happen at index 0.
   */
  method FindThingy(arr: seq<i32>, divisor: i32) returns (r: Outcome<Option<(nat, i32)>>)
    ensures r.Panicked? <==> |arr| > 0 && (divisor == 0 || (divisor == -1 && arr[0] as int == I32_MIN))
    ensures r.Panicked? ==> r.reason == (if divisor == 0 then RemainderByZero else RemainderOverflow)
    ensures r.Done? && r.value.Some? ==>
      var (i, v) := r.value.value;
      IsFirstDivisible(arr, divisor, i) && v == arr[i]
    ensures r == Done(None) <==> forall j :: 0 <= j < |arr| ==> Indivisible(arr[j], divisor)
  {
    var len := GetLength(arr);
    for i := 0 to len
      invariant forall j :: 0 <= j < i ==> Indivisible(arr[j], divisor)
      invariant i > 0 ==> divisor != 0 && divisor != -1
    {
      var rem := CheckedRem(arr[i], divisor);
      if rem.Panicked? {
        return Panicked(rem.reason);
      }
      TruncRemZeroIffEuclidean(arr[i] as int, divisor as int);
      if rem.value == 0 {
        return Done(Some((i, arr[i])));
      }
    }
    return Done(None);
  }

  /** `i` is a qualifying index with no qualifying index before it. */
  predicate IsFirstDivisible(arr: seq<i32>, divisor: i32, i: nat) {
    i < |arr| && Divisible(arr[i], divisor) &&
    forall j :: 0 <= j < i ==> Indivisible(arr[j], divisor)
  }

  /** There is at most one first qualifying index, so the result of the search is determined. */
  lemma FirstDivisibleUnique(arr: seq<i32>, divisor: i32, i: nat, k: nat)
    requires IsFirstDivisible(arr, divisor, i) && IsFirstDivisible(arr, divisor, k)
    ensures i == k
  {
  }

  /** A `&mut i32`: one mutable `i32` place. */
  class IntCell {
    var value: i32

    constructor (v: i32)
      ensures value == v
    {
      value := v;
    }
  }

  /**
    `improve_number`: `*n += 1`.  The addition is an `i32` addition, so it
    panics when `*n` is i32::MAX and then leaves `*n` as it was.
   */
  method ImproveNumber(n: IntCell) returns (r: Outcome<()>)
    modifies n
    ensures r.Done? <==> old(n.value) as int < I32_MAX
    ensures r.Done? ==> n.value as int == old(n.value) as int + 1
    ensures r.Panicked? ==> r.reason == AddOverflow && n.value == old(n.value)
  {
    var sum := CheckedAdd(n.value, 1);
    if sum.Panicked? {
      return Panicked(sum.reason);
    }
    n.value := sum.value;
    return Done(());
  }

  /** The fixed array that `test_array_search` searches. */
  const Numbers: seq<i32> := [2, 4, 5, 15, 21, 68, 54, 1]

  /**
    `test_array_search` after the number has been read and parsed: the
    divisor is `input + 1`, computed in place by `improve_number`, and the
    fixed array is searched with it.
   */
  method TestArraySearch(input: i32) returns (r: Outcome<Option<(nat, i32)>>)
    ensures input as int == I32_MAX ==> r == Panicked(AddOverflow)
    ensures input == -1 ==> r == Panicked(RemainderByZero)
    ensures input == 2 ==> r == Done(Some((3, 15)))
    ensures input == 1 ==> r == Done(Some((0, 2)))
    ensures input == -2 || input == 0 ==> r == Done(Some((0, 2)))
    ensures input == 99 ==> r == Done(None)
  {
    var divisor := new IntCell(input);
    var improved := ImproveNumber(divisor);
    if improved.Panicked? {
      return Panicked(improved.reason);
    }
    r := FindThingy(Numbers, divisor.value);
    if input == 2 {
      assert Divisible(Numbers[3], 3);
      assert Indivisible(Numbers[0], 3) && Indivisible(Numbers[1], 3) && Indivisible(Numbers[2], 3);
      FirstDivisibleUnique(Numbers, 3, r.value.value.0, 3);
    } else if input == 1 || input == -2 || input == 0 {
      assert Divisible(Numbers[0], divisor.value);
      FirstDivisibleUnique(Numbers, divisor.value, r.value.value.0, 0);
    } else if input == 99 {
      assert forall j :: 0 <= j < |Numbers| ==> Indivisible(Numbers[j], 100);
    }
  }
}
