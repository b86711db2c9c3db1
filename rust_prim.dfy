/**
  Rust primitives shared by the three programs: the `i32` and `u8` types,
  the outcome of an operation that may panic, and the checked `i32`
  arithmetic that Rust performs in a debug build.
 */
module RustPrim {

  const I32_MIN: int := -0x8000_0000
  const I32_MAX: int := 0x7fff_ffff

  /** Rust's 32-bit signed integer. */
  newtype i32 = x: int | -0x8000_0000 <= x <= 0x7fff_ffff

  /** Rust's `u8`, the unit of a `String`'s UTF-8 buffer. */
  newtype u8 = x: int | 0 <= x < 0x100

  /** Why a Rust program panicked. */
  datatype Panic =
    | AddOverflow        // "attempt to add with overflow" (debug build)
    | SubtractOverflow   // "attempt to subtract with overflow" (debug build)
    | RemainderByZero    // "attempt to calculate the remainder with a divisor of zero"
    | RemainderOverflow  // "attempt to calculate the remainder with overflow" (i32::MIN % -1)
    | StrIndex           // a `str` slice bound past the end or not on a UTF-8 character boundary

  /** Rust's `Option`. */
  datatype Option<+T> = None | Some(value: T)

  /** The result of running a piece of Rust code: it either finishes with a value or panics. */
  datatype Outcome<+T> = Done(value: T) | Panicked(reason: Panic)

  /** `a + b` on `i32`: the exact sum, or a panic when it leaves the `i32` range. */
  function CheckedAdd(a: i32, b: i32): (r: Outcome<i32>)
    ensures r.Done? <==> I32_MIN <= a as int + b as int <= I32_MAX
    ensures r.Done? ==> r.value as int == a as int + b as int
    ensures r.Panicked? ==> r.reason == AddOverflow
  {
    var s := a as int + b as int;
    if I32_MIN <= s <= I32_MAX then Done(s as i32) else Panicked(AddOverflow)
  }

  /**
    The remainder of Rust's `%` on integers: it truncates the quotient toward
    zero, so the remainder takes the sign of the dividend.  It is the unique
    `r` that differs from `a` by a multiple of `b`, is smaller than `b` in
    magnitude and is zero or has the sign of `a`.
   */
  function TruncRem(a: int, b: int): (r: int)
    requires b != 0
    ensures (a - r) % b == 0
    ensures -(Abs(b) as int) < r < Abs(b)
    ensures r == 0 || (r < 0 <==> a < 0)
  {
    var m := Abs(b);
    if a >= 0 then
      var r := a % m;
      MultipleOf(a - r, b, if b > 0 then a / m else -(a / m));
      r
    else
      var r := -((-a) % m);
      MultipleOf(a - r, b, if b > 0 then -((-a) / m) else (-a) / m);
      r
  }

  function Abs(x: int): nat {
    if x < 0 then -x else x
  }

  /** `a % b` on `i32`, with both of Rust's panics. */
  function CheckedRem(a: i32, b: i32): (r: Outcome<i32>)
    ensures r.Panicked? <==> b == 0 || (a as int == I32_MIN && b == -1)
    ensures r.Panicked? ==> r.reason == (if b == 0 then RemainderByZero else RemainderOverflow)
    ensures r.Done? ==> r.value as int == TruncRem(a as int, b as int)
  {
    if b == 0 then Panicked(RemainderByZero)
    else if a as int == I32_MIN && b == -1 then Panicked(RemainderOverflow)
    else Done(TruncRem(a as int, b as int) as i32)
  }

  /** `x` is a multiple of `m` if some integer `q` has `x == q * m`. */
  lemma MultipleOf(x: int, m: int, q: int)
    requires m != 0 && x == q * m
    ensures x % m == 0
  {
    var r := x % m;
    assert x == (x / m) * m + r;
    assert (q - x / m) * m == r;
    if q - x / m != 0 {
      assert Abs((q - x / m) * m) >= Abs(m) by { MulAbs(q - x / m, m); }
      assert false;
    }
  }

  lemma MulAbs(k: int, m: int)
    requires k != 0
    ensures Abs(k * m) >= Abs(m)
  {
  }

  /**
    Rust's truncating remainder and Dafny's Euclidean remainder agree on the
    test "is zero", the only use the search makes of it.
   */
  lemma {:induction false} TruncRemZeroIffEuclidean(a: int, b: int)
    requires b != 0
    ensures TruncRem(a, b) == 0 <==> a % b == 0
  {
    var m := Abs(b);
    if a >= 0 {
      EuclideanAbs(a, b);
    } else {
      EuclideanAbs(a, b);
      if (-a) % m == 0 {
        MultipleOf(a, m, -((-a) / m));
      } else if a % m == 0 {
        MultipleOf(-a, m, -(a / m));
      }
    }
  }

  /** Dafny's `%` by `b` and by `|b|` are the same. */
  lemma EuclideanAbs(a: int, b: int)
    requires b != 0
    ensures a % b == a % Abs(b)
  {
    if b < 0 {
      var r := a % b;
      assert a == (a / b) * b + r && 0 <= r < -b;
      assert a == (-(a / b)) * (-b) + r;
      assert a % (-b) == r by { EuclideanUnique(a, -b, -(a / b), r); }
    }
  }

  lemma EuclideanUnique(a: int, m: int, q: int, r: int)
    requires m > 0 && a == q * m + r && 0 <= r < m
    ensures a % m == r
  {
    var r' := a % m;
    assert a == (a / m) * m + r';
    assert (q - a / m) * m == r' - r;
    if q - a / m != 0 {
      MulAbs(q - a / m, m);
      assert false;
    }
  }
}
