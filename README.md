# Rust tutorial routines, modelled and verified in Dafny

This project models the three small sequential programs of the repository's
Rust tutorial and exercise crates, and proves what each one computes:

- `fibonacci` (rust/rust_tutorial/src/test3.rs): a `for` loop over `2..n`
  that keeps the last two Fibonacci numbers in two `i32` locals. The model
  (`Fibonacci.Fibonacci`) is a method with that loop, proved against the
  recursive definition `Fibonacci.Fib`. It returns 1 for every `n < 3`,
  including 0 and negative `n`, and Fib(n) otherwise. The loop runs `n - 2`
  times. The `i32` addition overflows exactly when `n >= 47`, because
  Fib(47) = 2971215073 is above `i32::MAX`.
- `find_thingy`, `get_length`, `improve_number` and the search step of
  `test_array_search` (rust/test2/src/main.rs). `ArraySearch.FindThingy`
  scans the slice in index order and returns the first index whose element
  is divisible by the divisor, or `None`. Rust's `%` truncates toward zero
  and panics on a zero divisor and on `i32::MIN % -1`. The model writes
  that remainder out (`RustPrim.TruncRem`, `RustPrim.CheckedRem`) and proves
  that it agrees with Dafny's Euclidean `%` on the test `== 0`. The contract
  gives the exact condition for a panic. `improve_number` works on an
  `IntCell`, a class with one `i32` field that stands for the `&mut i32`.
- `enhance_further`, `enhance` and the string steps of `do_stuff`
  (rust/rust_tutorial/src/test4.rs). A `String` is the class
  `StringEnhance.RustString`, whose field is its UTF-8 byte buffer. Slicing
  by byte index checks for `usize` underflow and for `str::is_char_boundary`.
  The copy made by `to_owned` is a separate object, so the later in-place
  appends do not reach it.

Arithmetic follows a Rust debug build: an `i32` or `usize` overflow panics.
Panics are values (`RustPrim.Outcome` is `Done(value)` or
`Panicked(reason)`), so the model has no preconditions that the code does
not have.

Module layout: `RustPrim` (rust_prim.dfy) holds the shared Rust primitives.
`Fibonacci` (fibonacci.dfy), `ArraySearch` (array_search.dfy) and
`StringEnhance` (string_enhance.dfy) each model one source file.

## Model

| member | source | states |
|---|---|---|
| RustPrim.CheckedAdd | rust/rust_tutorial/src/test3.rs:10 | `i32` addition finishes exactly when the mathematical sum is in the `i32` range, and then gives that sum; otherwise it panics with an add overflow |
| RustPrim.TruncRem | rust/test2/src/main.rs:15 | Rust's remainder differs from the dividend by a multiple of the divisor, is smaller than the divisor in magnitude, and is zero or has the dividend's sign |
| RustPrim.CheckedRem | rust/test2/src/main.rs:15 | `%` on `i32` panics exactly when the divisor is 0 (division-by-zero panic) or the operands are `i32::MIN` and -1 (overflow panic); otherwise it gives the truncating remainder |
| RustPrim.TruncRemZeroIffEuclidean | rust/test2/src/main.rs:15 | the truncating remainder is zero exactly when Dafny's Euclidean remainder is zero, so the divisibility test means the same under both |
| Fibonacci.FibPositive | rust/rust_tutorial/src/test3.rs:6-14 | every Fibonacci number from index 1 on is at least 1 |
| Fibonacci.FibMonotone | rust/rust_tutorial/src/test3.rs:9-13 | from index 1 on the Fibonacci numbers never decrease, so the values the loop adds only grow |
| Fibonacci.FibFirstNine | rust/rust_tutorial/src/test3.rs:18-19 | Fib(1) to Fib(9) are 1, 1, 2, 3, 5, 8, 13, 21, 34 |
| Fibonacci.FibAtI32Limit | rust/rust_tutorial/src/test3.rs:10 | Fib(46) = 1836311903 fits in an `i32` and Fib(47) = 2971215073 does not |
| Fibonacci.FibFitsI32 | rust/rust_tutorial/src/test3.rs:10 | Fib(k) fits in an `i32` if and only if k <= 46 |
| Fibonacci.FibonacciValue | rust/rust_tutorial/src/test3.rs:1-15 | the value `fibonacci(n)` returns is at least 1, and equals Fib(n) for every n >= 1 |
| Fibonacci.Fibonacci | rust/rust_tutorial/src/test3.rs:1-15 | `fibonacci(n)` finishes if and only if n <= 46, returning 1 for n < 3 and Fib(n) otherwise; the loop body runs n - 2 times for n >= 3 (0 times below); the only panic is an add overflow |
| Fibonacci.TestFibonacci | rust/rust_tutorial/src/test3.rs:17-21 | `test_fibonacci` computes, for n = 1..9 in order, 1, 1, 2, 3, 5, 8, 13, 21, 34 |
| ArraySearch.GetLength | rust/test2/src/main.rs:6-9 | `get_length` gives the slice's length, which `find_thingy` reads once as its loop bound |
| ArraySearch.FindThingy | rust/test2/src/main.rs:13-20 | the search panics exactly when the slice is non-empty and either the divisor is 0 or the divisor is -1 with `i32::MIN` first; a returned `(i, v)` has `i` in bounds, `v == array[i]`, `array[i]` divisible and no earlier element divisible; `None` is returned if and only if every element is tested without a panic and none is divisible |
| ArraySearch.FirstDivisibleUnique | rust/test2/src/main.rs:14-17 | at most one index is the first divisible index, so the search's answer is determined by the slice and the divisor |
| ArraySearch.ImproveNumber | rust/test2/src/main.rs:23-25 | `*n += 1` sets the cell to its old value plus 1 and changes nothing else; it panics with an add overflow, leaving the cell unchanged, exactly when the old value is `i32::MAX` |
| ArraySearch.TestArraySearch | rust/test2/src/main.rs:32-38 | searching `[2, 4, 5, 15, 21, 68, 54, 1]` with divisor `input + 1`: input 2 finds `(3, 15)`, inputs 1, 0 and -2 find `(0, 2)`, input 99 finds nothing, input -1 panics with division by zero and input `i32::MAX` panics in `improve_number` |
| StringEnhance.SliceFrom | rust/rust_tutorial/src/test4.rs:33 | `&s[start..]` succeeds if and only if `start` is at most the length and on a character boundary; then it is the rest of the buffer after the first `start` bytes |
| StringEnhance.LastBytes | rust/rust_tutorial/src/test4.rs:33 | `s[s.len() - k..]` succeeds if and only if the string has at least `k` bytes and the start is a character boundary, and then consists of the last `k` bytes; a string that is too short panics in the `usize` subtraction |
| StringEnhance.RustString.From | rust/rust_tutorial/src/test4.rs:31-33 | `String::from` and `to_owned` make a new `String` object whose buffer holds exactly the given bytes |
| StringEnhance.RustString.PushStr | rust/rust_tutorial/src/test4.rs:8 | `push_str` leaves the buffer equal to its old contents followed by the appended bytes |
| StringEnhance.EnhanceFurther | rust/rust_tutorial/src/test4.rs:5-9 | `enhance_further` leaves the string equal to its old contents followed by "1": one byte longer, with the old contents as a prefix |
| StringEnhance.Enhance | rust/rust_tutorial/src/test4.rs:12-20 | `enhance` leaves the string equal to its old contents followed by "!!!1": "!!!" from its own append and "1" from `enhance_further`, with the old contents as a prefix |
| StringEnhance.StringSteps | rust/rust_tutorial/src/test4.rs:31-39 | the string steps of `do_stuff`, from any initial string, succeed if and only if it has at least two bytes and the slice starts on a character boundary; the copy is then the last two bytes as they were before any mutation, and the string ends as the initial string followed by "!!!122222" |
| StringEnhance.DoStuff | rust/rust_tutorial/src/test4.rs:24-45 | on "wat", the copied substring is "at" and stays "at" after the mutations; the final string is "wat!!!122222" |

## Left out

- Printing: every `println!` in the three files is left out. This includes the message of `get_length`, which shows that the loop bound is read once. In the model the bound is read once into a local (`ArraySearch.GetLength`).
- Reading and parsing the input in `test_array_search` (rust/test2/src/main.rs:29-32) is I/O; the parsed number is the parameter of `ArraySearch.TestArraySearch`. The two `expect` panics (read failure, parse failure) are not modelled.
- Release builds: the model uses debug-build arithmetic, where `i32` and `usize` overflow panics. A release build would wrap instead. The `%` panics happen in both builds and are modelled.
- `do_stuff`'s `let x = 5; let y = &x;` (rust/rust_tutorial/src/test4.rs:26-29) only feeds a `println!`, so it is left out.
- UTF-8 validity of a `String`'s bytes is not tracked. `is_char_boundary` is modelled on the raw bytes, as the standard library defines it.
- The `main` functions of both crates are left out. They only dispatch to the routines modelled here, or to routines in modules that are not part of this model.
- The other code in the repository is not part of this model: the orbit-camera controller, the Unity camera script, the number-guessing game, the scene and plugin setup, and the WebAssembly binding. It is floating-point geometry, game-engine plumbing or console I/O, and some of its pieces are unfinished (names it uses are not defined in the files).
