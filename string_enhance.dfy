/**
  The string exercise of the Rust tutorial: two functions that append fixed
  suffixes to a `&mut String`, and `do_stuff`, which copies the last two
  bytes of a string before mutating it.  A `String` is its UTF-8 byte
  buffer; slicing it is by byte index.
 */
module StringEnhance {
  import opened RustPrim

  /** The bytes of an ASCII string literal (ASCII is its own UTF-8 encoding). */
  function Ascii(t: string): (b: seq<u8>)
    requires forall i :: 0 <= i < |t| ==> t[i] as int < 0x80
    ensures |b| == |t| && forall i :: 0 <= i < |t| ==> b[i] as int == t[i] as int
  {
    seq(|t|, i requires 0 <= i < |t| => t[i] as int as u8)
  }

  lemma AsciiConcat(x: string, y: string)
    requires forall i :: 0 <= i < |x| ==> x[i] as int < 0x80
    requires forall i :: 0 <= i < |y| ==> y[i] as int < 0x80
    ensures Ascii(x + y) == Ascii(x) + Ascii(y)
  {
  }

  /**
    `str::is_char_boundary`: index 0 and the end are boundaries, an index
    past the end is not, and an inner index is one unless it points at a
    UTF-8 continuation byte (0x80 to 0xBF).
   */
  predicate IsCharBoundary(s: seq<u8>, index: nat) {
    index == 0 || index == |s| || (index < |s| && !(0x80 <= s[index] < 0xC0))
  }

  /**
    `&s[start..]` on a `str`: the bytes from `start` on, or a panic when
    `start` is past the end or inside a multi-byte character.
   */
  function SliceFrom(s: seq<u8>, start: nat): (r: Outcome<seq<u8>>)
    ensures r.Done? <==> start <= |s| && IsCharBoundary(s, start)
    ensures r.Done? ==> |r.value| == |s| - start && s == s[..start] + r.value
    ensures r.Panicked? ==> r.reason == StrIndex
  {
    if IsCharBoundary(s, start) && start <= |s| then Done(s[start..]) else Panicked(StrIndex)
  }

  /**
    `s[s.len() - k..]`: the last `k` bytes.  The `usize` subtraction panics
    when the string is shorter than `k`; the slice then needs its start on a
    character boundary.
   */
  function LastBytes(s: seq<u8>, k: nat): (r: Outcome<seq<u8>>)
    ensures r.Done? <==> k <= |s| && IsCharBoundary(s, |s| - k)
    ensures r.Done? ==> |r.value| == k && s == s[..|s| - k] + r.value
    ensures r.Panicked? ==> r.reason == if k > |s| then SubtractOverflow else StrIndex
  {
    if k > |s| then Panicked(SubtractOverflow) else SliceFrom(s, |s| - k)
  }

  /** A Rust `String`: an owned, growable byte buffer. */
  class RustString {
    var bytes: seq<u8>

    /** `String::from` and `to_owned`: a new buffer holding a copy of `t`. */
    constructor From(t: seq<u8>)
      ensures bytes == t
    {
      bytes := t;
    }

    /** `push_str`, and `+=` with a `&str`: appends `t` in place. */
    method PushStr(t: seq<u8>)
      modifies this
      ensures bytes == old(bytes) + t
    {
      bytes := bytes + t;
    }
  }

  /** `enhance_further`: appends "1". */
  method EnhanceFurther(s: RustString)
    modifies s
    ensures s.bytes == old(s.bytes) + Ascii("1")
    ensures |s.bytes| == |old(s.bytes)| + 1 && old(s.bytes) <= s.bytes
  {
    s.PushStr(Ascii("1"));
  }

  /** `enhance`: appends "!!!" and then lets `enhance_further` append "1". */
  method Enhance(s: RustString)
    modifies s
    ensures s.bytes == old(s.bytes) + Ascii("!!!1")
    ensures |s.bytes| == |old(s.bytes)| + 4 && old(s.bytes) <= s.bytes
  {
    s.PushStr(Ascii("!!!"));
    EnhanceFurther(s);
    AsciiConcat("!!!", "1");
  }

  /**
    The string steps of `do_stuff`, started from any string `init`: copy the
    last two bytes into a new `String`, run `enhance` on the original, then
    append "22222" to it.  The copy is a separate buffer, so the mutations do
    not reach it.  The result is the copy and the final original.
   */
  method StringSteps(init: seq<u8>) returns (r: Outcome<(seq<u8>, seq<u8>)>)
    ensures r.Done? <==> |init| >= 2 && IsCharBoundary(init, |init| - 2)
    ensures r.Done? ==> r.value.0 == init[|init| - 2..]
    ensures r.Done? ==> r.value.1 == init + Ascii("!!!122222")
  {
    var s := new RustString.From(init);
    var tail := LastBytes(s.bytes, 2);
    if tail.Panicked? {
      return Panicked(tail.reason);
    }
    var substr := new RustString.From(tail.value);
    Enhance(s);
    s.PushStr(Ascii("22222"));
    AsciiConcat("!!!1", "22222");
    r := Done((substr.bytes, s.bytes));
  }

  /** `do_stuff` on its literal "wat": the copy is "at" and the string ends as "wat!!!122222". */
  method DoStuff() returns (substr: seq<u8>, s: seq<u8>)
    ensures substr == Ascii("at")
    ensures s == Ascii("wat!!!122222")
  {
    var r := StringSteps(Ascii("wat"));
    AsciiConcat("wat", "!!!122222");
    assert Ascii("wat")[1..] == Ascii("at");
    substr, s := r.value.0, r.value.1;
  }
}
