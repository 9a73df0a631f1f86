/**
 * Fixed-width integers, the Option/Result/Outcome wrappers and the
 * little-/big-endian byte helpers used throughout the model.
 *
 * Rust's fixed-width integers are subset types of `int`.  Where the source
 * relies on wrap-around (`wrapping_add`, u8 `+=` in a release build, u16
 * address arithmetic) the model writes the modulus out explicitly.
 */
module Common {
  type u8 = x: int | 0 <= x < 0x100
  type u16 = x: int | 0 <= x < 0x1_0000
  type u32 = x: int | 0 <= x < 0x1_0000_0000
  type u64 = x: int | 0 <= x < 0x1_0000_0000_0000_0000

  /** `u8::MAX` .. `u64::MAX`, the bounds `str::parse` checks against. */
  const U8_MAX: nat := 0xFF
  const U16_MAX: nat := 0xFFFF
  const U32_MAX: nat := 0xFFFF_FFFF
  const U64_MAX: nat := 0xFFFF_FFFF_FFFF_FFFF

  datatype Option<T> = None | Some(value: T)

  datatype Result<T, E> = Ok(value: T) | Err(error: E)
  {
    predicate IsOk() { this.Ok? }
  }

  /** A Rust call either returns a value or panics (unwrap, assert!, index out of range). */
  datatype Outcome<T> = Returns(value: T) | Panics(reason: string)
  {
    /** A panic unwinds through every caller, which `:-` expresses. */
    predicate IsFailure() { Panics? }

    function PropagateFailure<U>(): Outcome<U>
      requires Panics?
    {
      Panics(reason)
    }

    function Extract(): T
      requires Returns?
    {
      value
    }
  }

  /** Little-endian u16 of two bytes. */
  function Le16(lo: u8, hi: u8): (r: u16)
    ensures r % 0x100 == lo && r / 0x100 == hi
  {
    lo + 0x100 * hi
  }

  /** Little-endian u16 read at `at` in `b`. */
  function Le16At(b: seq<u8>, at: nat): (r: u16)
    requires at + 2 <= |b|
    ensures r % 0x100 == b[at] && r / 0x100 == b[at + 1]
  {
    Le16(b[at], b[at + 1])
  }

  /** Little-endian u32 read at `at` in `b`. */
  function Le32At(b: seq<u8>, at: nat): u32
    requires at + 4 <= |b|
  {
    Le16At(b, at) + 0x1_0000 * Le16At(b, at + 2)
  }

  /** Big-endian u16 read at `at` in `b`. */
  function Be16At(b: seq<u8>, at: nat): u16
    requires at + 2 <= |b|
  {
    0x100 * (b[at] as int) + b[at + 1]
  }

  /** Big-endian u32 read at `at` in `b`. */
  function Be32At(b: seq<u8>, at: nat): u32
    requires at + 4 <= |b|
  {
    0x1_0000 * Be16At(b, at) + Be16At(b, at + 2)
  }

  /** `x.to_le_bytes()` for a u16. */
  function Le16Bytes(x: u16): (r: seq<u8>)
    ensures |r| == 2 && Le16At(r, 0) == x
  {
    [x % 0x100, x / 0x100]
  }

  /** `x.to_le_bytes()` for a u32. */
  function Le32Bytes(x: u32): (r: seq<u8>)
    ensures |r| == 4 && Le32At(r, 0) == x
  {
    Le16Bytes(x % 0x1_0000) + Le16Bytes(x / 0x1_0000)
  }

  /** `x.to_le_bytes()` for a u64. */
  function Le64Bytes(x: u64): (r: seq<u8>)
    ensures |r| == 8
    ensures Le32At(r, 0) + 0x1_0000_0000 * Le32At(r, 4) == x
  {
    Le32Bytes(x % 0x1_0000_0000) + Le32Bytes(x / 0x1_0000_0000)
  }

  lemma Le16BytesOfLe16At(b: seq<u8>, at: nat)
    requires at + 2 <= |b|
    ensures Le16Bytes(Le16At(b, at)) == b[at..at + 2]
  {
  }

  /** Splitting `lo + 0x1_0000 * hi` at 16 bits gives back its halves. */
  lemma Split16(lo: u16, hi: int)
    requires hi >= 0
    ensures (lo + 0x1_0000 * hi) % 0x1_0000 == lo && (lo + 0x1_0000 * hi) / 0x1_0000 == hi
  {
  }

  lemma Le32BytesOfLe32At(b: seq<u8>, at: nat)
    requires at + 4 <= |b|
    ensures Le32Bytes(Le32At(b, at)) == b[at..at + 4]
  {
    Split16(Le16At(b, at), Le16At(b, at + 2));
    Le16BytesOfLe16At(b, at);
    Le16BytesOfLe16At(b, at + 2);
  }

  /** Plain (unbounded) sum of a byte sequence. */
  function Sum(s: seq<u8>): (r: nat)
    ensures r <= 0xFF * |s|
  {
    if s == [] then 0 else Sum(s[..|s| - 1]) + s[|s| - 1]
  }

  lemma {:induction false} SumAppend(a: seq<u8>, b: seq<u8>)
    ensures Sum(a + b) == Sum(a) + Sum(b)
  {
    if b == [] {
      assert a + b == a;
    } else {
      assert (a + b)[..|a + b| - 1] == a + b[..|b| - 1];
      SumAppend(a, b[..|b| - 1]);
    }
  }

  lemma {:induction false} SumZeros(n: nat)
    ensures Sum(seq(n, _ => 0)) == 0
  {
    if n > 0 {
      assert seq(n, _ => 0)[..n - 1] == seq(n - 1, _ => 0);
      SumZeros(n - 1);
    }
  }

  function Min(a: int, b: int): (r: int)
    ensures r <= a && r <= b && (r == a || r == b)
  {
    if a <= b then a else b
  }

  function Max(a: int, b: int): (r: int)
    ensures r >= a && r >= b && (r == a || r == b)
  {
    if a >= b then a else b
  }

  /** Bit `n` of `x`. */
  predicate Bit(x: nat, n: nat)
  {
    (x / Pow2(n)) % 2 == 1
  }

  function Pow2(n: nat): (r: nat)
    ensures r >= 1
  {
    if n == 0 then 1 else 2 * Pow2(n - 1)
  }

  /** `needle` occurs in `hay` at index `j`. */
  predicate OccursAt(hay: seq<u8>, needle: seq<u8>, j: nat)
  {
    j + |needle| <= |hay| && hay[j..j + |needle|] == needle
  }

  /** First index at which `needle` occurs in `hay`, searching from `from`. */
  function FindFrom(hay: seq<u8>, needle: seq<u8>, from: nat): (r: Option<nat>)
    requires |needle| > 0
    decreases |hay| - from
    ensures r.Some? ==> from <= r.value && OccursAt(hay, needle, r.value)
    ensures r.Some? ==> forall j :: from <= j < r.value ==> !OccursAt(hay, needle, j)
    ensures r.None? ==> forall j :: from <= j ==> !OccursAt(hay, needle, j)
  {
    if from + |needle| > |hay| then None
    else if hay[from..from + |needle|] == needle then Some(from)
    else FindFrom(hay, needle, from + 1)
  }

  /** First occurrence of `needle` in `hay` (the search `util::find_sequence` performs). */
  function Find(hay: seq<u8>, needle: seq<u8>): (r: Option<nat>)
    requires |needle| > 0
    ensures r.Some? ==> OccursAt(hay, needle, r.value)
    ensures r.Some? ==> forall j :: 0 <= j < r.value ==> !OccursAt(hay, needle, j)
    ensures r.None? ==> forall j :: 0 <= j ==> !OccursAt(hay, needle, j)
  {
    FindFrom(hay, needle, 0)
  }

  /** The bytes of an ASCII string literal. */
  function Ascii(s: string): (r: seq<u8>)
    requires forall i :: 0 <= i < |s| ==> s[i] as int < 0x80
    ensures |r| == |s| && forall i :: 0 <= i < |s| ==> r[i] == s[i] as int
  {
    if s == [] then [] else [s[0] as int] + Ascii(s[1..])
  }
}
