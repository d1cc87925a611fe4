/** Small value types shared by every module: optional values, fallible results and the
    fixed-width integers of the engine, with their saturating and wrapping arithmetic. */
module Common {

  datatype Option<+T> = None | Some(value: T)

  datatype Result<+T, +E> = Ok(value: T) | Err(error: E)

  const U64_MAX: int := 0xFFFF_FFFF_FFFF_FFFF
  const TWO_64: int := 0x1_0000_0000_0000_0000

  type u64 = x: int | 0 <= x <= U64_MAX

  type byte = x: int | 0 <= x < 256

  /** `u64::saturating_add`. */
  function SatAdd(a: u64, b: u64): u64 {
    if a + b > U64_MAX then U64_MAX else a + b
  }

  function Min(a: int, b: int): int {
    if a < b then a else b
  }

  function Max(a: int, b: int): int {
    if a > b then a else b
  }

  lemma Associates<T>(a: seq<T>, b: seq<T>, c: seq<T>)
    ensures (a + b) + c == a + (b + c)
  {
  }

  lemma ShorterPrefix<T>(a: seq<T>, b: seq<T>)
    requires a <= b && a != b
    ensures a <= b[..|b| - 1]
  {
  }

  /** A concatenation ends as its second part does. */
  lemma EndsIn<T>(a: seq<T>, b: seq<T>)
    requires b != []
    ensures (a + b)[..|a + b| - 1] == a + b[..|b| - 1]
  {
  }
}
