/** Machine widths and result types shared by the other modules. */
module Common {

  datatype Option<+T> = None | Some(value: T)

  datatype Result<+T, +E> = Ok(value: T) | Err(error: E)

  const TWO16: int := 0x1_0000
  const TWO32: int := 0x1_0000_0000
  const TWO64: int := 0x1_0000_0000_0000_0000

  type Byte = x: int | 0 <= x < 0x100
  type U16 = x: int | 0 <= x < 0x1_0000
  type U32 = x: int | 0 <= x < 0x1_0000_0000
  type U64 = x: int | 0 <= x < 0x1_0000_0000_0000_0000
  type I8 = x: int | -0x80 <= x < 0x80

  /** Raw bytes, and C strings and characters by their codes. */
  type Bytes = seq<Byte>

  function Zeros(n: nat): (r: Bytes)
    ensures |r| == n && forall k :: 0 <= k < n ==> r[k] == 0
  {
    seq(n, _ => 0)
  }

  /** The C casts to unsigned types, and the wrap-around of unsigned arithmetic. */
  function ToU8(x: int): Byte { x % 0x100 }
  function ToU16(x: int): U16 { x % 0x1_0000 }
  function ToU32(x: int): U32 { x % 0x1_0000_0000 }
  function ToU64(x: int): U64 { x % 0x1_0000_0000_0000_0000 }

  function Min(a: int, b: int): int { if a < b then a else b }
  function Max(a: int, b: int): int { if a > b then a else b }
}
