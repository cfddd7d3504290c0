/** Machine types and the optional value, shared by the components. */
module CTypes {
  newtype Byte = b: int | 0 <= b < 256

  datatype Option<T> = None | Some(value: T)

  function Min(a: nat, b: nat): nat { if a < b then a else b }

  const U32 := 0x1_0000_0000

  /** a - b on 32-bit unsigned integers. */
  function Sub32(a: nat, b: nat): (r: nat)
    requires a < U32 && b < U32
    ensures r < U32
  {
    if a >= b then a - b else a - b + U32
  }
}
