// Types and facts that several modules share.
module Common {

  datatype Option<T> = None | Some(value: T)

  type Byte = b: int | 0 <= b < 0x100
  type U16 = x: nat | x < 0x1_0000
  type U32 = x: nat | x < 0x1_0000_0000

  // unsigned 32-bit arithmetic
  function Wrapped(x: int): U32 {
    x % 0x1_0000_0000
  }

  lemma MulMonotone(n: nat, a: int, b: int)
    ensures a <= b ==> n * a <= n * b
  {
  }
}
