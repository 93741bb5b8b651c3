/** Machine words and the small datatypes every module shares. */
module Primitives {

  type byte = bv8

  const WORD_SIZE: int := 0x1_0000_0000

  /** The C type `u_int`: every operation that can leave the range says how it wraps. */
  type u32 = x: int | 0 <= x < WORD_SIZE

  function Add32(a: u32, b: nat): u32 {
    (a + b) % WORD_SIZE
  }

  function Sub32(a: u32, b: nat): u32 {
    (a - b) % WORD_SIZE
  }

  function Mul32(a: u32, b: u32): u32 {
    (a * b) % WORD_SIZE
  }

  function Min(a: int, b: int): int {
    if a <= b then a else b
  }

  datatype Option<+T> = None | Some(value: T)

  lemma Whole<T>(s: seq<T>, n: nat)
    requires n <= |s|
    ensures s[..n] + s[n..] == s
  {
  }

  lemma HeadApart<T>(a: seq<T>, b: seq<T>)
    requires a != []
    ensures a + b == [a[0]] + (a[1..] + b)
  {
  }

  lemma Regroup<T>(a: seq<T>, b: seq<T>, c: seq<T>)
    ensures a + b + c == a + (b + c)
  {
  }
}
