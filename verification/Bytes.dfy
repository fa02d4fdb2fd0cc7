/** Bytes, 16-bit words, flag bits, endpoints and the Option type shared by the other modules. */
module Bytes {
  type byte = x: nat | x < 0x100

  type u16 = x: nat | x < 0x1_0000

  const U64_MODULUS := 0x1_0000_0000_0000_0000

  const MAX_UUID_LEN := 32

  /** An IPv4 address and port. */
  datatype Endpoint = Endpoint(ip: nat, port: u16)

  datatype Option<+T> = None | Some(value: T)

  function Repeat<T>(x: T, n: nat): (s: seq<T>)
    ensures |s| == n
  {
    seq(n, i => x)
  }

  function Min(a: nat, b: nat): nat { if a <= b then a else b }

  /** The successor of a 16-bit counter, which wraps. */
  function Next16(x: u16): u16 { (x + 1) % 0x1_0000 }

  /** Big-endian 16-bit store and load, as the codec does by hand. */
  function Hi(x: u16): byte { x / 0x100 }

  function Lo(x: u16): byte { x % 0x100 }

  function Get16(hi: byte, lo: byte): (x: u16)
    ensures Hi(x) == hi && Lo(x) == lo
  {
    hi * 0x100 + lo
  }

  lemma Split16(x: u16)
    ensures Get16(Hi(x), Lo(x)) == x
  {
  }

  /** `flags & bit` for a one-bit mask. */
  predicate HasFlag(flags: byte, bit: byte)
    requires bit > 0
  {
    flags / bit % 2 == 1
  }

  /** `flags | TF_ENC` and `flags & ~TF_ENC` for the mask 0x02. */
  function SetBit1(flags: byte): (r: byte)
    ensures HasFlag(r, 2)
    ensures HasFlag(flags, 2) ==> r == flags
  {
    if HasFlag(flags, 2) then flags else flags + 2
  }

  function ClearBit1(flags: byte): (r: byte)
    ensures !HasFlag(r, 2)
    ensures !HasFlag(flags, 2) ==> r == flags
    ensures SetBit1(r) == SetBit1(flags)
  {
    if HasFlag(flags, 2) then flags - 2 else flags
  }
}
