/** Bytes and words of the cryptographic code, where bits matter, as bit vectors. */
module CryptoBytes {
  import opened Bytes

  function Ix(x: bv8): (i: nat)
    ensures i < 256
  {
    x as nat
  }

  function ByteAt(i: nat): (x: bv8)
    requires i < 256
    ensures Ix(x) == i
  {
    if i == 0 then 0 else ByteAt(i - 1) + 1
  }

  lemma IxInjective(x: bv8, y: bv8)
    requires Ix(x) == Ix(y)
    ensures x == y
  {
    assert (x as nat) as bv8 == x;
    assert (y as nat) as bv8 == y;
  }

  function Pack(b0: bv8, b1: bv8, b2: bv8, b3: bv8): bv32 {
    ((b0 as bv32) << 24) | ((b1 as bv32) << 16) | ((b2 as bv32) << 8) | (b3 as bv32)
  }

  function ByteOf(w: bv32, shift: nat): bv8
    requires shift <= 24
  {
    ((w >> shift) & 0xff) as bv8
  }

  /** The big-endian bytes of a 32-bit and of a 64-bit counter. */
  function Be32(n: nat): (b: seq<bv8>)
    ensures |b| == 4
  {
    [ByteAt(n / 0x100_0000 % 256), ByteAt(n / 0x1_0000 % 256), ByteAt(n / 0x100 % 256), ByteAt(n % 256)]
  }

  function Be64(n: nat): (b: seq<bv8>)
    ensures |b| == 8
  {
    Be32(n / 0x1_0000_0000) + Be32(n)
  }

  // ---- bytes as numbers and as bit vectors ----

  function Bits(s: seq<byte>): (b: seq<bv8>)
    ensures |b| == |s|
  {
    seq(|s|, i requires 0 <= i < |s| => ByteAt(s[i]))
  }

  function Nats(b: seq<bv8>): (s: seq<byte>)
    ensures |s| == |b|
  {
    seq(|b|, i requires 0 <= i < |b| => Ix(b[i]))
  }

  lemma NatsBits(s: seq<byte>)
    ensures Nats(Bits(s)) == s
  {
    hide Ix, ByteAt;
  }

  lemma BitsNats(b: seq<bv8>)
    ensures Bits(Nats(b)) == b
  {
    hide Ix, ByteAt;
    forall i | 0 <= i < |b| ensures Bits(Nats(b))[i] == b[i] { IxInjective(ByteAt(Ix(b[i])), b[i]); }
  }
}
