/** SHA-256 of Crypto.cpp: the one-shot definition of FIPS 180-4, and the streaming context that
    computes it for every way of cutting the message into pieces. */
module Sha256 {
  import opened Bytes
  import opened CryptoBytes

  type Hash = s: seq<bv32> | |s| == 8 witness seq(8, i => 0)

  const DIGEST_LEN := 32

  const K: seq<bv32> := [
    0x428a2f98, 0x71374491, 0xb5c0fbcf, 0xe9b5dba5, 0x3956c25b, 0x59f111f1,
    0x923f82a4, 0xab1c5ed5, 0xd807aa98, 0x12835b01, 0x243185be, 0x550c7dc3,
    0x72be5d74, 0x80deb1fe, 0x9bdc06a7, 0xc19bf174, 0xe49b69c1, 0xefbe4786,
    0x0fc19dc6, 0x240ca1cc, 0x2de92c6f, 0x4a7484aa, 0x5cb0a9dc, 0x76f988da,
    0x983e5152, 0xa831c66d, 0xb00327c8, 0xbf597fc7, 0xc6e00bf3, 0xd5a79147,
    0x06ca6351, 0x14292967, 0x27b70a85, 0x2e1b2138, 0x4d2c6dfc, 0x53380d13,
    0x650a7354, 0x766a0abb, 0x81c2c92e, 0x92722c85, 0xa2bfe8a1, 0xa81a664b,
    0xc24b8b70, 0xc76c51a3, 0xd192e819, 0xd6990624, 0xf40e3585, 0x106aa070,
    0x19a4c116, 0x1e376c08, 0x2748774c, 0x34b0bcb5, 0x391c0cb3, 0x4ed8aa4a,
    0x5b9cca4f, 0x682e6ff3, 0x748f82ee, 0x78a5636f, 0x84c87814, 0x8cc70208,
    0x90befffa, 0xa4506ceb, 0xbef9a3f7, 0xc67178f2]

  const H0: Hash := [0x6a09e667, 0xbb67ae85, 0x3c6ef372, 0xa54ff53a, 0x510e527f, 0x9b05688c, 0x1f83d9ab, 0x5be0cd19]

  lemma KLength()
    ensures |K| == 64
  {
  }

  // ---- the definition (sections 4.1.2, 5.1.1 and 6.2 of FIPS 180-4) ----

  function Rotr(x: bv32, n: nat): bv32
    requires 0 < n < 32
  {
    (x >> n) | (x << (32 - n))
  }

  function Sigma0(x: bv32): bv32 { Rotr(x, 2) ^ Rotr(x, 13) ^ Rotr(x, 22) }

  function Sigma1(x: bv32): bv32 { Rotr(x, 6) ^ Rotr(x, 11) ^ Rotr(x, 25) }

  function SmallSigma0(x: bv32): bv32 { Rotr(x, 7) ^ Rotr(x, 18) ^ (x >> 3) }

  function SmallSigma1(x: bv32): bv32 { Rotr(x, 17) ^ Rotr(x, 19) ^ (x >> 10) }

  function Ch(x: bv32, y: bv32, z: bv32): bv32 { (x & y) ^ (!x & z) }

  function Maj(x: bv32, y: bv32, z: bv32): bv32 { (x & y) ^ (x & z) ^ (y & z) }

  /** Addition of 32-bit words, which wraps. */
  function Plus(x: bv32, y: bv32): bv32 { x + y }

  /** Word t >= 16 of the message schedule. */
  function Expand(w: seq<bv32>, t: nat): bv32
    requires |w| == t >= 16
  {
    Plus(Plus(Plus(w[t - 16], SmallSigma0(w[t - 15])), w[t - 7]), SmallSigma1(w[t - 2]))
  }

  function Schedule(b: seq<bv8>, n: nat): (w: seq<bv32>)
    requires |b| == 64
    ensures |w| == n
  {
    if n == 0 then []
    else
      var (w, t) := (Schedule(b, n - 1), n - 1);
      w + [if t < 16 then Pack(b[4 * t], b[4 * t + 1], b[4 * t + 2], b[4 * t + 3]) else Expand(w, t)]
  }

  function Step(v: Hash, k: bv32, w: bv32): Hash {
    var t1 := Plus(Plus(Plus(Plus(v[7], Sigma1(v[4])), Ch(v[4], v[5], v[6])), k), w);
    var t2 := Plus(Sigma0(v[0]), Maj(v[0], v[1], v[2]));
    [Plus(t1, t2), v[0], v[1], v[2], Plus(v[3], t1), v[4], v[5], v[6]]
  }

  function Steps(h: Hash, b: seq<bv8>, n: nat): Hash
    requires |b| == 64 && n <= 64
  {
    if n == 0 then h else KLength(); Step(Steps(h, b, n - 1), K[n - 1], Schedule(b, 64)[n - 1])
  }

  function Add(a: Hash, b: Hash): Hash {
    [Plus(a[0], b[0]), Plus(a[1], b[1]), Plus(a[2], b[2]), Plus(a[3], b[3]),
     Plus(a[4], b[4]), Plus(a[5], b[5]), Plus(a[6], b[6]), Plus(a[7], b[7])]
  }

  function Compress(h: Hash, b: seq<bv8>): Hash
    requires |b| == 64
  {
    Add(h, Steps(h, b, 64))
  }

  predicate Whole(m: seq<bv8>) { |m| % 64 == 0 }

  function Blocks(m: seq<bv8>): Hash
    requires Whole(m)
  {
    if m == [] then H0 else Compress(Blocks(m[..|m| - 64]), m[|m| - 64..])
  }

  predicate RoomForLength(n: nat) { n % 64 == 56 }

  /** The least number of zero bytes that leaves room for the length in the last block. */
  function ZeroPad(n: nat): (k: nat)
    ensures RoomForLength(n + 1 + k)
  {
    (55 - n) % 64
  }

  lemma ZeroPadLeast(n: nat, j: nat)
    requires RoomForLength(n + 1 + j)
    ensures ZeroPad(n) <= j
  {
  }

  function LengthField(n: nat): (b: seq<bv8>)
    ensures |b| == 8
  {
    Be64(8 * n % U64_MODULUS)
  }

  function Padding(n: nat): (p: seq<bv8>)
    ensures (n + |p|) % 64 == 0
  {
    PaddedWhole(n, ZeroPad(n));
    [0x80] + Repeat<bv8>(0, ZeroPad(n)) + LengthField(n)
  }

  lemma PaddedWhole(n: nat, k: nat)
    requires RoomForLength(n + 1 + k)
    ensures (n + (1 + k + 8)) % 64 == 0
  {
  }

  function Digest(h: Hash): (d: seq<bv8>)
    ensures |d| == DIGEST_LEN
  {
    DigestPart(h, 8)
  }

  function DigestPart(h: Hash, n: nat): (d: seq<bv8>)
    requires n <= 8
    ensures |d| == 4 * n
  {
    if n == 0 then []
    else DigestPart(h, n - 1) + [ByteOf(h[n - 1], 24), ByteOf(h[n - 1], 16), ByteOf(h[n - 1], 8), ByteOf(h[n - 1], 0)]
  }

  function Sha(m: seq<bv8>): (d: seq<bv8>)
    ensures |d| == DIGEST_LEN
  {
    Digest(Blocks(m + Padding(|m|)))
  }

  // ---- the streaming context ----

  /** `h` has absorbed the whole blocks of `m`, and `rest` is what is left of it. */
  predicate Absorbed(m: seq<bv8>, h: Hash, rest: seq<bv8>) {
    && |rest| == |m| % 64
    && rest == m[|m| - |rest|..]
    && h == Blocks(m[..|m| - |rest|])
  }

  lemma AbsorbPart(m: seq<bv8>, h: Hash, rest: seq<bv8>, piece: seq<bv8>)
    requires Absorbed(m, h, rest) && |rest| + |piece| < 64
    ensures Absorbed(m + piece, h, rest + piece)
  {
    hide Blocks;
    assert (m + piece)[..|m| - |rest|] == m[..|m| - |rest|];
  }

  lemma AbsorbBlock(m: seq<bv8>, h: Hash, rest: seq<bv8>, piece: seq<bv8>)
    requires Absorbed(m, h, rest) && |rest| + |piece| == 64
    ensures Absorbed(m + piece, Compress(h, rest + piece), [])
  {
    hide Compress;
    var whole := m[..|m| - |rest|];
    assert m + piece == whole + (rest + piece);
    assert (m + piece)[..|m + piece|] == m + piece;
    assert (m + piece)[..|m + piece| - 64] == whole && (m + piece)[|m + piece| - 64..] == rest + piece;
  }

  lemma AbsorbedAll(m: seq<bv8>, h: Hash, rest: seq<bv8>)
    requires Absorbed(m, h, rest) && Whole(m)
    ensures h == Blocks(m)
  {
    hide Blocks;
    assert m[..|m|] == m;
  }

  class Sha256Ctx {
    var h: Hash
    var total: nat
    var buf: array<bv8>
    var buflen: nat
    ghost var msg: seq<bv8>

    ghost predicate Holds(m: seq<bv8>)
      reads this, buf
    {
      buf.Length == 64 && buflen == |m| % 64 && Absorbed(m, h, buf[..buflen])
    }

    ghost predicate Valid()
      reads this, buf
    {
      Holds(msg) && total == |msg| % U64_MODULUS
    }

    constructor ()
      ensures Valid() && msg == [] && fresh(buf)
    {
      h, total, buflen := H0, 0, 0;
      buf := new bv8[64];
      msg := [];
    }

    method Block()
      requires buf.Length == 64
      modifies this`h
      ensures h == Compress(old(h), buf[..])
    {
      hide Expand, Step, Pack, Add;
      KLength();
      var p, h0 := buf[..], h;
      var w: seq<bv32> := [];
      for i := 0 to 16
        invariant w == Schedule(p, i)
      {
        w := w + [Pack(p[4 * i], p[4 * i + 1], p[4 * i + 2], p[4 * i + 3])];
      }
      for i := 16 to 64
        invariant w == Schedule(p, i)
      {
        var x := ExpandCode(w, i);
        w := w + [x];
      }
      var v := h0;
      for i := 0 to 64
        invariant v == Steps(h0, p, i)
      {
        v := Step(v, K[i], w[i]);
      }
      h := AddCode(h0, v);
    }

    method Update(data: seq<bv8>)
      requires Valid()
      modifies this, buf
      ensures Valid() && buf == old(buf) && msg == old(msg) + data
    {
      hide Absorbed;
      total := (total + |data|) % U64_MODULUS;
      var pos := 0;
      ghost var m := msg;
      assert m + data[..0] == m;
      while pos < |data|
        invariant pos <= |data| && buf == old(buf) && msg == old(msg)
        invariant m == msg + data[..pos] && Holds(m)
        invariant total == (|msg| + |data|) % U64_MODULUS
      {
        var take := 64 - buflen;
        if take > |data| - pos { take := |data| - pos; }
        assert m + data[pos..pos + take] == msg + data[..pos + take];
        Fill(data, pos, take, m);
        m := m + data[pos..pos + take];
        pos := pos + take;
      }
      assert data[..|data|] == data;
      msg := msg + data;
    }

    /** One round of the update loop. */
    method Fill(data: seq<bv8>, pos: nat, take: nat, ghost m: seq<bv8>)
      requires pos + take <= |data| && Holds(m) && 0 < take <= 64 - buflen
      modifies this`h, this`buflen, buf
      ensures Holds(m + data[pos..pos + take])
    {
      hide Compress, Absorbed;
      ghost var rest, piece := buf[..buflen], data[pos..pos + take];
      forall i | 0 <= i < take { buf[buflen + i] := data[pos + i]; }
      assert buf[..buflen + take] == rest + piece;
      buflen := buflen + take;
      if buflen == 64 {
        assert buf[..] == buf[..64];
        AbsorbBlock(m, h, rest, piece);
        Block();
        buflen := 0;
      } else {
        AbsorbPart(m, h, rest, piece);
      }
    }

    method Final() returns (out: seq<bv8>)
      requires Valid()
      modifies this, buf
      ensures out == Sha(old(msg))
    {
      hide Absorbed, LengthField, Blocks;
      ghost var m, n := msg, |msg|;
      var bits := total * 8 % U64_MODULUS;
      assert Be64(bits) == LengthField(n) by { BitCount(n); LengthFieldIs(n); }
      Update([0x80]);
      PadZeros(n);
      Update(Be64(bits));
      assert msg == m + Padding(n);
      AbsorbedAll(msg, h, buf[..buflen]);
      out := DigestCode(h);
    }

    /** Zero bytes, one at a time, until the length fits: the loop ends because (56 - buflen) mod 64 falls. */
    method PadZeros(ghost n: nat)
      requires Valid() && |msg| == n + 1
      modifies this, buf
      ensures Valid() && buf == old(buf) && msg == old(msg) + Repeat<bv8>(0, ZeroPad(n))
    {
      hide Absorbed, ZeroPad;
      ghost var k := 0;
      PadEntry(n, buflen);
      while buflen != 56
        invariant Valid() && buf == old(buf)
        invariant msg == old(msg) + Repeat<bv8>(0, k)
        invariant k + (56 - buflen) % 64 == ZeroPad(n)
        decreases (56 - buflen) % 64
      {
        ghost var was := buflen;
        Update([0]);
        assert Repeat<bv8>(0, k) + [0] == Repeat<bv8>(0, k + 1);
        PadRound(n, k, was, buflen);
        k := k + 1;
      }
    }
  }

  lemma LengthFieldIs(n: nat)
    ensures LengthField(n) == Be64(8 * n % U64_MODULUS)
  {
  }

  lemma PadEntry(n: nat, buflen: nat)
    requires buflen == (n + 1) % 64
    ensures (56 - buflen) % 64 == ZeroPad(n)
  {
  }

  lemma PadRound(n: nat, k: nat, was: nat, now: nat)
    requires was == (n + 1 + k) % 64 && now == (n + 2 + k) % 64 && was != 56
    ensures (56 - now) % 64 == (56 - was) % 64 - 1
  {
    NextPlace(n + 1 + k);
    Place(56 - was);
    Place(56 - now);
  }

  lemma NextPlace(x: nat)
    ensures (x + 1) % 64 == if x % 64 == 63 then 0 else x % 64 + 1
  {
  }

  lemma Place(x: int)
    requires -64 < x < 64
    ensures x % 64 == if x < 0 then x + 64 else x
  {
  }

  lemma BitCount(n: nat)
    ensures n % U64_MODULUS * 8 % U64_MODULUS == 8 * n % U64_MODULUS
  {
    var q, r := n / U64_MODULUS, n % U64_MODULUS;
    assert 8 * n == 8 * r + 8 * q * U64_MODULUS;
  }

  method ExpandCode(w: seq<bv32>, i: nat) returns (x: bv32)
    requires |w| == i >= 16
    ensures x == Expand(w, i)
  {
    hide Plus, SmallSigma0, SmallSigma1;
    var s0, s1 := SmallSigma0(w[i - 15]), SmallSigma1(w[i - 2]);
    x := Plus(Plus(Plus(w[i - 16], s0), w[i - 7]), s1);
  }

  method AddCode(h: Hash, v: Hash) returns (r: Hash)
    ensures r == Add(h, v)
  {
    hide Plus;
    r := [Plus(h[0], v[0]), Plus(h[1], v[1]), Plus(h[2], v[2]), Plus(h[3], v[3]),
          Plus(h[4], v[4]), Plus(h[5], v[5]), Plus(h[6], v[6]), Plus(h[7], v[7])];
  }

  method DigestCode(h: Hash) returns (out: seq<bv8>)
    ensures out == Digest(h)
  {
    hide ByteOf;
    out := [];
    for i := 0 to 8
      invariant out == DigestPart(h, i)
    {
      out := out + [ByteOf(h[i], 24), ByteOf(h[i], 16), ByteOf(h[i], 8), ByteOf(h[i], 0)];
    }
  }

  method HashCode(data: seq<bv8>) returns (out: seq<bv8>)
    ensures out == Sha(data)
  {
    hide Sha;
    var ctx := new Sha256Ctx();
    ctx.Update(data);
    assert [] + data == data;
    out := ctx.Final();
  }

  function Concat(pieces: seq<seq<bv8>>): seq<bv8> {
    if pieces == [] then [] else Concat(pieces[..|pieces| - 1]) + pieces[|pieces| - 1]
  }

  /** Any cutting of a message into `update` calls gives the digest of the whole message. */
  method HashPieces(pieces: seq<seq<bv8>>) returns (out: seq<bv8>)
    ensures out == Sha(Concat(pieces))
  {
    hide Sha;
    var ctx := new Sha256Ctx();
    for i := 0 to |pieces|
      invariant ctx.Valid() && fresh(ctx) && fresh(ctx.buf) && ctx.msg == Concat(pieces[..i])
    {
      ctx.Update(pieces[i]);
      assert pieces[..i + 1][..i] == pieces[..i];
    }
    assert pieces[..|pieces|] == pieces;
    out := ctx.Final();
  }
}
