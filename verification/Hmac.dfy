/** HMAC-SHA256 (RFC 2104) and PBKDF2 (section 5.2 of RFC 8018), whose code reuses one buffer as
    the input and the output of HMAC and accumulates the exclusive-or in the output itself. */
module Hmac {
  import opened Bytes
  import opened CryptoBytes
  import opened Gf256
  import opened Sha256

  // ---- HMAC ----

  function KeyBlock(key: seq<bv8>): (k: seq<bv8>)
    ensures |k| == 64
  {
    if |key| > 64 then Sha(key) + Repeat<bv8>(0, 32) else key + Repeat<bv8>(0, 64 - |key|)
  }

  function XorWith(k: seq<bv8>, x: bv8): (r: seq<bv8>)
    ensures |r| == |k|
  {
    seq(|k|, i requires 0 <= i < |k| => Xor(k[i], x))
  }

  function Mac(key: seq<bv8>, msg: seq<bv8>): (d: seq<bv8>)
    ensures |d| == DIGEST_LEN
  {
    var k := KeyBlock(key);
    Sha(XorWith(k, 0x5c) + Sha(XorWith(k, 0x36) + msg))
  }

  /** `out` may be the array that holds the message. */
  method HmacCode(key: seq<bv8>, msg: array<bv8>, msgLen: nat, out: array<bv8>)
    requires msgLen <= msg.Length && out.Length >= DIGEST_LEN
    modifies out
    ensures out[..DIGEST_LEN] == Mac(key, old(msg[..msgLen]))
    ensures out[DIGEST_LEN..] == old(out[DIGEST_LEN..])
  {
    hide Sha, Xor, KeyBlock, XorWith;
    ghost var m := msg[..msgLen];
    var k := KeyCode(key);
    var ipad, opad := new bv8[64], new bv8[64];
    XorFill(k, 0x36, ipad);
    XorFill(k, 0x5c, opad);
    var ih := TwoPieces(ipad[..], msg[..msgLen]);
    var oh := TwoPieces(opad[..], ih);
    assert oh == Mac(key, m);
    forall i | 0 <= i < DIGEST_LEN { out[i] := oh[i]; }
    assert out[..DIGEST_LEN] == oh;
  }

  method KeyCode(key: seq<bv8>) returns (k: array<bv8>)
    ensures fresh(k) && k[..] == KeyBlock(key)
  {
    hide Sha;
    k := new bv8[64](i => 0);
    if |key| > 64 {
      var d := HashCode(key);
      forall i | 0 <= i < DIGEST_LEN { k[i] := d[i]; }
    } else {
      forall i | 0 <= i < |key| { k[i] := key[i]; }
    }
    assert k[..] == KeyBlock(key);
  }

  method XorFill(k: array<bv8>, x: bv8, pad: array<bv8>)
    requires k.Length == pad.Length && k != pad
    modifies pad
    ensures pad[..] == XorWith(k[..], x)
  {
    hide Xor;
    forall i | 0 <= i < k.Length { pad[i] := Xor(k[i], x); }
  }

  method TwoPieces(a: seq<bv8>, b: seq<bv8>) returns (d: seq<bv8>)
    ensures d == Sha(a + b)
  {
    hide Sha;
    var ctx := new Sha256Ctx();
    ctx.Update(a);
    assert [] + a == a;
    ctx.Update(b);
    d := ctx.Final();
  }

  // ---- PBKDF2 ----

  const U32_MODULUS := 0x1_0000_0000

  /** U_j of block i. */
  function U(pw: seq<bv8>, salt: seq<bv8>, i: nat, j: nat): (u: seq<bv8>)
    requires j >= 1
    ensures |u| == DIGEST_LEN
  {
    Mac(pw, if j == 1 then salt + Be32(i % U32_MODULUS) else U(pw, salt, i, j - 1))
  }

  function XorSeq(a: seq<bv8>, b: seq<bv8>): (r: seq<bv8>)
    requires |a| == |b|
    ensures |r| == |a|
  {
    seq(|a|, i requires 0 <= i < |a| => Xor(a[i], b[i]))
  }

  /** F(pw, salt, c, i): the exclusive-or of U_1 to U_c. */
  function F(pw: seq<bv8>, salt: seq<bv8>, c: nat, i: nat): (f: seq<bv8>)
    requires c >= 1
    ensures |f| == DIGEST_LEN
  {
    if c == 1 then U(pw, salt, i, 1) else XorSeq(F(pw, salt, c - 1, i), U(pw, salt, i, c))
  }

  /** T_1 to T_n. */
  function Ts(pw: seq<bv8>, salt: seq<bv8>, c: nat, n: nat): (t: seq<bv8>)
    requires c >= 1
    ensures |t| == DIGEST_LEN * n
  {
    if n == 0 then [] else Ts(pw, salt, c, n - 1) + F(pw, salt, c, n)
  }

  function Derived(pw: seq<bv8>, salt: seq<bv8>, c: nat, n: nat): (dk: seq<bv8>)
    requires c >= 1
    ensures |dk| == n
  {
    Ts(pw, salt, c, (n + 31) / 32)[..n]
  }

  lemma {:induction false} TsPrefix(pw: seq<bv8>, salt: seq<bv8>, c: nat, n: nat, m: nat)
    requires c >= 1 && n <= m
    ensures Ts(pw, salt, c, n) <= Ts(pw, salt, c, m)
  {
    hide F;
    if n < m { TsPrefix(pw, salt, c, n, m - 1); }
  }

  /** A shorter derived key is a prefix of every longer one. */
  lemma DerivedPrefix(pw: seq<bv8>, salt: seq<bv8>, c: nat, n: nat, m: nat)
    requires c >= 1 && n <= m
    ensures Derived(pw, salt, c, n) == Derived(pw, salt, c, m)[..n]
  {
    hide Ts;
    TsPrefix(pw, salt, c, (n + 31) / 32, (m + 31) / 32);
  }

  lemma DerivedGrow(pw: seq<bv8>, salt: seq<bv8>, c: nat, k: nat, n: nat)
    requires c >= 1 && n <= 32
    ensures Derived(pw, salt, c, 32 * k + n) == Derived(pw, salt, c, 32 * k) + F(pw, salt, c, k + 1)[..n]
  {
    hide F;
    if n == 0 {
    } else {
      assert (32 * k + n + 31) / 32 == k + 1;
    }
  }

  /** The iterations 1 .. c - 1 of one block: `u` is the input and the output of every HMAC, and
      the exclusive-or is formed in `out`. */
  method Iterate(pw: seq<bv8>, ghost salt: seq<bv8>, ghost block: nat, c: nat, u: array<bv8>, out: array<bv8>,
      off: nat, n: nat)
    requires c >= 1 && n <= DIGEST_LEN == u.Length && off + n <= out.Length && u != out
    requires u[..] == U(pw, salt, block, 1) && out[off..off + n] == U(pw, salt, block, 1)[..n]
    modifies u, out
    ensures out[off..off + n] == F(pw, salt, c, block)[..n]
    ensures out[..off] == old(out[..off])
  {
    hide Mac, Xor;
    for i := 1 to c
      invariant u[..] == U(pw, salt, block, i)
      invariant out[off..off + n] == F(pw, salt, i, block)[..n]
      invariant out[..off] == old(out[..off])
    {
      ghost var f := F(pw, salt, i, block);
      assert u[..DIGEST_LEN] == u[..];
      HmacCode(pw, u, DIGEST_LEN, u);
      assert u[..DIGEST_LEN] == u[..];
      XorInto(out, off, n, u, f);
    }
  }

  method XorInto(out: array<bv8>, off: nat, n: nat, u: array<bv8>, ghost f: seq<bv8>)
    requires |f| == u.Length && n <= u.Length && off + n <= out.Length && u != out
    requires out[off..off + n] == f[..n]
    modifies out
    ensures out[off..off + n] == XorSeq(f, u[..])[..n]
    ensures out[..off] == old(out[..off])
  {
    hide Xor;
    ghost var g := XorSeq(f, u[..])[..n];
    assert forall j :: 0 <= j < n ==> f[..n][j] == out[off..off + n][j];
    assert forall j :: 0 <= j < n ==> g[j] == Xor(f[..n][j], u[j]);
    forall j | 0 <= j < n { out[off + j] := Xor(out[off + j], u[j]); }
    assert forall j :: 0 <= j < n ==> out[off..off + n][j] == g[j];
  }

  method Pbkdf2Code(pw: seq<bv8>, salt: seq<bv8>, iterations: nat, out: array<bv8>)
    modifies out
    ensures |salt| > 60 ==> out[..] == Repeat<bv8>(0, out.Length)
    ensures |salt| <= 60 ==> out[..] == Derived(pw, salt, if iterations == 0 then 1 else iterations, out.Length)
  {
    hide Mac, F, Derived, Be32;
    var c := if iterations == 0 then 1 else iterations;
    if |salt| > 60 {
      forall i | 0 <= i < out.Length { out[i] := 0; }
      return;
    }
    var off, block := 0, 1;
    ghost var k := 0;
    var u := new bv8[DIGEST_LEN];
    assert out[..0] == Derived(pw, salt, c, 0);
    while off < out.Length
      invariant off == Min(32 * k, out.Length) && block == (k + 1) % U32_MODULUS
      invariant out[..off] == Derived(pw, salt, c, off)
    {
      var n := BlockCode(pw, salt, k, block, c, u, out, off);
      DerivedGrow(pw, salt, c, k, n);
      assert out[..off + n] == out[..off] + out[off..off + n];
      off := off + n;
      block := (block + 1) % U32_MODULUS;
      k := k + 1;
    }
    assert out[..out.Length] == out[..];
  }

  /** One block of the output. */
  method BlockCode(pw: seq<bv8>, salt: seq<bv8>, ghost k: nat, block: nat, c: nat, u: array<bv8>, out: array<bv8>,
      off: nat)
    returns (n: nat)
    requires |salt| <= 60 && c >= 1 && block == (k + 1) % U32_MODULUS && u.Length == DIGEST_LEN && u != out
    requires off < out.Length
    modifies u, out
    ensures n == Min(out.Length - off, DIGEST_LEN)
    ensures out[off..off + n] == F(pw, salt, c, k + 1)[..n] && out[..off] == old(out[..off])
  {
    hide Mac, F, Be32;
    FirstHmac(pw, salt, k + 1, block, u);
    n := Min(out.Length - off, DIGEST_LEN);
    forall j | 0 <= j < n { out[off + j] := u[j]; }
    Iterate(pw, salt, k + 1, c, u, out, off, n);
  }

  /** The first HMAC of a block, over the salt and the block counter. */
  method FirstHmac(pw: seq<bv8>, salt: seq<bv8>, ghost i: nat, block: nat, u: array<bv8>)
    requires |salt| <= 60 && block == i % U32_MODULUS && u.Length == DIGEST_LEN
    modifies u
    ensures u[..] == U(pw, salt, i, 1)
  {
    hide Mac, Be32;
    var buf := new bv8[64];
    var count := Be32(block);
    forall j | 0 <= j < |salt| { buf[j] := salt[j]; }
    forall j | 0 <= j < 4 { buf[|salt| + j] := count[j]; }
    assert buf[..|salt| + 4] == salt + count;
    HmacCode(pw, buf, |salt| + 4, u);
    assert u[..] == u[..DIGEST_LEN];
  }
}
