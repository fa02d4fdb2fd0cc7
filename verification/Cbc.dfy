/** AES-256-CBC with PKCS7 padding (section 6.2 of NIST SP 800-38A, section 6.3 of RFC 5652):
    for each key and IV it is a bijection between plaintexts and accepted ciphertexts. */
module Cbc {
  import opened Bytes
  import opened CryptoBytes
  import opened Gf256
  import opened Aes
  import opened AesCode

  function XorBlock(a: Block, b: Block): Block { seq(16, i requires 0 <= i < 16 => Xor(a[i], b[i])) }

  predicate Whole(s: seq<bv8>) { |s| % 16 == 0 }

  /** The block that is chained into the next one. */
  function Last(iv: Block, c: seq<bv8>): Block
    requires Whole(c)
  {
    if c == [] then iv else c[|c| - 16..]
  }

  function Chain(rk: Schedule, iv: Block, p: seq<bv8>): (c: seq<bv8>)
    requires Whole(p)
    ensures |c| == |p|
  {
    if p == [] then []
    else
      var n := |p| - 16;
      var c := Chain(rk, iv, p[..n]);
      c + Encrypt(rk, XorBlock(p[n..], Last(iv, c)))
  }

  function Unchain(rk: Schedule, iv: Block, c: seq<bv8>): (p: seq<bv8>)
    requires Whole(c)
    ensures |p| == |c|
  {
    if c == [] then []
    else
      var n := |c| - 16;
      Unchain(rk, iv, c[..n]) + XorBlock(Decrypt(rk, c[n..]), Last(iv, c[..n]))
  }

  function PadLen(n: nat): (k: nat)
    ensures 1 <= k <= 16 && (n + k) % 16 == 0
  {
    16 - n % 16
  }

  function Pad(p: seq<bv8>): (q: seq<bv8>)
    ensures Whole(q) && |q| == |p| + PadLen(|p|)
  {
    p + seq(PadLen(|p|), i => ByteAt(PadLen(|p|)))
  }

  function Unpad(q: seq<bv8>): Option<seq<bv8>>
    requires Whole(q) && q != []
  {
    var k := Ix(q[|q| - 1]);
    if k == 0 || k > 16 || exists i :: |q| - k <= i < |q| && q[i] != q[|q| - 1] then None
    else Some(q[..|q| - k])
  }

  function EncryptCbc(key: seq<bv8>, iv: Block, p: seq<bv8>): (c: seq<bv8>)
    requires |key| == 32
    ensures Whole(c) && |c| == |p| + PadLen(|p|)
  {
    Chain(KeySchedule(key), iv, Pad(p))
  }

  function DecryptCbc(key: seq<bv8>, iv: Block, c: seq<bv8>): Option<seq<bv8>>
    requires |key| == 32
  {
    if c == [] || !Whole(c) then None else Unpad(Unchain(KeySchedule(key), iv, c))
  }

  // ---- the bijection ----

  lemma XorBlockTwice(a: Block, b: Block)
    ensures XorBlock(XorBlock(a, b), b) == a
  {
    hide Xor;
    forall i | 0 <= i < 16 ensures Xor(Xor(a[i], b[i]), b[i]) == a[i] { XorTwice(a[i], b[i]); }
  }

  lemma ChainBlock(rk: Schedule, iv: Block, p: seq<bv8>, b: Block)
    requires Whole(p)
    ensures Whole(p + b)
    ensures Chain(rk, iv, p + b) == Chain(rk, iv, p) + Encrypt(rk, XorBlock(b, Last(iv, Chain(rk, iv, p))))
  {
    hide Encrypt, XorBlock;
    assert (p + b)[..|p|] == p && (p + b)[|p|..] == b;
  }

  lemma UnchainBlock(rk: Schedule, iv: Block, c: seq<bv8>, b: Block)
    requires Whole(c)
    ensures Whole(c + b)
    ensures Unchain(rk, iv, c + b) == Unchain(rk, iv, c) + XorBlock(Decrypt(rk, b), Last(iv, c))
  {
    hide Decrypt, XorBlock;
    assert (c + b)[..|c|] == c && (c + b)[|c|..] == b;
  }

  lemma {:induction false} UnchainChain(rk: Schedule, iv: Block, p: seq<bv8>)
    requires Whole(p)
    ensures Unchain(rk, iv, Chain(rk, iv, p)) == p
  {
    if p != [] {
      hide Encrypt, Decrypt, XorBlock, Chain, Unchain;
      var n := |p| - 16;
      var c := Chain(rk, iv, p[..n]);
      var x := XorBlock(p[n..], Last(iv, c));
      assert p == p[..n] + p[n..];
      UnchainChain(rk, iv, p[..n]);
      ChainBlock(rk, iv, p[..n], p[n..]);
      UnchainBlock(rk, iv, c, Encrypt(rk, x));
      BlockInverse(rk, x);
      XorBlockTwice(p[n..], Last(iv, c));
    }
  }

  lemma {:induction false} ChainUnchain(rk: Schedule, iv: Block, c: seq<bv8>)
    requires Whole(c)
    ensures Chain(rk, iv, Unchain(rk, iv, c)) == c
  {
    if c != [] {
      hide Encrypt, Decrypt, XorBlock, Chain, Unchain;
      var n := |c| - 16;
      var p := Unchain(rk, iv, c[..n]);
      var x := XorBlock(Decrypt(rk, c[n..]), Last(iv, c[..n]));
      assert c == c[..n] + c[n..];
      ChainUnchain(rk, iv, c[..n]);
      UnchainBlock(rk, iv, c[..n], c[n..]);
      ChainBlock(rk, iv, p, x);
      BlockInverse(rk, c[n..]);
      XorBlockTwice(Decrypt(rk, c[n..]), Last(iv, c[..n]));
    }
  }

  lemma UnpadPad(p: seq<bv8>)
    ensures Unpad(Pad(p)) == Some(p)
  {
    hide Ix, ByteAt;
    assert Pad(p)[..|p|] == p;
  }

  lemma PadUnpad(q: seq<bv8>)
    requires Whole(q) && q != [] && Unpad(q).Some?
    ensures Pad(Unpad(q).value) == q
  {
    hide Ix, ByteAt;
    var last := q[|q| - 1];
    var k := Ix(last);
    var p := q[..|q| - k];
    assert PadLen(|p|) == k;
    IxInjective(ByteAt(k), last);
    assert forall i :: |q| - k <= i < |q| ==> q[i] == last;
    assert Pad(p) == q;
  }

  /** Decrypting an encryption gives the plaintext back, for every length. */
  lemma DecryptEncrypt(key: seq<bv8>, iv: Block, p: seq<bv8>)
    requires |key| == 32
    ensures DecryptCbc(key, iv, EncryptCbc(key, iv, p)) == Some(p)
  {
    hide KeySchedule, Pad, Unpad;
    UnchainChain(KeySchedule(key), iv, Pad(p));
    UnpadPad(p);
  }

  /** Every ciphertext that decryption accepts is the encryption of what it returns. */
  lemma EncryptDecrypt(key: seq<bv8>, iv: Block, c: seq<bv8>)
    requires |key| == 32 && DecryptCbc(key, iv, c).Some?
    ensures EncryptCbc(key, iv, DecryptCbc(key, iv, c).value) == c
  {
    hide KeySchedule, Pad, Unpad;
    ChainUnchain(KeySchedule(key), iv, c);
    PadUnpad(Unchain(KeySchedule(key), iv, c));
  }

  // ---- the code ----

  /** Sixteen bytes of the padded input. */
  function PaddedAt(input: seq<bv8>, blk: nat): (b: Block)
    requires blk % 16 == 0 && blk < |Pad(input)|
  {
    Pad(input)[blk..blk + 16]
  }

  method PlainBlock(input: seq<bv8>, pad: nat, blk: nat, prev: Block) returns (plain: Block)
    requires pad == PadLen(|input|) && blk % 16 == 0 && blk < |input| + pad
    ensures plain == XorBlock(PaddedAt(input, blk), prev)
  {
    hide Xor, ByteAt;
    var a := new bv8[16];
    for i := 0 to 16
      invariant forall j :: 0 <= j < i ==> a[j] == Xor(PaddedAt(input, blk)[j], prev[j])
    {
      var b := if blk + i < |input| then input[blk + i] else ByteAt(pad);
      a[i] := Xor(b, prev[i]);
    }
    plain := a[..];
  }

  lemma ChainStep(rk: Schedule, iv: Block, p: seq<bv8>, blk: nat)
    requires Whole(p) && blk + 16 <= |p| && Whole(p[..blk])
    ensures Whole(p[..blk + 16])
    ensures Chain(rk, iv, p[..blk + 16])
         == Chain(rk, iv, p[..blk]) + Encrypt(rk, XorBlock(p[blk..blk + 16], Last(iv, Chain(rk, iv, p[..blk]))))
  {
    hide Encrypt, XorBlock, Last;
    assert p[..blk + 16][..blk] == p[..blk] && p[..blk + 16][blk..] == p[blk..blk + 16];
  }

  lemma UnchainStep(rk: Schedule, iv: Block, c: seq<bv8>, blk: nat)
    requires Whole(c) && blk + 16 <= |c| && Whole(c[..blk])
    ensures Whole(c[..blk + 16])
    ensures Unchain(rk, iv, c[..blk + 16])
         == Unchain(rk, iv, c[..blk]) + XorBlock(Decrypt(rk, c[blk..blk + 16]), Last(iv, c[..blk]))
    ensures Last(iv, c[..blk + 16]) == c[blk..blk + 16]
  {
    hide Decrypt, XorBlock;
    assert c[..blk + 16][..blk] == c[..blk] && c[..blk + 16][blk..] == c[blk..blk + 16];
  }

  /** `memcpy(out + at, b, 16)`. */
  method PutBlock(out: array<bv8>, at: nat, b: Block)
    requires at + 16 <= out.Length
    modifies out
    ensures out[..at + 16] == old(out[..at]) + b && out[at + 16..] == old(out[at + 16..])
  {
    forall i | 0 <= i < 16 { out[at + i] := b[i]; }
  }

  method EncryptCode(tb: Tables, key: seq<bv8>, iv: Block, input: seq<bv8>, out: array<bv8>, cap: nat)
    returns (rc: int, outLen: nat)
    requires tb.Valid() && |key| == 32 && cap <= out.Length
    modifies out
    ensures rc == if |EncryptCbc(key, iv, input)| > cap then -1 else 0
    ensures rc == -1 ==> out[..] == old(out[..])
    ensures rc == 0 ==> outLen == |EncryptCbc(key, iv, input)|
    ensures rc == 0 ==> out[..outLen] == EncryptCbc(key, iv, input) && out[outLen..] == old(out[outLen..])
  {
    hide Tables.Valid, Encrypt, KeySchedule, XorBlock, Chain;
    var rk := ExpandKey(tb, key);
    var pad := 16 - |input| % 16;
    var total := |input| + pad;
    outLen := 0;
    if total > cap { return -1, 0; }
    ghost var p := Pad(input);
    var prev: Block := iv;
    var blk := 0;
    assert Chain(rk, iv, p[..0]) == [];
    while blk < total
      invariant blk <= total == |p| && blk % 16 == 0
      invariant out[..blk] == Chain(rk, iv, p[..blk]) && prev == Last(iv, out[..blk])
      invariant out[total..] == old(out[total..])
    {
      ChainStep(rk, iv, p, blk);
      var plain := PlainBlock(input, pad, blk, prev);
      prev := EncryptBlock(tb, plain, rk);
      ghost var rest := out[blk + 16..];
      PutBlock(out, blk, prev);
      assert out[total..] == rest[total - (blk + 16)..];
      blk := blk + 16;
    }
    assert p[..total] == p;
    return 0, total;
  }

  /** The block loop of decryption. */
  method UnchainCode(tb: Tables, rk: Schedule, iv: Block, input: seq<bv8>, out: array<bv8>)
    requires tb.Valid() && Whole(input) && |input| <= out.Length
    modifies out
    ensures out[..|input|] == Unchain(rk, iv, input) && out[|input|..] == old(out[|input|..])
  {
    hide Tables.Valid, Decrypt, XorBlock, Unchain;
    var prev: Block := iv;
    var blk := 0;
    assert Unchain(rk, iv, input[..0]) == [];
    while blk < |input|
      invariant blk <= |input| && blk % 16 == 0
      invariant out[..blk] == Unchain(rk, iv, input[..blk]) && prev == Last(iv, input[..blk])
      invariant out[|input|..] == old(out[|input|..])
    {
      UnchainStep(rk, iv, input, blk);
      var cipher: Block := input[blk..blk + 16];
      var plain := DecryptBlock(tb, cipher, rk);
      ghost var rest := out[blk + 16..];
      PutBlock(out, blk, XorBlock(plain, prev));
      assert out[|input|..] == rest[|input| - (blk + 16)..];
      prev := cipher;
      blk := blk + 16;
    }
    assert input[..|input|] == input;
  }

  /** The padding check. */
  method PadCheck(q: seq<bv8>) returns (ok: bool, n: nat)
    requires Whole(q) && q != []
    ensures ok == Unpad(q).Some?
    ensures ok ==> n <= |q| && Unpad(q) == Some(q[..n])
  {
    hide Ix;
    var pad := Ix(q[|q| - 1]);
    n := 0;
    if pad == 0 || pad > 16 { return false, 0; }
    for i := |q| - pad to |q|
      invariant forall j :: |q| - pad <= j < i ==> q[j] == q[|q| - 1]
    {
      if Ix(q[i]) != pad {
        assert q[i] != q[|q| - 1];
        return false, 0;
      }
      IxInjective(q[i], q[|q| - 1]);
    }
    return true, |q| - pad;
  }

  /** Decryption leaves the whole unchained text, padding included, in `out`, even when it
      reports the plaintext length without the padding or rejects the padding. */
  method DecryptCode(tb: Tables, key: seq<bv8>, iv: Block, input: seq<bv8>, out: array<bv8>, cap: nat)
    returns (rc: int, outLen: nat)
    requires tb.Valid() && |key| == 32 && cap <= out.Length
    modifies out
    ensures rc == if |input| <= cap && DecryptCbc(key, iv, input).Some? then 0 else -1
    ensures rc == 0 ==> outLen == |DecryptCbc(key, iv, input).value|
    ensures rc == 0 ==> out[..outLen] == DecryptCbc(key, iv, input).value
    ensures input != [] && Whole(input) && |input| <= cap ==>
              out[..|input|] == Unchain(KeySchedule(key), iv, input) && out[|input|..] == old(out[|input|..])
    ensures input == [] || !Whole(input) || |input| > cap ==> out[..] == old(out[..])
  {
    hide Tables.Valid, KeySchedule, Unchain, Unpad, Ix;
    outLen := 0;
    if input == [] || |input| % 16 != 0 || |input| > cap { return -1, 0; }
    var rk := ExpandKey(tb, key);
    UnchainCode(tb, rk, iv, input, out);
    var ok, n := PadCheck(out[..|input|]);
    if !ok { return -1, 0; }
    return 0, n;
  }
}
