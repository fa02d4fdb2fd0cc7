/** AES-256-CTR (section 6.5 of NIST SP 800-38A) and the encrypt-then-MAC box built from it. */
module Aead {
  import opened Bytes
  import opened CryptoBytes
  import opened Gf256
  import opened Sha256
  import opened Hmac
  import Aes
  import AesCode

  type Nonce = n: seq<bv8> | |n| == 12 witness seq(12, i => 0)

  function CounterBlock(nonce: Nonce, j: nat): Aes.Block { nonce + Be32(j % U32_MODULUS) }

  function StreamByte(rk: Aes.Schedule, nonce: Nonce, i: nat): bv8 {
    Aes.Encrypt(rk, CounterBlock(nonce, i / 16))[i % 16]
  }

  function Ctr(key: seq<bv8>, nonce: Nonce, p: seq<bv8>): (c: seq<bv8>)
    requires |key| == 32
    ensures |c| == |p|
  {
    seq(|p|, i requires 0 <= i < |p| => Xor(p[i], StreamByte(AesCode.KeySchedule(key), nonce, i)))
  }

  lemma CtrTwice(key: seq<bv8>, nonce: Nonce, p: seq<bv8>)
    requires |key| == 32
    ensures Ctr(key, nonce, Ctr(key, nonce, p)) == p
  {
    hide Xor, StreamByte;
    forall i | 0 <= i < |p| ensures Ctr(key, nonce, Ctr(key, nonce, p))[i] == p[i] {
      XorTwice(p[i], StreamByte(AesCode.KeySchedule(key), nonce, i));
    }
  }

  method CtrCode(tb: AesCode.Tables, key: seq<bv8>, nonce: Nonce, input: seq<bv8>, out: array<bv8>)
    requires tb.Valid() && |key| == 32 && |input| <= out.Length
    modifies out
    ensures out[..|input|] == Ctr(key, nonce, input) && out[|input|..] == old(out[|input|..])
  {
    hide Aes.Encrypt, AesCode.KeySchedule, AesCode.Tables.Valid, Xor, Be32, StreamByte;
    var rk := AesCode.ExpandKey(tb, key);
    ghost var c := Ctr(key, nonce, input);
    var off, counter := 0, 0;
    ghost var k := 0;
    while off < |input|
      invariant off == Min(16 * k, |input|) && counter == k % U32_MODULUS
      invariant forall j :: 0 <= j < off ==> out[j] == c[j]
      invariant forall j :: |input| <= j < out.Length ==> out[j] == old(out[j])
    {
      var stream := AesCode.EncryptBlock(tb, nonce + Be32(counter), rk);
      var n := Min(|input| - off, 16);
      forall i | 0 <= i < n ensures Xor(input[off + i], stream[i]) == c[off + i] { StreamAt(rk, nonce, k, i); }
      forall i | 0 <= i < n { out[off + i] := Xor(input[off + i], stream[i]); }
      off := off + n;
      counter := (counter + 1) % U32_MODULUS;
      k := k + 1;
    }
  }

  lemma StreamAt(rk: Aes.Schedule, nonce: Nonce, k: nat, i: nat)
    requires i < 16
    ensures StreamByte(rk, nonce, 16 * k + i) == Aes.Encrypt(rk, CounterBlock(nonce, k))[i]
  {
    hide Aes.Encrypt, CounterBlock;
    assert (16 * k + i) / 16 == k;
  }

  // ---- encrypt-then-MAC ----

  const MAX_AEAD := 4096

  /** "aead-mac" */
  const LABEL: seq<bv8> := [0x61, 0x65, 0x61, 0x64, 0x2d, 0x6d, 0x61, 0x63]

  datatype Sealed = Sealed(cipher: seq<bv8>, tag: seq<bv8>)

  function Tag(key: seq<bv8>, nonce: Nonce, c: seq<bv8>): (t: seq<bv8>)
    ensures |t| == 16
  {
    Mac(Mac(key, LABEL), nonce + c)[..16]
  }

  function Seal(key: seq<bv8>, nonce: Nonce, p: seq<bv8>): Option<Sealed>
    requires |key| == 32
  {
    if |p| > MAX_AEAD then None
    else
      var c := Ctr(key, nonce, p);
      Some(Sealed(c, Tag(key, nonce, c)))
  }

  function Open(key: seq<bv8>, nonce: Nonce, s: Sealed): Option<seq<bv8>>
    requires |key| == 32
  {
    if |s.cipher| > MAX_AEAD || s.tag != Tag(key, nonce, s.cipher) then None
    else Some(Ctr(key, nonce, s.cipher))
  }

  /** What was sealed opens to itself, and only what was sealed opens. */
  lemma OpenSeal(key: seq<bv8>, nonce: Nonce, p: seq<bv8>, s: Sealed)
    requires |key| == 32
    ensures Open(key, nonce, s) == Some(p) <==> Seal(key, nonce, p) == Some(s)
  {
    hide Ctr, Tag;
    CtrTwice(key, nonce, p);
    CtrTwice(key, nonce, s.cipher);
  }

  /** The MAC both ends compute: the label gives the MAC key, and a copy of nonce and ciphertext is signed. */
  method TagCode(key: seq<bv8>, nonce: Nonce, c: seq<bv8>) returns (mac: seq<bv8>)
    requires |c| <= MAX_AEAD
    ensures mac == Tag(key, nonce, c)
  {
    hide Mac;
    var text := new bv8[8](i requires 0 <= i < 8 => LABEL[i]);
    assert text[..8] == LABEL;
    var macKey := new bv8[DIGEST_LEN];
    HmacCode(key, text, 8, macKey);
    var mk := macKey[..DIGEST_LEN];
    assert mk == Mac(key, LABEL);
    var macBuf := new bv8[12 + MAX_AEAD];
    forall i | 0 <= i < 12 { macBuf[i] := nonce[i]; }
    forall i | 0 <= i < |c| { macBuf[12 + i] := c[i]; }
    assert macBuf[..12 + |c|] == nonce + c;
    var d := new bv8[DIGEST_LEN];
    HmacCode(mk, macBuf, 12 + |c|, d);
    assert d[..DIGEST_LEN] == Mac(mk, nonce + c);
    mac := d[..DIGEST_LEN][..16];
  }

  /** A ciphertext over 4096 bytes is refused only after it has been written. */
  method SealCode(tb: AesCode.Tables, key: seq<bv8>, nonce: Nonce, input: seq<bv8>, out: array<bv8>, cap: nat)
    returns (rc: int, tag: seq<bv8>)
    requires tb.Valid() && |key| == 32 && cap <= out.Length
    modifies out
    ensures rc == if |input| <= cap && Seal(key, nonce, input).Some? then 0 else -1
    ensures rc == 0 ==> Seal(key, nonce, input) == Some(Sealed(out[..|input|], tag))
    ensures |input| <= cap ==> out[|input|..] == old(out[|input|..]) && out[..|input|] == Ctr(key, nonce, input)
    ensures |input| > cap ==> out[..] == old(out[..])
  {
    hide Ctr, Tag, AesCode.Tables.Valid;
    tag := [];
    if |input| > cap { return -1, []; }
    CtrCode(tb, key, nonce, input, out);
    if |input| > MAX_AEAD { return -1, []; }
    tag := TagCode(key, nonce, out[..|input|]);
    rc := 0;
  }

  function Or(x: bv8, y: bv8): bv8 { x | y }

  lemma OrXor(diff: bv8, x: bv8, y: bv8)
    ensures Or(diff, Xor(x, y)) == 0 <==> diff == 0 && x == y
  {
  }

  /** The constant-time comparison. */
  method SameTag(mac: seq<bv8>, tag: seq<bv8>) returns (same: bool)
    requires |mac| == |tag| == 16
    ensures same == (mac == tag)
  {
    hide Or, Xor;
    var diff := 0;
    for i := 0 to 16
      invariant diff == 0 <==> forall j :: 0 <= j < i ==> mac[j] == tag[j]
    {
      OrXor(diff, mac[i], tag[i]);
      diff := Or(diff, Xor(mac[i], tag[i]));
    }
    same := diff == 0;
  }

  method OpenCode(tb: AesCode.Tables, key: seq<bv8>, nonce: Nonce, input: seq<bv8>, tag: seq<bv8>, out: array<bv8>,
      cap: nat)
    returns (rc: int)
    requires tb.Valid() && |key| == 32 && |tag| == 16 && cap <= out.Length
    modifies out
    ensures rc == if |input| <= cap && Open(key, nonce, Sealed(input, tag)).Some? then 0 else -1
    ensures rc == 0 ==> Open(key, nonce, Sealed(input, tag)) == Some(out[..|input|])
    ensures rc == 0 ==> out[|input|..] == old(out[|input|..])
    ensures rc == -1 ==> out[..] == old(out[..])
  {
    hide Ctr, Tag, AesCode.Tables.Valid;
    if |input| > cap || |input| > MAX_AEAD { return -1; }
    var mac := TagCode(key, nonce, input);
    var same := SameTag(mac, tag);
    if !same { return -1; }
    CtrCode(tb, key, nonce, input, out);
    rc := 0;
  }
}
