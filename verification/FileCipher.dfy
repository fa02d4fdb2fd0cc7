/** The encrypted file format that blacklist and licence share: a header, salt and IV in the clear, then
    the text under AES-256-CBC with a key derived from the password. */
module FileCipher {
  import opened Bytes
  import opened CryptoBytes
  import opened Cbc
  import opened Hmac
  import AesCode
  import Aes
  import opened TextFile

  const PBKDF2_ITER := 10000
  const SALT_LEN := 16
  const IV_LEN := 16
  const HEAD_LEN := 41

  function FileKey(pass: Text, salt: seq<bv8>, iter: nat): (k: seq<bv8>)
    ensures |k| == 32
  {
    Derived(Bits(pass), salt, if iter == 0 then PBKDF2_ITER else iter, 32)
  }

  /** magic, version 1, 10000 in four bytes, salt, IV, ciphertext */
  function Head(magic: Text, salt: Text, iv: Text): Text {
    magic + [1, 0, 0, 0x27, 0x10] + salt + iv
  }

  function SealFile(magic: Text, pass: Text, salt: Text, iv: Text, plain: Text): (raw: Text)
    requires |magic| == 4 && |salt| == SALT_LEN && |iv| == IV_LEN
  {
    Head(magic, salt, iv) + Nats(EncryptCbc(FileKey(pass, Bits(salt), PBKDF2_ITER), Bits(iv), Bits(plain)))
  }

  /** The buffer after decryption, which keeps the padding and one NUL, and the length of the text in it. */
  datatype Opened = Opened(buf: Text, plen: nat)

  function OpenWith(key: seq<bv8>, iv: Aes.Block, cipher: seq<bv8>): Option<Opened>
    requires |key| == 32
  {
    if DecryptCbc(key, iv, cipher).None? then None
    else Some(Opened(Nats(Unchain(AesCode.KeySchedule(key), iv, cipher)) + [0], |DecryptCbc(key, iv, cipher).value|))
  }

  function Word(a: nat, b: nat, c: nat, d: nat): nat { a * 0x100_0000 + b * 0x1_0000 + c * 0x100 + d }

  function OpenFile(pass: Text, raw: Text): Option<Opened> {
    if |raw| < HEAD_LEN + 16 || pass == [] then None
    else
      var iter := Word(raw[5], raw[6], raw[7], raw[8]);
      OpenWith(FileKey(pass, Bits(raw[9..25]), iter), Bits(raw[25..41]), Bits(raw[41..]))
  }

  function Padding(n: nat): (s: Text)
    ensures |s| == PadLen(n)
  {
    seq(PadLen(n), i => PadLen(n))
  }

  lemma NatsPad(plain: Text)
    ensures Nats(Pad(Bits(plain))) == plain + Padding(|plain|)
  {
    hide Ix, ByteAt;
    var p := Nats(Pad(Bits(plain)));
    forall i | 0 <= i < |p| ensures p[i] == (plain + Padding(|plain|))[i] {
      if i < |plain| { NatsBits(plain); assert Nats(Bits(plain))[i] == plain[i]; }
    }
  }

  lemma SealParts(magic: Text, pass: Text, salt: Text, iv: Text, plain: Text)
    requires |magic| == 4 && |salt| == SALT_LEN && |iv| == IV_LEN
    ensures var raw := SealFile(magic, pass, salt, iv, plain);
            && |raw| >= HEAD_LEN + 16 && raw[..4] == magic && raw[9..25] == salt && raw[25..41] == iv
            && raw[5] == raw[6] == 0 && raw[7] == 0x27 && raw[8] == 0x10
            && raw[41..] == Nats(EncryptCbc(FileKey(pass, Bits(salt), PBKDF2_ITER), Bits(iv), Bits(plain)))
  {
    hide Nats, Bits, FileKey;
    var c := Nats(EncryptCbc(FileKey(pass, Bits(salt), PBKDF2_ITER), Bits(iv), Bits(plain)));
    var raw := Head(magic, salt, iv) + c;
    assert raw[..4] == magic && raw[9..25] == salt && raw[25..41] == iv && raw[41..] == c;
  }

  /** Opening a sealed file gives the text back, followed by its padding and a NUL. */
  lemma OpenSealed(magic: Text, pass: Text, salt: Text, iv: Text, plain: Text)
    requires |magic| == 4 && |salt| == SALT_LEN && |iv| == IV_LEN && pass != []
    ensures OpenFile(pass, SealFile(magic, pass, salt, iv, plain))
        == Some(Opened(plain + Padding(|plain|) + [0], |plain|))
  {
    hide Nats, Bits, FileKey, Pad, Chain, Unchain, DecryptCbc, SealFile, AesCode.KeySchedule, Padding;
    var key := FileKey(pass, Bits(salt), PBKDF2_ITER);
    SealParts(magic, pass, salt, iv, plain);
    var raw := SealFile(magic, pass, salt, iv, plain);
    var c := EncryptCbc(key, Bits(iv), Bits(plain));
    BitsNats(c);
    DecryptEncrypt(key, Bits(iv), Bits(plain));
    UnchainChain(AesCode.KeySchedule(key), Bits(iv), Pad(Bits(plain)));
    NatsPad(plain);
  }

  // ---- the code ----

  method KeyCode(pass: Text, salt: seq<bv8>, iter: nat) returns (key: seq<bv8>)
    requires |salt| == SALT_LEN
    ensures key == FileKey(pass, salt, iter)
  {
    hide Derived, Bits;
    var out := new bv8[32];
    Pbkdf2Code(Bits(pass), salt, if iter != 0 then iter else PBKDF2_ITER, out);
    key := out[..];
  }

  method SealFileCode(tables: AesCode.Tables, magic: Text, pass: Text, salt: Text, iv: Text, plain: Text)
      returns (raw: Text)
    requires tables.Valid() && |magic| == 4 && |salt| == SALT_LEN && |iv| == IV_LEN
    ensures raw == SealFile(magic, pass, salt, iv, plain)
  {
    hide FileKey, Bits, Nats, Chain, Pad, AesCode.KeySchedule, AesCode.Tables.Valid;
    var key := KeyCode(pass, Bits(salt), PBKDF2_ITER);
    var cipher := new bv8[|plain| + 16];
    var rc, clen := EncryptCode(tables, key, Bits(iv), Bits(plain), cipher, cipher.Length);
    raw := Head(magic, salt, iv) + Nats(cipher[..clen]);
  }

  method OpenFileCode(tables: AesCode.Tables, pass: Text, raw: Text) returns (o: Option<Opened>)
    requires tables.Valid()
    ensures o == OpenFile(pass, raw)
  {
    hide FileKey, Bits, Nats, Unchain, Unpad, AesCode.KeySchedule, AesCode.Tables.Valid;
    if |raw| < HEAD_LEN + 16 || pass == [] { return None; }
    var iter := Word(raw[5], raw[6], raw[7], raw[8]);
    var key := KeyCode(pass, Bits(raw[9..25]), iter);
    var cipher, iv: Aes.Block := Bits(raw[41..]), Bits(raw[25..41]);
    var plain := new bv8[|cipher| + 1];
    plain[|cipher|] := 0;
    var rc, plen := DecryptCode(tables, key, iv, cipher, plain, plain.Length);
    if rc != 0 { return None; }
    ghost var u := Unchain(AesCode.KeySchedule(key), iv, cipher);
    o := Some(Opened(Nats(plain[..|cipher|]) + [0], plen));
  }
}
