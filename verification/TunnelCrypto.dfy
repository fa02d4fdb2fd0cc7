/** Encryption of tunnel frames between two clients that share a secret: the specification, the
    round trip between two ends, and the transparency of the link to the sessions above it. */
module TunnelCrypto {
  import opened Bytes
  import opened CryptoBytes
  import opened Codec
  import opened Aead
  import Hmac

  const MAX_PKT := 2048
  const NONCE_LEN := 12
  const TAG_LEN := 16

  // ---- the key ----

  /** Byte-wise lexicographic order, as std::string compares. */
  predicate Less(a: seq<byte>, b: seq<byte>) {
    b != [] && (a == [] || a[0] < b[0] || (a[0] == b[0] && Less(a[1..], b[1..])))
  }

  lemma {:induction false} LessTotal(a: seq<byte>, b: seq<byte>)
    requires a != b
    ensures Less(a, b) <==> !Less(b, a)
  {
    if a != [] && b != [] && a[0] == b[0] {
      assert a == [a[0]] + a[1..] && b == [b[0]] + b[1..];
      LessTotal(a[1..], b[1..]);
    }
  }

  /** "P2P-TUNNEL-KEY:" */
  const KEY_PREFIX: seq<byte> := [0x50, 0x32, 0x50, 0x2d, 0x54, 0x55, 0x4e, 0x4e, 0x45, 0x4c, 0x2d, 0x4b, 0x45, 0x59,
      0x3a]
  const COLON: byte := 0x3a

  function KeyText(me: seq<byte>, peer: seq<byte>): seq<byte> {
    var (a, b) := if Less(me, peer) then (me, peer) else (peer, me);
    KEY_PREFIX + a + [COLON] + b
  }

  function TunnelKey(secret: seq<byte>, me: seq<byte>, peer: seq<byte>): (k: Option<seq<bv8>>)
    ensures k.Some? ==> |k.value| == 32
  {
    if secret == [] || peer == [] || peer == me then None
    else Some(Hmac.Mac(Bits(secret), Bits(KeyText(me, peer))))
  }

  /** Both ends of a pair of named clients derive the same key. */
  lemma SameKey(secret: seq<byte>, a: seq<byte>, b: seq<byte>)
    requires a != [] && b != []
    ensures TunnelKey(secret, a, b) == TunnelKey(secret, b, a)
  {
    hide Hmac.Mac;
    if a != b { LessTotal(a, b); }
  }

  // ---- frames ----

  /** A header with its flags and its length field replaced. */
  function Rehead(h: seq<byte>, flags: byte, len: u16): (r: seq<byte>)
    requires |h| == HEADER_LEN
    ensures |r| == HEADER_LEN && PayloadLen(r) == len && r[7] == flags
  {
    Split16(len);
    h[7 := flags][12 := Hi(len)][13 := Lo(len)]
  }

  lemma ReheadTwice(h: seq<byte>, f1: byte, n1: u16, f2: byte, n2: u16)
    requires |h| == HEADER_LEN
    ensures Rehead(Rehead(h, f1, n1), f2, n2) == Rehead(h, f2, n2)
    ensures f2 == h[7] && n2 == PayloadLen(h) ==> Rehead(h, f2, n2) == h
  {
  }

  function EncryptFrame(key: seq<bv8>, nonce: Nonce, f: seq<byte>): (g: Option<seq<byte>>)
    requires |key| == 32
    requires |f| >= HEADER_LEN ==> HEADER_LEN + PayloadLen(f) <= |f|
  {
    if |f| < HEADER_LEN then None
    else
      var n := PayloadLen(f);
      if n == 0 || HEADER_LEN + NONCE_LEN + n + TAG_LEN > MAX_PKT then None
      else
        var s := Seal(key, nonce, Bits(f[14..14 + n])).value;
        Some(Rehead(f[..14], SetBit1(f[7]), NONCE_LEN + n + TAG_LEN) + Nats(nonce) + Nats(s.cipher) + Nats(s.tag))
  }

  /** The nonce, ciphertext and tag a frame carries. */
  function Parts(g: seq<byte>): (r: (Nonce, Sealed))
    requires |g| >= HEADER_LEN && 28 <= PayloadLen(g) && HEADER_LEN + PayloadLen(g) <= |g|
    ensures |r.1.cipher| == PayloadLen(g) - 28 && |r.1.tag| == 16
  {
    var end := 14 + PayloadLen(g);
    (Bits(g[14..26]), Sealed(Bits(g[26..end - 16]), Bits(g[end - 16..end])))
  }

  predicate LooksEncrypted(g: seq<byte>) {
    |g| >= HEADER_LEN && HasFlag(g[7], TF_ENC) && 28 <= PayloadLen(g) <= MAX_PKT - HEADER_LEN + 28
  }

  function DecryptFrame(key: seq<bv8>, g: seq<byte>): (f: Option<seq<byte>>)
    requires |key| == 32
    requires LooksEncrypted(g) ==> HEADER_LEN + PayloadLen(g) <= |g|
  {
    if !LooksEncrypted(g) then None
    else
      var (nonce, sealed) := Parts(g);
      match Open(key, nonce, sealed)
      case None => None
      case Some(p) => Some(Rehead(g[..14], ClearBit1(g[7]), |p|) + Nats(p))
  }

  lemma PartsOf(h: seq<byte>, nonce: Nonce, s: Sealed)
    requires |h| == HEADER_LEN && |s.tag| == 16 && PayloadLen(h) == |s.cipher| + 28
    ensures var g := h + Nats(nonce) + Nats(s.cipher) + Nats(s.tag);
            WholeFrame(g) && g[..14] == h && Parts(g) == (nonce, s)
  {
    hide Bits, Nats;
    var g := h + Nats(nonce) + Nats(s.cipher) + Nats(s.tag);
    var end := |g|;
    assert g[14..26] == Nats(nonce) && g[26..end - 16] == Nats(s.cipher) && g[end - 16..end] == Nats(s.tag);
    BitsNats(nonce);
    BitsNats(s.cipher);
    BitsNats(s.tag);
  }

  lemma EncryptedShape(key: seq<bv8>, nonce: Nonce, f: seq<byte>)
    requires |key| == 32 && WholeFrame(f) && EncryptFrame(key, nonce, f).Some?
    ensures var g := EncryptFrame(key, nonce, f).value;
            && WholeFrame(g) && LooksEncrypted(g) && PayloadLen(g) == PayloadLen(f) + 28
            && g[..14] == Rehead(f[..14], SetBit1(f[7]), PayloadLen(g))
            && Seal(key, nonce, Bits(f[14..])) == Some(Parts(g).1) && Parts(g).0 == nonce
  {
    hide Seal, Bits, Nats, Parts;
    var n := PayloadLen(f);
    assert f[14..14 + n] == f[14..];
    var s := SealFits(key, nonce, Bits(f[14..]));
    PartsOf(Rehead(f[..14], SetBit1(f[7]), NONCE_LEN + n + TAG_LEN), nonce, s);
    var g := EncryptFrame(key, nonce, f).value;
    assert g[7] == g[..14][7] && g[12] == g[..14][12] && g[13] == g[..14][13];
  }

  lemma ClearedFrame(f: seq<byte>)
    requires WholeFrame(f)
    ensures Rehead(f[..14], ClearBit1(f[7]), PayloadLen(f)) + f[14..] == f[7 := ClearBit1(f[7])]
    ensures f[7 := ClearBit1(f[7])] == f <==> !HasFlag(f[7], TF_ENC)
  {
    var c := f[7 := ClearBit1(f[7])];
    FlagBack(f[7]);
    assert c[7] == ClearBit1(f[7]);
  }

  /** Decrypting an encrypted frame gives the frame back with TF_ENC cleared: exactly the frame, when
      it was sent without that flag. */
  lemma DecryptEncryptFrame(key: seq<bv8>, nonce: Nonce, f: seq<byte>)
    requires |key| == 32 && WholeFrame(f) && EncryptFrame(key, nonce, f).Some?
    ensures var g := EncryptFrame(key, nonce, f).value;
            && WholeFrame(g)
            && DecryptFrame(key, g) == Some(f[7 := ClearBit1(f[7])])
            && (DecryptFrame(key, g) == Some(f) <==> !HasFlag(f[7], TF_ENC))
  {
    hide Seal, Open, Bits, Nats, Parts, EncryptFrame, Rehead, SetBit1, ClearBit1, HasFlag;
    var g := EncryptFrame(key, nonce, f).value;
    EncryptedShape(key, nonce, f);
    OpenSeal(key, nonce, Bits(f[14..]), Parts(g).1);
    assert f[..14][7] == f[7];
    ReheadTwice(f[..14], SetBit1(f[7]), PayloadLen(g), ClearBit1(f[7]), PayloadLen(f));
    FlagBack(f[7]);
    NatsBits(f[14..]);
    ClearedFrame(f);
  }

  lemma SealFits(key: seq<bv8>, nonce: Nonce, p: seq<bv8>) returns (s: Sealed)
    requires |key| == 32 && |p| <= MAX_AEAD
    ensures Seal(key, nonce, p) == Some(s) && |s.cipher| == |p| && |s.tag| == 16
  {
    s := Seal(key, nonce, p).value;
  }

  lemma FlagBack(flags: byte)
    ensures ClearBit1(SetBit1(flags)) == ClearBit1(flags)
    ensures HasFlag(flags, TF_ENC) ==> ClearBit1(flags) != flags
  {
  }

  lemma DecryptedShape(key: seq<bv8>, g: seq<byte>) returns (p: seq<bv8>)
    requires |key| == 32 && WholeFrame(g) && DecryptFrame(key, g).Some?
    ensures LooksEncrypted(g) && Open(key, Parts(g).0, Parts(g).1) == Some(p) && |p| == PayloadLen(g) - 28
    ensures DecryptFrame(key, g) == Some(Rehead(g[..14], ClearBit1(g[7]), |p|) + Nats(p))
  {
    hide Open, Bits, Nats, Rehead, HasFlag;
    var (nonce, s) := Parts(g);
    p := Open(key, nonce, s).value;
    OpenLength(key, nonce, s);
  }

  /** A whole frame is its header and its parts. */
  lemma FromParts(g: seq<byte>)
    requires WholeFrame(g) && 28 <= PayloadLen(g)
    ensures g == g[..14] + Nats(Parts(g).0) + Nats(Parts(g).1.cipher) + Nats(Parts(g).1.tag)
  {
    hide Bits, Nats;
    var end := |g|;
    NatsBits(g[14..26]);
    NatsBits(g[26..end - 16]);
    NatsBits(g[end - 16..end]);
    assert g == g[..14] + g[14..26] + g[26..end - 16] + g[end - 16..end];
  }

  lemma FlagForth(flags: byte)
    requires HasFlag(flags, TF_ENC)
    ensures SetBit1(ClearBit1(flags)) == flags && !HasFlag(ClearBit1(flags), TF_ENC)
  {
  }

  /** The flags and length a frame was sent with, restored. */
  lemma EncryptDecryptFrame(key: seq<bv8>, g: seq<byte>)
    requires |key| == 32 && WholeFrame(g) && DecryptFrame(key, g).Some?
    requires 28 < PayloadLen(g) && |g| <= MAX_PKT
    ensures var f := DecryptFrame(key, g).value;
            WholeFrame(f) && !HasFlag(f[7], TF_ENC) && EncryptFrame(key, Parts(g).0, f) == Some(g)
  {
    hide Seal, Open, Bits, Nats, Parts, DecryptFrame, Rehead, SetBit1, ClearBit1, HasFlag;
    var p := DecryptedShape(key, g);
    var (nonce, s) := Parts(g);
    OpenSeal(key, nonce, p, s);
    var f := DecryptFrame(key, g).value;
    assert f[..14] == Rehead(g[..14], ClearBit1(g[7]), |p|) && f[14..14 + |p|] == Nats(p);
    assert f[7] == f[..14][7] && f[12] == f[..14][12] && f[13] == f[..14][13];
    BitsNats(p);
    FlagForth(g[7]);
    ReheadTwice(g[..14], ClearBit1(g[7]), |p|, g[7], PayloadLen(g));
    FromParts(g);
  }

  lemma OpenLength(key: seq<bv8>, nonce: Nonce, s: Sealed)
    requires |key| == 32 && Open(key, nonce, s).Some?
    ensures |Open(key, nonce, s).value| == |s.cipher|
  {
  }

  /** A frame with a payload is accepted exactly when the other end can have produced it. */
  lemma AcceptedIffEncrypted(key: seq<bv8>, g: seq<byte>)
    requires |key| == 32 && WholeFrame(g) && |g| <= MAX_PKT && 28 < PayloadLen(g)
    ensures DecryptFrame(key, g).Some? <==> exists nonce: Nonce, f :: Produces(key, nonce, f, g)
  {
    hide EncryptFrame, DecryptFrame, Parts;
    if DecryptFrame(key, g).Some? {
      EncryptDecryptFrame(key, g);
      assert Produces(key, Parts(g).0, DecryptFrame(key, g).value, g);
    }
    forall nonce: Nonce, f | Produces(key, nonce, f, g) ensures DecryptFrame(key, g).Some? {
      DecryptEncryptFrame(key, nonce, f);
    }
  }

  ghost predicate Produces(key: seq<bv8>, nonce: Nonce, f: seq<byte>, g: seq<byte>)
    requires |key| == 32
  {
    WholeFrame(f) && EncryptFrame(key, nonce, f) == Some(g)
  }

  // ---- the link ----

  /** What a client transmits for a session frame, and what it hands to the session for a received one. */
  function Outgoing(secret: seq<byte>, me: seq<byte>, peer: seq<byte>, nonce: Nonce, f: seq<byte>): seq<byte>
    requires WholeFrame(f)
  {
    match TunnelKey(secret, me, peer)
    case None => f
    case Some(key) => match EncryptFrame(key, nonce, f) { case None => f case Some(g) => g }
  }

  function Incoming(secret: seq<byte>, me: seq<byte>, peer: seq<byte>, g: seq<byte>): seq<byte>
    requires LooksEncrypted(g) ==> HEADER_LEN + PayloadLen(g) <= |g|
  {
    match TunnelKey(secret, me, peer)
    case None => g
    case Some(key) => match DecryptFrame(key, g) { case None => g case Some(f) => f }
  }

  /** B's session receives exactly the bytes A's session sent, for any nonce, with or without a secret. */
  lemma Transparent(secret: seq<byte>, a: seq<byte>, b: seq<byte>, nonce: Nonce, p: seq<byte>)
    requires a != [] && b != [] && Plain(p)
    ensures WholeFrame(Outgoing(secret, a, b, nonce, p))
    ensures Incoming(secret, b, a, Outgoing(secret, a, b, nonce, p)) == p
  {
    hide DecryptFrame, Seal, Hmac.Mac;
    SameKey(secret, a, b);
    var k := TunnelKey(secret, a, b);
    if k.Some? && EncryptFrame(k.value, nonce, p).Some? {
      DecryptEncryptFrame(k.value, nonce, p);
    } else if k.Some? {
      NotEncrypted(k.value, p);
    }
  }

  lemma NotEncrypted(key: seq<bv8>, p: seq<byte>)
    requires |key| == 32 && Plain(p)
    ensures DecryptFrame(key, p).None?
  {
  }
}
