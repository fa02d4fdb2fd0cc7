/** The tunnel half of P2PClient: the key cache, frame encryption and decryption in place, what is transmitted
    for a frame of a session, and the hand-over of received frames to the session of the peer. */
module TunnelClient {
  import opened Bytes
  import opened CryptoBytes
  import opened Codec
  import opened Aead
  import opened TunnelCrypto
  import AesCode
  import Hmac
  import SessionSpec
  import S = Session

  /** Lookup as `unordered_map::find`. */
  function Find<V>(m: map<seq<byte>, V>, k: seq<byte>): Option<V> {
    if k in m then Some(m[k]) else None
  }

  /** `decrypt_tunnel_frame` looks at the length of the packet only to see that there is a header. */
  function DecryptBuffer(key: Option<seq<bv8>>, b: seq<byte>, len: nat): Option<seq<byte>>
    requires key.Some? ==> |key.value| == 32
    requires LooksEncrypted(b) ==> HEADER_LEN + PayloadLen(b) <= |b|
  {
    if len < HEADER_LEN || key.None? then None else DecryptFrame(key.value, b)
  }

  function EncryptBuffer(key: Option<seq<bv8>>, nonce: Nonce, b: seq<byte>, len: nat): Option<seq<byte>>
    requires key.Some? ==> |key.value| == 32
    requires |b| >= HEADER_LEN ==> HEADER_LEN + PayloadLen(b) <= |b|
  {
    if len < HEADER_LEN || key.None? then None else EncryptFrame(key.value, nonce, b)
  }

  /** The bytes `on_tunnel_frame` hands to the session. */
  function Handed(key: Option<seq<bv8>>, b: seq<byte>, len: nat): seq<byte>
    requires key.Some? ==> |key.value| == 32
    requires LooksEncrypted(b) ==> HEADER_LEN + PayloadLen(b) <= |b|
    requires len <= |b|
  {
    match DecryptBuffer(key, b, len) { case None => b[..len] case Some(f) => f }
  }

  lemma HandedIsIncoming(secret: seq<byte>, me: seq<byte>, peer: seq<byte>, b: seq<byte>)
    requires LooksEncrypted(b) ==> HEADER_LEN + PayloadLen(b) <= |b|
    ensures Handed(TunnelKey(secret, me, peer), b, |b|) == Incoming(secret, me, peer, b)
  {
    hide TunnelKey, Parts, Open;
    assert b[..|b|] == b;
  }

  /** The bytes `send_tunnel_via` transmits for a frame. */
  function Transmitted(key: Option<seq<bv8>>, nonce: Nonce, b: seq<byte>, len: nat): seq<byte>
    requires key.Some? ==> |key.value| == 32
    requires |b| >= HEADER_LEN ==> HEADER_LEN + PayloadLen(b) <= |b|
    requires len <= |b|
  {
    match EncryptBuffer(key, nonce, b, len) { case None => b[..len] case Some(g) => g }
  }

  lemma TransmittedIsOutgoing(secret: seq<byte>, me: seq<byte>, peer: seq<byte>, nonce: Nonce, f: seq<byte>)
    requires WholeFrame(f)
    ensures Transmitted(TunnelKey(secret, me, peer), nonce, f, |f|) == Outgoing(secret, me, peer, nonce, f)
  {
    hide TunnelKey, EncryptFrame;
    assert f[..|f|] == f;
  }

  lemma NoKey(secret: seq<byte>, me: seq<byte>, peer: seq<byte>)
    ensures secret == [] ==> TunnelKey(secret, me, peer) == None
  {
  }

  method MacOf(key: seq<byte>, msg: seq<byte>) returns (d: seq<bv8>)
    ensures d == Hmac.Mac(Bits(key), Bits(msg))
  {
    hide Hmac.Mac, Bits;
    var m := Bits(msg);
    var a, out := new bv8[|m|](i requires 0 <= i < |m| => m[i]), new bv8[32];
    assert a[..|m|] == m;
    Hmac.HmacCode(Bits(key), a, |m|, out);
    d := out[..32];
  }

  method SealPayload(tables: AesCode.Tables, key: seq<bv8>, nonce: Nonce, p: seq<byte>) returns (s: Sealed)
    requires tables.Valid() && |key| == 32 && |p| <= MAX_AEAD
    ensures Seal(key, nonce, Bits(p)) == Some(s) && |s.cipher| == |p| && |s.tag| == 16
  {
    hide Seal, Bits;
    var cipher := new bv8[|p|];
    ghost var want := SealFits(key, nonce, Bits(p));
    var rc, tag := SealCode(tables, key, nonce, Bits(p), cipher, |p|);
    assert cipher[..|p|] == cipher[..];
    s := Sealed(cipher[..], tag);
  }

  lemma PartsOfPrefix(b: seq<byte>, end: nat)
    requires LooksEncrypted(b) && end == HEADER_LEN + PayloadLen(b) <= |b|
    ensures LooksEncrypted(b[..end]) && PayloadLen(b[..end]) == PayloadLen(b) && Parts(b[..end]) == Parts(b)
  {
    hide Bits, HasFlag, Get16;
    var g := b[..end];
    assert g[7] == b[7] && g[12] == b[12] && g[13] == b[13];
    assert g[14..26] == b[14..26] && g[26..end - 16] == b[26..end - 16] && g[end - 16..end] == b[end - 16..end];
  }

  method OpenPayload(tables: AesCode.Tables, key: seq<bv8>, g: seq<byte>) returns (p: Option<seq<bv8>>)
    requires tables.Valid() && |key| == 32 && LooksEncrypted(g) && HEADER_LEN + PayloadLen(g) == |g|
    ensures p == Open(key, Parts(g).0, Parts(g).1)
    ensures p.Some? ==> |p.value| == PayloadLen(g) - 28
  {
    hide Open, Bits, HasFlag;
    var end := |g|;
    var plain := new bv8[end - 42];
    var rc := OpenCode(tables, key, Bits(g[14..26]), Bits(g[26..end - 16]), Bits(g[end - 16..end]), plain, end - 42);
    if rc != 0 { return None; }
    assert plain[..end - 42] == plain[..];
    p := Some(plain[..]);
  }

  class Client {
    const tables: AesCode.Tables
    var running: bool
    var uuid: seq<byte>
    var secret: seq<byte>
    var tunnelEnc: bool
    var tunnelKeys: map<seq<byte>, seq<bv8>>
    var encTx: nat
    var encRx: nat
    var sessions: map<seq<byte>, S.Session>
    var nextSessionId: u16

    /** The cache of a running client agrees with the key derivation; sessions are not shared between peers, and
        only a running client has any. */
    ghost predicate Valid()
      reads this
    {
      && tables.Valid()
      && (running ==> KeysAgree())
      && (!running ==> sessions == map[])
      && (forall p, q :: p in sessions && q in sessions && sessions[p] == sessions[q] ==> p == q)
    }

    ghost predicate KeysAgree()
      reads this
    {
      tunnelEnc == (secret != []) && forall p :: p in tunnelKeys ==> CacheOk(p)
    }

    ghost predicate CacheOk(p: seq<byte>)
      requires p in tunnelKeys
      reads this
    {
      TunnelKey(secret, uuid, p) == Some(tunnelKeys[p])
    }

    constructor (tables: AesCode.Tables)
      requires tables.Valid()
      ensures Valid() && !running
    {
      this.tables := tables;
      running, uuid, secret, tunnelEnc, tunnelKeys := false, [], [], false, map[];
      encTx, encRx, sessions, nextSessionId := 0, 0, map[], 1;
    }

    /** `start` with another configuration. The cached keys belong to the old one and are dropped, but not when the
        server address or the socket fails after the new secret has been stored: such a client is not running, and
        the next start that succeeds drops them. */
    method Start(uuid: seq<byte>, secret: seq<byte>, hasServer: bool, addressOk: bool, socketOk: bool)
      returns (ok: bool)
      requires Valid()
      modifies this`running, this`uuid, this`secret, this`tunnelEnc, this`tunnelKeys
      ensures Valid()
      ensures var taken := !old(running) && uuid != [] && |uuid| <= MAX_UUID_LEN && hasServer;
              && ok == (taken && addressOk && socketOk)
              && running == (old(running) || ok)
              && this.uuid == (if taken then uuid else old(this.uuid))
              && this.secret == (if taken then secret else old(this.secret))
              && tunnelEnc == (if ok then secret != [] else old(tunnelEnc))
              && tunnelKeys == (if ok then map[] else old(tunnelKeys))
    {
      if running { return false; }
      if uuid == [] || |uuid| > MAX_UUID_LEN || !hasServer { return false; }
      this.uuid, this.secret := uuid, secret;
      if !addressOk { return false; }
      if !socketOk { return false; }
      tunnelEnc := secret != [];
      tunnelKeys := map[];
      running := true;
      ok := true;
    }

    method Stop()
      requires Valid()
      modifies this`running, this`sessions
      ensures Valid() && !running && sessions == map[]
    {
      if !running { return; }
      running := false;
      sessions := map[];
    }

    method GetTunnelKey(peer: seq<byte>) returns (key: Option<seq<bv8>>)
      requires Valid() && running
      modifies this`tunnelKeys
      ensures Valid() && key == TunnelKey(secret, uuid, peer)
    {
      hide Hmac.Mac, Bits;
      if secret == [] || peer == [] || peer == uuid { return None; }
      if peer in tunnelKeys {
        assert CacheOk(peer);
        return Some(tunnelKeys[peer]);
      }
      var text := KEY_PREFIX + (if Less(uuid, peer) then uuid else peer) + [COLON]
          + (if Less(uuid, peer) then peer else uuid);
      var k := MacOf(secret, text);
      tunnelKeys := tunnelKeys[peer := k];
      assert forall p :: p in tunnelKeys && p != peer ==> p in old(tunnelKeys) && old(CacheOk(p));
      key := Some(k);
    }

    method EncryptTunnelFrame(peer: seq<byte>, out: array<byte>, input: array<byte>, len: nat, nonce: Nonce)
      returns (ok: bool, outLen: nat)
      requires Valid() && running && out.Length >= MAX_PKT && input != out && len <= input.Length
      requires input.Length >= HEADER_LEN ==> HEADER_LEN + PayloadLen(input[..]) <= input.Length
      modifies this`tunnelKeys, this`encTx, out
      ensures Valid()
      ensures var g := EncryptBuffer(TunnelKey(secret, uuid, peer), nonce, input[..], len);
              && ok == g.Some?
              && (ok ==> outLen <= out.Length && out[..outLen] == g.value && encTx == old(encTx) + 1)
              && (!ok ==> encTx == old(encTx))
    {
      hide TunnelKey, Seal, Bits, Nats, Rehead, HasFlag;
      outLen := 0;
      if len < HEADER_LEN { return false, 0; }
      var n := Get16(input[12], input[13]);
      if n == 0 || HEADER_LEN + NONCE_LEN + n + TAG_LEN > MAX_PKT { return false, 0; }
      var key := GetTunnelKey(peer);
      if key.None? { return false, 0; }
      var sealed := SealPayload(tables, key.value, nonce, input[14..14 + n]);
      outLen := HEADER_LEN + NONCE_LEN + n + TAG_LEN;
      Layout(out, Rehead(input[..14], SetBit1(input[7]), NONCE_LEN + n + TAG_LEN), Nats(nonce), Nats(sealed.cipher),
          Nats(sealed.tag));
      encTx := encTx + 1;
      ok := true;
    }

    method DecryptTunnelFrame(peer: seq<byte>, out: array<byte>, input: array<byte>, len: nat)
      returns (ok: bool, outLen: nat)
      requires Valid() && running && out.Length >= MAX_PKT && input != out && len <= input.Length
      requires LooksEncrypted(input[..]) ==> HEADER_LEN + PayloadLen(input[..]) <= input.Length
      modifies this`tunnelKeys, this`encRx, out
      ensures Valid()
      ensures var f := DecryptBuffer(TunnelKey(secret, uuid, peer), input[..], len);
              && ok == f.Some?
              && (ok ==> outLen <= out.Length && out[..outLen] == f.value && encRx == old(encRx) + 1)
              && (!ok ==> encRx == old(encRx))
    {
      hide TunnelKey, Open, Bits, Nats, Rehead, Parts;
      outLen := 0;
      if len < HEADER_LEN || !HasFlag(input[7], TF_ENC) { return false, 0; }
      var n := Get16(input[12], input[13]);
      if n < 28 || HEADER_LEN + n - 28 > MAX_PKT { return false, 0; }
      var key := GetTunnelKey(peer);
      if key.None? { return false, 0; }
      var plain := OpenPayload(tables, key.value, input[..14 + n]);
      PartsOfPrefix(input[..], 14 + n);
      if plain.None? { return false, 0; }
      outLen := 14 + n - 28;
      Layout(out, Rehead(input[..14], ClearBit1(input[7]), n - 28), Nats(plain.value), [], []);
      encRx := encRx + 1;
      ok := true;
    }

    /** The first half of `send_tunnel_via`: what goes out, over whatever path. */
    method Transmit(peer: seq<byte>, frame: array<byte>, len: nat, nonce: Nonce) returns (tx: seq<byte>)
      requires Valid() && running && len <= frame.Length
      requires frame.Length >= HEADER_LEN ==> HEADER_LEN + PayloadLen(frame[..]) <= frame.Length
      modifies this`tunnelKeys, this`encTx
      ensures Valid() && tx == Transmitted(TunnelKey(secret, uuid, peer), nonce, frame[..], len)
    {
      hide TunnelKey, EncryptFrame;
      tx := frame[..len];
      if tunnelEnc {
        var encbuf := new byte[MAX_PKT];
        var ok, n := EncryptTunnelFrame(peer, encbuf, frame, len, nonce);
        if ok { tx := encbuf[..n]; }
      } else {
        NoKey(secret, uuid, peer);
      }
    }

    method SessionFor(peer: seq<byte>) returns (s: S.Session)
      requires Valid() && running
      modifies this`sessions, this`nextSessionId
      ensures Valid() && peer in sessions && s == sessions[peer]
      ensures peer in old(sessions) ==> sessions == old(sessions)
      ensures peer !in old(sessions) ==>
                fresh(s) && sessions == old(sessions)[peer := s] && s.State() == SessionSpec.Init(old(nextSessionId))
    {
      if peer in sessions { return sessions[peer]; }
      s := new S.Session(nextSessionId);
      nextSessionId := Next16(nextSessionId);
      sessions := sessions[peer := s];
    }

    method OnTunnelFrame(input: array<byte>, len: nat, peer: seq<byte>)
      returns (tx: seq<seq<byte>>, up: seq<SessionSpec.Delivery>)
      requires Valid() && running && len <= input.Length
      requires LooksEncrypted(input[..]) ==> HEADER_LEN + PayloadLen(input[..]) <= input.Length
      modifies this, if peer in sessions then {sessions[peer]} else {}
      ensures Valid() && peer in sessions && secret == old(secret) && uuid == old(uuid)
      ensures var before := if peer in old(sessions) then old(sessions[peer].State())
                            else SessionSpec.Init(old(nextSessionId));
              SessionSpec.Out(sessions[peer].State(), tx, up)
                == SessionSpec.OnFrame(before, Handed(TunnelKey(secret, uuid, peer), input[..], len))
    {
      hide TunnelKey, DecryptFrame, SessionSpec.OnFrame, HasFlag;
      var f := input[..len];
      if tunnelEnc {
        var decbuf := new byte[MAX_PKT];
        var ok, n := DecryptTunnelFrame(peer, decbuf, input, len);
        if ok { f := decbuf[..n]; }
      } else {
        NoKey(secret, uuid, peer);
      }
      assert f == Handed(TunnelKey(secret, uuid, peer), input[..], len);
      var s := SessionFor(peer);
      tx, up := s.OnFrame(f);
    }

    /** Writes the parts of a frame one after the other. */
    static method Layout(out: array<byte>, h: seq<byte>, a: seq<byte>, b: seq<byte>, c: seq<byte>)
      requires |h| + |a| + |b| + |c| <= out.Length
      modifies out
      ensures out[..|h| + |a| + |b| + |c|] == h + a + b + c
    {
      Append(out, [], h);
      Append(out, h, a);
      Append(out, h + a, b);
      Append(out, h + a + b, c);
    }

    static method Append(out: array<byte>, done: seq<byte>, b: seq<byte>)
      requires |done| + |b| <= out.Length && out[..|done|] == done
      modifies out
      ensures out[..|done| + |b|] == done + b
    {
      Put(out, |done|, b);
    }
  }
}
