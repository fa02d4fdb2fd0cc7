/** The encrypted link under a run of two sessions. */
module TunnelLink {
  import opened Bytes
  import opened Codec
  import opened SessionSpec
  import opened TunnelNet
  import opened TunnelPlain
  import opened TunnelCrypto
  import opened Aead

  /** In every run, encrypting a packet of either direction between two named clients and decrypting
      it at the other end gives the packet back. */
  lemma LinkIsTransparent(sidA: u16, sidB: u16, clock: nat, moves: seq<Move>,
                          secret: seq<byte>, a: seq<byte>, b: seq<byte>, nonce: Nonce, p: seq<byte>)
    requires Valid(Start(sidA, sidB, clock), moves) && a != [] && b != []
    requires var y := Run(Start(sidA, sidB, clock), moves); p in y.a.flying + y.b.flying
    ensures Plain(p)
    ensures WholeFrame(Outgoing(secret, a, b, nonce, p)) && WholeFrame(Outgoing(secret, b, a, nonce, p))
    ensures Incoming(secret, b, a, Outgoing(secret, a, b, nonce, p)) == p
    ensures Incoming(secret, a, b, Outgoing(secret, b, a, nonce, p)) == p
  {
    hide Incoming, Outgoing, Plain;
    RunPlain(sidA, sidB, clock, moves);
    Transparent(secret, a, b, nonce, p);
    Transparent(secret, b, a, nonce, p);
  }
}
