/** The tunnel frame codec: writer, reader and their round trips. */
module Codec {
  import opened Bytes

  const MAGIC_HI: byte := 0x50
  const MAGIC_LO: byte := 0x54
  const TUNNEL_VER: byte := 0x01
  const HEADER_LEN := 14

  const TT_DATA: byte := 0
  const TT_ACK: byte := 1
  const TT_PING: byte := 2
  const TT_PONG: byte := 3
  const TT_CLOSE: byte := 4

  const TF_RELIABLE: byte := 0x01
  const TF_ENC: byte := 0x02

  const MAX_TUNNEL_PAYLOAD := 1200

  datatype Frame = Frame(typ: byte, sid: u16, channel: byte, flags: byte,
                         sequence: u16, ack: u16, payload: seq<byte>)
  {
    /** The length field has 16 bits. */
    predicate Fits() { |payload| < 0x1_0000 }

    predicate ReliableData() { typ == TT_DATA && HasFlag(flags, TF_RELIABLE) }
  }

  function Header(f: Frame): (h: seq<byte>)
    requires f.Fits()
  {
    [MAGIC_HI, MAGIC_LO, TUNNEL_VER, f.typ, Hi(f.sid), Lo(f.sid), f.channel, f.flags,
     Hi(f.sequence), Lo(f.sequence), Hi(f.ack), Lo(f.ack), Hi(|f.payload|), Lo(|f.payload|)]
  }

  function Encode(f: Frame): (b: seq<byte>)
    requires f.Fits()
    ensures |b| == HEADER_LEN + |f.payload|
    ensures Decode(b) == Some(f)
  {
    ReadsBack(f, Header(f) + f.payload);
    Header(f) + f.payload
  }

  lemma ReadsBack(f: Frame, b: seq<byte>)
    requires f.Fits() && b == Header(f) + f.payload
    ensures Decode(b) == Some(f)
  {
    hide Hi, Lo, Get16;
    Split16(f.sid);
    Split16(f.sequence);
    Split16(f.ack);
    Split16(|f.payload|);
    var h := Header(f);
    assert b[0] == h[0] && b[1] == h[1] && b[2] == h[2] && b[3] == h[3] && b[4] == h[4] && b[5] == h[5];
    assert b[6] == h[6] && b[7] == h[7] && b[8] == h[8] && b[9] == h[9] && b[10] == h[10] && b[11] == h[11];
    assert b[12] == h[12] && b[13] == h[13] && b[14..14 + |f.payload|] == f.payload;
  }

  function Decode(b: seq<byte>): (r: Option<Frame>)
    ensures r.Some? ==> r.value.Fits() && HEADER_LEN + |r.value.payload| <= |b|
  {
    if |b| < HEADER_LEN || b[0] != MAGIC_HI || b[1] != MAGIC_LO || b[2] != TUNNEL_VER then None
    else
      var len := Get16(b[12], b[13]);
      if HEADER_LEN + len > |b| then None
      else Some(Frame(b[3], Get16(b[4], b[5]), b[6], b[7], Get16(b[8], b[9]), Get16(b[10], b[11]), b[14..14 + len]))
  }

  /** An accepted buffer starts with the encoding of the frame that was read from it. */
  lemma DecodeEncode(b: seq<byte>)
    requires Decode(b).Some?
    ensures Encode(Decode(b).value) == b[..HEADER_LEN + |Decode(b).value.payload|]
  {
    var f := Decode(b).value;
    assert forall i :: 0 <= i < 14 ==> Header(f)[i] == b[i];
    assert Header(f) == b[..14];
    assert b[..14 + |f.payload|] == b[..14] + b[14..14 + |f.payload|];
  }

  function PayloadLen(b: seq<byte>): u16
    requires |b| >= HEADER_LEN
  {
    Get16(b[12], b[13])
  }

  /** The whole buffer is one frame. */
  predicate WholeFrame(b: seq<byte>) {
    |b| >= HEADER_LEN && |b| == HEADER_LEN + PayloadLen(b)
  }

  /** A frame as sessions build them: no TF_ENC, at most 1200 bytes of payload. */
  predicate Plain(p: seq<byte>) {
    WholeFrame(p) && !HasFlag(p[7], TF_ENC) && PayloadLen(p) <= MAX_TUNNEL_PAYLOAD
  }

  method Put(buf: array<byte>, at: nat, b: seq<byte>)
    requires at + |b| <= buf.Length
    modifies buf
    ensures buf[at..at + |b|] == b
    ensures buf[..at] == old(buf[..at]) && buf[at + |b|..] == old(buf[at + |b|..])
  {
    forall i | 0 <= i < |b| { buf[at + i] := b[i]; }
  }

  /** The writer: stores a frame into `buf`. Only 8 bytes of header are checked against the
      capacity, so a caller that passes less than 14 + |payload| must have the room anyway. */
  method WriteTunnel(buf: array<byte>, cap: int, f: Frame) returns (n: int)
    requires f.Fits()
    requires 8 + |f.payload| <= cap ==> HEADER_LEN + |f.payload| <= buf.Length
    modifies buf
    ensures 8 + |f.payload| > cap ==> n == -1 && buf[..] == old(buf[..])
    ensures 8 + |f.payload| <= cap ==>
              n == HEADER_LEN + |f.payload| && buf[..n] == Encode(f) && buf[n..] == old(buf[n..])
  {
    hide Decode;
    var len := |f.payload|;
    if 8 + len > cap { return -1; }
    Put(buf, 0, [MAGIC_HI, MAGIC_LO, TUNNEL_VER, f.typ, Hi(f.sid), Lo(f.sid), f.channel, f.flags,
                 Hi(f.sequence), Lo(f.sequence), Hi(f.ack), Lo(f.ack), Hi(len), Lo(len)]);
    ghost var rest := buf[14..];
    Put(buf, 14, f.payload);
    assert buf[..14 + len] == buf[..14] + buf[14..14 + len];
    assert buf[14 + len..] == rest[len..];
    return 14 + len;
  }
}
