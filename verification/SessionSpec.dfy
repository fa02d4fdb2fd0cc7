/** One end of a tunnel, the reliable-UDP session of Session.h, as transition functions on
    values. Bytes handed to the transport (`on_tx`) and calls of `deliver` are returned in
    order. */
module SessionSpec {
  import opened Bytes
  import opened Codec

  const WINDOW := 64
  const RTO_MS := 400
  const PING_MS := 15000

  datatype Msg = Msg(sequence: u16, channel: byte, flags: byte, data: seq<byte>, sentMs: nat)

  /** One call of `deliver`; `reliable` records which branch of `handle_data` made it. */
  datatype Delivery = Delivery(channel: byte, payload: seq<byte>, reliable: bool)

  datatype State = State(
    sid: u16, active: bool, nextSeq: u16, expected: u16, lastPing: nat,
    pending: seq<Msg>, ooo: map<u16, seq<byte>>, slotChannel: map<u16, byte>,
    txBytes: nat, rxBytes: nat)

  datatype Out = Out(state: State, tx: seq<seq<byte>>, up: seq<Delivery>)

  function Init(sid: u16): State {
    State(sid, true, 0, 0, 0, [], map[], map[], 0, 0)
  }

  /** `now - then` on unsigned 64-bit milliseconds. */
  function Elapsed(now: nat, then_: nat): nat {
    if now >= then_ then now - then_ else (now - then_) % U64_MODULUS
  }

  function DataFrame(sid: u16, channel: byte, flags: byte, sequence: u16, data: seq<byte>): Frame {
    Frame(TT_DATA, sid, channel, flags, sequence, 0, data)
  }

  function ControlFrame(sid: u16, typ: byte, ack: u16): Frame {
    Frame(typ, sid, 0, 0, 0, ack, [])
  }

  /** `(int16_t)(sequence - ack) <= 0` */
  predicate Acked(sequence: u16, ack: u16) {
    var d := (sequence - ack) % 0x1_0000;
    d == 0 || d >= 0x8000
  }

  /** The smallest buffered sequence number is `k` (`ooo_.begin()->first == k`). */
  predicate IsFirst<V>(ooo: map<u16, V>, k: u16) {
    k in ooo && forall j :: j in ooo ==> k <= j
  }

  function Send(s: State, channel: byte, data: seq<byte>, reliable: bool, now: nat): (r: (int, Out)) {
    if |data| > MAX_TUNNEL_PAYLOAD then (-1, Out(s, [], []))
    else if !reliable then (0, Out(s, [Encode(DataFrame(s.sid, channel, 0, 0, data))], []))
    else if |s.pending| >= WINDOW then (-2, Out(s, [], []))
    else
      var frame := Encode(DataFrame(s.sid, channel, TF_RELIABLE, s.nextSeq, data));
      var m := Msg(s.nextSeq, channel, TF_RELIABLE, frame, now);
      (0, Out(s.(nextSeq := Next16(s.nextSeq), pending := s.pending + [m]), [frame], []))
  }

  function AckValue(expected: u16): u16 {
    if expected > 0 then expected - 1 else 0
  }

  function Deliver(s: State, d: Delivery): Out {
    Out(s.(rxBytes := s.rxBytes + |d.payload|), [], [d])
  }

  function BufferedChannel(s: State, k: u16): byte {
    if k in s.slotChannel then s.slotChannel[k] else 0
  }

  /** One round of the drain loop: the first buffered frame is handed up. */
  function DrainOne(s: State): (r: (State, Delivery))
    requires s.expected in s.ooo
    ensures r.0.ooo.Keys < s.ooo.Keys
  {
    var k := s.expected;
    var d := Delivery(BufferedChannel(s, k), s.ooo[k], true);
    assert k !in (s.ooo - {k}).Keys;
    (s.(rxBytes := s.rxBytes + |d.payload|, slotChannel := s.slotChannel - {k},
        ooo := s.ooo - {k}, expected := Next16(k)), d)
  }

  /** The drain loop: hands up buffered frames while the first one is the expected one. */
  function Drain(s: State): (r: Out)
    decreases s.ooo.Keys
    ensures r.tx == []
  {
    if !IsFirst(s.ooo, s.expected) then Out(s, [], [])
    else
      var one := DrainOne(s);
      var r := Drain(one.0);
      Out(r.state, [], [one.1] + r.up)
  }

  function HandleReliable(s: State, f: Frame): (r: Out)
    ensures r.tx == []
  {
    if f.sequence == s.expected then
      var d := Delivery(f.channel, f.payload, true);
      var r := Drain(s.(rxBytes := s.rxBytes + |f.payload|, expected := Next16(s.expected)));
      Out(r.state, [], [d] + r.up)
    else if f.sequence > s.expected && |s.ooo| < WINDOW then
      Out(s.(ooo := s.ooo[f.sequence := f.payload], slotChannel := s.slotChannel[f.sequence := f.channel]), [], [])
    else Out(s, [], [])
  }

  function AckFrame(s: State): seq<byte> {
    Encode(ControlFrame(s.sid, TT_ACK, AckValue(s.expected)))
  }

  function HandleData(s: State, f: Frame): Out {
    var s := s.(txBytes := s.txBytes + |f.payload|);
    if HasFlag(f.flags, TF_RELIABLE) then
      var r := HandleReliable(s, f);
      r.(tx := [AckFrame(r.state)])
    else Deliver(s, Delivery(f.channel, f.payload, false))
  }

  function PopAcked(pending: seq<Msg>, ack: u16): seq<Msg> {
    if pending != [] && Acked(pending[0].sequence, ack) then PopAcked(pending[1..], ack) else pending
  }

  function OnFrame(s: State, b: seq<byte>): Out {
    match Decode(b)
    case None => Out(s, [], [])
    case Some(f) =>
      if f.typ == TT_DATA then HandleData(s, f)
      else if f.typ == TT_ACK then Out(s.(pending := PopAcked(s.pending, f.ack)), [], [])
      else if f.typ == TT_PING then Out(s, [Encode(ControlFrame(s.sid, TT_PONG, 0))], [])
      else if f.typ == TT_CLOSE then Out(s.(active := false), [], [])
      else Out(s, [], [])
  }

  /** The retransmission loop of `tick`: stamps and lists the frames whose timer ran out. */
  function Retransmit(pending: seq<Msg>, now: nat): (r: (seq<Msg>, seq<seq<byte>>))
    ensures |r.0| == |pending|
  {
    if pending == [] then ([], [])
    else
      var n := |pending| - 1;
      var m := pending[n];
      var r := Retransmit(pending[..n], now);
      if Elapsed(now, m.sentMs) >= RTO_MS then (r.0 + [m.(sentMs := now)], r.1 + [m.data])
      else (r.0 + [m], r.1)
  }

  predicate Overdue(m: Msg, now: nat) { Elapsed(now, m.sentMs) >= RTO_MS }

  predicate Resent(pending: seq<Msg>, now: nat, b: seq<byte>) {
    exists m :: m in pending && Overdue(m, now) && b == m.data
  }

  /** Every frame stays pending in its place; exactly the overdue ones are sent again. */
  lemma {:induction false} RetransmitMeaning(pending: seq<Msg>, now: nat)
    ensures var r := Retransmit(pending, now);
            && (forall i :: 0 <= i < |pending| ==>
                 r.0[i] == if Overdue(pending[i], now) then pending[i].(sentMs := now) else pending[i])
            && (forall b :: b in r.1 <==> Resent(pending, now, b))
  {
    if pending != [] {
      var n := |pending| - 1;
      RetransmitMeaning(pending[..n], now);
      assert pending == pending[..n] + [pending[n]];
    }
  }

  function Tick(s: State, now: nat): Out {
    var r := Retransmit(s.pending, now);
    if Elapsed(now, s.lastPing) >= PING_MS then
      Out(s.(lastPing := now, pending := r.0), [Encode(ControlFrame(s.sid, TT_PING, 0))] + r.1, [])
    else Out(s.(pending := r.0), r.1, [])
  }
}
