/** The stateful session of Session.h, every method proved against its transition function. */
module Session {
  import opened Bytes
  import opened Codec
  import Spec = SessionSpec
  import opened SessionSpec

  method Write(f: Frame) returns (b: seq<byte>)
    requires f.Fits()
    ensures b == Encode(f)
  {
    var frame := new byte[HEADER_LEN + |f.payload|];
    var n := WriteTunnel(frame, frame.Length, f);
    b := frame[..n];
  }

  lemma DrainRound(s: Spec.State, up: seq<Delivery>)
    requires IsFirst(s.ooo, s.expected)
    ensures var (s', d) := DrainOne(s);
            Spec.Drain(s).state == Spec.Drain(s').state && up + Spec.Drain(s).up == up + [d] + Spec.Drain(s').up
  {
  }

  lemma DrainEnd(s: Spec.State)
    requires !IsFirst(s.ooo, s.expected)
    ensures Spec.Drain(s) == Out(s, [], [])
  {
  }

  class Session {
    const sid: u16
    var active: bool
    var nextSeq: u16
    var expected: u16
    var lastPing: nat
    var pending: seq<Msg>
    var ooo: map<u16, seq<byte>>
    var slotChannel: map<u16, byte>
    var txBytes: nat
    var rxBytes: nat

    constructor (sid: u16)
      ensures State() == Init(sid)
    {
      this.sid := sid;
      active, nextSeq, expected, lastPing := true, 0, 0, 0;
      pending, ooo, slotChannel := [], map[], map[];
      txBytes, rxBytes := 0, 0;
    }

    function State(): Spec.State
      reads this
    {
      Spec.State(sid, active, nextSeq, expected, lastPing, pending, ooo, slotChannel, txBytes, rxBytes)
    }

    method Send(channel: byte, data: seq<byte>, reliable: bool, now: nat)
      returns (rc: int, tx: seq<seq<byte>>)
      modifies this
      ensures var r := Spec.Send(old(State()), channel, data, reliable, now);
              rc == r.0 && State() == r.1.state && tx == r.1.tx && r.1.up == []
    {
      hide Encode, Decode;
      if |data| > MAX_TUNNEL_PAYLOAD { return -1, []; }
      var sequence: u16, flags := 0, 0;
      if reliable {
        flags := TF_RELIABLE;
        if |pending| >= WINDOW { return -2, []; }
        sequence, nextSeq := nextSeq, Next16(nextSeq);
      }
      var frame := Write(DataFrame(sid, channel, flags, sequence, data));
      if reliable {
        pending := pending + [Msg(sequence, channel, flags, frame, now)];
      }
      return 0, [frame];
    }

    method OnFrame(b: seq<byte>) returns (tx: seq<seq<byte>>, up: seq<Delivery>)
      modifies this
      ensures Out(State(), tx, up) == Spec.OnFrame(old(State()), b)
    {
      tx, up := [], [];
      var t := Decode(b);
      if t.None? { return; }
      var f := t.value;
      if f.typ == TT_DATA {
        tx, up := HandleData(f);
      } else if f.typ == TT_ACK {
        HandleAck(f.ack);
      } else if f.typ == TT_PING {
        var pong := Write(ControlFrame(sid, TT_PONG, 0));
        tx := [pong];
      } else if f.typ == TT_CLOSE {
        active := false;
      }
    }

    method Tick(now: nat) returns (tx: seq<seq<byte>>)
      modifies this
      ensures Out(State(), tx, []) == Spec.Tick(old(State()), now)
    {
      hide Encode, Decode, Retransmit;
      tx := [];
      if Elapsed(now, lastPing) >= PING_MS {
        lastPing := now;
        var ping := Write(ControlFrame(sid, TT_PING, 0));
        tx := [ping];
      }
      var again := RetransmitLoop(now);
      tx := tx + again;
    }

    method RetransmitLoop(now: nat) returns (tx: seq<seq<byte>>)
      modifies this`pending
      ensures (pending, tx) == Retransmit(old(pending), now)
    {
      tx := [];
      ghost var before := pending;
      for i := 0 to |pending|
        invariant |pending| == |before|
        invariant pending[..i] == Retransmit(before[..i], now).0 && pending[i..] == before[i..]
        invariant tx == Retransmit(before[..i], now).1
      {
        var m := pending[i];
        assert m == before[i] && before[..i + 1][..i] == before[..i];
        if Elapsed(now, m.sentMs) >= RTO_MS {
          tx := tx + [m.data];
          pending := pending[i := m.(sentMs := now)];
        }
        assert pending[..i + 1] == Retransmit(before[..i], now).0 + [pending[i]];
      }
      assert before[..|before|] == before && pending[..|pending|] == pending;
    }

    method HandleData(f: Frame) returns (tx: seq<seq<byte>>, up: seq<Delivery>)
      modifies this
      ensures Out(State(), tx, up) == Spec.HandleData(old(State()), f)
    {
      hide Encode, Decode, Spec.HandleReliable;
      txBytes := txBytes + |f.payload|;
      if HasFlag(f.flags, TF_RELIABLE) {
        up := HandleReliable(f);
        var ack := Write(ControlFrame(sid, TT_ACK, AckValue(expected)));
        tx := [ack];
      } else {
        rxBytes := rxBytes + |f.payload|;
        tx, up := [], [Delivery(f.channel, f.payload, false)];
      }
    }

    method HandleReliable(f: Frame) returns (up: seq<Delivery>)
      modifies this
      ensures Out(State(), [], up) == Spec.HandleReliable(old(State()), f)
    {
      hide Spec.Drain;
      up := [];
      if f.sequence == expected {
        rxBytes := rxBytes + |f.payload|;
        expected := Next16(expected);
        up := DrainLoop();
        up := [Delivery(f.channel, f.payload, true)] + up;
      } else if f.sequence > expected && |ooo| < WINDOW {
        ooo := ooo[f.sequence := f.payload];
        slotChannel := slotChannel[f.sequence := f.channel];
      }
    }

    method DrainLoop() returns (up: seq<Delivery>)
      modifies this
      ensures Out(State(), [], up) == Spec.Drain(old(State()))
    {
      hide Spec.Drain;
      up := [];
      ghost var all := Spec.Drain(State());
      while IsFirst(ooo, expected)
        invariant Spec.Drain(State()).state == all.state && up + Spec.Drain(State()).up == all.up
        decreases ooo.Keys
      {
        ghost var s := State();
        var k := expected;
        var d := Delivery(if k in slotChannel then slotChannel[k] else 0, ooo[k], true);
        rxBytes := rxBytes + |d.payload|;
        slotChannel := slotChannel - {k};
        ooo := ooo - {k};
        expected := Next16(expected);
        assert (State(), d) == DrainOne(s);
        DrainRound(s, up);
        up := up + [d];
      }
      DrainEnd(State());
    }

    method HandleAck(ack: u16)
      modifies this`pending
      ensures State() == old(State()).(pending := PopAcked(old(pending), ack))
    {
      while pending != [] && Acked(pending[0].sequence, ack)
        invariant PopAcked(pending, ack) == PopAcked(old(pending), ack)
        decreases |pending|
      {
        pending := pending[1..];
      }
    }
  }
}
