/** Every packet of a run is a frame the tunnel encryption takes: whole, without TF_ENC, with at
    most 1200 bytes of payload. */
module TunnelPlain {
  import opened Bytes
  import opened Codec
  import opened SessionSpec
  import opened TunnelNet
  import opened TunnelSafety

  /** Everything sessions have sent or may send again. */
  predicate AllPlain(e: End) {
    && (forall p :: p in e.flying ==> Plain(p))
    && (forall m :: m in e.s.pending ==> Plain(m.data))
  }

  lemma EncodePlain(f: Frame)
    requires |f.payload| <= MAX_TUNNEL_PAYLOAD && !HasFlag(f.flags, TF_ENC)
    ensures Plain(Encode(f))
  {
    Split16(|f.payload|);
  }

  predicate OutPlain(o: Out) {
    && (forall p :: p in o.tx ==> Plain(p))
    && (forall m :: m in o.state.pending ==> Plain(m.data))
  }

  lemma AfterPlain(e: End, o: Out)
    requires AllPlain(e) && OutPlain(o)
    ensures AllPlain(After(e, o))
  {
    hide Plain;
  }

  lemma ReceiveOutPlain(e: End, p: seq<byte>)
    requires AllPlain(e)
    ensures OutPlain(OnFrame(e.s, p))
  {
    hide Encode, Decode, Plain, HandleReliable;
    var o := OnFrame(e.s, p);
    OnFrameSender(e.s, p);
    if Decode(p).Some? { PopAckedSuffix(e.s.pending, Decode(p).value.ack); }
    assert !HasFlag(0, TF_ENC);
    EncodePlain(ControlFrame(e.s.sid, TT_PONG, 0));
    EncodePlain(ControlFrame(o.state.sid, TT_ACK, AckValue(o.state.expected)));
  }

  lemma ReceivePlain(e: End, p: seq<byte>)
    requires AllPlain(e)
    ensures AllPlain(After(e, OnFrame(e.s, p)))
  {
    ReceiveOutPlain(e, p);
    AfterPlain(e, OnFrame(e.s, p));
  }

  lemma TickOutPlain(e: End, now: nat)
    requires AllPlain(e)
    ensures OutPlain(SessionSpec.Tick(e.s, now))
  {
    hide Encode, Decode, Plain, Retransmit;
    var o := SessionSpec.Tick(e.s, now);
    RetransmitMeaning(e.s.pending, now);
    assert !HasFlag(0, TF_ENC);
    EncodePlain(ControlFrame(e.s.sid, TT_PING, 0));
    forall b | Resent(e.s.pending, now, b) ensures Plain(b) {
      var m :| m in e.s.pending && Overdue(m, now) && b == m.data;
    }
    forall m | m in o.state.pending ensures Plain(m.data) {
      var i :| 0 <= i < |o.state.pending| && o.state.pending[i] == m;
      assert m.data == e.s.pending[i].data;
    }
  }

  lemma TickPlain(e: End, now: nat)
    requires AllPlain(e)
    ensures AllPlain(After(e, SessionSpec.Tick(e.s, now)))
  {
    TickOutPlain(e, now);
    AfterPlain(e, SessionSpec.Tick(e.s, now));
  }

  lemma SendOutPlain(e: End, channel: byte, data: seq<byte>, reliable: bool, now: nat)
    requires AllPlain(e)
    ensures OutPlain(SessionSpec.Send(e.s, channel, data, reliable, now).1)
  {
    hide Encode, Decode, Plain;
    assert !HasFlag(0, TF_ENC) && !HasFlag(TF_RELIABLE, TF_ENC);
    if |data| <= MAX_TUNNEL_PAYLOAD {
      EncodePlain(DataFrame(e.s.sid, channel, 0, 0, data));
      EncodePlain(DataFrame(e.s.sid, channel, TF_RELIABLE, e.s.nextSeq, data));
    }
  }

  lemma SendPlain(e: End, channel: byte, data: seq<byte>, reliable: bool, now: nat)
    requires AllPlain(e)
    ensures AllPlain(After(e, SessionSpec.Send(e.s, channel, data, reliable, now).1))
  {
    SendOutPlain(e, channel, data, reliable, now);
    AfterPlain(e, SessionSpec.Send(e.s, channel, data, reliable, now).1);
  }

  lemma StepPlain(y: Sys, act: Act)
    requires EnabledA(y, act) && AllPlain(y.a) && AllPlain(y.b)
    ensures AllPlain(StepA(y, act).a) && AllPlain(StepA(y, act).b)
  {
    hide Encode, Decode, Plain, OnFrame, SessionSpec.Tick, SessionSpec.Send, After;
    match act
    case Send(channel, data, reliable) => SendPlain(y.a, channel, data, reliable, y.clock);
    case Tick => TickPlain(y.a, y.clock);
    case Receive(p) => ReceivePlain(y.a, p);
    case Drop(p) =>
    case Wait(ms) =>
  }

  lemma {:induction false} RunPlain(sidA: u16, sidB: u16, clock: nat, moves: seq<Move>)
    requires Valid(Start(sidA, sidB, clock), moves)
    ensures var y := Run(Start(sidA, sidB, clock), moves); AllPlain(y.a) && AllPlain(y.b)
  {
    hide StepA, EnabledA;
    if moves == [] {
      assert AllPlain(End(Init(sidA), {}, [], []));
    } else {
      var n := |moves| - 1;
      RunPlain(sidA, sidB, clock, moves[..n]);
      var y := Run(Start(sidA, sidB, clock), moves[..n]);
      if moves[n].0 == A { StepPlain(y, moves[n].1); } else { StepPlain(Swap(y), moves[n].1); }
    }
  }
}
