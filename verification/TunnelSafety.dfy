/** Safety of the tunnel: in every run with at most 65535 reliable sends per direction, the
    reliable deliveries are a prefix of what was sent, in order and exactly once. */
module TunnelSafety {
  import opened Bytes
  import opened Codec
  import opened SessionSpec
  import opened TunnelNet

  /** A reliable data packet carries the item sent under its sequence number. */
  predicate PacketOk(p: seq<byte>, sent: seq<Item>) {
    match Decode(p)
    case None => true
    case Some(f) =>
      f.ReliableData() ==> f.sequence < |sent| && sent[f.sequence] == Item(f.channel, f.payload)
  }

  predicate MsgOk(m: Msg, sent: seq<Item>) {
    match Decode(m.data)
    case None => false
    case Some(f) =>
      f.ReliableData() && f.sequence == m.sequence < |sent| && sent[f.sequence] == Item(f.channel, f.payload)
  }

  /** The out-of-order buffer holds items sent, all at or beyond `lo`. */
  predicate BufferOk(ooo: map<u16, seq<byte>>, channels: map<u16, byte>, lo: nat, sent: seq<Item>) {
    && channels.Keys == ooo.Keys
    && forall k :: k in ooo ==> lo <= k < |sent| && sent[k] == Item(channels[k], ooo[k])
  }

  const SAFE_SENDS := 0xFFFF

  /** Everything the receiving end `r` has or can still get comes from what `x` sent. */
  predicate Safe(x: End, r: End) {
    |x.sent| <= SAFE_SENDS ==>
      && x.s.nextSeq == |x.sent|
      && (forall p :: p in x.flying ==> PacketOk(p, x.sent))
      && (forall m :: m in x.s.pending ==> MsgOk(m, x.sent))
      && r.s.expected <= |x.sent|
      && Reliable(r.got) == x.sent[..r.s.expected]
      && BufferOk(r.s.ooo, r.s.slotChannel, r.s.expected + 1, x.sent)
  }

  predicate NotReliable(p: seq<byte>) {
    Decode(p).Some? ==> !Decode(p).value.ReliableData()
  }

  lemma DrainOneSafe(s: State, sent: seq<Item>)
    requires |sent| <= SAFE_SENDS && IsFirst(s.ooo, s.expected)
    requires BufferOk(s.ooo, s.slotChannel, s.expected, sent)
    ensures var (s', d) := DrainOne(s);
            && s'.expected == s.expected + 1 <= |sent|
            && BufferOk(s'.ooo, s'.slotChannel, s'.expected, sent)
            && Reliable([d]) == [sent[s.expected]]
  {
    var (s', d) := DrainOne(s);
    assert [d][..0] == [];
    assert s.expected !in s'.ooo;
  }

  lemma {:induction false} DrainSafe(s: State, sent: seq<Item>)
    requires |sent| <= SAFE_SENDS && s.expected <= |sent|
    requires BufferOk(s.ooo, s.slotChannel, s.expected, sent)
    ensures var r := Drain(s);
            && s.expected <= r.state.expected <= |sent|
            && BufferOk(r.state.ooo, r.state.slotChannel, r.state.expected + 1, sent)
            && Reliable(r.up) == sent[s.expected..r.state.expected]
    decreases s.ooo.Keys
  {
    if IsFirst(s.ooo, s.expected) {
      hide BufferOk, Reliable, DrainOne;
      DrainOneSafe(s, sent);
      var (s', d) := DrainOne(s);
      DrainSafe(s', sent);
      ReliableConcat([d], Drain(s').up);
    } else {
      assert s.expected !in s.ooo;
      assert Drain(s) == Out(s, [], []);
    }
  }

  /** What a received packet can do to the sending half of a session. */
  lemma OnFrameSender(s: State, b: seq<byte>)
    ensures var r := OnFrame(s, b);
            && r.state.nextSeq == s.nextSeq && r.state.sid == s.sid
            && (r.state.pending == s.pending ||
                (Decode(b).Some? && Decode(b).value.typ == TT_ACK
                    && r.state.pending == PopAcked(s.pending, Decode(b).value.ack)))
            && forall p :: p in r.tx ==> NotReliable(p)
  {
    hide Encode, Decode, Drain;
    match Decode(b)
    case None =>
    case Some(f) =>
      if f.typ == TT_DATA { DrainFrame(s, f); }
  }

  lemma {:induction false} DrainKeeps(s: State)
    ensures var r := Drain(s);
            r.state.pending == s.pending && r.state.nextSeq == s.nextSeq && r.state.sid == s.sid
    decreases s.ooo.Keys
  {
    if IsFirst(s.ooo, s.expected) {
      DrainKeeps(DrainOne(s).0);
    }
  }

  lemma DrainFrame(s: State, f: Frame)
    ensures var r := HandleData(s, f);
            r.state.pending == s.pending && r.state.nextSeq == s.nextSeq && r.state.sid == s.sid
  {
    hide Encode, Decode, Drain;
    var s1 := s.(txBytes := s.txBytes + |f.payload|);
    DrainKeeps(s1.(rxBytes := s1.rxBytes + |f.payload|, expected := Next16(s1.expected)));
  }

  lemma {:induction false} PopAckedSuffix(pending: seq<Msg>, ack: u16)
    ensures exists k :: 0 <= k <= |pending| && PopAcked(pending, ack) == pending[k..]
  {
    if pending != [] && Acked(pending[0].sequence, ack) {
      PopAckedSuffix(pending[1..], ack);
      var k :| 0 <= k <= |pending[1..]| && PopAcked(pending[1..], ack) == pending[1..][k..];
      assert pending[1..][k..] == pending[k + 1..];
    } else {
      assert pending[0..] == pending;
    }
  }

  lemma SafeTick(y: Sys)
    requires Safe(y.a, y.b)
    ensures Safe(StepA(y, Tick).a, StepA(y, Tick).b)
  {
    hide Encode, Decode, Retransmit;
    var z := StepA(y, Tick);
    if |y.a.sent| <= SAFE_SENDS {
      RetransmitMeaning(y.a.s.pending, y.clock);
      forall m | m in z.a.s.pending ensures MsgOk(m, z.a.sent) {
        var i :| 0 <= i < |z.a.s.pending| && z.a.s.pending[i] == m;
        assert MsgOk(y.a.s.pending[i], y.a.sent);
      }
      forall p | Resent(y.a.s.pending, y.clock, p) ensures PacketOk(p, z.a.sent) {
        var m :| m in y.a.s.pending && Overdue(m, y.clock) && p == m.data;
        assert MsgOk(m, y.a.sent);
      }
    }
  }

  /** A step of the sending end keeps Safe. */
  lemma SafeSender(y: Sys, act: Act)
    requires Safe(y.a, y.b) && EnabledA(y, act)
    ensures Safe(StepA(y, act).a, StepA(y, act).b)
  {
    hide Encode, Decode, OnFrame, Retransmit;
    var z := StepA(y, act);
    if |z.a.sent| <= SAFE_SENDS {
      match act
      case Send(channel, data, reliable) =>
        if reliable && |data| <= MAX_TUNNEL_PAYLOAD && |y.a.s.pending| < WINDOW {
          var f := DataFrame(y.a.s.sid, channel, TF_RELIABLE, y.a.s.nextSeq, data);
          assert z.a.flying == y.a.flying + {Encode(f)};
          assert z.a.sent[..|y.a.sent|] == y.a.sent;
        } else {
          assert HasFlag(0, TF_RELIABLE) == false;
        }
      case Tick =>
        SafeTick(y);
      case Receive(p) =>
        OnFrameSender(y.a.s, p);
        if Decode(p).Some? { PopAckedSuffix(y.a.s.pending, Decode(p).value.ack); }
      case Drop(p) =>
      case Wait(ms) =>
    }
  }

  /** A step of the receiving end keeps Safe. */
  lemma SafeReceiver(y: Sys, act: Act)
    requires Safe(y.b, y.a) && EnabledA(y, act)
    ensures Safe(StepA(y, act).b, StepA(y, act).a)
  {
    hide Encode, Decode, Drain, Retransmit;
    if |y.b.sent| <= SAFE_SENDS {
      assert y.a.got + [] == y.a.got;
      match act
      case Send(channel, data, reliable) =>
      case Tick =>
      case Receive(p) =>
        SafeReceive(y.b, y.a, p);
      case Drop(p) =>
      case Wait(ms) =>
    }
  }

  /** The expected frame: it and the frames it frees are handed up. */
  lemma SafeInOrder(s: State, f: Frame, sent: seq<Item>)
    requires |sent| <= SAFE_SENDS && BufferOk(s.ooo, s.slotChannel, s.expected + 1, sent)
    requires f.sequence == s.expected < |sent| && sent[f.sequence] == Item(f.channel, f.payload)
    ensures var o := HandleReliable(s, f);
            && s.expected < o.state.expected <= |sent|
            && BufferOk(o.state.ooo, o.state.slotChannel, o.state.expected + 1, sent)
            && Reliable(o.up) == sent[s.expected..o.state.expected]
  {
    hide Drain, BufferOk;
    var s' := s.(rxBytes := s.rxBytes + |f.payload|, expected := Next16(s.expected));
    DrainSafe(s', sent);
    var d := Delivery(f.channel, f.payload, true);
    ReliableConcat([d], Drain(s').up);
    assert Reliable([d]) == [sent[s.expected]] by { assert [d][..0] == []; }
  }

  /** A reliable data frame that carries a sent item: accepted in order, buffered or ignored. */
  lemma SafeReliable(s: State, f: Frame, sent: seq<Item>)
    requires |sent| <= SAFE_SENDS && s.expected <= |sent|
    requires BufferOk(s.ooo, s.slotChannel, s.expected + 1, sent)
    requires f.sequence < |sent| && sent[f.sequence] == Item(f.channel, f.payload)
    ensures var o := HandleReliable(s, f);
            && s.expected <= o.state.expected <= |sent|
            && (f.sequence == s.expected ==> s.expected < o.state.expected)
            && BufferOk(o.state.ooo, o.state.slotChannel, o.state.expected + 1, sent)
            && Reliable(o.up) == sent[s.expected..o.state.expected]
  {
    if f.sequence == s.expected {
      SafeInOrder(s, f, sent);
    } else {
      hide Drain;
      assert Reliable([]) == [];
    }
  }

  lemma UnreliableAlone(d: Delivery)
    requires !d.reliable
    ensures Reliable([d]) == []
  {
    assert [d][..0] == [];
  }

  lemma SafeReceive(x: End, r: End, p: seq<byte>)
    requires Safe(x, r) && |x.sent| <= SAFE_SENDS && p in x.flying
    ensures Safe(x, After(r, OnFrame(r.s, p)))
    ensures r.s.expected <= OnFrame(r.s, p).state.expected
  {
    hide Encode, Decode, Drain, HandleReliable, BufferOk, Reliable;
    match Decode(p)
    case None => assert r.got + [] == r.got;
    case Some(f) =>
      if f.typ == TT_DATA && HasFlag(f.flags, TF_RELIABLE) {
        assert PacketOk(p, x.sent);
        var s := r.s.(txBytes := r.s.txBytes + |f.payload|);
        SafeReliable(s, f, x.sent);
        ReliableConcat(r.got, HandleReliable(s, f).up);
      } else if f.typ == TT_DATA {
        var d := Delivery(f.channel, f.payload, false);
        ReliableConcat(r.got, [d]);
        UnreliableAlone(d);
        assert Reliable(r.got) + [] == Reliable(r.got);
      } else {
        assert r.got + [] == r.got;
      }
  }

  lemma {:induction false} SafeRun(sidA: u16, sidB: u16, clock: nat, moves: seq<Move>)
    requires Valid(Start(sidA, sidB, clock), moves)
    ensures var y := Run(Start(sidA, sidB, clock), moves);
            Safe(y.a, y.b) && Safe(y.b, y.a)
  {
    if moves != [] {
      var n := |moves| - 1;
      SafeRun(sidA, sidB, clock, moves[..n]);
      var y := Run(Start(sidA, sidB, clock), moves[..n]);
      var x := if moves[n].0 == A then y else Swap(y);
      SafeSender(x, moves[n].1);
      SafeReceiver(x, moves[n].1);
    }
  }

  /** The calls that reach the application: `on_data` is skipped for an empty payload. */
  function Callbacks(items: seq<Item>): seq<Item> {
    if items == [] then []
    else
      var n := |items| - 1;
      Callbacks(items[..n]) + if items[n].payload == [] then [] else [items[n]]
  }

  lemma {:induction false} CallbacksConcat(s: seq<Item>, t: seq<Item>)
    ensures Callbacks(s + t) == Callbacks(s) + Callbacks(t)
    decreases |t|
  {
    if t == [] {
      assert s + t == s;
    } else {
      var n := |t| - 1;
      CallbacksConcat(s, t[..n]);
      assert (s + t)[|s + t| - 1] == t[n];
      assert (s + t)[..|s + t| - 1] == s + t[..n];
    }
  }

  /** The reliable deliveries at `r` are the first `expected` sends of `x`, in order and exactly
      once; the callbacks made for them are a prefix of the non-empty sends. */
  predicate DeliveredInOrder(x: End, r: End) {
    && Reliable(r.got) <= x.sent
    && |Reliable(r.got)| == r.s.expected
    && Callbacks(Reliable(r.got)) <= Callbacks(x.sent)
  }

  lemma SafeMeansInOrder(x: End, r: End)
    requires Safe(x, r) && |x.sent| <= SAFE_SENDS
    ensures DeliveredInOrder(x, r)
  {
    assert x.sent == x.sent[..r.s.expected] + x.sent[r.s.expected..];
    CallbacksConcat(x.sent[..r.s.expected], x.sent[r.s.expected..]);
  }

  /** Over every interleaving, with loss, duplication and reordering, in both directions. */
  lemma PrefixDelivery(sidA: u16, sidB: u16, clock: nat, moves: seq<Move>)
    requires Valid(Start(sidA, sidB, clock), moves)
    ensures var y := Run(Start(sidA, sidB, clock), moves);
            && (|y.a.sent| <= SAFE_SENDS ==> DeliveredInOrder(y.a, y.b))
            && (|y.b.sent| <= SAFE_SENDS ==> DeliveredInOrder(y.b, y.a))
  {
    SafeRun(sidA, sidB, clock, moves);
    var y := Run(Start(sidA, sidB, clock), moves);
    if |y.a.sent| <= SAFE_SENDS { SafeMeansInOrder(y.a, y.b); }
    if |y.b.sent| <= SAFE_SENDS { SafeMeansInOrder(y.b, y.a); }
  }
}
