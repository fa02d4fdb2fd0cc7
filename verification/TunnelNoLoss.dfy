/** No loss: with at most 2^15 reliable sends in a direction, every frame the receiver may still
    need (apart from sequence number 0, see TunnelRecovery) is in the sender's window. */
module TunnelNoLoss {
  import opened Bytes
  import opened Codec
  import opened SessionSpec
  import opened TunnelNet
  import opened TunnelSafety

  const KEPT_SENDS := 0x8000

  function AtLeast1(e: nat): nat { if e > 0 then e else 1 }

  /** An acknowledgement never runs ahead of the receiver; the value 0 is also sent before
      anything was delivered. */
  predicate AckOk(p: seq<byte>, expected: nat) {
    Decode(p).Some? && Decode(p).value.typ == TT_ACK ==> Decode(p).value.ack < AtLeast1(expected)
  }

  predicate Contiguous(pending: seq<Msg>, base: nat) {
    forall i :: 0 <= i < |pending| ==> pending[i].sequence == base + i
  }

  /** The oldest unacknowledged sequence number, or the next one to be sent. */
  function Base(x: End): int { |x.sent| - |x.s.pending| }

  /** The window of `x` against the receiver `r` and the acknowledgements `r` has in flight. */
  predicate Held(x: End, r: End) {
    |x.sent| <= KEPT_SENDS ==>
      && 0 <= Base(x) <= AtLeast1(r.s.expected)
      && |x.s.pending| <= WINDOW
      && Contiguous(x.s.pending, Base(x))
      && (forall p :: p in r.flying ==> AckOk(p, r.s.expected))
      && (forall m :: m in r.s.pending ==> AckOk(m.data, r.s.expected))
  }

  /** Below 2^15 the signed 16-bit comparison is the comparison of the numbers, so a cumulative
      acknowledgement removes exactly the frames up to and including `ack`. */
  lemma {:induction false} PopAckedExact(pending: seq<Msg>, base: nat, ack: u16)
    requires Contiguous(pending, base) && base + |pending| <= KEPT_SENDS && ack < KEPT_SENDS
    ensures var k := if ack < base then 0 else Min(|pending|, ack + 1 - base);
            PopAcked(pending, ack) == pending[k..] && Contiguous(PopAcked(pending, ack), base + k)
  {
    if pending != [] && Acked(pending[0].sequence, ack) {
      assert base <= ack;
      PopAckedExact(pending[1..], base + 1, ack);
    } else {
      assert pending != [] ==> ack < base;
    }
  }

  lemma HeldSender(y: Sys, act: Act)
    requires Safe(y.a, y.b) && Held(y.a, y.b) && EnabledA(y, act)
    ensures Held(StepA(y, act).a, StepA(y, act).b)
  {
    hide Encode, Decode, OnFrame, Retransmit;
    var z := StepA(y, act);
    if |z.a.sent| <= KEPT_SENDS {
      match act
      case Send(channel, data, reliable) =>
      case Tick =>
        RetransmitMeaning(y.a.s.pending, y.clock);
      case Receive(p) =>
        OnFrameSender(y.a.s, p);
        if z.a.s.pending != y.a.s.pending {
          assert AckOk(p, y.b.s.expected);
          PopAckedExact(y.a.s.pending, Base(y.a), Decode(p).value.ack);
        }
      case Drop(p) =>
      case Wait(ms) =>
    }
  }

  /** What a step puts in flight, and keeps pending, acknowledges no more than it received. */
  lemma HeldReceiver(y: Sys, act: Act)
    requires Safe(y.b, y.a) && Held(y.b, y.a) && EnabledA(y, act)
    ensures Held(StepA(y, act).b, StepA(y, act).a)
  {
    hide Encode, Decode, Retransmit, OnFrame;
    if |y.b.sent| <= KEPT_SENDS {
      match act
      case Send(channel, data, reliable) =>
      case Tick =>
        HeldTick(y);
      case Receive(p) =>
        SafeReceive(y.b, y.a, p);
        OnFrameAcks(y.a.s, p);
        OnFrameSender(y.a.s, p);
        if Decode(p).Some? { PopAckedSuffix(y.a.s.pending, Decode(p).value.ack); }
      case Drop(p) =>
      case Wait(ms) =>
    }
  }

  lemma HeldTick(y: Sys)
    requires Held(y.b, y.a) && |y.b.sent| <= KEPT_SENDS
    ensures Held(StepA(y, Tick).b, StepA(y, Tick).a)
  {
    hide Encode, Decode, Retransmit;
    var z := StepA(y, Tick);
    var expected := y.a.s.expected;
    RetransmitMeaning(y.a.s.pending, y.clock);
    forall m | m in z.a.s.pending ensures AckOk(m.data, expected) {
      var i :| 0 <= i < |z.a.s.pending| && z.a.s.pending[i] == m;
      assert AckOk(y.a.s.pending[i].data, expected);
    }
    forall p | Resent(y.a.s.pending, y.clock, p) ensures AckOk(p, expected) {
      var m :| m in y.a.s.pending && Overdue(m, y.clock) && p == m.data;
      assert AckOk(m.data, expected);
    }
  }

  lemma OnFrameAcks(s: State, b: seq<byte>)
    ensures var r := OnFrame(s, b); forall p :: p in r.tx ==> AckOk(p, r.state.expected)
  {
    hide Encode, Decode, HandleReliable;
  }

  lemma {:induction false} HeldRun(sidA: u16, sidB: u16, clock: nat, moves: seq<Move>)
    requires Valid(Start(sidA, sidB, clock), moves)
    ensures var y := Run(Start(sidA, sidB, clock), moves);
            Held(y.a, y.b) && Held(y.b, y.a)
  {
    if moves != [] {
      var n := |moves| - 1;
      HeldRun(sidA, sidB, clock, moves[..n]);
      SafeRun(sidA, sidB, clock, moves[..n]);
      var y := Run(Start(sidA, sidB, clock), moves[..n]);
      var x := if moves[n].0 == A then y else Swap(y);
      HeldSender(x, moves[n].1);
      HeldReceiver(x, moves[n].1);
    }
  }

  predicate StillPending(x: End, k: nat) {
    exists m :: m in x.s.pending && m.sequence == k && MsgOk(m, x.sent)
  }

  /** The window is contiguous and starts no later than what the receiver needs next, and a frame
      the receiver has not delivered is still pending, unless it is number 0. */
  predicate NothingLost(x: End, r: End) {
    && Base(x) <= AtLeast1(r.s.expected)
    && |x.s.pending| <= Min(WINDOW, |x.sent|)
    && Contiguous(x.s.pending, Base(x))
    && forall k :: AtLeast1(r.s.expected) <= k < |x.sent| ==> StillPending(x, k)
  }

  lemma HeldMeansNothingLost(x: End, r: End)
    requires Safe(x, r) && Held(x, r) && |x.sent| <= KEPT_SENDS
    ensures NothingLost(x, r)
  {
    forall k | AtLeast1(r.s.expected) <= k < |x.sent| ensures StillPending(x, k) {
      var m := x.s.pending[k - Base(x)];
      assert m in x.s.pending && m.sequence == k;
    }
  }

  /** Over every interleaving, with loss, duplication and reordering, in both directions. */
  lemma NoLoss(sidA: u16, sidB: u16, clock: nat, moves: seq<Move>)
    requires Valid(Start(sidA, sidB, clock), moves)
    ensures var y := Run(Start(sidA, sidB, clock), moves);
            && (|y.a.sent| <= KEPT_SENDS ==> NothingLost(y.a, y.b))
            && (|y.b.sent| <= KEPT_SENDS ==> NothingLost(y.b, y.a))
  {
    SafeRun(sidA, sidB, clock, moves);
    HeldRun(sidA, sidB, clock, moves);
    var y := Run(Start(sidA, sidB, clock), moves);
    if |y.a.sent| <= KEPT_SENDS { HeldMeansNothingLost(y.a, y.b); }
    if |y.b.sent| <= KEPT_SENDS { HeldMeansNothingLost(y.b, y.a); }
  }
}
