/** Recoverability: from a reachable state, retransmission alone can finish both directions
    exactly when sequence number 0 of neither direction was lost. It can be lost because the
    acknowledgement value 0 is sent both after number 0 arrived and before anything did. */
module TunnelRecovery {
  import opened Bytes
  import opened Codec
  import opened SessionSpec
  import opened TunnelNet
  import opened TunnelSafety
  import opened TunnelNoLoss

  predicate Stamped(e: End, clock: nat) {
    forall m :: m in e.s.pending ==> m.sentMs <= clock
  }

  /** What reachable states with at most 2^15 sends each way satisfy. */
  predicate Inv(y: Sys) {
    && |y.a.sent| <= KEPT_SENDS && |y.b.sent| <= KEPT_SENDS
    && Safe(y.a, y.b) && Safe(y.b, y.a)
    && Held(y.a, y.b) && Held(y.b, y.a)
    && Stamped(y.a, y.clock) && Stamped(y.b, y.clock)
  }

  lemma StampedStep(y: Sys, act: Act)
    requires Stamped(y.a, y.clock) && Stamped(y.b, y.clock)
    ensures Stamped(StepA(y, act).a, StepA(y, act).clock) && Stamped(StepA(y, act).b, StepA(y, act).clock)
  {
    hide Encode, Decode, Retransmit, OnFrame;
    match act
    case Tick =>
      RetransmitMeaning(y.a.s.pending, y.clock);
    case Receive(p) =>
      OnFrameSender(y.a.s, p);
      if Decode(p).Some? { PopAckedSuffix(y.a.s.pending, Decode(p).value.ack); }
    case _ =>
  }

  lemma InvStep(y: Sys, m: Move)
    requires Inv(y) && Enabled(y, m)
    ensures var z := Step(y, m);
            |z.a.sent| <= KEPT_SENDS && |z.b.sent| <= KEPT_SENDS ==> Inv(z)
  {
    hide StepA, Safe, Held, Stamped;
    var x := if m.0 == A then y else Swap(y);
    SafeSender(x, m.1);
    SafeReceiver(x, m.1);
    HeldSender(x, m.1);
    HeldReceiver(x, m.1);
    StampedStep(x, m.1);
  }

  lemma {:induction false} StampedRun(sidA: u16, sidB: u16, clock: nat, moves: seq<Move>)
    ensures var y := Run(Start(sidA, sidB, clock), moves);
            Stamped(y.a, y.clock) && Stamped(y.b, y.clock)
  {
    if moves != [] {
      var n := |moves| - 1;
      StampedRun(sidA, sidB, clock, moves[..n]);
      var y := Run(Start(sidA, sidB, clock), moves[..n]);
      StampedStep(if moves[n].0 == A then y else Swap(y), moves[n].1);
    }
  }

  lemma InvRun(sidA: u16, sidB: u16, clock: nat, moves: seq<Move>)
    requires Valid(Start(sidA, sidB, clock), moves)
    ensures var y := Run(Start(sidA, sidB, clock), moves);
            |y.a.sent| <= KEPT_SENDS && |y.b.sent| <= KEPT_SENDS ==> Inv(y)
  {
    SafeRun(sidA, sidB, clock, moves);
    HeldRun(sidA, sidB, clock, moves);
    StampedRun(sidA, sidB, clock, moves);
  }

  // ---- runs without new sends ----

  predicate Quiet(moves: seq<Move>) {
    forall i :: 0 <= i < |moves| ==> !moves[i].1.Send?
  }

  ghost predicate Reaches(y: Sys, z: Sys) {
    exists moves :: Quiet(moves) && Valid(y, moves) && Run(y, moves) == z
  }

  lemma ReachesStep(y: Sys, m: Move)
    requires Enabled(y, m) && !m.1.Send?
    ensures Reaches(y, Step(y, m))
  {
    RunSnoc(y, [], m);
    assert [] + [m] == [m] && Run(y, []) == y && Valid(y, []);
    assert Quiet([m]);
  }

  lemma ReachesTrans(x: Sys, y: Sys, z: Sys)
    requires Reaches(x, y) && Reaches(y, z)
    ensures Reaches(x, z)
  {
    var m1 :| Quiet(m1) && Valid(x, m1) && Run(x, m1) == y;
    var m2 :| Quiet(m2) && Valid(y, m2) && Run(y, m2) == z;
    RunConcat(x, m1, m2);
    assert Quiet(m1 + m2);
  }

  /** Everything `x` sent was delivered at `r` and acknowledged. */
  predicate Done(x: End, r: End) {
    x.s.pending == [] && r.s.expected == |x.sent|
  }

  ghost predicate Recoverable(y: Sys) {
    exists z :: Reaches(y, z) && Done(z.a, z.b) && Done(z.b, z.a)
  }

  predicate IsZero(p: seq<byte>) {
    Decode(p).Some? && Decode(p).value.ReliableData() && Decode(p).value.sequence == 0
  }

  /** Number 0 is pending, delivered or in flight. */
  predicate ZeroAvailable(x: End, r: End) {
    Base(x) <= r.s.expected || exists p :: p in x.flying && IsZero(p)
  }

  // ---- recovery of the direction from A to B ----

  /** What recovering A to B leaves alone, so that B to A can be recovered before or after. */
  predicate KeepsReverse(y: Sys, z: Sys) {
    && z.a.sent == y.a.sent && z.b.sent == y.b.sent
    && z.b.s.pending == y.b.s.pending && z.a.s.expected == y.a.s.expected
    && y.a.flying <= z.a.flying && y.b.flying <= z.b.flying
  }

  lemma TickResends(y: Sys)
    requires forall m :: m in y.a.s.pending ==> Overdue(m, y.clock)
    ensures var z := StepA(y, Tick);
            && z.b == y.b && z.a.sent == y.a.sent && z.a.s.expected == y.a.s.expected
            && |z.a.s.pending| == |y.a.s.pending| && y.a.flying <= z.a.flying
            && forall m :: m in z.a.s.pending ==> m.data in z.a.flying
  {
    hide Encode, Decode, Retransmit;
    var z := StepA(y, Tick);
    RetransmitMeaning(y.a.s.pending, y.clock);
    forall m | m in z.a.s.pending ensures m.data in z.a.flying {
      var i :| 0 <= i < |z.a.s.pending| && z.a.s.pending[i] == m;
      var m0 := y.a.s.pending[i];
      assert m0 in y.a.s.pending && m.data == m0.data;
      assert Resent(y.a.s.pending, y.clock, m.data);
    }
  }

  /** A's retransmission timer runs out and every pending frame is in flight again. */
  lemma ResendAll(y: Sys) returns (z: Sys)
    requires Inv(y)
    ensures Inv(z) && Reaches(y, z) && KeepsReverse(y, z)
    ensures z.b == y.b && |z.a.s.pending| == |y.a.s.pending|
    ensures forall m :: m in z.a.s.pending ==> m.data in z.a.flying
  {
    hide Safe, Held, SessionSpec.Tick;
    var w := Step(y, (A, Wait(RTO_MS)));
    ReachesStep(y, (A, Wait(RTO_MS)));
    InvStep(y, (A, Wait(RTO_MS)));
    z := Step(w, (A, Tick));
    ReachesStep(w, (A, Tick));
    TickResends(w);
    InvStep(w, (A, Tick));
    ReachesTrans(y, w, z);
  }

  /** B receives a reliable data packet of A: `expected` moves on if it was the expected one, and
      the acknowledgement of the new `expected` is in flight. */
  lemma BReceives(y: Sys, p: seq<byte>) returns (z: Sys)
    requires Inv(y) && p in y.a.flying
    requires Decode(p).Some? && Decode(p).value.ReliableData()
    ensures Inv(z) && Reaches(y, z) && KeepsReverse(y, z)
    ensures z.a == y.a && y.b.s.expected <= z.b.s.expected
    ensures Decode(p).value.sequence == y.b.s.expected ==> y.b.s.expected < z.b.s.expected
    ensures exists ack :: ack in z.b.flying && IsAck(ack, AckValue(z.b.s.expected))
  {
    hide Encode, Decode, HandleReliable;
    var f := Decode(p).value;
    z := Step(y, (B, Receive(p)));
    ReachesStep(y, (B, Receive(p)));
    InvStep(y, (B, Receive(p)));
    DrainFrame(y.b.s, f);
    assert PacketOk(p, y.a.sent);
    SafeReliable(y.b.s.(txBytes := y.b.s.txBytes + |f.payload|), f, y.a.sent);
    assert AckFrame(z.b.s) in z.b.flying && IsAck(AckFrame(z.b.s), AckValue(z.b.s.expected));
  }

  predicate IsAck(p: seq<byte>, ack: u16) {
    Decode(p).Some? && Decode(p).value.typ == TT_ACK && Decode(p).value.ack == ack
  }

  lemma {:induction false} DeliverAll(y: Sys) returns (z: Sys)
    requires Inv(y) && Base(y.a) <= y.b.s.expected
    ensures Inv(z) && Reaches(y, z) && KeepsReverse(y, z)
    ensures Base(z.a) <= z.b.s.expected == |z.a.sent|
    decreases |y.a.sent| - y.b.s.expected
  {
    if y.b.s.expected == |y.a.sent| {
      z := y;
      assert Quiet([]) && Valid(y, []) && Run(y, []) == y;
    } else {
      var w := ResendAll(y);
      var m := w.a.s.pending[w.b.s.expected - Base(w.a)];
      assert m in w.a.s.pending && MsgOk(m, w.a.sent);
      var v := BReceives(w, m.data);
      z := DeliverAll(v);
      ReachesTrans(w, v, z);
      ReachesTrans(y, w, z);
    }
  }

  /** A receives the acknowledgement of everything it sent. */
  lemma AReceivesAck(y: Sys, ack: seq<byte>) returns (z: Sys)
    requires Inv(y) && ack in y.b.flying && IsAck(ack, AckValue(y.b.s.expected))
    requires y.b.s.expected == |y.a.sent| && y.a.s.pending != []
    ensures Inv(z) && Reaches(y, z) && KeepsReverse(y, z) && Done(z.a, z.b)
  {
    hide Encode, Decode, AckValue;
    var m := (A, Receive(ack));
    z := Step(y, m);
    ReachesStep(y, m);
    InvStep(y, m);
    AckOfAll(y, ack);
  }

  lemma AckOfAll(y: Sys, ack: seq<byte>)
    requires Inv(y) && IsAck(ack, AckValue(y.b.s.expected)) && y.b.s.expected == |y.a.sent| && y.a.s.pending != []
    ensures OnFrame(y.a.s, ack) == Out(y.a.s.(pending := []), [], [])
  {
    hide Encode, Decode;
    PopAckedExact(y.a.s.pending, Base(y.a), AckValue(y.b.s.expected));
  }

  /** Once all is delivered, one more retransmission draws the acknowledgement that empties the
      window. */
  lemma AckAll(y: Sys) returns (z: Sys)
    requires Inv(y) && y.b.s.expected == |y.a.sent|
    ensures Inv(z) && Reaches(y, z) && KeepsReverse(y, z) && Done(z.a, z.b)
  {
    hide Encode, Decode;
    if y.a.s.pending == [] {
      z := y;
      assert Quiet([]) && Valid(y, []) && Run(y, []) == y;
    } else {
      var w := ResendAll(y);
      var m := w.a.s.pending[0];
      assert m in w.a.s.pending && MsgOk(m, w.a.sent);
      var v := BReceives(w, m.data);
      var ack :| ack in v.b.flying && IsAck(ack, AckValue(v.b.s.expected));
      z := AReceivesAck(v, ack);
      ReachesTrans(w, v, z);
      ReachesTrans(y, w, z);
    }
  }

  lemma RecoverAB(y: Sys) returns (z: Sys)
    requires Inv(y) && ZeroAvailable(y.a, y.b)
    ensures Inv(z) && Reaches(y, z) && KeepsReverse(y, z) && Done(z.a, z.b)
  {
    var x := y;
    assert Reaches(y, x) by { assert Quiet([]) && Valid(y, []) && Run(y, []) == y; }
    if Base(y.a) > y.b.s.expected {
      var p :| p in y.a.flying && IsZero(p);
      x := BReceives(y, p);
    }
    var w := DeliverAll(x);
    z := AckAll(w);
    ReachesTrans(y, x, w);
    ReachesTrans(y, w, z);
  }

  // ---- both directions ----

  function Flip(moves: seq<Move>): (r: seq<Move>)
    ensures |r| == |moves|
    ensures forall i :: 0 <= i < |moves| ==> r[i] == (if moves[i].0 == A then B else A, moves[i].1)
  {
    seq(|moves|, i requires 0 <= i < |moves| => (if moves[i].0 == A then B else A, moves[i].1))
  }

  lemma {:induction false} RunFlip(y: Sys, moves: seq<Move>)
    ensures Run(Swap(y), Flip(moves)) == Swap(Run(y, moves))
    ensures Valid(Swap(y), Flip(moves)) <==> Valid(y, moves)
  {
    if moves != [] {
      var n := |moves| - 1;
      RunFlip(y, moves[..n]);
      assert Flip(moves)[..n] == Flip(moves[..n]);
    }
  }

  lemma ReachesSwap(y: Sys, z: Sys)
    requires Reaches(y, z)
    ensures Reaches(Swap(y), Swap(z))
  {
    var moves :| Quiet(moves) && Valid(y, moves) && Run(y, moves) == z;
    RunFlip(y, moves);
    assert Quiet(Flip(moves));
  }

  lemma RecoverBoth(y: Sys)
    requires Inv(y) && ZeroAvailable(y.a, y.b) && ZeroAvailable(y.b, y.a)
    ensures Recoverable(y)
  {
    hide Safe, Held, Stamped, IsZero;
    var w := RecoverAB(y);
    var z := RecoverAB(Swap(w));
    ReachesSwap(Swap(w), z);
    ReachesTrans(y, w, Swap(z));
  }

  // ---- the state that cannot recover ----

  /** Number 0 was sent, never delivered, is no longer pending and has no copy in flight. */
  predicate Stuck(x: End, r: End) {
    && x.sent != [] && r.s.expected == 0
    && (forall p :: p in x.flying ==> !IsZero(p))
    && (forall m :: m in x.s.pending ==> !IsZero(m.data))
  }

  lemma StuckTick(y: Sys)
    requires Stuck(y.a, y.b)
    ensures Stuck(StepA(y, Tick).a, StepA(y, Tick).b)
  {
    hide Encode, Decode, Retransmit;
    var z := StepA(y, Tick);
    RetransmitMeaning(y.a.s.pending, y.clock);
    forall m | m in z.a.s.pending ensures !IsZero(m.data) {
      var i :| 0 <= i < |z.a.s.pending| && z.a.s.pending[i] == m;
      assert y.a.s.pending[i] in y.a.s.pending;
    }
    forall p | Resent(y.a.s.pending, y.clock, p) ensures !IsZero(p) {
      var m :| m in y.a.s.pending && Overdue(m, y.clock) && p == m.data;
    }
  }

  lemma StuckSender(y: Sys, act: Act)
    requires Inv(y) && Stuck(y.a, y.b) && EnabledA(y, act)
    ensures Stuck(StepA(y, act).a, StepA(y, act).b)
  {
    hide Encode, Decode, OnFrame, Retransmit;
    var z := StepA(y, act);
    match act
    case Tick => StuckTick(y);
    case Receive(p) =>
      OnFrameSender(y.a.s, p);
      if Decode(p).Some? { PopAckedSuffix(y.a.s.pending, Decode(p).value.ack); }
    case _ =>
  }

  lemma StuckReceiver(y: Sys, act: Act)
    requires Inv(y) && Stuck(y.b, y.a) && EnabledA(y, act)
    ensures Stuck(StepA(y, act).b, StepA(y, act).a)
  {
    hide Encode, Decode, Retransmit, Drain;
  }

  /** Being stuck is permanent: no run of any calls, new sends included, delivers anything more
      in that direction (as long as the runs stay within 2^15 sends). */
  lemma {:induction false} StuckForever(y: Sys, moves: seq<Move>)
    requires Inv(y) && Stuck(y.a, y.b) && Valid(y, moves)
    ensures var z := Run(y, moves);
            |z.a.sent| <= KEPT_SENDS && |z.b.sent| <= KEPT_SENDS ==> Inv(z) && Stuck(z.a, z.b) && z.b.s.expected == 0
  {
    hide Safe, Held, Stamped, IsZero, StepA;
    if moves != [] {
      var n := |moves| - 1;
      var w, m := Run(y, moves[..n]), moves[n];
      StuckForever(y, moves[..n]);
      SentGrows(w, m);
      if |Step(w, m).a.sent| <= KEPT_SENDS && |Step(w, m).b.sent| <= KEPT_SENDS {
        InvStep(w, m);
        if m.0 == A { StuckSender(w, m.1); } else { StuckReceiver(Swap(w), m.1); }
      }
    }
  }

  lemma SentGrows(y: Sys, m: Move)
    ensures |y.a.sent| <= |Step(y, m).a.sent| && |y.b.sent| <= |Step(y, m).b.sent|
    ensures !m.1.Send? ==> Step(y, m).a.sent == y.a.sent && Step(y, m).b.sent == y.b.sent
  {
  }

  lemma {:induction false} QuietSends(y: Sys, moves: seq<Move>)
    requires Quiet(moves)
    ensures Run(y, moves).a.sent == y.a.sent && Run(y, moves).b.sent == y.b.sent
  {
    hide Step;
    if moves != [] {
      var n := |moves| - 1;
      QuietSends(y, moves[..n]);
      SentGrows(Run(y, moves[..n]), moves[n]);
    }
  }

  lemma {:induction false} SentNeverFalls(y: Sys, moves: seq<Move>)
    ensures |y.a.sent| <= |Run(y, moves).a.sent| && |y.b.sent| <= |Run(y, moves).b.sent|
  {
    hide Step;
    if moves != [] {
      var n := |moves| - 1;
      SentNeverFalls(y, moves[..n]);
      SentGrows(Run(y, moves[..n]), moves[n]);
    }
  }

  /** A direction is stuck exactly when number 0 is out of reach. */
  lemma StuckExactly(y: Sys)
    requires Inv(y)
    ensures Stuck(y.a, y.b) <==> !ZeroAvailable(y.a, y.b)
  {
    var x := y.a;
    forall m | m in x.s.pending ensures IsZero(m.data) ==> Base(x) == 0 {
      var i :| 0 <= i < |x.s.pending| && x.s.pending[i] == m;
      assert MsgOk(m, x.sent);
    }
    if Base(x) == 0 && x.s.pending != [] {
      assert x.s.pending[0] in x.s.pending && MsgOk(x.s.pending[0], x.sent);
    }
  }

  lemma StuckMeansLost(y: Sys)
    requires Inv(y) && Stuck(y.a, y.b)
    ensures !Recoverable(y)
  {
    hide Safe, Held, Stamped, IsZero;
    if Recoverable(y) {
      var z :| Reaches(y, z) && Done(z.a, z.b) && Done(z.b, z.a);
      var moves :| Quiet(moves) && Valid(y, moves) && Run(y, moves) == z;
      QuietSends(y, moves);
      StuckForever(y, moves);
    }
  }

  /** In every reachable state with at most 2^15 reliable sends each way: some run of ticks and
      deliveries, without new sends, ends with both directions delivered and acknowledged, if and
      only if number 0 of each direction is still pending, delivered or in flight. */
  lemma RecoverableIff(sidA: u16, sidB: u16, clock: nat, moves: seq<Move>)
    requires Valid(Start(sidA, sidB, clock), moves)
    ensures var y := Run(Start(sidA, sidB, clock), moves);
            |y.a.sent| <= KEPT_SENDS && |y.b.sent| <= KEPT_SENDS ==>
              (Recoverable(y) <==> ZeroAvailable(y.a, y.b) && ZeroAvailable(y.b, y.a))
  {
    hide Safe, Held, Stamped;
    var y := Run(Start(sidA, sidB, clock), moves);
    InvRun(sidA, sidB, clock, moves);
    if |y.a.sent| <= KEPT_SENDS && |y.b.sent| <= KEPT_SENDS {
      if ZeroAvailable(y.a, y.b) && ZeroAvailable(y.b, y.a) {
        RecoverBoth(y);
      } else if !ZeroAvailable(y.a, y.b) {
        StuckExactly(y);
        StuckMeansLost(y);
      } else {
        StuckExactly(Swap(y));
        StuckMeansLost(Swap(y));
        if Recoverable(y) {
          var z :| Reaches(y, z) && Done(z.a, z.b) && Done(z.b, z.a);
          ReachesSwap(y, z);
        }
      }
    }
  }

  // ---- the out-of-order buffer ----

  lemma {:induction false} RangeCard(s: set<u16>, lo: nat, hi: nat)
    requires lo <= hi && forall k :: k in s ==> lo <= k < hi
    ensures |s| <= hi - lo
    decreases hi - lo
  {
    if lo == hi {
      assert s == {};
    } else if lo in s {
      RangeCard(s - {lo}, lo + 1, hi);
    } else {
      RangeCard(s, lo + 1, hi);
    }
  }

  lemma RoomAt(x: End, r: End)
    requires Safe(x, r) && Held(x, r) && |x.sent| <= KEPT_SENDS && Base(x) <= r.s.expected
    ensures |r.s.ooo| < WINDOW
  {
    if r.s.expected < |x.sent| {
      RangeCard(r.s.ooo.Keys, r.s.expected + 1, |x.sent|);
    } else {
      assert r.s.ooo.Keys == {};
    }
  }

  /** While the oldest unacknowledged frame is not ahead of the receiver, the 64-slot buffer has
      room: no frame of the window is refused. */
  lemma BufferHasRoom(sidA: u16, sidB: u16, clock: nat, moves: seq<Move>)
    requires Valid(Start(sidA, sidB, clock), moves)
    ensures var y := Run(Start(sidA, sidB, clock), moves);
            && (|y.a.sent| <= KEPT_SENDS && Base(y.a) <= y.b.s.expected ==> |y.b.s.ooo| < WINDOW)
            && (|y.b.sent| <= KEPT_SENDS && Base(y.b) <= y.a.s.expected ==> |y.a.s.ooo| < WINDOW)
  {
    hide Safe, Held;
    var y := Run(Start(sidA, sidB, clock), moves);
    SafeRun(sidA, sidB, clock, moves);
    HeldRun(sidA, sidB, clock, moves);
    if |y.a.sent| <= KEPT_SENDS && Base(y.a) <= y.b.s.expected { RoomAt(y.a, y.b); }
    if |y.b.sent| <= KEPT_SENDS && Base(y.b) <= y.a.s.expected { RoomAt(y.b, y.a); }
  }
}
