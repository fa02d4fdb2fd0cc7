/** Runs that show the limits of the tunnel's guarantees: the loss of number 0, and that the
    bounds 65535 (safety) and 2^15 (no loss) cannot be raised by one. */
module TunnelLimits {
  import opened Bytes
  import opened Codec
  import opened SessionSpec
  import opened TunnelNet
  import opened TunnelSafety
  import opened TunnelNoLoss
  import opened TunnelRecovery

  function DataPacket(sid: u16, k: u16, item: Item): seq<byte>
    requires |item.payload| <= MAX_TUNNEL_PAYLOAD
  {
    Encode(DataFrame(sid, item.channel, TF_RELIABLE, k, item.payload))
  }

  function AckPacket(sid: u16, ack: u16): seq<byte> { Encode(ControlFrame(sid, TT_ACK, ack)) }

  function SendItem(item: Item): Move { (A, Send(item.channel, item.payload, true)) }

  lemma SendStep(y: Sys, item: Item)
    requires |item.payload| <= MAX_TUNNEL_PAYLOAD && |y.a.s.pending| < WINDOW
    ensures var z := Step(y, SendItem(item));
            var p := DataPacket(y.a.s.sid, y.a.s.nextSeq, item);
            && z.b == y.b && z.clock == y.clock
            && z.a.sent == y.a.sent + [item] && z.a.flying == y.a.flying + {p}
            && z.a.s == y.a.s.(nextSeq := Next16(y.a.s.nextSeq),
                               pending := y.a.s.pending + [Msg(y.a.s.nextSeq, item.channel, TF_RELIABLE, p, y.clock)])
  {
    hide Encode, Decode;
  }

  lemma DataHandled(s: State, sid: u16, k: u16, item: Item)
    requires |item.payload| <= MAX_TUNNEL_PAYLOAD && s.ooo == map[] && k >= s.expected
    ensures var o := OnFrame(s, DataPacket(sid, k, item));
            && o.state.sid == s.sid && o.tx == [AckPacket(s.sid, AckValue(o.state.expected))]
            && (k == s.expected ==>
                 o.state.expected == Next16(k) && o.state.ooo == map[]
                   && o.up == [Delivery(item.channel, item.payload, true)])
            && (k > s.expected ==> o.state.expected == s.expected)
  {
    hide Encode, Decode, AckValue;
    var f := DataFrame(sid, item.channel, TF_RELIABLE, k, item.payload);
    assert OnFrame(s, DataPacket(sid, k, item)) == HandleData(s, f);
  }

  /** B receives a frame in order with an empty buffer, or a frame ahead of what it expects. */
  lemma DataStep(y: Sys, sid: u16, k: u16, item: Item)
    requires |item.payload| <= MAX_TUNNEL_PAYLOAD && y.b.s.ooo == map[]
    requires DataPacket(sid, k, item) in y.a.flying && k >= y.b.s.expected
    ensures var m := (B, Receive(DataPacket(sid, k, item)));
            var z := Step(y, m);
            && Enabled(y, m) && z.a == y.a && z.b.s.sid == y.b.s.sid && z.b.sent == y.b.sent
            && z.b.flying == y.b.flying + {AckPacket(y.b.s.sid, AckValue(z.b.s.expected))}
            && (k == y.b.s.expected ==>
                 z.b.s.expected == Next16(k) && z.b.s.ooo == map[] && Reliable(z.b.got) == Reliable(y.b.got) + [item])
            && (k > y.b.s.expected ==> z.b.s.expected == y.b.s.expected)
  {
    hide DataPacket, AckPacket, OnFrame;
    DataHandled(y.b.s, sid, k, item);
    var d := Delivery(item.channel, item.payload, true);
    ReliableConcat(y.b.got, [d]);
    assert Reliable([d]) == [item] by { assert [d][..0] == []; }
  }

  lemma AckStep(y: Sys, sid: u16, ack: u16)
    requires AckPacket(sid, ack) in y.b.flying
    ensures var m := (A, Receive(AckPacket(sid, ack)));
            var z := Step(y, m);
            && Enabled(y, m) && z.b == y.b && z.clock == y.clock
            && z.a.s == y.a.s.(pending := PopAcked(y.a.s.pending, ack))
            && z.a.sent == y.a.sent && z.a.flying == y.a.flying
  {
    hide Encode, Decode, PopAcked;
  }

  lemma RunEmpty(y: Sys)
    ensures Run(y, []) == y && Valid(y, [])
  {
  }

  /** A sends two frames, the network drops the first, B acknowledges "nothing" as 0, and A takes
      that for an acknowledgement of number 0: a reachable state that cannot recover. */
  lemma AckZeroLosesFrame(sidA: u16, sidB: u16, clock: nat, one: Item, two: Item) returns (moves: seq<Move>)
    requires |one.payload| <= MAX_TUNNEL_PAYLOAD && |two.payload| <= MAX_TUNNEL_PAYLOAD
    ensures Valid(Start(sidA, sidB, clock), moves)
    ensures var y := Run(Start(sidA, sidB, clock), moves);
            Stuck(y.a, y.b) && !Recoverable(y)
  {
    hide Encode, Decode, Run, Valid, StepA, Safe, Held, Stamped, Recoverable, Inv;
    var y0 := Start(sidA, sidB, clock);
    var p0, p1 := DataPacket(sidA, 0, one), DataPacket(sidA, 1, two);
    RunEmpty(y0);
    SendStep(y0, one);
    RunSnoc(y0, [], SendItem(one));
    var y1 := Step(y0, SendItem(one));
    SendStep(y1, two);
    moves := [] + [SendItem(one)];
    RunSnoc(y0, moves, SendItem(two));
    var y2 := Step(y1, SendItem(two));
    moves := moves + [SendItem(two)];
    RunSnoc(y0, moves, (B, Drop(p0)));
    var y3 := Step(y2, (B, Drop(p0)));
    DropStep(y2, p0);
    moves := moves + [(B, Drop(p0))];
    DataStep(y3, sidA, 1, two);
    RunSnoc(y0, moves, (B, Receive(p1)));
    var y4 := Step(y3, (B, Receive(p1)));
    moves := moves + [(B, Receive(p1))];
    AckStep(y4, sidB, 0);
    RunSnoc(y0, moves, (A, Receive(AckPacket(sidB, 0))));
    var y5 := Step(y4, (A, Receive(AckPacket(sidB, 0))));
    moves := moves + [(A, Receive(AckPacket(sidB, 0)))];
    assert Stuck(y5.a, y5.b);
    InvRun(sidA, sidB, clock, moves);
    StuckMeansLost(y5);
  }

  lemma DropStep(y: Sys, p: seq<byte>)
    ensures var z := Step(y, (B, Drop(p)));
            z == y.(a := y.a.(flying := y.a.flying - {p}))
  {
  }

  // ---- the bounds ----

  /** After `n` rounds of send, deliver, acknowledge, with the first packets still in flight. */
  predicate LockStep(y: Sys, sidA: u16, sidB: u16, n: nat, item: Item)
    requires |item.payload| <= MAX_TUNNEL_PAYLOAD
  {
    && y.a.s.sid == sidA && y.b.s.sid == sidB
    && y.a.s.pending == [] && |y.a.sent| == n && y.a.s.nextSeq == n % 0x1_0000
    && y.b.s.ooo == map[] && y.b.s.expected == n % 0x1_0000
    && |Reliable(y.b.got)| == n
    && (n > 0 ==> DataPacket(sidA, 0, item) in y.a.flying && AckPacket(sidB, 0) in y.b.flying)
  }

  /** The counter after n rounds, and the acknowledgement of round n on either side of the wrap. */
  lemma CounterInStep(n: nat)
    requires n > 0
    ensures Next16((n - 1) % 0x1_0000) == n % 0x1_0000
    ensures Acked((n - 1) % 0x1_0000, AckValue(n % 0x1_0000))
  {
  }

  lemma {:induction false} RunInStep(sidA: u16, sidB: u16, clock: nat, n: nat, item: Item) returns (moves: seq<Move>)
    requires |item.payload| <= MAX_TUNNEL_PAYLOAD
    ensures Valid(Start(sidA, sidB, clock), moves)
    ensures LockStep(Run(Start(sidA, sidB, clock), moves), sidA, sidB, n, item)
  {
    hide Encode, Decode, Run, Valid, Step, Acked, Next16;
    var y0 := Start(sidA, sidB, clock);
    if n == 0 {
      moves := [];
      RunEmpty(y0);
    } else {
      moves := RunInStep(sidA, sidB, clock, n - 1, item);
      var k: u16 := (n - 1) % 0x1_0000;
      CounterInStep(n);
      var y := Run(y0, moves);
      SendStep(y, item);
      RunSnoc(y0, moves, SendItem(item));
      moves := moves + [SendItem(item)];
      var y1 := Step(y, SendItem(item));
      var receive := (B, Receive(DataPacket(sidA, k, item)));
      DataStep(y1, sidA, k, item);
      RunSnoc(y0, moves, receive);
      moves := moves + [receive];
      var y2 := Step(y1, receive);
      var ack := AckValue(y2.b.s.expected);
      AckStep(y2, sidB, ack);
      RunSnoc(y0, moves, (A, Receive(AckPacket(sidB, ack))));
      moves := moves + [(A, Receive(AckPacket(sidB, ack)))];
    }
  }

  /** With 65536 sends the sequence numbers wrap and a duplicate of the first frame is delivered
      again: the bound of PrefixDelivery is exact. */
  lemma SafetyBoundIsTight(sidA: u16, sidB: u16, clock: nat, item: Item) returns (moves: seq<Move>)
    requires |item.payload| <= MAX_TUNNEL_PAYLOAD
    ensures Valid(Start(sidA, sidB, clock), moves)
    ensures var y := Run(Start(sidA, sidB, clock), moves);
            |y.a.sent| == SAFE_SENDS + 1 && !DeliveredInOrder(y.a, y.b)
  {
    hide Encode, Decode, Run, Valid, Step;
    moves := RunInStep(sidA, sidB, clock, SAFE_SENDS + 1, item);
    var y0 := Start(sidA, sidB, clock);
    var y := Run(y0, moves);
    DataStep(y, sidA, 0, item);
    RunSnoc(y0, moves, (B, Receive(DataPacket(sidA, 0, item))));
    moves := moves + [(B, Receive(DataPacket(sidA, 0, item)))];
  }

  /** With 2^15 + 1 sends a stale acknowledgement of number 0 compares as later than number
      32768 and retires it undelivered: the bound of NoLoss is exact. */
  lemma NoLossBoundIsTight(sidA: u16, sidB: u16, clock: nat, item: Item) returns (moves: seq<Move>)
    requires |item.payload| <= MAX_TUNNEL_PAYLOAD
    ensures Valid(Start(sidA, sidB, clock), moves)
    ensures var y := Run(Start(sidA, sidB, clock), moves);
            |y.a.sent| == KEPT_SENDS + 1 && y.b.s.expected == KEPT_SENDS && !NothingLost(y.a, y.b)
  {
    hide Encode, Decode, Run, Valid, Step;
    moves := RunInStep(sidA, sidB, clock, KEPT_SENDS, item);
    var y0 := Start(sidA, sidB, clock);
    var y := Run(y0, moves);
    SendStep(y, item);
    RunSnoc(y0, moves, SendItem(item));
    moves := moves + [SendItem(item)];
    var y1 := Step(y, SendItem(item));
    AckStep(y1, sidB, 0);
    RunSnoc(y0, moves, (A, Receive(AckPacket(sidB, 0))));
    moves := moves + [(A, Receive(AckPacket(sidB, 0)))];
    var z := Run(y0, moves);
    assert Acked(0x8000, 0) && z.a.s.pending == [];
    assert !StillPending(z.a, KEPT_SENDS);
  }
}
