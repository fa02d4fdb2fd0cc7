/** Two sessions joined by a network that loses, duplicates and reorders packets. A packet in
    flight is a byte string; receiving one leaves it in flight (duplication), dropping removes
    every copy. Each step is one call on one end, so runs are all interleavings of both ends. */
module TunnelNet {
  import opened Bytes
  import opened Codec
  import opened SessionSpec

  datatype Item = Item(channel: byte, payload: seq<byte>)

  /** One end: its session, the packets it has in flight, the reliable sends it accepted and
      the `deliver` calls it made. */
  datatype End = End(s: State, flying: set<seq<byte>>, sent: seq<Item>, got: seq<Delivery>)

  datatype Sys = Sys(a: End, b: End, clock: nat)

  datatype Act =
    | Send(channel: byte, data: seq<byte>, reliable: bool)
    | Tick
    | Receive(packet: seq<byte>)
    | Drop(packet: seq<byte>)
    | Wait(ms: nat)

  datatype Who = A | B

  type Move = (Who, Act)

  function Swap(y: Sys): Sys { Sys(y.b, y.a, y.clock) }

  function Packets(tx: seq<seq<byte>>): set<seq<byte>> { set p | p in tx }

  function After(e: End, o: Out): End {
    e.(s := o.state, flying := e.flying + Packets(o.tx), got := e.got + o.up)
  }

  predicate EnabledA(y: Sys, act: Act) {
    act.Receive? ==> act.packet in y.b.flying
  }

  function StepA(y: Sys, act: Act): Sys {
    match act
    case Send(channel, data, reliable) =>
      var (rc, o) := SessionSpec.Send(y.a.s, channel, data, reliable, y.clock);
      var sent := if rc == 0 && reliable then y.a.sent + [Item(channel, data)] else y.a.sent;
      y.(a := After(y.a, o).(sent := sent))
    case Tick => y.(a := After(y.a, SessionSpec.Tick(y.a.s, y.clock)))
    case Receive(p) => y.(a := After(y.a, OnFrame(y.a.s, p)))
    case Drop(p) => y.(b := y.b.(flying := y.b.flying - {p}))
    case Wait(ms) => y.(clock := y.clock + ms)
  }

  predicate Enabled(y: Sys, m: Move) {
    if m.0 == A then EnabledA(y, m.1) else EnabledA(Swap(y), m.1)
  }

  function Step(y: Sys, m: Move): Sys {
    if m.0 == A then StepA(y, m.1) else Swap(StepA(Swap(y), m.1))
  }

  function Run(y: Sys, moves: seq<Move>): Sys {
    if moves == [] then y else Step(Run(y, moves[..|moves| - 1]), moves[|moves| - 1])
  }

  predicate Valid(y: Sys, moves: seq<Move>) {
    moves != [] ==>
      var n := |moves| - 1;
      Valid(y, moves[..n]) && Enabled(Run(y, moves[..n]), moves[n])
  }

  function Start(sidA: u16, sidB: u16, clock: nat): Sys {
    Sys(End(Init(sidA), {}, [], []), End(Init(sidB), {}, [], []), clock)
  }

  lemma RunSnoc(y: Sys, moves: seq<Move>, m: Move)
    ensures Run(y, moves + [m]) == Step(Run(y, moves), m)
    ensures Valid(y, moves + [m]) <==> Valid(y, moves) && Enabled(Run(y, moves), m)
  {
    assert (moves + [m])[..|moves|] == moves;
  }

  lemma {:induction false} RunConcat(y: Sys, m1: seq<Move>, m2: seq<Move>)
    ensures Run(y, m1 + m2) == Run(Run(y, m1), m2)
    ensures Valid(y, m1 + m2) <==> Valid(y, m1) && Valid(Run(y, m1), m2)
    decreases |m2|
  {
    hide Step, Enabled;
    if m2 == [] {
      assert m1 + m2 == m1;
    } else {
      var n := |m2| - 1;
      RunConcat(y, m1, m2[..n]);
      assert (m1 + m2)[..|m1 + m2| - 1] == m1 + m2[..n];
    }
  }

  /** The reliable deliveries, in order. */
  function Reliable(got: seq<Delivery>): seq<Item> {
    if got == [] then []
    else
      var n := |got| - 1;
      Reliable(got[..n]) + if got[n].reliable then [Item(got[n].channel, got[n].payload)] else []
  }

  lemma {:induction false} ReliableConcat(g: seq<Delivery>, h: seq<Delivery>)
    ensures Reliable(g + h) == Reliable(g) + Reliable(h)
    decreases |h|
  {
    if h == [] {
      assert g + h == g;
    } else {
      var n := |h| - 1;
      ReliableConcat(g, h[..n]);
      assert (g + h)[..|g + h| - 1] == g + h[..n];
    }
  }
}
