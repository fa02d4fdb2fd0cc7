/** The detection run through a NAT, in the terms of RFC 4787: what the verdict says about the NAT,
    over a network that loses, delays, reorders and repeats. */
module NatRun {
  import opened Bytes
  import opened NatDetect

  datatype Mapping = EndpointIndependent | AddressAndPortDependent

  datatype Filtering = Unfiltered | AddressDependent | PortDependent

  /** `mainPort` and `altPort` are the external ports of the client's packets to the two server sockets. */
  datatype Nat = Nat(mapping: Mapping, filtering: Filtering, mainPort: u16, altPort: u16)
  {
    predicate Ok() { mapping.EndpointIndependent? <==> mainPort == altPort }

    function Port(to: Socket): u16 { if to.MainSocket? then mainPort else altPort }
  }

  datatype Reply = Reply(from: Socket, port: u16, bytes: seq<byte>)

  /** `outbox`: probes the client has sent; `mapped`: sockets the NAT has let a probe out to; `replies`:
      replies on their way back; `stale`: a restart came after a probe to the alternate socket was sent. */
  datatype Sys = Sys(c: Client, outbox: set<Socket>, mapped: set<Socket>, replies: set<Reply>, clock: nat, stale: bool)

  datatype Act =
    | Restarts
    | Ticks
    | NatOut(to: Socket)
    | Serve(to: Socket)
    | Arrive(r: Reply)
    | Lose(r: Reply)
    | Wait(ms: nat)

  const IP: seq<byte> := Repeat<byte>(0, IP_LEN)

  function AtServer(n: Nat, to: Socket): set<Reply> {
    var rs := Replies(IP, IP, n.Port(to), 1, 2);
    {Reply(rs[0].0, n.Port(to), rs[0].1), Reply(rs[1].0, n.Port(to), rs[1].1)}
  }

  /** Whether the NAT lets a packet from a server socket in on an external port. */
  predicate LetsIn(n: Nat, mapped: set<Socket>, from: Socket, port: u16) {
    if n.filtering.PortDependent? then from in mapped && n.Port(from) == port
    else exists s :: s in mapped && n.Port(s) == port
  }

  predicate Enabled(n: Nat, y: Sys, act: Act) {
    match act
    case NatOut(to) => to in y.outbox
    case Serve(to) => to in y.mapped
    case Arrive(r) => r in y.replies && LetsIn(n, y.mapped, r.from, r.port)
    case _ => true
  }

  function Step(n: Nat, y: Sys, act: Act): Sys {
    match act
    case Restarts =>
      y.(c := Restart(y.c, y.clock), outbox := y.outbox + {MainSocket}, stale := y.stale || AltSocket in y.outbox)
    case Ticks =>
      var (c, probe) := Ticked(y.c, y.clock);
      y.(c := c, outbox := if probe.Some? then y.outbox + {probe.value} else y.outbox)
    case NatOut(to) => y.(mapped := y.mapped + {to})
    case Serve(to) => y.(replies := y.replies + AtServer(n, to))
    case Arrive(r) => if |r.bytes| >= 37 then y.(c := Fed(y.c, r.bytes)) else y
    case Lose(r) => y.(replies := y.replies - {r})
    case Wait(ms) => y.(clock := y.clock + ms)
  }

  function Start(): Sys { Sys(Restart(Fresh(2500, 500), 0), {MainSocket}, {}, {}, 0, false) }

  function Run(n: Nat, acts: seq<Act>): Sys {
    if acts == [] then Start() else Step(n, Run(n, acts[..|acts| - 1]), acts[|acts| - 1])
  }

  predicate Valid(n: Nat, acts: seq<Act>) {
    acts != [] ==>
      var k := |acts| - 1;
      Valid(n, acts[..k]) && Enabled(n, Run(n, acts[..k]), acts[k])
  }

  // ---- what every run keeps ----

  /** A reply is one of the two the server sends, and its index tells the socket it comes from. */
  predicate ReplyOk(n: Nat, r: Reply) {
    && |r.bytes| == 41 && MappedPort(r.bytes) == r.port
    && r.bytes[0] == (if r.from.MainSocket? then 0 else 1)
    && (r.port == n.mainPort || r.port == n.altPort)
  }

  predicate Kept(n: Nat, y: Sys) {
    && (forall r :: r in y.replies ==> ReplyOk(n, r))
    && y.mapped <= y.outbox
    && (y.c.got0 ==> y.c.portMain == n.mainPort || y.c.portMain == n.altPort)
    && (n.mapping.AddressAndPortDependent? && n.filtering.PortDependent? && y.c.got0 ==> y.c.portMain == n.mainPort)
    && (y.c.phase.Alt? ==> y.c.got0) && (y.c.phase.Main? || y.c.phase.Alt? ==> !y.c.gotAlt)
    && (n.filtering.PortDependent? && !y.stale ==>
          && (y.c.phase.Main? ==> AltSocket !in y.outbox && !y.c.got1)
          && y.c.natType != FullCone)
    && (n.filtering.PortDependent? || n.mapping.EndpointIndependent? ==> y.c.natType != Symmetric)
    && !y.c.phase.Idle?
  }

  lemma ServedOk(n: Nat, to: Socket)
    ensures forall r :: r in AtServer(n, to) ==> ReplyOk(n, r)
  {
    ResponseRead(0, IP, 1, IP, n.Port(to), 1, 2);
    ResponseRead(1, IP, 2, IP, n.Port(to), 1, 2);
  }

  lemma StepKept(n: Nat, y: Sys, act: Act)
    requires n.Ok() && Kept(n, y) && Enabled(n, y, act)
    ensures Kept(n, Step(n, y, act))
  {
    hide Response, AtServer, MappedPort;
    match act
    case Serve(to) => ServedOk(n, to);
    case Arrive(r) => assert ReplyOk(n, r);
    case _ =>
  }

  lemma {:induction false} RunKept(n: Nat, acts: seq<Act>)
    requires n.Ok() && Valid(n, acts)
    ensures Kept(n, Run(n, acts))
  {
    hide Step, Enabled;
    if acts != [] {
      RunKept(n, acts[..|acts| - 1]);
      StepKept(n, Run(n, acts[..|acts| - 1]), acts[|acts| - 1]);
    }
  }

  // ---- runs that reach a verdict ----

  lemma Go(n: Nat, acts: seq<Act>, act: Act) returns (more: seq<Act>)
    requires Valid(n, acts) && Enabled(n, Run(n, acts), act)
    ensures more == acts + [act] && Valid(n, more) && Run(n, more) == Step(n, Run(n, acts), act)
  {
    more := acts + [act];
    assert more[..|acts|] == acts;
  }

  function FromSocket(n: Nat, s: Socket, to: Socket): Reply {
    var rs := Replies(IP, IP, n.Port(to), 1, 2);
    var i := if s.MainSocket? then 0 else 1;
    Reply(rs[i].0, n.Port(to), rs[i].1)
  }

  lemma FromSocketOk(n: Nat, s: Socket, to: Socket)
    ensures FromSocket(n, s, to) in AtServer(n, to) && FromSocket(n, s, to).from == s
        && FromSocket(n, s, to).port == n.Port(to)
    ensures var b := FromSocket(n, s, to).bytes;
            |b| == 41 && b[0] == (if s.MainSocket? then 0 else 1) && MappedPort(b) == n.Port(to)
  {
    ServedOk(n, to);
  }

  /** The first probe has been answered from both sockets. */
  lemma MainServed(n: Nat) returns (acts: seq<Act>)
    ensures Valid(n, acts)
    ensures var y := Run(n, acts);
            && y.c == Start().c && y.outbox == y.mapped == {MainSocket} && !y.stale
            && y.replies == AtServer(n, MainSocket) && y.clock == 0
  {
    hide AtServer;
    acts := Go(n, [], NatOut(MainSocket));
    acts := Go(n, acts, Serve(MainSocket));
  }

  /** The reply of index 0 has come in, and the time of the first phase has run out. */
  lemma AltProbed(n: Nat) returns (acts: seq<Act>)
    ensures Valid(n, acts)
    ensures var y := Run(n, acts);
            && y.c.phase == Alt && y.c.got0 && y.c.portMain == n.mainPort && !y.c.gotAlt && !y.stale
            && y.mapped == {MainSocket, AltSocket} && y.replies == AtServer(n, MainSocket) + AtServer(n, AltSocket)
  {
    hide AtServer, Response, MappedPort;
    acts := MainServed(n);
    var r := FromSocket(n, MainSocket, MainSocket);
    FromSocketOk(n, MainSocket, MainSocket);
    acts := Go(n, acts, Arrive(r));
    acts := Go(n, acts, Wait(3000));
    acts := Go(n, acts, Ticks);
    acts := Go(n, acts, NatOut(AltSocket));
    acts := Go(n, acts, Serve(AltSocket));
  }

  ghost predicate CanConclude(n: Nat, verdict: NatType, stale: bool) {
    exists acts :: Concludes(n, acts, verdict, stale)
  }

  predicate Concludes(n: Nat, acts: seq<Act>, verdict: NatType, stale: bool) {
    Valid(n, acts) && Run(n, acts).c.natType == verdict && Run(n, acts).c.phase.Done? && Run(n, acts).stale == stale
  }

  /** As long as no restart follows a probe to the alternate socket, FULL_CONE is reached exactly for NATs whose
      filtering does not depend on the port. */
  lemma FullConeExactly(n: Nat)
    requires n.Ok()
    ensures CanConclude(n, FullCone, false) <==> !n.filtering.PortDependent?
  {
    hide AtServer, Response, MappedPort, Run, Valid;
    if acts :| Concludes(n, acts, FullCone, false) {
      RunKept(n, acts);
    }
    if !n.filtering.PortDependent? {
      var acts := MainServed(n);
      FromSocketOk(n, MainSocket, MainSocket);
      FromSocketOk(n, AltSocket, MainSocket);
      acts := Go(n, acts, Arrive(FromSocket(n, MainSocket, MainSocket)));
      acts := Go(n, acts, Arrive(FromSocket(n, AltSocket, MainSocket)));
      assert Concludes(n, acts, FullCone, false);
    }
  }

  /** With such a restart FULL_CONE is reached for every NAT. */
  lemma FullConeAfterRestart(n: Nat)
    requires n.Ok()
    ensures CanConclude(n, FullCone, true)
  {
    hide AtServer, Response, MappedPort, Run, Valid;
    var acts := AltProbed(n);
    FromSocketOk(n, MainSocket, MainSocket);
    FromSocketOk(n, AltSocket, AltSocket);
    RunKept(n, acts);
    acts := Go(n, acts, Restarts);
    acts := Go(n, acts, Arrive(FromSocket(n, MainSocket, MainSocket)));
    acts := Go(n, acts, Arrive(FromSocket(n, AltSocket, AltSocket)));
    assert Concludes(n, acts, FullCone, true);
  }

  /** SYMMETRIC is reached exactly for NATs with port-dependent mapping and without port-dependent filtering: a
      NAT that is symmetric in both respects is never found to be so, because replies of index 0 always come
      from the main socket. Restarts make no difference. */
  lemma SymmetricExactly(n: Nat)
    requires n.Ok()
    ensures CanConclude(n, Symmetric, false) || CanConclude(n, Symmetric, true)
       <==> n.mapping.AddressAndPortDependent? && !n.filtering.PortDependent?
  {
    hide AtServer, Response, MappedPort, Run, Valid;
    if acts :| Concludes(n, acts, Symmetric, false) { RunKept(n, acts); }
    if acts :| Concludes(n, acts, Symmetric, true) { RunKept(n, acts); }
    if n.mapping.AddressAndPortDependent? && !n.filtering.PortDependent? {
      var acts := AltProbed(n);
      FromSocketOk(n, MainSocket, AltSocket);
      acts := Go(n, acts, Arrive(FromSocket(n, MainSocket, AltSocket)));
      assert Concludes(n, acts, Symmetric, false);
    }
  }

  /** PORT_RESTRICTED says nothing: a repeated first reply leads to it for every NAT. */
  lemma PortRestrictedAlways(n: Nat)
    requires n.Ok()
    ensures CanConclude(n, PortRestricted, false)
  {
    hide AtServer, Response, MappedPort, Run, Valid;
    var acts := AltProbed(n);
    FromSocketOk(n, MainSocket, MainSocket);
    acts := Go(n, acts, Arrive(FromSocket(n, MainSocket, MainSocket)));
    assert Concludes(n, acts, PortRestricted, false);
  }
}
