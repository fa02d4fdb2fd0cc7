/** NAT type detection: the client's state machine, NatDetect.h, and the server's two replies to a
    probe, NatTypeCheck.cpp. */
module NatDetect {
  import opened Bytes

  datatype NatType = Unknown | FullCone | PortRestricted | Symmetric

  datatype Phase = Idle | Main | Alt | Done

  /** The server socket a probe is sent to, or a reply comes from. */
  datatype Socket = MainSocket | AltSocket

  datatype Client = Client(phase: Phase, natType: NatType, got0: bool, got1: bool, gotAlt: bool,
                           mappedIp: seq<byte>, portMain: u16, portAlt: u16,
                           deadline: nat, mainTimeout: nat, retry: nat)

  const IP_LEN := 16

  // ---- the reply ----

  /** The packed NatDetectRsp: index, server address, mapped address, main and alternate port. */
  function Response(index: byte, serverIp: seq<byte>, serverPort: u16, mappedIp: seq<byte>, mappedPort: u16,
      main: u16, alt: u16): (b: seq<byte>)
    requires |serverIp| == IP_LEN && |mappedIp| == IP_LEN
    ensures |b| == 41
  {
    [index] + serverIp + [Hi(serverPort), Lo(serverPort)] + mappedIp + [Hi(mappedPort), Lo(mappedPort)]
      + [Hi(main), Lo(main), Hi(alt), Lo(alt)]
  }

  function MappedPort(rsp: seq<byte>): u16
    requires |rsp| >= 37
  {
    Get16(rsp[35], rsp[36])
  }

  /** The client reads back the index, the address and the port the server put in. */
  lemma ResponseRead(index: byte, serverIp: seq<byte>, serverPort: u16, mappedIp: seq<byte>, mappedPort: u16,
      main: u16, alt: u16)
    requires |serverIp| == IP_LEN && |mappedIp| == IP_LEN
    ensures var b := Response(index, serverIp, serverPort, mappedIp, mappedPort, main, alt);
            b[0] == index && b[19..35] == mappedIp && MappedPort(b) == mappedPort
  {
    Split16(mappedPort);
  }

  /** The server answers a probe from both sockets, whichever it came in on. */
  function Replies(serverIp: seq<byte>, fromIp: seq<byte>, fromPort: u16, main: u16, alt: u16)
    : (r: seq<(Socket, seq<byte>)>)
    requires |serverIp| == IP_LEN && |fromIp| == IP_LEN
  {
    [(MainSocket, Response(0, serverIp, main, fromIp, fromPort, main, alt)),
     (AltSocket, Response(1, serverIp, alt, fromIp, fromPort, main, alt))]
  }

  class NatTypeCheck {
    const serverIp: seq<byte>
    const mainPort: u16
    const altPort: u16

    constructor (serverIp: seq<byte>, mainPort: u16, altPort: u16)
      ensures this.serverIp == serverIp && this.mainPort == mainPort && this.altPort == altPort
    {
      this.serverIp, this.mainPort, this.altPort := serverIp, mainPort, altPort;
    }

    method SendRsp(index: byte, fromIp: seq<byte>, fromPort: u16, selfPort: u16) returns (rsp: seq<byte>)
      requires |serverIp| == IP_LEN && |fromIp| == IP_LEN
      ensures rsp == Response(index, serverIp, selfPort, fromIp, fromPort, mainPort, altPort)
    {
      rsp := [index] + serverIp + [Hi(selfPort), Lo(selfPort)];
      rsp := rsp + fromIp + [Hi(fromPort), Lo(fromPort)];
      rsp := rsp + [Hi(mainPort), Lo(mainPort), Hi(altPort), Lo(altPort)];
    }

    method DualReply(fromIp: seq<byte>, fromPort: u16) returns (sent: seq<(Socket, seq<byte>)>)
      requires |serverIp| == IP_LEN && |fromIp| == IP_LEN
      ensures sent == Replies(serverIp, fromIp, fromPort, mainPort, altPort)
    {
      var r0 := SendRsp(0, fromIp, fromPort, mainPort);
      var r1 := SendRsp(1, fromIp, fromPort, altPort);
      sent := [(MainSocket, r0), (AltSocket, r1)];
    }
  }

  // ---- the client ----

  function Fresh(mainTimeout: nat, retry: nat): Client {
    Client(Idle, Unknown, false, false, false, Repeat<byte>(0, IP_LEN), 0, 0, 0, mainTimeout, retry)
  }

  /** A (re)start: one probe goes to the main socket. The previous verdict stays until the next one. */
  function Restart(c: Client, now: nat): Client {
    c.(phase := Main, portMain := 0, got0 := false, got1 := false, gotAlt := false,
       deadline := now + c.mainTimeout, mappedIp := Repeat<byte>(0, IP_LEN))
  }

  function Classify(c: Client): Client {
    c.(phase := Done, natType := if c.gotAlt && c.portAlt == c.portMain then PortRestricted else Symmetric)
  }

  /** Replies of fewer than three bytes are ignored; the caller's buffer holds at least the 37 bytes that are read. */
  function Fed(c: Client, rsp: seq<byte>): Client
    requires |rsp| >= 3 ==> |rsp| >= 37
  {
    if |rsp| < 3 then c
    else if c.phase.Main? then
      var c := if rsp[0] == 0 then c.(got0 := true, mappedIp := rsp[19..35], portMain := MappedPort(rsp))
               else if rsp[0] == 1 then c.(got1 := true) else c;
      if c.got0 && c.got1 then c.(natType := FullCone, phase := Done) else c
    else if c.phase.Alt? && rsp[0] == 0 then Classify(c.(gotAlt := true, portAlt := MappedPort(rsp)))
    else c
  }

  function Ticked(c: Client, now: nat): (Client, Option<Socket>) {
    if c.phase.Main? && now >= c.deadline + c.retry then
      if !c.got0 then (c.(deadline := now + c.mainTimeout), Some(MainSocket))
      else (c.(phase := Alt, deadline := now + c.mainTimeout), Some(AltSocket))
    else if c.phase.Alt? && now >= c.deadline + c.retry then
      if c.gotAlt then (Classify(c), None) else (c.(deadline := now + c.mainTimeout), Some(AltSocket))
    else (c, None)
  }

  class NatDetect {
    var phase: Phase
    var natType: NatType
    var got0: bool
    var got1: bool
    var gotAlt: bool
    var mappedIp: seq<byte>
    var portMain: u16
    var portAlt: u16
    var deadline: nat
    var mainTimeout: nat
    var retry: nat

    constructor ()
      ensures State() == Fresh(2500, 500)
    {
      phase, natType, got0, got1, gotAlt := Idle, Unknown, false, false, false;
      mappedIp, portMain, portAlt, deadline, mainTimeout, retry := Repeat<byte>(0, IP_LEN), 0, 0, 0, 2500, 500;
    }

    function State(): Client
      reads this
    {
      Client(phase, natType, got0, got1, gotAlt, mappedIp, portMain, portAlt, deadline, mainTimeout, retry)
    }

    method Start(now: nat) returns (probe: Socket)
      modifies this
      ensures State() == Restart(old(State()), now) && probe == MainSocket
    {
      phase, portMain := Main, 0;
      got0, got1, gotAlt := false, false, false;
      deadline := now + mainTimeout;
      mappedIp := Repeat<byte>(0, IP_LEN);
      probe := MainSocket;
    }

    method DoClassify()
      modifies this
      ensures State() == Classify(old(State()))
    {
      if gotAlt && portAlt == portMain { natType := PortRestricted; } else { natType := Symmetric; }
      phase := Done;
    }

    method Feed(rsp: seq<byte>)
      requires |rsp| >= 3 ==> |rsp| >= 37
      modifies this
      ensures State() == Fed(old(State()), rsp)
    {
      if |rsp| < 3 { return; }
      var idx, port := rsp[0], Get16(rsp[35], rsp[36]);
      if phase.Main? {
        if idx == 0 {
          got0, mappedIp, portMain := true, rsp[19..35], port;
        } else if idx == 1 {
          got1 := true;
        }
        if got0 && got1 { natType, phase := FullCone, Done; }
      } else if phase.Alt? {
        if idx == 0 {
          gotAlt, portAlt := true, port;
          DoClassify();
        }
      }
    }

    method Tick(now: nat) returns (probe: Option<Socket>)
      modifies this
      ensures (State(), probe) == Ticked(old(State()), now)
    {
      probe := None;
      if phase.Main? && now >= deadline + retry {
        if !got0 {
          probe := Some(MainSocket);
        } else {
          phase := Alt;
          probe := Some(AltSocket);
        }
        deadline := now + mainTimeout;
      } else if phase.Alt? && now >= deadline + retry {
        if gotAlt {
          DoClassify();
        } else {
          probe := Some(AltSocket);
          deadline := now + mainTimeout;
        }
      }
    }
  }
}
