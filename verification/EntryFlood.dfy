/** The flood of one registration over the sync graph: server by server, with losses, reordering and
    any other traffic in between. */
module EntryFlood {
  import opened Bytes
  import opened Graph
  import opened SyncNode
  import opened FloodTree
  import PeerManage

  /** `landed` lists the copies that were taken into the table of their receiver, in order. */
  datatype Sys = Sys(nodes: map<Endpoint, Node>, flying: seq<Packet<Entry>>, landed: seq<Packet<Entry>>, handled: nat,
                     clock: int)

  datatype Act =
    | Deliver(i: nat)
    | Lose(i: nat)
    | Wait(seconds: nat)
    | Other(at: Endpoint, seen: SeenMap, table: PeerManage.Table)

  /** The links over which servers take part in the sync. */
  function NetOf(nodes: map<Endpoint, Node>): Net {
    map a | a in nodes :: if nodes[a].Syncing() then nodes[a].addrs else []
  }

  /** Server `o` has just taken a registration and told its peers. */
  function Start(nodes: map<Endpoint, Node>, o: Endpoint, e: Entry, clock: int): Sys
    requires o in nodes
  {
    Sys(nodes, if nodes[o].Syncing() then Sends(o, nodes[o].addrs, e.(hop := 1), [o]) else [], [], 0, clock)
  }

  predicate Enabled(y: Sys, act: Act) {
    match act
    case Deliver(i) => i < |y.flying| && y.flying[i].to in y.nodes
    case Lose(i) => i < |y.flying|
    case Wait(_) => true
    case Other(at, _, _) => at in y.nodes
  }

  /** What the receiver of a packet passes on. */
  function Sent(n: Node, p: Packet<Entry>, now: int): seq<Packet<Entry>> {
    var to := HandleEntry(n, p.body, p.from, now).1;
    if to == [] then [] else Sends(p.to, to, Forwarded(p.body), p.walk)
  }

  function Receive(y: Sys, i: nat): Sys
    requires i < |y.flying| && y.flying[i].to in y.nodes
  {
    var p := y.flying[i];
    var n := y.nodes[p.to];
    y.(nodes := y.nodes[p.to := HandleEntry(n, p.body, p.from, y.clock).0],
       flying := Without(y.flying, i) + Sent(n, p, y.clock),
       landed := y.landed + if Lands(n, p.body, p.from, y.clock) then [p] else [],
       handled := y.handled + 1)
  }

  function Step(y: Sys, act: Act): Sys {
    if !Enabled(y, act) then y
    else
      match act
      case Deliver(i) => Receive(y, i)
      case Lose(i) => y.(flying := Without(y.flying, i))
      case Wait(seconds) => y.(clock := y.clock + seconds)
      case Other(at, seen, table) => y.(nodes := y.nodes[at := y.nodes[at].(seen := seen, table := table)])
  }

  function Run(y: Sys, acts: seq<Act>): Sys {
    if acts == [] then y else Step(Run(y, acts[..|acts| - 1]), acts[|acts| - 1])
  }

  predicate Valid(y: Sys, acts: seq<Act>) {
    acts != [] ==>
      var n := |acts| - 1;
      Valid(y, acts[..n]) && Enabled(Run(y, acts[..n]), acts[n])
  }

  // ---- on any graph ----

  /** What a packet carries is what its walk says. */
  predicate Tied(g: Net, o: Endpoint, e: Entry, p: Packet<Entry>) {
    && From(g, o, Some(3), p.walk)
    && p.to == Last(p.walk) && Some(p.from) == Back(p.walk)
    && p.body == e.(hop := |p.walk| - 1)
  }

  predicate Sound(y: Sys, g: Net, o: Endpoint, e: Entry) {
    && NetOf(y.nodes) == g
    && (forall p :: p in y.flying ==> Tied(g, o, e, p))
    && (forall p :: p in y.landed ==> Tied(g, o, e, p))
  }

  lemma NetKept(nodes: map<Endpoint, Node>, a: Endpoint, n: Node)
    requires a in nodes && n.enabled == nodes[a].enabled && n.addrs == nodes[a].addrs
    ensures NetOf(nodes[a := n]) == NetOf(nodes)
  {
  }

  lemma SendTied(g: Net, o: Endpoint, e: Entry, p: Packet<Entry>, v: Endpoint)
    requires Tied(g, o, e, p) && p.body.hop < SYNC_HOP_MAX && p.to in g && v in g[p.to] && v != p.from
    ensures Forwards(p.body) && Tied(g, o, e, Packet(p.to, v, Forwarded(p.body), p.walk + [v]))
  {
    ExtendReduced(g, p.walk, v);
  }

  lemma SentTied(y: Sys, g: Net, o: Endpoint, e: Entry, p: Packet<Entry>)
    requires NetOf(y.nodes) == g && Tied(g, o, e, p) && p.to in y.nodes
    ensures var sent := Sent(y.nodes[p.to], p, y.clock);
            && (sent != [] ==> p.to in g && |sent| <= |g[p.to]| && |p.walk| - 1 < 3)
            && forall q :: q in sent ==> Tied(g, o, e, q) && |q.walk| == |p.walk| + 1
  {
    hide From, NetOf, Onward;
    var n := y.nodes[p.to];
    var to := HandleEntry(n, p.body, p.from, y.clock).1;
    if to != [] {
      NetAt(y.nodes, p.to);
      forall q | q in Sent(n, p, y.clock) ensures Tied(g, o, e, q) && |q.walk| == |p.walk| + 1 {
        var k :| 0 <= k < |to| && q == Packet(p.to, to[k], Forwarded(p.body), p.walk + [to[k]]);
        assert to[k] in to;
        OnwardIn(n.addrs, p.from, to[k]);
        SendTied(g, o, e, p, to[k]);
      }
    }
  }

  lemma ReceiveSound(y: Sys, g: Net, o: Endpoint, e: Entry, i: nat)
    requires Sound(y, g, o, e) && Enabled(y, Deliver(i))
    ensures Sound(Receive(y, i), g, o, e)
  {
    hide From, NetOf, Sent;
    var p := y.flying[i];
    var n := y.nodes[p.to];
    NetKept(y.nodes, p.to, HandleEntry(n, p.body, p.from, y.clock).0);
    InWithout(y.flying, i);
    assert p in y.flying && Tied(g, o, e, p);
    SentTied(y, g, o, e, p);
  }

  lemma OnwardIn(peers: seq<Endpoint>, back: Endpoint, v: Endpoint)
    requires v in Onward(peers, Some(back))
    ensures v in peers && v != back
  {
  }

  lemma NetAt(nodes: map<Endpoint, Node>, a: Endpoint)
    requires a in nodes && nodes[a].Syncing()
    ensures a in NetOf(nodes) && NetOf(nodes)[a] == nodes[a].addrs
  {
  }

  lemma StepSound(y: Sys, g: Net, o: Endpoint, e: Entry, act: Act)
    requires Sound(y, g, o, e) && Enabled(y, act)
    ensures Sound(Step(y, act), g, o, e)
  {
    hide Tied, NetOf, HandleEntry;
    match act
    case Deliver(i) => ReceiveSound(y, g, o, e, i);
    case Lose(i) => InWithout(y.flying, i);
    case Wait(_) =>
    case Other(at, seen, table) => NetKept(y.nodes, at, y.nodes[at].(seen := seen, table := table));
  }

  lemma StartSound(nodes: map<Endpoint, Node>, o: Endpoint, e: Entry, clock: int)
    requires o in nodes
    ensures Sound(Start(nodes, o, e, clock), NetOf(nodes), o, e)
  {
    var y := Start(nodes, o, e, clock);
    var g := NetOf(nodes);
    forall p | p in y.flying ensures Tied(g, o, e, p) {
      ExtendReduced(g, [o], p.to);
    }
  }

  lemma {:induction false} RunSound(nodes: map<Endpoint, Node>, o: Endpoint, e: Entry, clock: int, acts: seq<Act>)
    requires o in nodes && Valid(Start(nodes, o, e, clock), acts)
    ensures Sound(Run(Start(nodes, o, e, clock), acts), NetOf(nodes), o, e)
  {
    hide Sound, Step, Start;
    if acts == [] {
      StartSound(nodes, o, e, clock);
    } else {
      var n := |acts| - 1;
      RunSound(nodes, o, e, clock, acts[..n]);
      StepSound(Run(Start(nodes, o, e, clock), acts[..n]), NetOf(nodes), o, e, acts[n]);
    }
  }

  /** On every graph, whatever is lost or was seen before: an entry lands only at servers within three
      links of its origin, with the number of links it came over as its hop. */
  lemma WithinThreeLinks(nodes: map<Endpoint, Node>, o: Endpoint, e: Entry, clock: int, acts: seq<Act>,
      p: Packet<Entry>)
    requires o in nodes && Valid(Start(nodes, o, e, clock), acts) && p in Run(Start(nodes, o, e, clock), acts).landed
    ensures 1 <= p.body.hop <= 3 && Reaches(NetOf(nodes), o, p.to, p.body.hop)
  {
    hide Start, Run, Valid, NetOf;
    RunSound(nodes, o, e, clock, acts);
    assert Tied(NetOf(nodes), o, e, p);
    assert HasLength(NetOf(nodes), p.walk, o, p.to, p.body.hop);
  }

  lemma StepWeight(y: Sys, g: Net, o: Endpoint, e: Entry, d: nat, act: Act)
    requires Sound(y, g, o, e) && DegreeAtMost(g, d) && Enabled(y, act)
    ensures var z := Step(y, act);
            && Weight(d, 3, Walks(z.flying)) <= Weight(d, 3, Walks(y.flying))
            && (act.Deliver? || act.Lose? ==> Weight(d, 3, Walks(z.flying)) < Weight(d, 3, Walks(y.flying)))
            && z.handled == y.handled + (if act.Deliver? then 1 else 0)
  {
    hide Weight, NetOf, Sent, From, HandleEntry;
    if act.Deliver? || act.Lose? {
      var p := y.flying[act.i];
      assert Tied(g, o, e, p);
      var sent := [];
      if act.Deliver? {
        sent := Sent(y.nodes[p.to], p, y.clock);
        SentTied(y, g, o, e, p);
      }
      FlyingWeight(y.flying, act.i, sent, d);
    }
  }

  lemma FlyingWeight(flying: seq<Packet<Entry>>, i: nat, sent: seq<Packet<Entry>>, d: nat)
    requires i < |flying| && |sent| <= d && flying[i].walk != []
    requires forall q :: q in sent ==> |q.walk| == |flying[i].walk| + 1
    requires sent != [] ==> |flying[i].walk| - 1 < 3
    ensures Weight(d, 3, Walks(Without(flying, i) + sent)) < Weight(d, 3, Walks(flying))
    ensures Without(flying, i) + [] == Without(flying, i)
  {
    hide Weight;
    WalksReplace(flying, i, sent);
    WeightFalls(d, 3, Walks(flying), i, Walks(sent));
  }

  /** Every delivery and every loss lowers the weight of what is in flight. */
  lemma {:induction false} RunWeight(nodes: map<Endpoint, Node>, o: Endpoint, e: Entry, clock: int, d: nat,
      acts: seq<Act>)
    requires o in nodes && Valid(Start(nodes, o, e, clock), acts) && DegreeAtMost(NetOf(nodes), d)
    ensures var y := Run(Start(nodes, o, e, clock), acts);
            y.handled + Weight(d, 3, Walks(y.flying)) <= d * Burden(d, 2)
  {
    hide Step, Weight, Burden;
    var y := Start(nodes, o, e, clock);
    if acts == [] {
      StartSound(nodes, o, e, clock);
      if nodes[o].Syncing() { NetAt(nodes, o); }
      WeightUniform(d, 3, Walks(y.flying), 2);
      TimesMore(|y.flying|, d, Burden(d, 2));
    } else {
      var n := |acts| - 1;
      RunWeight(nodes, o, e, clock, d, acts[..n]);
      RunSound(nodes, o, e, clock, acts[..n]);
      StepWeight(Run(y, acts[..n]), NetOf(nodes), o, e, d, acts[n]);
    }
  }

  /** One registration causes at most D + D^2 + D^3 deliveries, on every graph with at most D peers per
      server, whatever the servers have seen before. */
  lemma FloodEnds(nodes: map<Endpoint, Node>, o: Endpoint, e: Entry, clock: int, d: nat, acts: seq<Act>)
    requires o in nodes && Valid(Start(nodes, o, e, clock), acts) && DegreeAtMost(NetOf(nodes), d)
    ensures Run(Start(nodes, o, e, clock), acts).handled <= d + d * d + d * d * d
  {
    hide Run, Valid, NetOf, Start;
    RunWeight(nodes, o, e, clock, d, acts);
    BurdenTwo(d);
  }

  lemma BurdenTwo(d: nat)
    ensures d * Burden(d, 2) == d + d * d + d * d * d
  {
    var b := Burden(d, 1);
    assert b == 1 + d by { assert Burden(d, 0) == 1; }
    assert Burden(d, 2) == 1 + d * b;
    Distribute(d, b);
  }

  lemma Distribute(d: nat, b: nat)
    requires b == 1 + d
    ensures d * (1 + d * b) == d + d * d + d * d * d
  {
    assert d * b == d + d * d;
  }
}
