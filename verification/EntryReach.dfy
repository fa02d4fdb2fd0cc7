/** On an acyclic sync graph without loss, the flood of a registration reaches exactly the servers
    within three links, and the dedupe table never stops it. */
module EntryReach {
  import opened Bytes
  import opened Graph
  import opened SyncNode
  import opened FloodTree
  import opened EntryFlood

  /** Server `a` has a fresh mark for the entry over the link from `f`. */
  predicate Marked(y: Sys, e: Entry, a: Endpoint, f: Endpoint)
    requires a in y.nodes
  {
    Recent(y.nodes[a].seen, Key(e.uuid, e.hb, f), y.clock)
  }

  /** No loss, and other traffic does not mark this entry as seen. */
  ghost predicate Gentle(y: Sys, e: Entry, act: Act) {
    match act
    case Lose(_) => false
    case Other(at, seen, _) =>
      at in y.nodes && forall f :: Recent(seen, Key(e.uuid, e.hb, f), y.clock) ==> Marked(y, e, at, f)
    case _ => true
  }

  ghost predicate AllGentle(y: Sys, e: Entry, acts: seq<Act>) {
    acts != [] ==>
      var n := |acts| - 1;
      AllGentle(y, e, acts[..n]) && Gentle(Run(y, acts[..n]), e, acts[n])
  }

  function TreeOf(y: Sys): Tree { Tree(Walks(y.flying), Walks(y.landed)) }

  predicate LandedVia(y: Sys, a: Endpoint, f: Endpoint) {
    exists l :: l in y.landed && l.to == a && l.from == f
  }

  /** Every fresh mark stems from a landing of this flood. */
  ghost predicate MarksExplained(y: Sys, e: Entry) {
    forall a, f :: a in y.nodes && Marked(y, e, a, f) ==> LandedVia(y, a, f)
  }

  // ---- what one step does, on any net ----

  lemma LandsIff(y: Sys, g: Net, o: Endpoint, e: Entry, p: Packet<Entry>)
    requires Tied(g, o, e, p) && p.to in y.nodes && e.uuid != ""
    ensures Lands(y.nodes[p.to], p.body, p.from, y.clock) <==>
              y.nodes[p.to].Syncing() && !Marked(y, e, p.to, p.from)
  {
    hide Reduced;
  }

  lemma SentIsSpread(y: Sys, g: Net, o: Endpoint, e: Entry, p: Packet<Entry>)
    requires Tied(g, o, e, p) && p.to in y.nodes && p.to in g && g[p.to] == y.nodes[p.to].addrs
    requires Lands(y.nodes[p.to], p.body, p.from, y.clock)
    ensures Walks(Sent(y.nodes[p.to], p, y.clock)) == Spread(g, Some(3), p.walk)
  {
    hide Onward, Reduced;
    var to := HandleEntry(y.nodes[p.to], p.body, p.from, y.clock).1;
    assert to == if |p.walk| - 1 < 3 then Onward(g[Last(p.walk)], Back(p.walk)) else [];
  }

  /** A copy that lands is passed on to the next walks, any other is dropped. */
  lemma ReceiveTree(y: Sys, g: Net, o: Endpoint, e: Entry, i: nat)
    requires Sound(y, g, o, e) && i < |y.flying| && y.flying[i].to in y.nodes
    ensures var p := y.flying[i];
            && p.walk != []
            && TreeOf(Receive(y, i)) == if Lands(y.nodes[p.to], p.body, p.from, y.clock)
                                        then Next(g, Some(3), TreeOf(y), i)
                                        else Drop(TreeOf(y), i)
  {
    hide From, NetOf, Spread, Lands, Walks, Onward;
    var p := y.flying[i];
    assert Tied(g, o, e, p);
    WalkNonEmpty(g, o, e, p);
    var sent := Sent(y.nodes[p.to], p, y.clock);
    WalksReplace(y.flying, i, sent);
    WalksReplace(y.flying, i, []);
    WalksConcat(y.landed, [p]);
    WalksOne(p);
    if Lands(y.nodes[p.to], p.body, p.from, y.clock) {
      LandsSyncing(y.nodes[p.to], p.body, p.from, y.clock);
      NetAt(y.nodes, p.to);
      SentIsSpread(y, g, o, e, p);
    } else {
      assert Without(y.flying, i) + sent == Without(y.flying, i) && y.landed + [] == y.landed;
    }
  }

  lemma WalkNonEmpty(g: Net, o: Endpoint, e: Entry, p: Packet<Entry>)
    requires Tied(g, o, e, p)
    ensures |p.walk| > 1
  {
  }

  lemma LandsSyncing(n: Node, e: Entry, from: Endpoint, now: int)
    requires Lands(n, e, from, now)
    ensures n.Syncing()
  {
  }

  /** A delivery marks the link of a copy that lands, and nothing else of this entry. */
  lemma ReceiveMarked(y: Sys, g: Net, o: Endpoint, e: Entry, i: nat, a: Endpoint, f: Endpoint)
    requires Sound(y, g, o, e) && e.uuid != "" && i < |y.flying| && y.flying[i].to in y.nodes && a in y.nodes
    ensures var p := y.flying[i];
            Marked(Receive(y, i), e, a, f) <==>
              Marked(y, e, a, f) || (Lands(y.nodes[p.to], p.body, p.from, y.clock) && a == p.to && f == p.from)
  {
    hide Reduced, NetOf, Sent, MarkSeen, Recent, Lands;
    var p := y.flying[i];
    assert Tied(g, o, e, p);
    MarkKeepsRecent(y.nodes[p.to].seen, Key(e.uuid, e.hb, p.from), Key(e.uuid, e.hb, f), y.clock);
  }

  lemma LandedGrows(y: Sys, act: Act, a: Endpoint, f: Endpoint)
    requires LandedVia(y, a, f)
    ensures LandedVia(Step(y, act), a, f)
  {
    var l :| l in y.landed && l.to == a && l.from == f;
    assert l in Step(y, act).landed;
  }

  lemma NewlyLanded(y: Sys, i: nat)
    requires Enabled(y, Deliver(i)) && var p := y.flying[i]; Lands(y.nodes[p.to], p.body, p.from, y.clock)
    ensures LandedVia(Receive(y, i), y.flying[i].to, y.flying[i].from)
  {
    assert y.flying[i] in Receive(y, i).landed;
  }

  lemma StepMarks(y: Sys, g: Net, o: Endpoint, e: Entry, act: Act)
    requires Sound(y, g, o, e) && MarksExplained(y, e) && e.uuid != "" && Enabled(y, act) && Gentle(y, e, act)
    ensures MarksExplained(Step(y, act), e)
  {
    hide Sound, Receive, LandedVia, Lands;
    var z := Step(y, act);
    NodesKept(y, act);
    forall a, f | a in z.nodes && Marked(z, e, a, f) ensures LandedVia(z, a, f) {
      if act.Deliver? { ReceiveMarked(y, g, o, e, act.i, a, f); }
      if Marked(y, e, a, f) { LandedGrows(y, act, a, f); } else { NewlyLanded(y, act.i); }
    }
  }

  lemma NodesKept(y: Sys, act: Act)
    ensures Step(y, act).nodes.Keys == y.nodes.Keys
  {
  }

  // ---- acyclic nets ----

  ghost predicate Faithful(y: Sys, g: Net, o: Endpoint, e: Entry) {
    && Sound(y, g, o, e)
    && Core(g, o, Some(3), TreeOf(y)) && Closed(g, o, Some(3), TreeOf(y))
    && MarksExplained(y, e)
  }

  lemma ReceiverSyncs(y: Sys, g: Net, o: Endpoint, e: Entry, p: Packet<Entry>)
    requires Forest(g) && NetOf(y.nodes) == g && Tied(g, o, e, p)
    ensures p.to in y.nodes && y.nodes[p.to].Syncing() && g[p.to] == y.nodes[p.to].addrs
  {
    hide Acyclic;
    ParentReduced(g, p.walk);
    assert Link(g, p.from, p.to);
    assert Link(g, p.to, p.from);
  }

  /** The dedupe table never blocks the copy that is due. */
  lemma NeverBlocked(y: Sys, g: Net, o: Endpoint, e: Entry, i: nat)
    requires Forest(g) && Faithful(y, g, o, e) && e.uuid != "" && i < |y.flying|
    ensures var p := y.flying[i];
            && p.to in y.nodes && y.nodes[p.to].Syncing() && g[p.to] == y.nodes[p.to].addrs
            && Lands(y.nodes[p.to], p.body, p.from, y.clock)
  {
    hide Forest, Core, Closed, From, NetOf, Walks;
    var p := y.flying[i];
    assert Tied(g, o, e, p);
    ReceiverSyncs(y, g, o, e, p);
    LandsIff(y, g, o, e, p);
    if Marked(y, e, p.to, p.from) {
      assert LandedVia(y, p.to, p.from);
      var l :| l in y.landed && l.to == p.to && l.from == p.from;
      assert Tied(g, o, e, l);
      SameWalk(g, o, p.walk, l.walk);
      WalkIn(y.flying, p);
      WalkIn(y.landed, l);
      CoreApart(g, o, TreeOf(y), p.walk);
    }
  }

  lemma SameWalk(g: Net, o: Endpoint, v: Walk, w: Walk)
    requires Forest(g) && From(g, o, Some(3), v) && From(g, o, Some(3), w) && Last(v) == Last(w)
    ensures v == w
  {
    hide Forest, Reduced;
    UniqueReduced(g, v, w);
  }

  lemma CoreApart(g: Net, o: Endpoint, t: Tree, w: Walk)
    requires Core(g, o, Some(3), t) && w in t.flying
    ensures w !in t.done
  {
  }

  lemma StepFaithful(y: Sys, g: Net, o: Endpoint, e: Entry, act: Act)
    requires Forest(g) && Faithful(y, g, o, e) && e.uuid != "" && Enabled(y, act) && Gentle(y, e, act)
    ensures Faithful(Step(y, act), g, o, e)
  {
    hide Core, Closed, Sound, Receive, Acyclic, Symmetric, MarksExplained;
    StepSound(y, g, o, e, act);
    StepMarks(y, g, o, e, act);
    match act
    case Deliver(i) =>
      NeverBlocked(y, g, o, e, i);
      ReceiveTree(y, g, o, e, i);
      NextCore(g, o, Some(3), TreeOf(y), i);
      NextClosed(g, o, Some(3), TreeOf(y), i);
    case _ =>
  }

  /** No server has a fresh mark for the entry when it is first sent. */
  ghost predicate Unmarked(y: Sys, e: Entry) {
    forall a, f :: a in y.nodes ==> !Marked(y, e, a, f)
  }

  lemma StartFaithful(nodes: map<Endpoint, Node>, o: Endpoint, e: Entry, clock: int)
    requires o in nodes && WellFormed(NetOf(nodes)) && Unmarked(Start(nodes, o, e, clock), e)
    ensures Faithful(Start(nodes, o, e, clock), NetOf(nodes), o, e)
    ensures TreeOf(Start(nodes, o, e, clock)) == Sprout(NetOf(nodes), o)
  {
    hide WellFormed, Core, Closed, Sound, MarksExplained, Start, Sprout, TreeOf;
    var y, g := Start(nodes, o, e, clock), NetOf(nodes);
    StartSound(nodes, o, e, clock);
    SproutInv(g, o, Some(3));
    StartTree(nodes, o, e, clock);
    NoLandings(nodes, o, e, clock);
  }

  lemma NoLandings(nodes: map<Endpoint, Node>, o: Endpoint, e: Entry, clock: int)
    requires o in nodes && Unmarked(Start(nodes, o, e, clock), e)
    ensures Start(nodes, o, e, clock).landed == [] && MarksExplained(Start(nodes, o, e, clock), e)
  {
  }

  lemma StartTree(nodes: map<Endpoint, Node>, o: Endpoint, e: Entry, clock: int)
    requires o in nodes
    ensures TreeOf(Start(nodes, o, e, clock)) == Sprout(NetOf(nodes), o)
  {
    hide Walks, Sends, Extend, Onward;
    var addrs := nodes[o].addrs;
    SendsExtend(o, addrs, e.(hop := 1), [o]);
    OnwardAll(if nodes[o].Syncing() then addrs else []);
  }

  lemma {:induction false} RunFaithful(nodes: map<Endpoint, Node>, o: Endpoint, e: Entry, clock: int, acts: seq<Act>)
    requires o in nodes && Forest(NetOf(nodes)) && e.uuid != "" && Unmarked(Start(nodes, o, e, clock), e)
    requires Valid(Start(nodes, o, e, clock), acts) && AllGentle(Start(nodes, o, e, clock), e, acts)
    ensures Faithful(Run(Start(nodes, o, e, clock), acts), NetOf(nodes), o, e)
  {
    hide Faithful, Step, Start, Acyclic, Symmetric, WellFormed, Unmarked, Gentle;
    if acts == [] {
      StartFaithful(nodes, o, e, clock);
    } else {
      var n := |acts| - 1;
      RunFaithful(nodes, o, e, clock, acts[..n]);
      StepFaithful(Run(Start(nodes, o, e, clock), acts[..n]), NetOf(nodes), o, e, acts[n]);
    }
  }

  predicate LandedAt(y: Sys, s: Endpoint, h: nat) {
    exists l :: l in y.landed && l.to == s && l.body.hop == h
  }

  /** When a loss-free flood on an acyclic graph has nothing in flight any more, the entry has landed at
      exactly the servers at distance 1, 2 and 3 from its origin, with that distance as its hop. */
  lemma ReachesExactly(nodes: map<Endpoint, Node>, o: Endpoint, e: Entry, clock: int, acts: seq<Act>, s: Endpoint,
      h: nat)
    requires o in nodes && Forest(NetOf(nodes)) && e.uuid != "" && Unmarked(Start(nodes, o, e, clock), e)
    requires Valid(Start(nodes, o, e, clock), acts) && AllGentle(Start(nodes, o, e, clock), e, acts)
    requires Run(Start(nodes, o, e, clock), acts).flying == []
    ensures LandedAt(Run(Start(nodes, o, e, clock), acts), s, h) <==> 1 <= h <= 3 && Distance(NetOf(nodes), o, s, h)
  {
    hide Start, Run, Valid, NetOf, Forest, Core, Closed, Distance, Reduced, MarksExplained, Unmarked, AllGentle;
    var y, g := Run(Start(nodes, o, e, clock), acts), NetOf(nodes);
    RunFaithful(nodes, o, e, clock, acts);
    if LandedAt(y, s, h) {
      var l :| l in y.landed && l.to == s && l.body.hop == h;
      assert Tied(g, o, e, l);
      ReducedIsDistance(g, l.walk);
    }
    if 1 <= h <= 3 && Distance(g, o, s, h) {
      var w := DistanceIsReduced(g, o, s, h);
      QuietDone(g, o, Some(3), TreeOf(y), w);
      var k :| 0 <= k < |y.landed| && Walks(y.landed)[k] == w;
      assert y.landed[k] in y.landed && Tied(g, o, e, y.landed[k]);
    }
  }
}
