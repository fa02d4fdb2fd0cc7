/** What the flood of a registration is sure to reach on a net of any shape, rings included: without loss, the
    servers within two links, and those three links away behind a link that no detour of two links avoids. */
module EntryNear {
  import opened Bytes
  import opened Graph
  import opened SyncNode
  import opened FloodTree
  import opened EntryFlood
  import opened EntryReach

  predicate InFlight(y: Sys, s: Endpoint, w: Endpoint) {
    exists p :: p in y.flying && p.from == s && p.to == w
  }

  /** A copy over the link from `s` to `w` is in flight or has landed, if `w` takes part in the sync. */
  predicate Owed(y: Sys, s: Endpoint, w: Endpoint) {
    InFlight(y, s, w) || LandedVia(y, w, s) || (w in y.nodes && !y.nodes[w].Syncing())
  }

  /** Every copy that landed with hops left is owed to all other peers. */
  predicate Relayed(y: Sys, g: Net, l: Packet<Entry>) {
    l.body.hop < SYNC_HOP_MAX && l.to in g ==> forall w :: w in g[l.to] && w != l.from ==> Owed(y, l.to, w)
  }

  ghost predicate Served(y: Sys, g: Net, o: Endpoint, e: Entry) {
    && Sound(y, g, o, e) && MarksExplained(y, e)
    && (o in g ==> forall v :: v in g[o] ==> Owed(y, o, v))
    && (forall l :: l in y.landed ==> Relayed(y, g, l))
  }

  lemma StillSyncing(y: Sys, act: Act, w: Endpoint)
    requires w in y.nodes
    ensures w in Step(y, act).nodes && (Step(y, act).nodes[w].Syncing() <==> y.nodes[w].Syncing())
  {
  }

  lemma StillFlying(y: Sys, act: Act, p: Packet<Entry>)
    requires p in y.flying && !act.Lose? && (act.Deliver? ==> Enabled(y, act) && p != y.flying[act.i])
    ensures p in Step(y, act).flying
  {
    if act.Deliver? { InWithout(y.flying, act.i); }
  }

  lemma StepOwed(y: Sys, g: Net, o: Endpoint, e: Entry, act: Act, s: Endpoint, w: Endpoint)
    requires Sound(y, g, o, e) && MarksExplained(y, e) && e.uuid != "" && Enabled(y, act) && Gentle(y, e, act)
    requires Owed(y, s, w)
    ensures Owed(Step(y, act), s, w)
  {
    hide Tied, Step, LandedVia, Lands, Gentle;
    var z := Step(y, act);
    if LandedVia(y, w, s) {
      LandedGrows(y, act, w, s);
    } else if InFlight(y, s, w) {
      var p :| p in y.flying && p.from == s && p.to == w;
      if act.Deliver? && p == y.flying[act.i] {
        Delivered(y, g, o, e, act.i);
      } else {
        GentleKeeps(y, e, act);
        StillFlying(y, act, p);
        assert p in z.flying;
      }
    } else {
      StillSyncing(y, act, w);
    }
  }

  lemma GentleKeeps(y: Sys, e: Entry, act: Act)
    requires Gentle(y, e, act)
    ensures !act.Lose?
  {
  }

  /** A delivered copy lands, or one over the same link has landed before. */
  lemma Delivered(y: Sys, g: Net, o: Endpoint, e: Entry, i: nat)
    requires Sound(y, g, o, e) && MarksExplained(y, e) && e.uuid != "" && Enabled(y, Deliver(i))
    ensures Owed(Step(y, Deliver(i)), y.flying[i].from, y.flying[i].to)
  {
    hide Tied, LandedVia, Lands, Receive;
    var p := y.flying[i];
    assert Tied(g, o, e, p);
    LandsIff(y, g, o, e, p);
    if !y.nodes[p.to].Syncing() {
      StillSyncing(y, Deliver(i), p.to);
    } else if Marked(y, e, p.to, p.from) {
      assert LandedVia(y, p.to, p.from);
      LandedGrows(y, Deliver(i), p.to, p.from);
    } else {
      NewlyLanded(y, i);
    }
  }

  /** A copy that lands with hops left is sent on. */
  lemma NewRelayed(y: Sys, g: Net, o: Endpoint, e: Entry, i: nat)
    requires Sound(y, g, o, e) && Enabled(y, Deliver(i))
    requires var p := y.flying[i]; Lands(y.nodes[p.to], p.body, p.from, y.clock)
    ensures Relayed(Step(y, Deliver(i)), g, y.flying[i])
  {
    hide Lands, NetOf;
    var p, z := y.flying[i], Step(y, Deliver(i));
    assert Tied(g, o, e, p);
    LandsSyncing(y.nodes[p.to], p.body, p.from, y.clock);
    NetAt(y.nodes, p.to);
    var sent := Sent(y.nodes[p.to], p, y.clock);
    if p.body.hop < SYNC_HOP_MAX {
      forall w | w in g[p.to] && w != p.from ensures Owed(z, p.to, w) {
        var to := Onward(y.nodes[p.to].addrs, Some(p.from));
        var k :| 0 <= k < |to| && to[k] == w;
        assert sent[k] in sent && sent[k] in z.flying && sent[k].from == p.to && sent[k].to == w;
      }
    }
  }

  lemma StepServed(y: Sys, g: Net, o: Endpoint, e: Entry, act: Act)
    requires Served(y, g, o, e) && e.uuid != "" && Enabled(y, act) && Gentle(y, e, act)
    ensures Served(Step(y, act), g, o, e)
  {
    hide Sound, Owed, Step, MarksExplained, Enabled, Gentle;
    var z := Step(y, act);
    StepSound(y, g, o, e, act);
    StepMarks(y, g, o, e, act);
    if o in g { forall v | v in g[o] ensures Owed(z, o, v) { StepOwed(y, g, o, e, act, o, v); } }
    forall l | l in z.landed ensures Relayed(z, g, l) {
      if l in y.landed {
        StepRelayed(y, g, o, e, act, l);
      } else {
        FreshlyLanded(y, act, l);
        NewRelayed(y, g, o, e, act.i);
      }
    }
  }

  lemma FreshlyLanded(y: Sys, act: Act, l: Packet<Entry>)
    requires l in Step(y, act).landed && l !in y.landed
    ensures Enabled(y, act) && act.Deliver? && l == y.flying[act.i] && Lands(y.nodes[l.to], l.body, l.from, y.clock)
  {
    hide Lands;
  }

  lemma StepRelayed(y: Sys, g: Net, o: Endpoint, e: Entry, act: Act, l: Packet<Entry>)
    requires Sound(y, g, o, e) && MarksExplained(y, e) && e.uuid != "" && Enabled(y, act) && Gentle(y, e, act)
    requires Relayed(y, g, l)
    ensures Relayed(Step(y, act), g, l)
  {
    hide Sound, Owed, Step, MarksExplained, Enabled, Gentle;
    if l.body.hop < SYNC_HOP_MAX && l.to in g {
      forall w | w in g[l.to] && w != l.from ensures Owed(Step(y, act), l.to, w) {
        StepOwed(y, g, o, e, act, l.to, w);
      }
    }
  }

  lemma StartServed(nodes: map<Endpoint, Node>, o: Endpoint, e: Entry, clock: int)
    requires o in nodes && Unmarked(Start(nodes, o, e, clock), e)
    ensures Served(Start(nodes, o, e, clock), NetOf(nodes), o, e)
  {
    hide Sound;
    var y, g := Start(nodes, o, e, clock), NetOf(nodes);
    StartSound(nodes, o, e, clock);
    forall v | v in g[o] ensures Owed(y, o, v) {
      var k :| 0 <= k < |g[o]| && g[o][k] == v;
      assert y.flying[k] in y.flying && y.flying[k].from == o && y.flying[k].to == v;
    }
  }

  /** The runs considered here: loss-free, gentle, of an entry no server has seen. */
  ghost predicate Floods(nodes: map<Endpoint, Node>, o: Endpoint, e: Entry, clock: int, acts: seq<Act>) {
    && o in nodes && e.uuid != "" && Unmarked(Start(nodes, o, e, clock), e)
    && Valid(Start(nodes, o, e, clock), acts) && AllGentle(Start(nodes, o, e, clock), e, acts)
  }

  lemma {:induction false} RunServed(nodes: map<Endpoint, Node>, o: Endpoint, e: Entry, clock: int, acts: seq<Act>)
    requires Floods(nodes, o, e, clock, acts)
    ensures Served(Run(Start(nodes, o, e, clock), acts), NetOf(nodes), o, e)
  {
    hide Served, Step, Start, Unmarked, Gentle, NetOf;
    if acts == [] {
      StartServed(nodes, o, e, clock);
    } else {
      var n := |acts| - 1;
      RunServed(nodes, o, e, clock, acts[..n]);
      StepServed(Run(Start(nodes, o, e, clock), acts[..n]), NetOf(nodes), o, e, acts[n]);
    }
  }

  // ---- when nothing is in flight any more ----

  predicate TakesPart(nodes: map<Endpoint, Node>, a: Endpoint) { a in nodes && nodes[a].Syncing() }

  /** A server with a peer of its own takes part. */
  lemma LinkedTakesPart(nodes: map<Endpoint, Node>, a: Endpoint, b: Endpoint)
    requires Link(NetOf(nodes), a, b)
    ensures TakesPart(nodes, a)
  {
  }

  lemma SamePart(nodes: map<Endpoint, Node>, y: Sys, a: Endpoint)
    requires NetOf(y.nodes) == NetOf(nodes) && TakesPart(nodes, a)
    ensures a in y.nodes && y.nodes[a].Syncing()
  {
    assert a in NetOf(y.nodes) && NetOf(y.nodes)[a] == nodes[a].addrs;
  }

  /** The entry has come over the link from `s` to `w`, on a way that is at hand. */
  lemma QuietVia(nodes: map<Endpoint, Node>, y: Sys, o: Endpoint, e: Entry, s: Endpoint, w: Endpoint)
    returns (l: Packet<Entry>)
    requires Sound(y, NetOf(nodes), o, e) && y.flying == [] && Owed(y, s, w) && TakesPart(nodes, w)
    ensures l in y.landed && l.to == w && l.from == s && Tied(NetOf(nodes), o, e, l)
  {
    hide Tied, NetOf;
    SamePart(nodes, y, w);
    l :| l in y.landed && l.to == w && l.from == s;
  }

  lemma RelayedOn(y: Sys, g: Net, o: Endpoint, e: Entry, l: Packet<Entry>, w: Endpoint)
    requires Served(y, g, o, e) && l in y.landed && l.body.hop < SYNC_HOP_MAX && Link(g, l.to, w) && w != l.from
    ensures Owed(y, l.to, w)
  {
    assert Relayed(y, g, l);
  }

  predicate Landed(y: Sys, s: Endpoint) {
    exists l :: l in y.landed && l.to == s
  }

  /** A copy straight from the origin has hops left. */
  lemma FirstHop(g: Net, o: Endpoint, e: Entry, l: Packet<Entry>)
    requires Tied(g, o, e, l) && l.from == o
    ensures l.body.hop < SYNC_HOP_MAX
  {
    assert |l.walk| == 4 ==> !Turns(l.walk, 2);
  }

  /** Whatever the net: when a loss-free flood has nothing in flight any more, the entry has landed at every
      server within two links of its origin that takes part in the sync. */
  lemma WithinTwoLanded(nodes: map<Endpoint, Node>, o: Endpoint, e: Entry, clock: int, acts: seq<Act>, s: Endpoint,
      h: nat)
    requires Floods(nodes, o, e, clock, acts) && Run(Start(nodes, o, e, clock), acts).flying == []
    requires s != o && TakesPart(nodes, s) && h <= 2 && Reaches(NetOf(nodes), o, s, h)
    ensures Landed(Run(Start(nodes, o, e, clock), acts), s)
  {
    hide Start, Run, Unmarked, AllGentle, Valid, NetOf, Owed, Sound, Relayed, TakesPart, Tied;
    var y, g := Run(Start(nodes, o, e, clock), acts), NetOf(nodes);
    RunServed(nodes, o, e, clock, acts);
    var w :| HasLength(g, w, o, s, h);
    assert Link(g, w[0], w[1]);
    if h == 1 {
      var l := QuietVia(nodes, y, o, e, o, s);
    } else {
      assert Link(g, w[1], w[2]);
      LinkedTakesPart(nodes, w[1], s);
      var l := QuietVia(nodes, y, o, e, o, w[1]);
      FirstHop(g, o, e, l);
      RelayedOn(y, g, o, e, l, s);
      var l' := QuietVia(nodes, y, o, e, w[1], s);
    }
  }

  /** The link from `o` to `a` has no detour over a third server. */
  predicate Straight(g: Net, o: Endpoint, a: Endpoint) {
    Link(g, o, a) && forall x :: x in g && Link(g, o, x) ==> !Link(g, x, a)
  }

  /** A way of three links to `s` whose first link has no detour. */
  predicate Sure(g: Net, o: Endpoint, a: Endpoint, b: Endpoint, s: Endpoint) {
    Straight(g, o, a) && Link(g, a, b) && Link(g, b, s)
  }

  lemma SecondHop(g: Net, o: Endpoint, e: Entry, l: Packet<Entry>)
    requires Tied(g, o, e, l) && Straight(g, o, l.from)
    ensures l.body.hop < SYNC_HOP_MAX
  {
    assert |l.walk| == 4 ==> Link(g, l.walk[0], l.walk[1]) && Link(g, l.walk[1], l.walk[2]);
  }

  /** And at those three links away behind such a link. */
  lemma ThirdLinkLanded(nodes: map<Endpoint, Node>, o: Endpoint, e: Entry, clock: int, acts: seq<Act>, a: Endpoint,
      b: Endpoint, s: Endpoint)
    requires Floods(nodes, o, e, clock, acts) && Run(Start(nodes, o, e, clock), acts).flying == []
    requires Sure(NetOf(nodes), o, a, b, s) && Distance(NetOf(nodes), o, s, 3) && TakesPart(nodes, s)
    ensures Landed(Run(Start(nodes, o, e, clock), acts), s)
  {
    hide Start, Run, Unmarked, AllGentle, Valid, NetOf, Owed, Sound, Relayed, TakesPart, Tied, Distance, Straight;
    var y, g := Run(Start(nodes, o, e, clock), acts), NetOf(nodes);
    RunServed(nodes, o, e, clock, acts);
    StraightLink(g, o, a);
    LinkedTakesPart(nodes, a, b);
    LinkedTakesPart(nodes, b, s);
    FarOff(g, o, a, b, s);
    var l1 := QuietVia(nodes, y, o, e, o, a);
    FirstHop(g, o, e, l1);
    RelayedOn(y, g, o, e, l1, b);
    var l2 := QuietVia(nodes, y, o, e, a, b);
    SecondHop(g, o, e, l2);
    RelayedOn(y, g, o, e, l2, s);
    var l3 := QuietVia(nodes, y, o, e, b, s);
  }

  lemma StraightLink(g: Net, o: Endpoint, a: Endpoint)
    requires Straight(g, o, a)
    ensures Link(g, o, a)
  {
  }

  lemma NotShorter(g: Net, w: Walk, o: Endpoint, s: Endpoint, n: nat)
    requires Distance(g, o, s, n) && w != []
    ensures HasLength(g, w, o, s, |w| - 1) ==> |w| > n
  {
    assert HasLength(g, w, o, s, |w| - 1) ==> Reaches(g, o, s, |w| - 1);
  }

  /** The servers on a shortest way of three links are different ones. */
  lemma FarOff(g: Net, o: Endpoint, a: Endpoint, b: Endpoint, s: Endpoint)
    requires Distance(g, o, s, 3) && Link(g, o, a) && Link(g, a, b) && Link(g, b, s)
    ensures o != a && o != b && o != s && a != s && a != b && !Link(g, o, b) && !Link(g, o, s) && !Link(g, a, s)
  {
    NotShorter(g, [o], o, s, 3);
    NotShorter(g, [o, s], o, s, 3);
    NotShorter(g, [o, a, s], o, s, 3);
    NotShorter(g, [o, b, s], o, s, 3);
  }
}
