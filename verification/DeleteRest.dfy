/** When the flood of a delete notice comes to rest. It has neither hop count nor dedupe, so that depends on
    the net alone. */
module DeleteRest {
  import opened Bytes
  import opened Graph
  import opened Rings
  import opened SyncNode
  import opened FloodTree
  import opened EntryFlood
  import opened DeleteFlood
  import PeerManage

  /** Runs without loss that leave nothing in flight. */
  ghost predicate Quiets(y: Del, acts: seq<DelAct>) {
    Legal(y, acts) && NoLoss(acts) && Go(y, acts).flying == []
  }

  /** All prefixes of a delivered walk are different delivered walks. */
  lemma LongWalkManyHandled(g: Net, o: Endpoint, t: Tree, w: Walk)
    requires Core(g, o, None, t) && Closed(g, o, None, t) && t.flying == [] && From(g, o, None, w)
    ensures |w| - 1 <= |t.done|
  {
    hide Core, Closed, Reduced;
    var lengths := Lengths(t.done);
    forall k | 2 <= k <= |w| ensures k in lengths {
      PrefixFrom(g, o, w, k);
      QuietDone(g, o, None, t, w[..k]);
      assert w[..k] in t.done;
    }
    ImageSize(t.done);
    RangeSize(lengths, |w|);
  }

  function Lengths(s: seq<Walk>): set<nat> { set x | x in s :: |x| }

  lemma {:induction false} ImageSize(s: seq<Walk>)
    ensures |Lengths(s)| <= |s|
  {
    if s != [] {
      var n := |s| - 1;
      ImageSize(s[..n]);
      assert s == s[..n] + [s[n]];
      assert Lengths(s) == Lengths(s[..n]) + {|s[n]|};
    }
  }

  lemma {:induction false} RangeSize(s: set<nat>, n: nat)
    requires forall k :: 2 <= k <= n ==> k in s
    ensures n - 1 <= |s|
  {
    if n >= 2 {
      RangeSize(s - {n}, n - 1);
    }
  }

  /** A loss-free run that ends bounds the graph: its deliveries are at least as many as any walk has links. */
  lemma QuietMeansBounded(nodes: map<Endpoint, Node>, o: Endpoint, uuid: string, acts: seq<DelAct>)
    requires o in nodes && WellFormed(NetOf(nodes)) && Quiets(Begin(nodes, o, uuid), acts)
    ensures Bounded(NetOf(nodes), o, |Go(Begin(nodes, o, uuid), acts).handled|)
  {
    hide Go, Begin, Legal, WellFormed, NetOf, Core, Closed, From;
    var y, g := Go(Begin(nodes, o, uuid), acts), NetOf(nodes);
    RunTidy(nodes, o, uuid, acts);
    forall w | From(g, o, None, w) ensures |w| - 1 <= |y.handled| { LongWalkManyHandled(g, o, TreeOf(y), w); }
  }

  /** While the ways are bounded, every delivery lowers the weight of what is in flight. */
  lemma PassWeight(y: Del, g: Net, o: Endpoint, d: nat, n: nat, i: nat)
    requires WellFormed(g) && Can(y, Pass(i)) && Tidy(y, g, o) && Tidy(Passed(y, i), g, o) && DegreeAtMost(g, d)
        && Bounded(g, o, n)
    ensures Weight(d, n, Walks(Passed(y, i).flying)) < Weight(d, n, Walks(y.flying))
  {
    hide Weight, Core, WellFormed, Onward, NetOf;
    PassIsNext(y, g, o, i);
    var p := y.flying[i];
    var kids := Spread(g, None, p.walk);
    KidsGrow(g, p.walk, d);
    if kids != [] {
      KidBounded(y, g, o, i, n);
    }
    WeightFalls(d, n, Walks(y.flying), i, kids);
  }

  lemma KidsGrow(g: Net, w: Walk, d: nat)
    requires w != [] && DegreeAtMost(g, d)
    ensures |Kids(g, w)| <= d && forall x :: x in Kids(g, w) ==> |x| == |w| + 1
  {
  }

  lemma KidBounded(y: Del, g: Net, o: Endpoint, i: nat, n: nat)
    requires i < |y.flying| && y.flying[i].walk != [] && y.flying[i].to in y.nodes
    requires TreeOf(Passed(y, i)) == Next(g, None, TreeOf(y), i) && Tidy(Passed(y, i), g, o) && Bounded(g, o, n)
    requires Kids(g, y.flying[i].walk) != []
    ensures |y.flying[i].walk| - 1 < n
  {
    hide Kids, Reduced, Passed;
    var x := Kids(g, y.flying[i].walk)[0];
    assert x in Kids(g, y.flying[i].walk);
    var t := TreeOf(Passed(y, i));
    assert x in t.flying;
    assert Grown(g, o, None, t, x);
    KidLength(g, y.flying[i].walk);
  }

  lemma KidLength(g: Net, w: Walk)
    requires w != []
    ensures forall x :: x in Kids(g, w) ==> |x| == |w| + 1
  {
  }

  /** Delivers the first notice in flight until none is left. */
  lemma {:induction false} DrainAll(nodes: map<Endpoint, Node>, o: Endpoint, uuid: string, d: nat, n: nat,
      acts: seq<DelAct>) returns (more: seq<DelAct>)
    requires o in nodes && WellFormed(NetOf(nodes)) && DegreeAtMost(NetOf(nodes), d) && Bounded(NetOf(nodes), o, n)
    requires Legal(Begin(nodes, o, uuid), acts) && NoLoss(acts)
    ensures Quiets(Begin(nodes, o, uuid), more)
    decreases Weight(d, n, Walks(Go(Begin(nodes, o, uuid), acts).flying))
  {
    hide Begin, WellFormed, NetOf, Bounded, DegreeAtMost, Weight, Tidy, Passed;
    var y := Go(Begin(nodes, o, uuid), acts);
    if y.flying == [] {
      more := acts;
    } else {
      var next := acts + [Pass(0)];
      RunTidy(nodes, o, uuid, acts);
      ReceiverKnown(nodes, y, o);
      assert next[..|acts|] == acts;
      RunTidy(nodes, o, uuid, next);
      PassWeight(y, NetOf(nodes), o, d, n, 0);
      more := DrainAll(nodes, o, uuid, d, n, next);
    }
  }

  lemma ReceiverKnown(nodes: map<Endpoint, Node>, y: Del, o: Endpoint)
    requires WellFormed(NetOf(nodes)) && Tidy(y, NetOf(nodes), o) && y.flying != []
    ensures y.flying[0].to in y.nodes
  {
    var g, p := NetOf(nodes), y.flying[0];
    assert p in y.flying && Ends(p);
    assert Walks(y.flying)[0] == p.walk;
    assert Grown(g, o, None, TreeOf(y), p.walk);
    assert Link(g, p.walk[|p.walk| - 2], p.walk[|p.walk| - 1]);
    assert p.to in NetOf(y.nodes);
  }

  /** A lossy or loss-free run on a net of bounded ways handles a bounded number of notices. */
  lemma {:induction false} HandledBounded(nodes: map<Endpoint, Node>, o: Endpoint, uuid: string, d: nat, n: nat,
      acts: seq<DelAct>)
    requires o in nodes && WellFormed(NetOf(nodes)) && DegreeAtMost(NetOf(nodes), d) && Bounded(NetOf(nodes), o, n)
    requires Legal(Begin(nodes, o, uuid), acts)
    ensures var y := Go(Begin(nodes, o, uuid), acts);
            |y.handled| + Weight(d, n, Walks(y.flying)) <= Weight(d, n, Walks(Begin(nodes, o, uuid).flying))
  {
    hide Begin, WellFormed, NetOf, Bounded, DegreeAtMost, Weight, Tidy, After;
    if acts == [] {
      NothingHandled(nodes, o, uuid);
    } else {
      var k := |acts| - 1;
      HandledBounded(nodes, o, uuid, d, n, acts[..k]);
      RunTidy(nodes, o, uuid, acts[..k]);
      RunTidy(nodes, o, uuid, acts);
      AfterWeight(Go(Begin(nodes, o, uuid), acts[..k]), NetOf(nodes), o, d, n, acts[k]);
    }
  }

  lemma NothingHandled(nodes: map<Endpoint, Node>, o: Endpoint, uuid: string)
    requires o in nodes
    ensures Begin(nodes, o, uuid).handled == []
  {
  }

  lemma AfterWeight(y: Del, g: Net, o: Endpoint, d: nat, n: nat, act: DelAct)
    requires WellFormed(g) && Can(y, act) && Tidy(y, g, o) && Tidy(After(y, act), g, o)
    requires DegreeAtMost(g, d) && Bounded(g, o, n)
    ensures |After(y, act).handled| + Weight(d, n, Walks(After(y, act).flying))
         <= |y.handled| + Weight(d, n, Walks(y.flying))
  {
    hide Weight, WellFormed, Bounded, DegreeAtMost, Tidy, HandleDel;
    match act
    case Pass(i) => PassWeight(y, g, o, d, n, i);
    case Miss(i) =>
      WalksReplace(y.flying, i, []);
      WeightWithout(d, n, Walks(y.flying), i);
    case Touch(at, seen, table) =>
  }

  /** While no loss-free run comes to rest, there are loss-free runs of any length. */
  lemma {:induction false} KeepsGoing(nodes: map<Endpoint, Node>, o: Endpoint, uuid: string, n: nat)
      returns (acts: seq<DelAct>)
    requires o in nodes && WellFormed(NetOf(nodes)) && forall acts :: !Quiets(Begin(nodes, o, uuid), acts)
    ensures Legal(Begin(nodes, o, uuid), acts) && NoLoss(acts) && |Go(Begin(nodes, o, uuid), acts).handled| == n
  {
    hide Begin, WellFormed, NetOf, Tidy;
    if n == 0 {
      acts := [];
      NothingHandled(nodes, o, uuid);
    } else {
      var less := KeepsGoing(nodes, o, uuid, n - 1);
      assert !Quiets(Begin(nodes, o, uuid), less);
      RunTidy(nodes, o, uuid, less);
      ReceiverKnown(nodes, Go(Begin(nodes, o, uuid), less), o);
      acts := less + [Pass(0)];
      assert acts[..|less|] == less;
    }
  }

  /** No run handles more than `k` notices. */
  ghost predicate EndsAfter(y: Del, k: nat) {
    forall acts :: Legal(y, acts) ==> |Go(y, acts).handled| <= k
  }

  /** On any well-formed net these are the same: some loss-free run of the delete flood comes to rest; all its
      runs, lossy or not, end after a bounded number of deliveries; no way to pass the notice on without
      turning back is longer than the net has links. */
  lemma QuietsExactly(nodes: map<Endpoint, Node>, o: Endpoint, uuid: string)
    requires o in nodes && WellFormed(NetOf(nodes))
    ensures (exists acts :: Quiets(Begin(nodes, o, uuid), acts)) <==> Bounded(NetOf(nodes), o, |Links(NetOf(nodes))|)
    ensures (exists k: nat :: EndsAfter(Begin(nodes, o, uuid), k)) <==> Bounded(NetOf(nodes), o, |Links(NetOf(nodes))|)
  {
    hide Begin, Quiets, NetOf, WellFormed, Bounded, Links, Legal, Go;
    var y, g := Begin(nodes, o, uuid), NetOf(nodes);
    var e := |Links(g)|;
    if acts :| Quiets(y, acts) {
      QuietMeansBounded(nodes, o, uuid, acts);
      BoundedByLinks(g, o, |Go(y, acts).handled|);
    }
    if Bounded(g, o, e) {
      var d := DegreeBound(g);
      var k := Weight(d, e, Walks(y.flying));
      forall acts | Legal(y, acts) ensures |Go(y, acts).handled| <= k { HandledBounded(nodes, o, uuid, d, e, acts); }
      assert EndsAfter(y, k);
      EmptyRun(y);
      var acts := DrainAll(nodes, o, uuid, d, e, []);
    }
    if k: nat :| EndsAfter(y, k) {
      if forall acts :: !Quiets(y, acts) {
        var acts := KeepsGoing(nodes, o, uuid, k + 1);
      }
    }
  }

  lemma EmptyRun(y: Del)
    ensures Legal(y, []) && NoLoss([])
  {
  }

  /** On nets without links of a server to itself, which the configuration skips, the flood comes to rest if and
      only if there is no ring of servers in reach of the origin. */
  lemma QuietsWithoutRings(nodes: map<Endpoint, Node>, o: Endpoint, uuid: string)
    requires o in nodes && WellFormed(NetOf(nodes)) && Loopless(NetOf(nodes))
    ensures (exists acts :: Quiets(Begin(nodes, o, uuid), acts)) <==> !RingInReach(NetOf(nodes), o)
    ensures (exists k: nat :: EndsAfter(Begin(nodes, o, uuid), k)) <==> !RingInReach(NetOf(nodes), o)
  {
    hide Begin, Quiets, NetOf, WellFormed, Loopless, Bounded, Links, EndsAfter, RingInReach;
    QuietsExactly(nodes, o, uuid);
    BoundedWithoutRings(NetOf(nodes), o);
  }

  /** Every server of the graph has two different peers. */
  predicate TwoPeers(g: Net) {
    forall a :: a in g ==> |g[a]| >= 2
  }

  lemma {:induction false} LongWalks(g: Net, o: Endpoint, n: nat) returns (w: Walk)
    requires WellFormed(g) && TwoPeers(g) && o in g && n >= 1
    ensures From(g, o, None, w) && |w| - 1 == n && Last(w) in g
  {
    if n == 1 {
      w := [o] + [g[o][0]];
      ExtendReduced(g, [o], g[o][0]);
    } else {
      var v := LongWalks(g, o, n - 1);
      var peers := g[Last(v)];
      var next := if peers[0] == v[|v| - 2] then peers[1] else peers[0];
      w := v + [next];
      ExtendReduced(g, v, next);
    }
  }

  /** Where every server has two peers, as on a triangle, a loss-free delete flood never comes to rest. */
  lemma NeverQuiet(nodes: map<Endpoint, Node>, o: Endpoint, uuid: string, acts: seq<DelAct>)
    requires o in nodes && WellFormed(NetOf(nodes)) && TwoPeers(NetOf(nodes))
    requires Legal(Begin(nodes, o, uuid), acts) && NoLoss(acts)
    ensures Go(Begin(nodes, o, uuid), acts).flying != []
  {
    hide Go, Begin, Legal, WellFormed, TwoPeers, From;
    var y := Go(Begin(nodes, o, uuid), acts);
    if y.flying == [] {
      QuietMeansBounded(nodes, o, uuid, acts);
      var w := LongWalks(NetOf(nodes), o, |y.handled| + 1);
    }
  }

  function TriangleNodes(a: Endpoint, b: Endpoint, c: Endpoint, seen: SeenMap, table: PeerManage.Table)
    : map<Endpoint, Node>
  {
    map[a := Node(true, [b, c], seen, table),
        b := Node(true, [a, c], seen, table),
        c := Node(true, [a, b], seen, table)]
  }

  lemma TriangleNet(a: Endpoint, b: Endpoint, c: Endpoint, seen: SeenMap, table: PeerManage.Table)
    requires a != b && b != c && a != c
    ensures NetOf(TriangleNodes(a, b, c, seen, table)) == map[a := [b, c], b := [a, c], c := [a, b]]
  {
  }

  lemma TriangleKind(a: Endpoint, b: Endpoint, c: Endpoint)
    requires a != b && b != c && a != c
    ensures var g := map[a := [b, c], b := [a, c], c := [a, b]]; WellFormed(g) && Symmetric(g) && TwoPeers(g)
  {
  }

  /** The triangle is such a graph. */
  lemma Triangle(a: Endpoint, b: Endpoint, c: Endpoint, seen: SeenMap, table: PeerManage.Table, uuid: string,
      acts: seq<DelAct>)
    requires a != b && b != c && a != c
    requires Legal(Begin(TriangleNodes(a, b, c, seen, table), a, uuid), acts) && NoLoss(acts)
    ensures Symmetric(NetOf(TriangleNodes(a, b, c, seen, table)))
    ensures Go(Begin(TriangleNodes(a, b, c, seen, table), a, uuid), acts).flying != []
  {
    hide Go, Begin, Legal, NetOf, WellFormed, Symmetric, TwoPeers;
    TriangleNet(a, b, c, seen, table);
    TriangleKind(a, b, c);
    NeverQuiet(TriangleNodes(a, b, c, seen, table), a, uuid, acts);
  }
}
