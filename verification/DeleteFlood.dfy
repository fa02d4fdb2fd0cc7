/** The flood of a delete notice, which has neither a hop count nor a dedupe table. */
module DeleteFlood {
  import opened Bytes
  import opened Graph
  import opened SyncNode
  import opened FloodTree
  import opened EntryFlood
  import PeerManage

  /** A notice names the uuid to delete. */
  type Notice = Packet<string>

  /** `handled` lists the servers that handled the notice, in order, with the way it came. */
  datatype Del = Del(nodes: map<Endpoint, Node>, flying: seq<Notice>, handled: seq<Notice>)

  datatype DelAct = Pass(i: nat) | Miss(i: nat) | Touch(at: Endpoint, seen: SeenMap, table: PeerManage.Table)

  /** Server `o` has dropped a peer that timed out and told all its sync peers. */
  function Begin(nodes: map<Endpoint, Node>, o: Endpoint, uuid: string): Del
    requires o in nodes
  {
    Del(nodes, if nodes[o].Syncing() then Sends(o, Onward(nodes[o].addrs, None), uuid, [o]) else [], [])
  }

  predicate Can(y: Del, act: DelAct) {
    match act
    case Pass(i) => i < |y.flying| && y.flying[i].to in y.nodes
    case Miss(i) => i < |y.flying|
    case Touch(at, _, _) => at in y.nodes
  }

  function Passed(y: Del, i: nat): Del
    requires i < |y.flying| && y.flying[i].to in y.nodes
  {
    var p := y.flying[i];
    var r := HandleDel(y.nodes[p.to], p.body, p.from);
    y.(nodes := y.nodes[p.to := r.0],
       flying := Without(y.flying, i) + Sends(p.to, r.1, p.body, p.walk),
       handled := y.handled + [p])
  }

  function After(y: Del, act: DelAct): Del {
    if !Can(y, act) then y
    else
      match act
      case Pass(i) => Passed(y, i)
      case Miss(i) => y.(flying := Without(y.flying, i))
      case Touch(at, seen, table) => y.(nodes := y.nodes[at := y.nodes[at].(seen := seen, table := table)])
  }

  function Go(y: Del, acts: seq<DelAct>): Del {
    if acts == [] then y else After(Go(y, acts[..|acts| - 1]), acts[|acts| - 1])
  }

  predicate Legal(y: Del, acts: seq<DelAct>) {
    acts != [] ==>
      var n := |acts| - 1;
      Legal(y, acts[..n]) && Can(Go(y, acts[..n]), acts[n])
  }

  predicate NoLoss(acts: seq<DelAct>) {
    forall i :: 0 <= i < |acts| ==> !acts[i].Miss?
  }

  // ---- the walks behind the notices ----

  function TreeOf(y: Del): Tree { Tree(Walks(y.flying), Walks(y.handled)) }

  predicate Ends(p: Notice) {
    |p.walk| > 1 && p.to == Last(p.walk) && Some(p.from) == Back(p.walk)
  }

  predicate Tidy(y: Del, g: Net, o: Endpoint) {
    && NetOf(y.nodes) == g
    && (forall p :: p in y.flying ==> Ends(p)) && (forall p :: p in y.handled ==> Ends(p))
    && Core(g, o, None, TreeOf(y))
  }

  lemma NoticesEnd(p: Notice, to: seq<Endpoint>)
    requires Ends(p)
    ensures forall q :: q in Sends(p.to, to, p.body, p.walk) ==> Ends(q)
  {
  }

  lemma PassIsNext(y: Del, g: Net, o: Endpoint, i: nat)
    requires Tidy(y, g, o) && Can(y, Pass(i))
    ensures y.flying[i].walk != [] && TreeOf(Passed(y, i)) == Next(g, None, TreeOf(y), i)
    ensures NetOf(Passed(y, i).nodes) == g
  {
    hide Core, Onward, NetOf, Walks, Sends, Extend;
    var p := y.flying[i];
    assert Ends(p);
    var r := HandleDel(y.nodes[p.to], p.body, p.from);
    NetKept(y.nodes, p.to, r.0);
    NetLookup(y.nodes, p.to);
    assert r.1 == Onward(g[p.to], Some(p.from)) by { OnwardOfNone(Some(p.from)); }
    var sent := Sends(p.to, r.1, p.body, p.walk);
    SendsExtend(p.to, r.1, p.body, p.walk);
    WalksReplace(y.flying, i, sent);
    WalksConcat(y.handled, [p]);
    WalksOne(p);
  }

  lemma NetLookup(nodes: map<Endpoint, Node>, a: Endpoint)
    requires a in nodes
    ensures a in NetOf(nodes) && NetOf(nodes)[a] == if nodes[a].Syncing() then nodes[a].addrs else []
  {
  }

  lemma StepTidy(y: Del, g: Net, o: Endpoint, act: DelAct)
    requires WellFormed(g) && Tidy(y, g, o) && Can(y, act)
    ensures Tidy(After(y, act), g, o)
    ensures !act.Miss? && Closed(g, o, None, TreeOf(y)) ==> Closed(g, o, None, TreeOf(After(y, act)))
  {
    hide Core, Closed, WellFormed, NetOf, HandleDel, Onward;
    match act
    case Pass(i) =>
      PassIsNext(y, g, o, i);
      NextCore(g, o, None, TreeOf(y), i);
      if Closed(g, o, None, TreeOf(y)) { NextClosed(g, o, None, TreeOf(y), i); }
      var p := y.flying[i];
      assert p in y.flying && Ends(p);
      NoticesEnd(p, HandleDel(y.nodes[p.to], p.body, p.from).1);
      InWithout(y.flying, i);
    case Miss(i) =>
      DropCore(g, o, None, TreeOf(y), i);
      InWithout(y.flying, i);
      WalksReplace(y.flying, i, []);
    case Touch(at, seen, table) => NetKept(y.nodes, at, y.nodes[at].(seen := seen, table := table));
  }

  lemma BeginTidy(nodes: map<Endpoint, Node>, o: Endpoint, uuid: string)
    requires o in nodes && WellFormed(NetOf(nodes))
    ensures Tidy(Begin(nodes, o, uuid), NetOf(nodes), o) && Closed(NetOf(nodes), o, None, TreeOf(Begin(nodes, o, uuid)))
  {
    hide Core, Closed, WellFormed, NetOf, Onward;
    var g := NetOf(nodes);
    SproutInv(g, o, None);
    NetLookup(nodes, o);
    OnwardOfNone(None);
    assert TreeOf(Begin(nodes, o, uuid)) == Sprout(g, o);
  }

  lemma {:induction false} RunTidy(nodes: map<Endpoint, Node>, o: Endpoint, uuid: string, acts: seq<DelAct>)
    requires o in nodes && WellFormed(NetOf(nodes)) && Legal(Begin(nodes, o, uuid), acts)
    ensures var y := Go(Begin(nodes, o, uuid), acts);
            Tidy(y, NetOf(nodes), o) && (NoLoss(acts) ==> Closed(NetOf(nodes), o, None, TreeOf(y)))
  {
    hide Tidy, Closed, After, Begin, WellFormed, NetOf;
    if acts == [] {
      BeginTidy(nodes, o, uuid);
    } else {
      var n := |acts| - 1;
      RunTidy(nodes, o, uuid, acts[..n]);
      StepTidy(Go(Begin(nodes, o, uuid), acts[..n]), NetOf(nodes), o, acts[n]);
    }
  }

  // ---- acyclic graphs ----

  function Servers(s: seq<Notice>): (r: seq<Endpoint>)
    ensures |r| == |s|
  {
    seq(|s|, i requires 0 <= i < |s| => s[i].to)
  }

  lemma HandledDistinct(y: Del, g: Net, o: Endpoint)
    requires Forest(g) && Tidy(y, g, o)
    ensures Distinct(Servers(y.handled))
    ensures forall s :: s in Servers(y.handled) ==> s != o && s in g
  {
    hide Forest, Reduced, NetOf;
    var done := Walks(y.handled);
    forall i | 0 <= i < |done| ensures From(g, o, None, done[i]) && y.handled[i].to == Last(done[i]) {
      assert done[i] in done && Grown(g, o, None, TreeOf(y), done[i]) && y.handled[i] in y.handled;
    }
    forall i, j | 0 <= i < j < |done| ensures Servers(y.handled)[i] != Servers(y.handled)[j] {
      if Last(done[i]) == Last(done[j]) { UniqueReduced(g, done[i], done[j]); }
    }
    forall s | s in Servers(y.handled) ensures s != o && s in g {
      var i :| 0 <= i < |done| && y.handled[i].to == s;
      if s == o { ForestClosed(g, done[i]); }
      LastInNet(g, done[i]);
    }
  }

  lemma LastInNet(g: Net, w: Walk)
    requires Forest(g) && Reduced(g, w) && |w| > 1
    ensures Last(w) in g
  {
    assert Link(g, w[|w| - 2], w[|w| - 1]);
  }

  lemma {:induction false} DistinctSize(s: seq<Endpoint>, all: set<Endpoint>)
    requires Distinct(s) && forall x :: x in s ==> x in all
    ensures |s| <= |all|
  {
    if s != [] {
      var n := |s| - 1;
      assert s[n] in s;
      assert forall x :: x in s[..n] ==> x in s && x != s[n];
      DistinctSize(s[..n], all - {s[n]});
    }
  }

  /** On an acyclic graph a delete notice is handled at most once by each server, and never by its origin, so
      it is handled fewer times than there are servers, even with losses. */
  lemma DeleteEnds(nodes: map<Endpoint, Node>, o: Endpoint, uuid: string, acts: seq<DelAct>)
    requires o in nodes && Forest(NetOf(nodes)) && Legal(Begin(nodes, o, uuid), acts)
    ensures var y := Go(Begin(nodes, o, uuid), acts); Distinct(Servers(y.handled)) && |y.handled| < |nodes|
  {
    hide Go, Begin, Legal, Tidy, Acyclic, Distinct;
    var y, g := Go(Begin(nodes, o, uuid), acts), NetOf(nodes);
    RunTidy(nodes, o, uuid, acts);
    HandledDistinct(y, g, o);
    assert g.Keys == nodes.Keys;
    DistinctSize(Servers(y.handled), nodes.Keys - {o});
  }

  lemma ReducedFrom(g: Net, o: Endpoint, x: Walk, s: Endpoint) returns (w: Walk)
    requires Joins(g, x, o, s) && s != o
    ensures From(g, o, None, w) && Last(w) == s
  {
    w := Reduce(g, x);
  }

  /** Without loss, once nothing is in flight any more, every server connected to the origin has handled
      the notice exactly once and no other server has. */
  lemma EveryServerOnce(nodes: map<Endpoint, Node>, o: Endpoint, uuid: string, acts: seq<DelAct>, s: Endpoint)
    requires o in nodes && Forest(NetOf(nodes)) && Legal(Begin(nodes, o, uuid), acts) && NoLoss(acts)
    requires Go(Begin(nodes, o, uuid), acts).flying == []
    ensures var servers := Servers(Go(Begin(nodes, o, uuid), acts).handled);
            Distinct(servers) && (s in servers <==> s != o && Component(NetOf(nodes), o, s))
  {
    hide Go, Begin, Legal, Acyclic, Symmetric, Distinct, NetOf, Core, Closed, Reduced;
    var y, g := Go(Begin(nodes, o, uuid), acts), NetOf(nodes);
    RunTidy(nodes, o, uuid, acts);
    HandledDistinct(y, g, o);
    if s in Servers(y.handled) {
      var i :| 0 <= i < |y.handled| && y.handled[i].to == s;
      var w := y.handled[i].walk;
      assert y.handled[i] in y.handled && Ends(y.handled[i]);
      assert Walks(y.handled)[i] == w;
      QuietDone(g, o, None, TreeOf(y), w);
      FromJoins(g, o, w);
    }
    if s != o && Component(g, o, s) {
      var x :| Joins(g, x, o, s);
      var w := ReducedFrom(g, o, x, s);
      QuietDone(g, o, None, TreeOf(y), w);
      assert w in Walks(y.handled);
      var k :| 0 <= k < |y.handled| && Walks(y.handled)[k] == w;
      assert y.handled[k] in y.handled && Ends(y.handled[k]);
      assert Servers(y.handled)[k] == s;
    }
  }

  lemma FromJoins(g: Net, o: Endpoint, w: Walk)
    requires From(g, o, None, w)
    ensures Joins(g, w, o, Last(w)) && Component(g, o, Last(w))
  {
    assert Joins(g, w, o, Last(w));
  }
}
