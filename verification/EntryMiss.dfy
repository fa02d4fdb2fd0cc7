/** What a loss-free flood of a registration can miss. The dedupe key has no hop, so a copy that has used up its
    hops can overtake, on one link, a copy that has one left: the later copy is dropped and nothing is passed on. */
module EntryMiss {
  import opened Bytes
  import opened Graph
  import opened SyncNode
  import opened FloodTree
  import opened EntryFlood
  import opened EntryReach
  import opened EntryNear
  import PeerManage

  // ---- the flood as a machine on walks, while the clock stands still ----

  predicate SameLink(v: Walk, w: Walk) {
    |v| > 1 && |w| > 1 && Last(v) == Last(w) && v[|v| - 2] == w[|w| - 2]
  }

  /** A copy has landed over the last link of `w`. */
  predicate Known(t: Tree, w: Walk) {
    exists v :: v in t.done && SameLink(v, w)
  }

  predicate HasPeers(g: Net, a: Endpoint) { a in g && g[a] != [] }

  /** Whatever is due is in flight, or its receiver is past taking it. */
  predicate Arrived(g: Net, t: Tree, w: Walk) {
    Known(t, w) || (w != [] && !HasPeers(g, Last(w)))
  }

  ghost predicate Settled(g: Net, o: Endpoint, t: Tree) {
    forall w :: Due(g, o, Some(3), t, w) ==> w in t.flying || Arrived(g, t, w)
  }

  function Arrive(g: Net, t: Tree, i: nat): Tree
    requires i < |t.flying| && t.flying[i] != []
  {
    if Arrived(g, t, t.flying[i]) then Drop(t, i) else Next(g, Some(3), t, i)
  }

  /** The marks of the servers are the links over which a copy has landed. */
  ghost predicate MarksExact(y: Sys, e: Entry) {
    forall a, f :: a in y.nodes ==> (Marked(y, e, a, f) <==> LandedVia(y, a, f))
  }

  ghost predicate Exact(y: Sys, g: Net, o: Endpoint, e: Entry) {
    && Sound(y, g, o, e) && MarksExact(y, e)
    && Core(g, o, Some(3), TreeOf(y)) && Settled(g, o, TreeOf(y))
  }

  lemma KnownIsLanded(y: Sys, g: Net, o: Endpoint, e: Entry, p: Packet<Entry>)
    requires Sound(y, g, o, e) && Tied(g, o, e, p)
    ensures Known(TreeOf(y), p.walk) <==> LandedVia(y, p.to, p.from)
  {
    hide From;
    WalkNonEmpty(g, o, e, p);
    if LandedVia(y, p.to, p.from) {
      var l :| l in y.landed && l.to == p.to && l.from == p.from;
      assert Tied(g, o, e, l);
      WalkNonEmpty(g, o, e, l);
      WalkIn(y.landed, l);
      assert SameLink(l.walk, p.walk);
    }
    if v :| v in TreeOf(y).done && SameLink(v, p.walk) {
      var k :| 0 <= k < |y.landed| && y.landed[k].walk == v;
      assert y.landed[k] in y.landed && Tied(g, o, e, y.landed[k]);
    }
  }

  lemma ReceiverKnown(g: Net, o: Endpoint, w: Walk)
    requires WellFormed(g) && From(g, o, Some(3), w)
    ensures Last(w) in g
  {
    assert Link(g, w[|w| - 2], w[|w| - 1]);
  }

  lemma ReceiveExact(y: Sys, g: Net, o: Endpoint, e: Entry, i: nat)
    requires WellFormed(g) && Exact(y, g, o, e) && e.uuid != "" && i < |y.flying|
    ensures Enabled(y, Deliver(i)) && y.flying[i].walk != []
    ensures TreeOf(Receive(y, i)) == Arrive(g, TreeOf(y), i) && MarksExact(Receive(y, i), e)
  {
    hide From, Core, Settled, Receive, Lands, Known, LandedVia, WellFormed;
    var p := y.flying[i];
    assert Tied(g, o, e, p);
    ReceiverKnown(g, o, p.walk);
    KnownIsLanded(y, g, o, e, p);
    LandsIff(y, g, o, e, p);
    ReceiveTree(y, g, o, e, i);
    PeersSync(y.nodes, p.to);
    var z := Receive(y, i);
    NodesKept(y, Deliver(i));
    forall a, f | a in z.nodes ensures Marked(z, e, a, f) <==> LandedVia(z, a, f) {
      ReceiveMarked(y, g, o, e, i, a, f);
      ReceiveLanded(y, i, a, f);
    }
  }

  lemma PeersSync(nodes: map<Endpoint, Node>, a: Endpoint)
    requires a in NetOf(nodes)
    ensures a in nodes && (HasPeers(NetOf(nodes), a) <==> nodes[a].Syncing())
  {
  }

  lemma ReceiveLanded(y: Sys, i: nat, a: Endpoint, f: Endpoint)
    requires Enabled(y, Deliver(i))
    ensures var p := y.flying[i];
            LandedVia(Receive(y, i), a, f) <==>
              LandedVia(y, a, f) || (Lands(y.nodes[p.to], p.body, p.from, y.clock) && a == p.to && f == p.from)
  {
    hide Lands;
    var z := Receive(y, i);
    if LandedVia(y, a, f) {
      var l :| l in y.landed && l.to == a && l.from == f;
      assert l in z.landed;
    }
    if Lands(y.nodes[y.flying[i].to], y.flying[i].body, y.flying[i].from, y.clock) { NewlyLanded(y, i); }
  }

  // ---- what the machine keeps ----

  lemma ArrivedGrows(g: Net, t: Tree, i: nat, w: Walk)
    requires i < |t.flying| && t.flying[i] != [] && Arrived(g, t, w)
    ensures Arrived(g, Arrive(g, t, i), w)
  {
    hide Spread;
    if Known(t, w) {
      var v :| v in t.done && SameLink(v, w);
      assert v in Arrive(g, t, i).done;
    }
  }

  lemma ArriveArrived(g: Net, t: Tree, i: nat)
    requires i < |t.flying| && |t.flying[i]| > 1
    ensures Arrived(g, Arrive(g, t, i), t.flying[i])
  {
    hide Spread;
    if !Arrived(g, t, t.flying[i]) {
      assert t.flying[i] in Arrive(g, t, i).done;
      assert SameLink(t.flying[i], t.flying[i]);
    }
  }

  lemma ArriveFlying(g: Net, t: Tree, i: nat, w: Walk)
    requires i < |t.flying| && t.flying[i] != [] && w in t.flying && w != t.flying[i]
    ensures w in Arrive(g, t, i).flying
  {
    hide Spread;
    InWithout(t.flying, i);
  }

  lemma ArriveCore(g: Net, o: Endpoint, t: Tree, i: nat)
    requires WellFormed(g) && Core(g, o, Some(3), t) && i < |t.flying|
    ensures |t.flying[i]| > 1 && Core(g, o, Some(3), Arrive(g, t, i))
  {
    assert t.flying[i] in t.flying && Grown(g, o, Some(3), t, t.flying[i]);
    hide Core, Arrived;
    NextCore(g, o, Some(3), t, i);
    DropCore(g, o, Some(3), t, i);
  }

  lemma ArriveSettled(g: Net, o: Endpoint, t: Tree, i: nat)
    requires WellFormed(g) && Core(g, o, Some(3), t) && Settled(g, o, t) && i < |t.flying| && |t.flying[i]| > 1
    ensures Settled(g, o, Arrive(g, t, i))
  {
    var w, u := t.flying[i], Arrive(g, t, i);
    assert w in t.flying && Grown(g, o, Some(3), t, w);
    hide From, Spread, Reduced, Arrived;
    SpreadAre(g, o, Some(3), w);
    forall x | Due(g, o, Some(3), u, x) ensures x in u.flying || Arrived(g, u, x) {
      if !Arrived(g, t, w) && |x| != 2 && Parent(x) == w {
        LongerThanTwo(g, o, Some(3), x);
      } else {
        assert Due(g, o, Some(3), t, x);
        if x == w { ArriveArrived(g, t, i); }
        else if Arrived(g, t, x) { ArrivedGrows(g, t, i, x); }
        else { ArriveFlying(g, t, i, x); }
      }
    }
  }

  lemma DeliverExact(y: Sys, g: Net, o: Endpoint, e: Entry, i: nat)
    requires WellFormed(g) && Exact(y, g, o, e) && e.uuid != "" && i < |y.flying|
    ensures Enabled(y, Deliver(i)) && y.flying[i].walk != [] && Exact(Step(y, Deliver(i)), g, o, e)
    ensures TreeOf(Step(y, Deliver(i))) == Arrive(g, TreeOf(y), i)
  {
    hide Core, Settled, Sound, MarksExact, Arrive, Receive;
    ReceiveExact(y, g, o, e, i);
    StepSound(y, g, o, e, Deliver(i));
    ArriveCore(g, o, TreeOf(y), i);
    ArriveSettled(g, o, TreeOf(y), i);
  }

  lemma StartExact(nodes: map<Endpoint, Node>, o: Endpoint, e: Entry, clock: int)
    requires o in nodes && WellFormed(NetOf(nodes)) && Unmarked(Start(nodes, o, e, clock), e)
    ensures Exact(Start(nodes, o, e, clock), NetOf(nodes), o, e)
    ensures TreeOf(Start(nodes, o, e, clock)).done == []
  {
    hide WellFormed, Core, Sound, Start, Due, Kids;
    StartFaithful(nodes, o, e, clock);
    NoLandings(nodes, o, e, clock);
    SproutInv(NetOf(nodes), o, Some(3));
  }

  // ---- a schedule in which the copies without hops overtake ----

  /** A copy with one hop left, at a server next to `s`. */
  predicate Slow(g: Net, s: Endpoint, w: Walk) {
    |w| == 3 && Link(g, w[2], s)
  }

  /** What each stage delivers: first what is early and not slow, then what has no hops left, then the rest. */
  predicate Turn(g: Net, s: Endpoint, stage: nat, w: Walk) {
    match stage
    case 1 => |w| <= 3 && !Slow(g, s, w)
    case 2 => |w| == 4
    case _ => true
  }

  /** Next to the slow copy `w` there is one without hops over the same link, and its way is open. */
  predicate Overtaking(g: Net, o: Endpoint, t: Tree, v: Walk, w: Walk) {
    From(g, o, Some(3), v) && |v| == 4 && SameLink(v, w) && Parent(v) in t.done
  }

  ghost predicate StageInv(g: Net, o: Endpoint, s: Endpoint, stage: nat, t: Tree) {
    && (forall w :: w in t.done ==> !Slow(g, s, w))
    && (stage == 1 ==> forall w :: w in t.done ==> |w| <= 3)
    && (stage == 2 ==>
          && (forall w :: w in t.flying ==> !Turn(g, s, 1, w))
          && (forall w :: From(g, o, Some(3), w) && Slow(g, s, w) ==> exists v :: Overtaking(g, o, t, v, w)))
    && (stage == 3 ==>
          && (forall w :: w in t.flying ==> Slow(g, s, w))
          && (forall w :: From(g, o, Some(3), w) && Slow(g, s, w) ==> Known(t, w)))
  }

  lemma StageStep(g: Net, o: Endpoint, s: Endpoint, stage: nat, t: Tree, i: nat)
    requires 1 <= stage <= 3 && Core(g, o, Some(3), t) && StageInv(g, o, s, stage, t)
    requires i < |t.flying| && |t.flying[i]| > 1 && Turn(g, s, stage, t.flying[i])
    ensures StageInv(g, o, s, stage, Arrive(g, t, i))
  {
    var w, u := t.flying[i], Arrive(g, t, i);
    assert w in t.flying && Grown(g, o, Some(3), t, w);
    hide From, Known, Link;
    InWithout(t.flying, i);
    if stage == 2 {
      assert Spread(g, Some(3), w) == [];
      forall x | From(g, o, Some(3), x) && Slow(g, s, x) ensures exists v :: Overtaking(g, o, u, v, x) {
        var v :| Overtaking(g, o, t, v, x);
        assert Overtaking(g, o, u, v, x);
      }
    } else if stage == 3 {
      GrownFrom(g, o, t, w);
      assert u == Drop(t, i);
    }
  }

  lemma GrownFrom(g: Net, o: Endpoint, t: Tree, w: Walk)
    requires Grown(g, o, Some(3), t, w)
    ensures From(g, o, Some(3), w)
  {
  }

  /** A run so far, at a given stage. */
  ghost predicate At(nodes: map<Endpoint, Node>, o: Endpoint, e: Entry, clock: int, s: Endpoint, stage: nat,
      acts: seq<Act>)
  {
    && Floods(nodes, o, e, clock, acts) && WellFormed(NetOf(nodes))
    && var y := Run(Start(nodes, o, e, clock), acts);
      Exact(y, NetOf(nodes), o, e) && StageInv(NetOf(nodes), o, s, stage, TreeOf(y))
  }

  lemma DeliverMore(nodes: map<Endpoint, Node>, o: Endpoint, e: Entry, clock: int, s: Endpoint, stage: nat,
      d: nat, acts: seq<Act>, i: nat) returns (more: seq<Act>)
    requires 1 <= stage <= 3 && At(nodes, o, e, clock, s, stage, acts) && DegreeAtMost(NetOf(nodes), d)
    requires var y := Run(Start(nodes, o, e, clock), acts);
             i < |y.flying| && Turn(NetOf(nodes), s, stage, y.flying[i].walk)
    ensures At(nodes, o, e, clock, s, stage, more)
    ensures Weight(d, 3, Walks(Run(Start(nodes, o, e, clock), more).flying))
          < Weight(d, 3, Walks(Run(Start(nodes, o, e, clock), acts).flying))
  {
    hide Start, NetOf, WellFormed, Sound, MarksExact, Core, Settled, StageInv, Turn, Step, Weight, DegreeAtMost;
    hide Unmarked, Arrive;
    var y, g := Run(Start(nodes, o, e, clock), acts), NetOf(nodes);
    more := acts + [Deliver(i)];
    assert more[..|acts|] == acts;
    DeliverExact(y, g, o, e, i);
    WalksReplace(y.flying, i, []);
    ArriveCore(g, o, TreeOf(y), i);
    StageStep(g, o, s, stage, TreeOf(y), i);
    StepWeight(y, g, o, e, d, Deliver(i));
  }

  /** Delivers what the stage delivers until nothing of it is in flight. */
  lemma {:induction false} DeliverStage(nodes: map<Endpoint, Node>, o: Endpoint, e: Entry, clock: int, s: Endpoint,
      stage: nat, d: nat, acts: seq<Act>) returns (more: seq<Act>)
    requires o in nodes && 1 <= stage <= 3 && At(nodes, o, e, clock, s, stage, acts) && DegreeAtMost(NetOf(nodes), d)
    ensures At(nodes, o, e, clock, s, stage, more)
    ensures forall w :: w in TreeOf(Run(Start(nodes, o, e, clock), more)).flying ==> !Turn(NetOf(nodes), s, stage, w)
    decreases Weight(d, 3, Walks(Run(Start(nodes, o, e, clock), acts).flying))
  {
    hide At, Weight, DegreeAtMost, Turn, Start, Run, NetOf;
    var y, g := Run(Start(nodes, o, e, clock), acts), NetOf(nodes);
    if i: nat :| i < |y.flying| && Turn(g, s, stage, y.flying[i].walk) {
      var next := DeliverMore(nodes, o, e, clock, s, stage, d, acts, i);
      more := DeliverStage(nodes, o, e, clock, s, stage, d, next);
    } else {
      more := acts;
      forall w | w in TreeOf(y).flying ensures !Turn(g, s, stage, w) {
        var i :| 0 <= i < |y.flying| && y.flying[i].walk == w;
      }
    }
  }

  /** No way of three links to `s` is sure. */
  predicate NoneSure(g: Net, o: Endpoint, s: Endpoint) {
    forall a, b :: a in g && b in g && Link(g, o, a) && Link(g, a, b) && Link(g, b, s) ==> !Straight(g, o, a)
  }

  lemma Detour(g: Net, o: Endpoint, a: Endpoint) returns (x: Endpoint)
    requires Link(g, o, a) && !Straight(g, o, a)
    ensures Link(g, o, x) && Link(g, x, a)
  {
    x :| x in g && Link(g, o, x) && Link(g, x, a);
  }

  /** What the first stage delivers has landed after it, or another early copy over its last link has. */
  lemma EarlyLanded(g: Net, o: Endpoint, s: Endpoint, t: Tree, w: Walk) returns (v: Walk)
    requires Core(g, o, Some(3), t) && Settled(g, o, t) && StageInv(g, o, s, 1, t)
    requires forall w :: w in t.flying ==> !Turn(g, s, 1, w)
    requires Due(g, o, Some(3), t, w) && Turn(g, s, 1, w) && HasPeers(g, Last(w))
    ensures v in t.done && SameLink(v, w) && From(g, o, Some(3), v) && |v| <= 3
  {
    hide From, Turn, Slow;
    v :| v in t.done && SameLink(v, w);
    assert Grown(g, o, Some(3), t, v);
  }

  lemma FirstLinkLanded(g: Net, o: Endpoint, s: Endpoint, t: Tree, x: Endpoint)
    requires Core(g, o, Some(3), t) && Settled(g, o, t) && StageInv(g, o, s, 1, t) && Loopless(g)
    requires forall w :: w in t.flying ==> !Turn(g, s, 1, w)
    requires Link(g, o, x) && HasPeers(g, x)
    ensures [o, x] in t.done
  {
    hide Core, Settled, StageInv;
    var w := [o, x];
    assert Due(g, o, Some(3), t, w);
    var v := EarlyLanded(g, o, s, t, w);
    assert v == w;
  }

  lemma TwoLinks(g: Net, o: Endpoint, x: Endpoint, a: Endpoint)
    requires Link(g, o, x) && Link(g, x, a) && a != o
    ensures From(g, o, Some(3), [o, x, a]) && Parent([o, x, a]) == [o, x]
  {
    ExtendReduced(g, [o, x], a);
    assert [o, x, a] == [o, x] + [a];
  }

  lemma OnlyTwo(g: Net, o: Endpoint, x: Endpoint, a: Endpoint, v: Walk)
    requires From(g, o, Some(3), v) && |v| <= 3 && SameLink(v, [o, x, a]) && x != o
    ensures v == [o, x, a]
  {
    hide Reduced;
  }

  lemma SecondLinkLanded(g: Net, o: Endpoint, s: Endpoint, t: Tree, x: Endpoint, a: Endpoint)
    requires Core(g, o, Some(3), t) && Settled(g, o, t) && StageInv(g, o, s, 1, t) && Loopless(g)
    requires forall w :: w in t.flying ==> !Turn(g, s, 1, w)
    requires [o, x] in t.done && Link(g, o, x) && Link(g, x, a) && a != o && HasPeers(g, a) && !Link(g, a, s)
    ensures [o, x, a] in t.done
  {
    hide Core, Settled, StageInv, From;
    TwoLinks(g, o, x, a);
    var v := EarlyLanded(g, o, s, t, [o, x, a]);
    OnlyTwo(g, o, x, a, v);
  }

  /** After the first stage every slow copy can be overtaken. */
  lemma AllOvertaken(g: Net, o: Endpoint, s: Endpoint, t: Tree, w: Walk) returns (v: Walk)
    requires WellFormed(g) && Loopless(g) && Distance(g, o, s, 3) && NoneSure(g, o, s)
    requires Core(g, o, Some(3), t) && Settled(g, o, t) && StageInv(g, o, s, 1, t)
    requires forall w :: w in t.flying ==> !Turn(g, s, 1, w)
    requires From(g, o, Some(3), w) && Slow(g, s, w)
    ensures Overtaking(g, o, t, v, w)
  {
    hide Core, Settled, StageInv, Distance, Turn;
    var a, b := w[1], w[2];
    assert Link(g, w[0], w[1]) && Link(g, w[1], w[2]);
    FarOff(g, o, a, b, s);
    var x := Detour(g, o, a);
    FirstLinkLanded(g, o, s, t, x);
    SecondLinkLanded(g, o, s, t, x, a);
    v := [o, x, a, b];
    assert Parent(v) == [o, x, a];
    assert From(g, o, Some(3), v);
  }

  lemma ToSecond(g: Net, o: Endpoint, s: Endpoint, t: Tree)
    requires WellFormed(g) && Loopless(g) && Distance(g, o, s, 3) && NoneSure(g, o, s)
    requires Core(g, o, Some(3), t) && Settled(g, o, t) && StageInv(g, o, s, 1, t)
    requires forall w :: w in t.flying ==> !Turn(g, s, 1, w)
    ensures StageInv(g, o, s, 2, t)
  {
    hide Core, Settled, Distance, From, WellFormed, Loopless, NoneSure, Slow, Turn, Overtaking;
    forall w | From(g, o, Some(3), w) && Slow(g, s, w) ensures exists v :: Overtaking(g, o, t, v, w) {
      var v := AllOvertaken(g, o, s, t, w);
    }
  }

  lemma HasOvertaken(g: Net, o: Endpoint, s: Endpoint, t: Tree, v: Walk, w: Walk)
    requires Settled(g, o, t) && forall x :: x in t.flying ==> !Turn(g, s, 2, x)
    requires Overtaking(g, o, t, v, w) && Slow(g, s, w)
    ensures Known(t, w)
  {
    hide From;
    assert Due(g, o, Some(3), t, v);
    assert Turn(g, s, 2, v);
    var u :| u in t.done && SameLink(u, v);
    assert SameLink(u, w);
  }

  lemma ToThird(g: Net, o: Endpoint, s: Endpoint, t: Tree)
    requires Core(g, o, Some(3), t) && Settled(g, o, t) && StageInv(g, o, s, 2, t)
    requires forall w :: w in t.flying ==> !Turn(g, s, 2, w)
    ensures StageInv(g, o, s, 3, t)
  {
    hide Settled, Reduced, Known, Overtaking;
    forall w | w in t.flying ensures Slow(g, s, w) { assert Grown(g, o, Some(3), t, w) && !Turn(g, s, 1, w); }
    hide Core, From, Slow;
    forall w | From(g, o, Some(3), w) && Slow(g, s, w) ensures Known(t, w) {
      var v :| Overtaking(g, o, t, v, w);
      HasOvertaken(g, o, s, t, v, w);
    }
  }

  lemma NotLanded(y: Sys, g: Net, o: Endpoint, e: Entry, s: Endpoint)
    requires Sound(y, g, o, e) && Core(g, o, Some(3), TreeOf(y)) && StageInv(g, o, s, 3, TreeOf(y))
    requires Distance(g, o, s, 3)
    ensures !Landed(y, s)
  {
    hide Distance, Known;
    if l :| l in y.landed && l.to == s {
      assert Tied(g, o, e, l);
      WalkIn(y.landed, l);
      assert Grown(g, o, Some(3), TreeOf(y), l.walk);
      NotShorter(g, l.walk, o, s, 3);
    }
  }

  /** A run that comes to rest without having reached `s`. */
  lemma MissingRun(nodes: map<Endpoint, Node>, o: Endpoint, e: Entry, clock: int, s: Endpoint) returns (acts: seq<Act>)
    requires o in nodes && Floods(nodes, o, e, clock, []) && WellFormed(NetOf(nodes)) && Loopless(NetOf(nodes))
    requires Distance(NetOf(nodes), o, s, 3) && NoneSure(NetOf(nodes), o, s)
    ensures Floods(nodes, o, e, clock, acts) && Run(Start(nodes, o, e, clock), acts).flying == []
    ensures !Landed(Run(Start(nodes, o, e, clock), acts), s)
  {
    hide Start, Run, Floods, NetOf, WellFormed, Loopless, Distance, NoneSure, Core, Settled, Sound, MarksExact;
    hide StageInv, Turn, Landed;
    var y0, g := Start(nodes, o, e, clock), NetOf(nodes);
    StartsAt(nodes, o, e, clock, s);
    var d := DegreeBound(g);
    acts := DeliverStage(nodes, o, e, clock, s, 1, d, []);
    ToSecond(g, o, s, TreeOf(Run(y0, acts)));
    acts := DeliverStage(nodes, o, e, clock, s, 2, d, acts);
    ToThird(g, o, s, TreeOf(Run(y0, acts)));
    acts := DeliverStage(nodes, o, e, clock, s, 3, d, acts);
    if Run(y0, acts).flying != [] { StillTurn(Run(y0, acts), g, s); }
    NotLanded(Run(y0, acts), g, o, e, s);
  }

  lemma StartsAt(nodes: map<Endpoint, Node>, o: Endpoint, e: Entry, clock: int, s: Endpoint)
    requires Floods(nodes, o, e, clock, []) && WellFormed(NetOf(nodes))
    ensures At(nodes, o, e, clock, s, 1, [])
  {
    hide Start, NetOf, WellFormed, Exact, Unmarked;
    StartExact(nodes, o, e, clock);
  }

  lemma StillTurn(y: Sys, g: Net, s: Endpoint)
    requires y.flying != []
    ensures exists w :: w in TreeOf(y).flying && Turn(g, s, 3, w)
  {
    assert TreeOf(y).flying[0] in TreeOf(y).flying;
    assert Turn(g, s, 3, TreeOf(y).flying[0]);
  }

  /** On any well-formed net without links of a server to itself, for a server at distance three: every loss-free
      flood that comes to rest has reached it, if and only if some way of three links to it begins with a link
      that has no detour of two. */
  lemma ThirdLinkExactly(nodes: map<Endpoint, Node>, o: Endpoint, e: Entry, clock: int, s: Endpoint)
    requires o in nodes && Floods(nodes, o, e, clock, []) && WellFormed(NetOf(nodes)) && Loopless(NetOf(nodes))
    requires Distance(NetOf(nodes), o, s, 3) && TakesPart(nodes, s)
    ensures (forall acts :: Floods(nodes, o, e, clock, acts) && Run(Start(nodes, o, e, clock), acts).flying == [] ==>
               Landed(Run(Start(nodes, o, e, clock), acts), s))
            <==> exists a, b :: Sure(NetOf(nodes), o, a, b, s)
  {
    hide Start, Run, Floods, NetOf, WellFormed, Loopless, Distance, Landed, TakesPart, Straight;
    var g := NetOf(nodes);
    if a, b :| Sure(g, o, a, b, s) {
      forall acts | Floods(nodes, o, e, clock, acts) && Run(Start(nodes, o, e, clock), acts).flying == []
        ensures Landed(Run(Start(nodes, o, e, clock), acts), s)
      {
        ThirdLinkLanded(nodes, o, e, clock, acts, a, b, s);
      }
    } else {
      assert NoneSure(g, o, s) by {
        forall a, b | Link(g, o, a) && Link(g, a, b) && Link(g, b, s) ensures !Straight(g, o, a) {
          assert !Sure(g, o, a, b, s);
        }
      }
      var acts := MissingRun(nodes, o, e, clock, s);
    }
  }

  // ---- five servers ----

  /** Servers o, a, b, v in a row and a server x linked to o and a. */
  function FiveNodes(o: Endpoint, x: Endpoint, a: Endpoint, b: Endpoint, v: Endpoint, table: PeerManage.Table)
    : map<Endpoint, Node>
  {
    map[o := Node(true, [a, x], map[], table),
        x := Node(true, [o, a], map[], table),
        a := Node(true, [o, x, b], map[], table),
        b := Node(true, [a, v], map[], table),
        v := Node(true, [b], map[], table)]
  }

  function FiveNet(o: Endpoint, x: Endpoint, a: Endpoint, b: Endpoint, v: Endpoint): Net {
    map[o := [a, x], x := [o, a], a := [o, x, b], b := [a, v], v := [b]]
  }

  lemma FiveIs(o: Endpoint, x: Endpoint, a: Endpoint, b: Endpoint, v: Endpoint, table: PeerManage.Table)
    requires Distinct([o, x, a, b, v])
    ensures NetOf(FiveNodes(o, x, a, b, v, table)) == FiveNet(o, x, a, b, v)
  {
    AllDifferent(o, x, a, b, v);
  }

  lemma AllDifferent(o: Endpoint, x: Endpoint, a: Endpoint, b: Endpoint, v: Endpoint)
    requires Distinct([o, x, a, b, v])
    ensures o != x && o != a && o != b && o != v && x != a && x != b && x != v && a != b && a != v && b != v
  {
    var s := [o, x, a, b, v];
    assert s[0] != s[1] && s[0] != s[2] && s[0] != s[3] && s[0] != s[4] && s[1] != s[2] && s[1] != s[3];
    assert s[1] != s[4] && s[2] != s[3] && s[2] != s[4] && s[3] != s[4];
  }

  lemma FiveKind(o: Endpoint, x: Endpoint, a: Endpoint, b: Endpoint, v: Endpoint)
    requires Distinct([o, x, a, b, v])
    ensures var g := FiveNet(o, x, a, b, v);
            WellFormed(g) && Symmetric(g) && Loopless(g) && NoneSure(g, o, v) && Distance(g, o, v, 3)
  {
    AllDifferent(o, x, a, b, v);
    var g := FiveNet(o, x, a, b, v);
    assert Link(g, o, x) && Link(g, x, a);
    assert HasLength(g, [o, a, b, v], o, v, 3);
    forall m | 0 <= m < 3 ensures !Reaches(g, o, v, m) { FiveFar(o, x, a, b, v, m); }
  }

  lemma FiveFar(o: Endpoint, x: Endpoint, a: Endpoint, b: Endpoint, v: Endpoint, m: nat)
    requires Distinct([o, x, a, b, v]) && m < 3
    ensures !Reaches(FiveNet(o, x, a, b, v), o, v, m)
  {
    AllDifferent(o, x, a, b, v);
    var g := FiveNet(o, x, a, b, v);
    forall w: Walk ensures !HasLength(g, w, o, v, m) {
      assert IsWalk(g, w) && |w| > 1 ==> Link(g, w[0], w[1]);
      assert IsWalk(g, w) && |w| > 2 ==> Link(g, w[1], w[2]);
    }
  }

  /** Here a loss-free flood can come to rest without having reached v, three links away. */
  lemma FiveMissed(o: Endpoint, x: Endpoint, a: Endpoint, b: Endpoint, v: Endpoint, table: PeerManage.Table, e: Entry,
      clock: int) returns (acts: seq<Act>)
    requires Distinct([o, x, a, b, v]) && e.uuid != ""
    ensures var nodes := FiveNodes(o, x, a, b, v, table);
            && Symmetric(NetOf(nodes)) && Distance(NetOf(nodes), o, v, 3) && Floods(nodes, o, e, clock, acts)
            && Run(Start(nodes, o, e, clock), acts).flying == []
            && !Landed(Run(Start(nodes, o, e, clock), acts), v)
  {
    hide WellFormed, Symmetric, Loopless, NoneSure, Distance, Run, NetOf;
    FiveIs(o, x, a, b, v, table);
    FiveKind(o, x, a, b, v);
    acts := MissingRun(FiveNodes(o, x, a, b, v, table), o, e, clock, v);
  }
}
