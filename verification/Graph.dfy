/** Walks in the sync graph. A server forwards to every peer but the one it heard from, so a message
    travels along walks that never turn straight back: reduced walks. */
module Graph {
  import opened Bytes

  /** The peers of every server, in the order of its configuration. */
  type Net = map<Endpoint, seq<Endpoint>>

  type Walk = seq<Endpoint>

  predicate Link(g: Net, a: Endpoint, b: Endpoint) { a in g && b in g[a] }

  predicate IsWalk(g: Net, w: Walk) {
    w != [] && forall i :: 1 <= i < |w| ==> Link(g, w[i - 1], w[i])
  }

  predicate Turns(w: Walk, i: nat)
    requires 2 <= i < |w|
  {
    w[i] == w[i - 2]
  }

  predicate Reduced(g: Net, w: Walk) {
    IsWalk(g, w) && forall i :: 2 <= i < |w| ==> !Turns(w, i)
  }

  function Last(w: Walk): Endpoint
    requires w != []
  {
    w[|w| - 1]
  }

  function Parent(w: Walk): Walk
    requires w != []
  {
    w[..|w| - 1]
  }

  predicate Joins(g: Net, w: Walk, a: Endpoint, b: Endpoint) {
    IsWalk(g, w) && w[0] == a && Last(w) == b
  }

  /** Server `b` can be reached from `a`. */
  ghost predicate Component(g: Net, a: Endpoint, b: Endpoint) {
    exists w :: Joins(g, w, a, b)
  }

  // ---- kinds of graph ----

  predicate Distinct(s: seq<Endpoint>) {
    forall i, j :: 0 <= i < j < |s| ==> s[i] != s[j]
  }

  predicate WellFormed(g: Net) {
    forall a :: a in g ==> Distinct(g[a]) && forall b :: b in g[a] ==> b in g
  }

  predicate Symmetric(g: Net) {
    forall a, b :: a in g && b in g[a] ==> Link(g, b, a)
  }

  predicate Loopless(g: Net) {
    forall a :: a in g ==> a !in g[a]
  }

  /** Only by turning around somewhere can a walk come back to its start. */
  ghost predicate Acyclic(g: Net) {
    forall w :: Reduced(g, w) && w[0] == Last(w) ==> |w| == 1
  }

  ghost predicate Forest(g: Net) { WellFormed(g) && Symmetric(g) && Acyclic(g) }

  predicate DegreeAtMost(g: Net, d: nat) {
    forall a :: a in g ==> |g[a]| <= d
  }

  lemma DegreeBound(g: Net) returns (d: nat)
    ensures DegreeAtMost(g, d)
  {
    d := 0;
    var left := g.Keys;
    while left != {}
      invariant left <= g.Keys
      invariant forall a :: a in g && a !in left ==> |g[a]| <= d
    {
      var a :| a in left;
      if |g[a]| > d { d := |g[a]|; }
      left := left - {a};
    }
  }

  // ---- parts of walks ----

  lemma ParentReduced(g: Net, w: Walk)
    requires Reduced(g, w) && |w| > 1
    ensures Reduced(g, Parent(w)) && Link(g, Last(Parent(w)), Last(w))
    ensures |w| > 2 ==> Last(w) != w[|w| - 3]
  {
    var p := Parent(w);
    forall i | 1 <= i < |p| ensures Link(g, p[i - 1], p[i]) { assert Link(g, w[i - 1], w[i]); }
    forall i | 2 <= i < |p| ensures !Turns(p, i) { assert !Turns(w, i); }
    assert Link(g, w[|w| - 2], w[|w| - 1]);
    if |w| > 2 { assert !Turns(w, |w| - 1); }
  }

  lemma ExtendReduced(g: Net, w: Walk, v: Endpoint)
    requires Reduced(g, w) && Link(g, Last(w), v) && (|w| > 1 ==> v != w[|w| - 2])
    ensures Reduced(g, w + [v])
  {
    var x := w + [v];
    forall i | 1 <= i < |x| ensures Link(g, x[i - 1], x[i]) { if i < |w| { assert Link(g, w[i - 1], w[i]); } }
    forall i | 2 <= i < |x| ensures !Turns(x, i) { if i < |w| { assert !Turns(w, i); } }
  }

  function Reverse(w: Walk): (r: Walk)
    ensures |r| == |w| && forall i :: 0 <= i < |w| ==> r[i] == w[|w| - 1 - i]
  {
    seq(|w|, i requires 0 <= i < |w| => w[|w| - 1 - i])
  }

  lemma ReverseReduced(g: Net, w: Walk)
    requires Symmetric(g) && Reduced(g, w)
    ensures Reduced(g, Reverse(w))
  {
    var r := Reverse(w);
    forall i | 1 <= i < |r| ensures Link(g, r[i - 1], r[i]) { assert Link(g, w[|w| - 1 - i], w[|w| - i]); }
    forall i | 2 <= i < |r| ensures !Turns(r, i) { assert !Turns(w, |w| + 1 - i); }
  }

  /** Two reduced walks meeting at the end of the first, by different last links, join to one. */
  lemma JoinReduced(g: Net, p: Walk, q: Walk)
    requires Symmetric(g) && Reduced(g, p) && Reduced(g, q) && |p| > 1 && |q| > 1
    requires Last(p) == Last(q) && p[|p| - 2] != q[|q| - 2]
    ensures Reduced(g, p + Reverse(q)[1..]) && Last(p + Reverse(q)[1..]) == q[0]
  {
    ReverseReduced(g, q);
    var r := Reverse(q);
    var x := p + r[1..];
    var n := |p| - 1;
    assert forall i :: n <= i < |x| ==> x[i] == r[i - n];
    forall i | 1 <= i < |x| ensures Link(g, x[i - 1], x[i]) {
      if i <= n { assert Link(g, p[i - 1], p[i]); } else { assert Link(g, r[i - n - 1], r[i - n]); }
    }
    forall i | 2 <= i < |x| ensures !Turns(x, i) {
      if i <= n {
        assert !Turns(p, i);
      } else if i == n + 1 {
        assert x[i] == r[1] == q[|q| - 2];
      } else {
        assert !Turns(r, i - n);
      }
    }
  }

  lemma ForestClosed(g: Net, w: Walk)
    requires Forest(g) && Reduced(g, w) && w[0] == Last(w)
    ensures |w| == 1
  {
  }

  lemma ForestNoJoin(g: Net, p: Walk, q: Walk)
    requires Forest(g) && Reduced(g, p) && Reduced(g, q) && |p| > 1 && |q| > 1
    requires p[0] == q[0] && Last(p) == Last(q)
    ensures p[|p| - 2] == q[|q| - 2]
  {
    hide Reduced;
    if p[|p| - 2] != q[|q| - 2] {
      JoinReduced(g, p, q);
      ForestClosed(g, p + Reverse(q)[1..]);
    }
  }

  /** In a forest there is at most one reduced walk between two servers. */
  lemma {:induction false} UniqueReduced(g: Net, p: Walk, q: Walk)
    requires Forest(g) && Reduced(g, p) && Reduced(g, q)
    requires p[0] == q[0] && Last(p) == Last(q)
    ensures p == q
    decreases |p|
  {
    assert p != [] && q != [];
    hide Reduced, IsWalk, Forest;
    if p[0] == Last(p) {
      ForestClosed(g, p);
      ForestClosed(g, q);
    } else {
      if p[|p| - 2] != q[|q| - 2] { ForestNoJoin(g, p, q); }
      ParentReduced(g, p);
      ParentReduced(g, q);
      UniqueReduced(g, Parent(p), Parent(q));
      assert p == Parent(p) + [Last(p)] && q == Parent(q) + [Last(q)];
    }
  }

  // ---- distance ----

  predicate HasLength(g: Net, w: Walk, a: Endpoint, b: Endpoint, n: nat) {
    Joins(g, w, a, b) && |w| == n + 1
  }

  ghost predicate Reaches(g: Net, a: Endpoint, b: Endpoint, n: nat) {
    exists w :: HasLength(g, w, a, b, n)
  }

  /** `n` links are enough to get from `a` to `b`, and no fewer are. */
  ghost predicate Distance(g: Net, a: Endpoint, b: Endpoint, n: nat) {
    Reaches(g, a, b, n) && forall m :: 0 <= m < n ==> !Reaches(g, a, b, m)
  }

  lemma RemoveTurn(g: Net, w: Walk, i: nat)
    requires IsWalk(g, w) && 2 <= i < |w| && Turns(w, i)
    ensures Joins(g, w[..i - 2] + w[i..], w[0], Last(w))
  {
    var x := w[..i - 2] + w[i..];
    forall j | 1 <= j < |x| ensures Link(g, x[j - 1], x[j]) {
      if j < i - 1 { assert Link(g, w[j - 1], w[j]); } else { assert Link(g, w[j + 1], w[j + 2]); }
    }
  }

  /** Every walk can be cut down to a reduced one. */
  lemma {:induction false} Reduce(g: Net, w: Walk) returns (r: Walk)
    requires IsWalk(g, w)
    ensures Reduced(g, r) && r[0] == w[0] && Last(r) == Last(w) && |r| <= |w|
    decreases |w|
  {
    if i :| 2 <= i < |w| && Turns(w, i) {
      RemoveTurn(g, w, i);
      r := Reduce(g, w[..i - 2] + w[i..]);
    } else {
      r := w;
    }
  }

  /** In a forest the reduced walks are the shortest ones. */
  lemma ReducedIsDistance(g: Net, w: Walk)
    requires Forest(g) && Reduced(g, w)
    ensures Distance(g, w[0], Last(w), |w| - 1)
  {
    assert HasLength(g, w, w[0], Last(w), |w| - 1);
    forall m | 0 <= m < |w| - 1 ensures !Reaches(g, w[0], Last(w), m) {
      if Reaches(g, w[0], Last(w), m) {
        var x :| HasLength(g, x, w[0], Last(w), m);
        var r := Reduce(g, x);
        UniqueReduced(g, r, w);
        assert false;
      }
    }
  }

  lemma DistanceIsReduced(g: Net, a: Endpoint, b: Endpoint, n: nat) returns (w: Walk)
    requires Forest(g) && Distance(g, a, b, n)
    ensures Reduced(g, w) && HasLength(g, w, a, b, n)
  {
    var x :| HasLength(g, x, a, b, n);
    w := Reduce(g, x);
    assert HasLength(g, w, a, b, |w| - 1);
    assert Reaches(g, a, b, |w| - 1);
  }

  // ---- the walks one message starts ----

  function Onward(peers: seq<Endpoint>, back: Option<Endpoint>): (r: seq<Endpoint>)
    ensures |r| <= |peers|
    ensures forall v :: v in r <==> v in peers && Some(v) != back
    ensures Distinct(peers) ==> Distinct(r)
  {
    if peers == [] then []
    else
      var n := |peers| - 1;
      var r := Onward(peers[..n], back);
      assert peers == peers[..n] + [peers[n]];
      if Some(peers[n]) == back then r else r + [peers[n]]
  }

  lemma OnwardOfNone(back: Option<Endpoint>)
    ensures Onward([], back) == []
  {
  }

  lemma OnwardSnoc(peers: seq<Endpoint>, a: Endpoint, back: Option<Endpoint>)
    ensures Onward(peers + [a], back) == if Some(a) == back then Onward(peers, back) else Onward(peers, back) + [a]
  {
    assert (peers + [a])[..|peers|] == peers;
  }

  lemma {:induction false} OnwardAll(peers: seq<Endpoint>)
    ensures Onward(peers, None) == peers
  {
    if peers == [] {
      OnwardOfNone(None);
    } else {
      var n := |peers| - 1;
      OnwardAll(peers[..n]);
      OnwardSnoc(peers[..n], peers[n], None);
      assert peers == peers[..n] + [peers[n]];
    }
  }

  function Back(w: Walk): Option<Endpoint> {
    if |w| > 1 then Some(w[|w| - 2]) else None
  }

  /** The extensions of a walk to each of `next`. */
  function Extend(w: Walk, next: seq<Endpoint>): (r: seq<Walk>)
    ensures |r| == |next|
  {
    seq(|next|, i requires 0 <= i < |next| => w + [next[i]])
  }

  function Kids(g: Net, w: Walk): seq<Walk>
    requires w != []
  {
    if Last(w) in g then Extend(w, Onward(g[Last(w)], Back(w))) else []
  }

  lemma KidReduced(g: Net, w: Walk, k: nat)
    requires Reduced(g, w) && k < |Kids(g, w)|
    ensures var x := Kids(g, w)[k]; Reduced(g, x) && |x| == |w| + 1 && Parent(x) == w
  {
    assert w != [];
    hide Reduced, IsWalk;
    var next := Onward(g[Last(w)], Back(w));
    assert next[k] in next;
    ExtendReduced(g, w, next[k]);
  }

  lemma ReducedKid(g: Net, w: Walk, x: Walk)
    requires w != [] && Reduced(g, x) && |x| == |w| + 1 && Parent(x) == w
    ensures x in Kids(g, w)
  {
    hide Reduced, IsWalk;
    ParentReduced(g, x);
    var next := Onward(g[Last(w)], Back(w));
    assert w[|w| - 1] == x[|x| - 2];
    if |w| > 1 { assert w[|w| - 2] == x[|x| - 3]; }
    var k :| 0 <= k < |next| && next[k] == Last(x);
    assert x == w + [Last(x)];
    assert Kids(g, w)[k] == x;
  }

  lemma KidsAre(g: Net, w: Walk)
    requires Reduced(g, w)
    ensures forall x :: x in Kids(g, w) <==> Reduced(g, x) && |x| == |w| + 1 && Parent(x) == w
  {
    assert w != [];
    hide Reduced, IsWalk, Kids;
    forall x | x in Kids(g, w) ensures Reduced(g, x) && |x| == |w| + 1 && Parent(x) == w {
      var k :| 0 <= k < |Kids(g, w)| && Kids(g, w)[k] == x;
      KidReduced(g, w, k);
    }
    forall x | Reduced(g, x) && |x| == |w| + 1 && Parent(x) == w ensures x in Kids(g, w) { ReducedKid(g, w, x); }
  }

  lemma KidsDistinct(g: Net, w: Walk)
    requires WellFormed(g) && w != []
    ensures forall i, j :: 0 <= i < j < |Kids(g, w)| ==> Kids(g, w)[i] != Kids(g, w)[j]
  {
    if Last(w) in g {
      var next := Onward(g[Last(w)], Back(w));
      forall i, j | 0 <= i < j < |next| ensures Kids(g, w)[i] != Kids(g, w)[j] {
        assert Kids(g, w)[i][|w|] == next[i] && Kids(g, w)[j][|w|] == next[j];
      }
    }
  }
}
