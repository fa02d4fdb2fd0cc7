/** How far a message can travel without turning back: either no further than the net has links, or without
    end, and the latter exactly when there is a ring in reach. */
module Rings {
  import opened Bytes
  import opened Graph
  import opened FloodTree

  /** No way from `o` that never turns back is longer than `n` links. */
  ghost predicate Bounded(g: Net, o: Endpoint, n: nat) {
    forall w :: From(g, o, None, w) ==> |w| - 1 <= n
  }

  lemma PrefixFrom(g: Net, o: Endpoint, w: Walk, k: nat)
    requires From(g, o, None, w) && 2 <= k <= |w|
    ensures From(g, o, None, w[..k])
  {
    var p := w[..k];
    forall i | 1 <= i < |p| ensures Link(g, p[i - 1], p[i]) { assert Link(g, w[i - 1], w[i]); }
    forall i | 2 <= i < |p| ensures !Turns(p, i) { assert !Turns(w, i); }
  }

  type Step = (Endpoint, Endpoint)

  /** The directed links of a net. */
  ghost function Links(g: Net): set<Step> {
    set a, b | a in g && b in g[a] :: (a, b)
  }

  function Steps(w: Walk): (s: seq<Step>)
    requires w != []
    ensures |s| == |w| - 1
  {
    seq(|w| - 1, i requires 0 <= i < |w| - 1 => (w[i], w[i + 1]))
  }

  lemma StepsLinks(g: Net, w: Walk)
    requires IsWalk(g, w)
    ensures forall s :: s in Steps(w) ==> s in Links(g)
  {
    forall i | 0 <= i < |w| - 1 ensures Steps(w)[i] in Links(g) { assert Link(g, w[i], w[i + 1]); }
  }

  /** More entries than there are values: two are the same. */
  lemma {:induction false} Pigeonhole(s: seq<Step>, all: set<Step>) returns (i: nat, j: nat)
    requires |s| > |all| && forall x :: x in s ==> x in all
    ensures i < j < |s| && s[i] == s[j]
    decreases |s|
  {
    var n := |s| - 1;
    assert s[n] in s;
    if k :| 0 <= k < n && s[k] == s[n] {
      i, j := k, n;
    } else {
      forall x | x in s[..n] ensures x in all - {s[n]} {}
      i, j := Pigeonhole(s[..n], all - {s[n]});
    }
  }

  // ---- going round ----

  /** The last link of `v` is that of `w` into position `m`. */
  predicate EndsLike(v: Walk, w: Walk, m: nat)
    requires 1 <= m < |w| && |v| > 1
  {
    v[|v| - 2] == w[m - 1] && v[|v| - 1] == w[m]
  }

  /** A walk that takes a link twice can be prolonged by repeating what lies between. */
  lemma {:induction false} GoRound(g: Net, o: Endpoint, w: Walk, i: nat, j: nat, n: nat) returns (v: Walk, m: nat)
    requires From(g, o, None, w) && 1 <= i < j < |w| && w[i - 1] == w[j - 1] && w[i] == w[j]
    ensures From(g, o, None, v) && |v| - 1 == i + n && i <= m < j && EndsLike(v, w, m)
  {
    if n == 0 {
      PrefixFrom(g, o, w, i + 1);
      v, m := w[..i + 1], i;
    } else {
      v, m := GoRound(g, o, w, i, j, n - 1);
      assert Link(g, w[m], w[m + 1]) && !Turns(w, m + 1);
      ExtendReduced(g, v, w[m + 1]);
      v := v + [w[m + 1]];
      m := if m + 1 == j then i else m + 1;
    }
  }

  /** So a bound on the ways, whatever it is, is also the number of links. */
  lemma BoundedByLinks(g: Net, o: Endpoint, n: nat)
    requires Bounded(g, o, n)
    ensures Bounded(g, o, |Links(g)|)
  {
    forall w | From(g, o, None, w) ensures |w| - 1 <= |Links(g)| {
      if |w| - 1 > |Links(g)| {
        StepsLinks(g, w);
        var a, b := Pigeonhole(Steps(w), Links(g));
        assert Steps(w)[a] == (w[a], w[a + 1]) && Steps(w)[b] == (w[b], w[b + 1]);
        var v, m := GoRound(g, o, w, a + 1, b + 1, n);
      }
    }
  }

  // ---- rings ----

  function NextOn(c: seq<Endpoint>, i: nat): Endpoint
    requires i < |c|
  {
    if i + 1 == |c| then c[0] else c[i + 1]
  }

  /** Three or more different servers, each linked to the next and the last to the first. */
  predicate Ring(g: Net, c: seq<Endpoint>) {
    |c| >= 3 && Distinct(c) && forall i :: 0 <= i < |c| ==> Link(g, c[i], NextOn(c, i))
  }

  ghost predicate RingInReach(g: Net, o: Endpoint) {
    exists c :: Ring(g, c) && Component(g, o, c[0])
  }

  lemma NoTurn(g: Net, w: Walk, i: nat)
    requires Reduced(g, w)
    ensures i + 2 < |w| ==> w[i] != w[i + 2]
  {
    if i + 2 < |w| { assert !Turns(w, i + 2); }
  }

  /** Between two visits of a server a walk that never turns back goes round a ring. */
  lemma {:induction false} RingBetween(g: Net, w: Walk, i: nat, j: nat) returns (p: nat, q: nat)
    requires Loopless(g) && Reduced(g, w) && i < j < |w| && w[i] == w[j]
    ensures i <= p < q <= j && Ring(g, w[p..q])
    decreases j - i
  {
    if a, b :| i <= a < b <= j && w[a] == w[b] && b - a < j - i {
      p, q := RingBetween(g, w, a, b);
    } else {
      p, q := i, j;
      assert Link(g, w[j - 1], w[j]);
      var c := w[i..j];
      NoTurn(g, w, i);
      forall a, b | 0 <= a < b < |c| ensures c[a] != c[b] { assert c[a] == w[i + a] && c[b] == w[i + b]; }
      forall k | 0 <= k < |c| ensures Link(g, c[k], NextOn(c, k)) {
        assert Link(g, w[i + k], w[i + k + 1]);
      }
    }
  }

  lemma PrefixJoins(g: Net, o: Endpoint, w: Walk, p: nat)
    requires From(g, o, None, w) && p < |w|
    ensures Component(g, o, w[p])
  {
    var x := w[..p + 1];
    forall i | 1 <= i < |x| ensures Link(g, x[i - 1], x[i]) { assert Link(g, w[i - 1], w[i]); }
    assert Joins(g, x, o, w[p]);
  }

  /** The way of `v` ends at server `m` of the ring, coming from outside or from the one before. */
  predicate OnRing(v: Walk, c: seq<Endpoint>, m: nat)
    requires v != [] && m < |c|
  {
    && Last(v) == c[m]
    && (|v| > 1 ==> v[|v| - 2] !in c || v[|v| - 2] == c[if m == 0 then |c| - 1 else m - 1])
  }

  /** A way from `o` that is cut where it first meets the ring. */
  lemma Enter(g: Net, o: Endpoint, c: seq<Endpoint>) returns (v: Walk, m: nat)
    requires Ring(g, c) && Component(g, o, c[0])
    ensures Reduced(g, v) && v != [] && v[0] == o && m < |c| && OnRing(v, c, m)
  {
    var x :| Joins(g, x, o, c[0]);
    var r := Reduce(g, x);
    var k := 0;
    assert r[|r| - 1] in c;
    while r[k] !in c
      invariant k < |r| && forall i :: 0 <= i < k ==> r[i] !in c
      decreases |r| - k
    {
      k := k + 1;
    }
    v := r[..k + 1];
    forall i | 1 <= i < |v| ensures Link(g, v[i - 1], v[i]) { assert Link(g, r[i - 1], r[i]); }
    forall i | 2 <= i < |v| ensures !Turns(v, i) { assert !Turns(r, i); }
    m :| 0 <= m < |c| && c[m] == r[k];
  }

  function Around(c: seq<Endpoint>, m: nat): (k: nat)
    requires m < |c|
    ensures k < |c|
  {
    if m + 1 == |c| then 0 else m + 1
  }

  lemma RingDistinct(g: Net, c: seq<Endpoint>)
    requires Ring(g, c)
    ensures |c| >= 3 && Distinct(c)
  {
  }

  /** The next server of a ring is not the one before. */
  lemma NextNotBefore(c: seq<Endpoint>, v: Walk, m: nat, next: Endpoint)
    requires |c| >= 3 && Distinct(c) && v != [] && m < |c| && OnRing(v, c, m) && next == NextOn(c, m)
    ensures next == c[Around(c, m)] && (|v| > 1 ==> next != v[|v| - 2])
  {
    var k, l := Around(c, m), if m == 0 then |c| - 1 else m - 1;
    assert next == c[k] && next in c;
    assert k < l || l < k;
  }

  lemma NextOnRing(c: seq<Endpoint>, v: Walk, m: nat)
    requires |c| >= 3 && v != [] && m < |c| && OnRing(v, c, m)
    ensures OnRing(v + [NextOn(c, m)], c, Around(c, m))
  {
    var w, k := v + [NextOn(c, m)], Around(c, m);
    assert Last(w) == c[k] && w[|w| - 2] == c[m];
    assert m == if k == 0 then |c| - 1 else k - 1;
  }

  lemma OneMore(g: Net, c: seq<Endpoint>, v: Walk, m: nat)
    requires Ring(g, c) && Reduced(g, v) && m < |c| && OnRing(v, c, m)
    ensures Reduced(g, v + [NextOn(c, m)]) && OnRing(v + [NextOn(c, m)], c, Around(c, m))
  {
    assert v != [] && Link(g, c[m], NextOn(c, m)) && Last(v) == c[m];
    RingDistinct(g, c);
    hide Reduced, Ring, Distinct, OnRing, NextOn, Around;
    NextNotBefore(c, v, m, NextOn(c, m));
    NextOnRing(c, v, m);
    ExtendReduced(g, v, NextOn(c, m));
  }

  lemma {:induction false} RoundRing(g: Net, o: Endpoint, c: seq<Endpoint>, n: nat) returns (v: Walk, m: nat)
    requires Ring(g, c) && Component(g, o, c[0])
    ensures Reduced(g, v) && v != [] && v[0] == o && |v| > n && m < |c| && OnRing(v, c, m)
  {
    hide Reduced, OnRing;
    if n == 0 {
      v, m := Enter(g, o, c);
    } else {
      v, m := RoundRing(g, o, c, n - 1);
      OneMore(g, c, v, m);
      v := v + [NextOn(c, m)];
      m := Around(c, m);
    }
  }

  lemma LongMeansRing(g: Net, o: Endpoint, w: Walk)
    requires Loopless(g) && From(g, o, None, w) && |w| - 1 > |Links(g)|
    ensures RingInReach(g, o)
  {
    StepsLinks(g, w);
    var a, b := Pigeonhole(Steps(w), Links(g));
    assert Steps(w)[a] == (w[a], w[a + 1]) && Steps(w)[b] == (w[b], w[b + 1]);
    var p, q := RingBetween(g, w, a, b);
    PrefixJoins(g, o, w, p);
    assert w[p..q][0] == w[p];
  }

  /** The ways from a server are bounded if and only if no ring is in its reach. */
  lemma BoundedWithoutRings(g: Net, o: Endpoint)
    requires Loopless(g)
    ensures Bounded(g, o, |Links(g)|) <==> !RingInReach(g, o)
  {
    hide Loopless, Reduced, Links;
    if RingInReach(g, o) {
      var c :| Ring(g, c) && Component(g, o, c[0]);
      var v, m := RoundRing(g, o, c, |Links(g)| + 2);
      assert From(g, o, None, v);
    } else {
      forall w | From(g, o, None, w) ensures |w| - 1 <= |Links(g)| {
        if |w| - 1 > |Links(g)| { LongMeansRing(g, o, w); }
      }
    }
  }
}
