/** A message that every server passes on to all peers but the one it came from, up to a number of
    links: the walks still in flight and the walks already delivered. */
module FloodTree {
  import opened Bytes
  import opened Graph

  /** A datagram; `walk` records for the proofs which way its message came. */
  datatype Packet<T> = Packet(from: Endpoint, to: Endpoint, body: T, walk: Walk)

  function Sends<T>(from: Endpoint, to: seq<Endpoint>, body: T, walk: Walk): (s: seq<Packet<T>>)
    ensures |s| == |to|
  {
    seq(|to|, i requires 0 <= i < |to| => Packet(from, to[i], body, walk + [to[i]]))
  }

  function Walks<T>(s: seq<Packet<T>>): (r: seq<Walk>)
    ensures |r| == |s|
  {
    seq(|s|, i requires 0 <= i < |s| => s[i].walk)
  }

  datatype Tree = Tree(flying: seq<Walk>, done: seq<Walk>)

  /** No limit, or the largest number of links. */
  type Limit = Option<nat>

  predicate InLimit(limit: Limit, w: Walk) {
    limit.None? || |w| - 1 <= limit.value
  }

  predicate PassedOn(limit: Limit, w: Walk) {
    limit.None? || |w| - 1 < limit.value
  }

  function Spread(g: Net, limit: Limit, w: Walk): seq<Walk>
    requires w != []
  {
    if PassedOn(limit, w) then Kids(g, w) else []
  }

  function Without<T>(s: seq<T>, i: nat): seq<T>
    requires i < |s|
  {
    s[..i] + s[i + 1..]
  }

  function Next(g: Net, limit: Limit, t: Tree, i: nat): Tree
    requires i < |t.flying| && t.flying[i] != []
  {
    Tree(Without(t.flying, i) + Spread(g, limit, t.flying[i]), t.done + [t.flying[i]])
  }

  function Drop(t: Tree, i: nat): Tree
    requires i < |t.flying|
  {
    t.(flying := Without(t.flying, i))
  }

  function Sprout(g: Net, o: Endpoint): Tree { Tree(Kids(g, [o]), []) }

  lemma WalkIn<T>(s: seq<Packet<T>>, p: Packet<T>)
    requires p in s
    ensures p.walk in Walks(s)
  {
    var k :| 0 <= k < |s| && s[k] == p;
    assert Walks(s)[k] == p.walk;
  }

  lemma SendsExtend<T>(from: Endpoint, to: seq<Endpoint>, body: T, walk: Walk)
    ensures Walks(Sends(from, to, body, walk)) == Extend(walk, to)
  {
  }

  lemma WalksOne<T>(p: Packet<T>)
    ensures Walks([p]) == [p.walk]
  {
  }

  lemma WalksConcat<T>(s: seq<Packet<T>>, t: seq<Packet<T>>)
    ensures Walks(s + t) == Walks(s) + Walks(t)
  {
  }

  lemma WalksReplace<T>(s: seq<Packet<T>>, i: nat, more: seq<Packet<T>>)
    requires i < |s|
    ensures Walks(s)[i] == s[i].walk
    ensures Walks(Without(s, i) + more) == Without(Walks(s), i) + Walks(more)
    ensures Walks(Without(s, i)) == Without(Walks(s), i)
  {
    assert Walks(Without(s, i)) == Without(Walks(s), i);
    WalksConcat(Without(s, i), more);
  }

  // ---- what every run keeps ----

  predicate From(g: Net, o: Endpoint, limit: Limit, w: Walk) {
    Reduced(g, w) && |w| > 1 && w[0] == o && InLimit(limit, w)
  }

  predicate Grown(g: Net, o: Endpoint, limit: Limit, t: Tree, w: Walk) {
    From(g, o, limit, w) && (|w| > 2 ==> Parent(w) in t.done)
  }

  predicate AllDistinct(s: seq<Walk>) {
    forall i, j :: 0 <= i < j < |s| ==> s[i] != s[j]
  }

  predicate Disjoint(s: seq<Walk>, t: seq<Walk>) {
    forall w :: w in s ==> w !in t
  }

  /** Also under loss: walks are reduced, each is in flight or delivered at most once, and only after its parent. */
  predicate Core(g: Net, o: Endpoint, limit: Limit, t: Tree) {
    && (forall w :: w in t.flying ==> Grown(g, o, limit, t, w))
    && (forall w :: w in t.done ==> Grown(g, o, limit, t, w))
    && AllDistinct(t.flying) && AllDistinct(t.done) && Disjoint(t.flying, t.done)
  }

  predicate Seen(t: Tree, w: Walk) { w in t.flying || w in t.done }

  predicate Due(g: Net, o: Endpoint, limit: Limit, t: Tree, w: Walk) {
    From(g, o, limit, w) && (|w| == 2 || Parent(w) in t.done)
  }

  /** Without loss: whatever is due is in flight or delivered. */
  ghost predicate Closed(g: Net, o: Endpoint, limit: Limit, t: Tree) {
    forall w :: Due(g, o, limit, t, w) ==> Seen(t, w)
  }

  lemma {:induction false} InWithout<T>(s: seq<T>, i: nat)
    requires i < |s|
    ensures forall x :: x in s <==> x in Without(s, i) || x == s[i]
  {
    assert s == s[..i] + [s[i]] + s[i + 1..];
  }

  lemma WithoutDistinct(s: seq<Walk>, i: nat)
    requires i < |s| && AllDistinct(s)
    ensures AllDistinct(Without(s, i)) && s[i] !in Without(s, i)
  {
    var r := Without(s, i);
    forall j | 0 <= j < |r| ensures r[j] == s[if j < i then j else j + 1] {}
  }

  lemma AppendDistinct(s: seq<Walk>, t: seq<Walk>)
    requires AllDistinct(s) && AllDistinct(t) && Disjoint(s, t)
    ensures AllDistinct(s + t)
  {
    forall i, j | 0 <= i < j < |s + t| ensures (s + t)[i] != (s + t)[j] {
      if i < |s| <= j { assert s[i] in s && t[j - |s|] in t; }
    }
  }

  lemma SpreadAre(g: Net, o: Endpoint, limit: Limit, w: Walk)
    requires WellFormed(g) && From(g, o, limit, w)
    ensures AllDistinct(Spread(g, limit, w))
    ensures forall x :: x in Spread(g, limit, w) <==> From(g, o, limit, x) && |x| > 2 && Parent(x) == w
  {
    hide Reduced, Kids;
    KidsAre(g, w);
    KidsDistinct(g, w);
    forall x | Reduced(g, x) && |x| == |w| + 1 && Parent(x) == w ensures x[0] == o { assert x[0] == Parent(x)[0]; }
    forall x | From(g, o, limit, x) && |x| > 2 && Parent(x) == w ensures |x| == |w| + 1 {}
  }

  lemma NextCore(g: Net, o: Endpoint, limit: Limit, t: Tree, i: nat)
    requires WellFormed(g) && Core(g, o, limit, t) && i < |t.flying|
    ensures t.flying[i] != [] && Core(g, o, limit, Next(g, limit, t, i))
  {
    var w := t.flying[i];
    assert w in t.flying && Grown(g, o, limit, t, w);
    hide From, Spread, Reduced;
    var kids := Spread(g, limit, w);
    var u := Next(g, limit, t, i);
    SpreadAre(g, o, limit, w);
    InWithout(t.flying, i);
    WithoutDistinct(t.flying, i);
    forall x | x in kids ensures Grown(g, o, limit, u, x) && x !in t.flying && x !in t.done && x != w {
      assert !Grown(g, o, limit, t, x);
      assert |x| == |w| + 1;
    }
    AppendDistinct(Without(t.flying, i), kids);
    AppendDistinct(t.done, [w]);
    forall x | x in u.flying ensures Grown(g, o, limit, u, x) {
      if x !in kids { assert Grown(g, o, limit, t, x); }
    }
    forall x | x in u.done ensures Grown(g, o, limit, u, x) {
      assert Grown(g, o, limit, t, x);
    }
  }

  lemma NextClosed(g: Net, o: Endpoint, limit: Limit, t: Tree, i: nat)
    requires WellFormed(g) && Core(g, o, limit, t) && Closed(g, o, limit, t) && i < |t.flying| && t.flying[i] != []
    ensures Closed(g, o, limit, Next(g, limit, t, i))
  {
    var w := t.flying[i];
    assert w in t.flying && Grown(g, o, limit, t, w);
    hide From, Spread, Reduced;
    var u := Next(g, limit, t, i);
    SpreadAre(g, o, limit, w);
    InWithout(t.flying, i);
    forall x | Due(g, o, limit, u, x) ensures Seen(u, x) {
      if |x| != 2 && Parent(x) == w { LongerThanTwo(g, o, limit, x); } else { assert Due(g, o, limit, t, x); }
    }
  }

  lemma LongerThanTwo(g: Net, o: Endpoint, limit: Limit, x: Walk)
    requires From(g, o, limit, x) && |x| != 2
    ensures |x| > 2
  {
  }

  lemma DropCore(g: Net, o: Endpoint, limit: Limit, t: Tree, i: nat)
    requires Core(g, o, limit, t) && i < |t.flying|
    ensures Core(g, o, limit, Drop(t, i))
  {
    hide From;
    InWithout(t.flying, i);
    WithoutDistinct(t.flying, i);
    forall w | w in Drop(t, i).flying ensures Grown(g, o, limit, Drop(t, i), w) { assert Grown(g, o, limit, t, w); }
    forall w | w in t.done ensures Grown(g, o, limit, Drop(t, i), w) { assert Grown(g, o, limit, t, w); }
  }

  lemma SproutInv(g: Net, o: Endpoint, limit: Limit)
    requires WellFormed(g) && (limit.Some? ==> limit.value >= 1)
    ensures Core(g, o, limit, Sprout(g, o)) && Closed(g, o, limit, Sprout(g, o))
  {
    hide Kids;
    KidsAre(g, [o]);
    KidsDistinct(g, [o]);
    var t := Sprout(g, o);
    forall w | w in t.flying ensures Grown(g, o, limit, t, w) { assert w[0] == Parent(w)[0]; }
    forall w | Due(g, o, limit, t, w) ensures Seen(t, w) { assert Parent(w) == [o]; }
  }

  /** When nothing is in flight any more, exactly the reduced walks within the limit have been delivered. */
  lemma {:induction false} QuietDone(g: Net, o: Endpoint, limit: Limit, t: Tree, w: Walk)
    requires Core(g, o, limit, t) && Closed(g, o, limit, t) && t.flying == []
    ensures w in t.done <==> From(g, o, limit, w)
    decreases |w|
  {
    if w in t.done {
      assert Grown(g, o, limit, t, w);
    } else if From(g, o, limit, w) {
      if |w| > 2 {
        ParentReduced(g, w);
        QuietDone(g, o, limit, t, Parent(w));
      }
      assert Due(g, o, limit, t, w);
    }
  }

  // ---- the weight that every delivery uses up ----

  /** At most this many deliveries follow from one message that can go `k` more links. */
  function Burden(d: nat, k: nat): (n: nat)
    ensures n >= 1
  {
    if k == 0 then 1 else 1 + d * Burden(d, k - 1)
  }

  function Remaining(limit: nat, w: Walk): nat {
    if |w| - 1 < limit then if |w| >= 1 then limit - (|w| - 1) else limit else 0
  }

  function Weight(d: nat, limit: nat, s: seq<Walk>): nat {
    if s == [] then 0 else Weight(d, limit, s[..|s| - 1]) + Burden(d, Remaining(limit, s[|s| - 1]))
  }

  lemma {:induction false} WeightConcat(d: nat, limit: nat, s: seq<Walk>, t: seq<Walk>)
    ensures Weight(d, limit, s + t) == Weight(d, limit, s) + Weight(d, limit, t)
    decreases |t|
  {
    if t == [] {
      assert s + t == s;
    } else {
      var n := |t| - 1;
      assert (s + t)[..|s + t| - 1] == s + t[..n];
      WeightConcat(d, limit, s, t[..n]);
    }
  }

  lemma WeightWithout(d: nat, limit: nat, s: seq<Walk>, i: nat)
    requires i < |s|
    ensures Weight(d, limit, Without(s, i)) == Weight(d, limit, s) - Burden(d, Remaining(limit, s[i]))
  {
    WeightConcat(d, limit, s[..i], s[i + 1..]);
    WeightConcat(d, limit, s[..i], [s[i]]);
    WeightConcat(d, limit, s[..i] + [s[i]], s[i + 1..]);
    assert s == s[..i] + [s[i]] + s[i + 1..];
    assert [s[i]][..0] == [];
  }

  /** Messages that all go `k` more links. */
  lemma {:induction false} WeightUniform(d: nat, limit: nat, s: seq<Walk>, k: nat)
    requires forall w :: w in s ==> Remaining(limit, w) == k
    ensures Weight(d, limit, s) == |s| * Burden(d, k)
  {
    hide Burden, Remaining;
    if s != [] {
      var n, b := |s| - 1, Burden(d, k);
      WeightUniform(d, limit, s[..n], k);
      assert s[n] in s;
      assert |s| * b == n * b + b;
    }
  }

  lemma TimesMore(a: nat, b: nat, c: nat)
    requires a <= b
    ensures a * c <= b * c
  {
  }

  /** Replacing a message by at most `d` messages one link further lowers the weight. */
  lemma WeightFalls(d: nat, limit: nat, s: seq<Walk>, i: nat, kids: seq<Walk>)
    requires i < |s| && |kids| <= d && s[i] != []
    requires forall x :: x in kids ==> |x| == |s[i]| + 1
    requires kids != [] ==> |s[i]| - 1 < limit
    ensures Weight(d, limit, Without(s, i) + kids) < Weight(d, limit, s)
  {
    hide Weight;
    var k := Remaining(limit, s[i]);
    WeightWithout(d, limit, s, i);
    WeightConcat(d, limit, Without(s, i), kids);
    if kids != [] {
      WeightUniform(d, limit, kids, k - 1);
      TimesMore(|kids|, d, Burden(d, k - 1));
    } else {
      WeightUniform(d, limit, kids, k);
    }
  }
}
