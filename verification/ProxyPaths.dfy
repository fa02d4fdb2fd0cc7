/** The two-way path table of the proxy against the history of the run: how many timer passes
    have gone by since two addresses last exchanged relayed data. */
module ProxyPaths {
  import opened Bytes
  import opened Proxy
  import opened ProxyRun

  const LIVES := 3

  /** The count of the path from `a` to `b`, if there is one. */
  function PathState(t: Tables, a: Addr, b: Addr): Option<nat> {
    if a in t.paths && b in t.paths[a] then Some(t.paths[a][b].count) else None
  }

  /** A relayed packet between two addresses, in either direction. */
  predicate Exchanges(y: Sys, act: Act, a: Addr, b: Addr) {
    && act.Relay? && act.dst in y.t.uuid2addr
    && var d := y.t.uuid2addr[act.dst].addr; (act.from == a && d == b) || (act.from == b && d == a)
  }

  predicate Leaves(y: Sys, act: Act, a: Addr) {
    act.Unregister? && act.from == a && Unregisters(y.t, act.uuid, act.from)
  }

  /** Passes since the last exchange, if neither end has unregistered since. */
  function Since(y: Sys, acts: seq<Act>, a: Addr, b: Addr): Option<nat> {
    if acts == [] then None
    else
      var n := |acts| - 1;
      After(Run(y, acts[..n]), acts[n], Since(y, acts[..n], a, b), a, b)
  }

  function After(y: Sys, act: Act, since: Option<nat>, a: Addr, b: Addr): Option<nat> {
    if Exchanges(y, act, a, b) then Some(0)
    else if Leaves(y, act, a) || Leaves(y, act, b) then None
    else if act.Phase1? && since.Some? then Some(since.value + 1)
    else since
  }

  function Expected(since: Option<nat>): Option<nat> {
    match since
    case Some(k) => if k < LIVES then Some(LIVES - k) else None
    case None => None
  }

  // ---- what one step does to one path ----

  /** A pass finds a path with lives left that has been idle for more than 120 seconds. */
  predicate IdleOut(y: Sys, a: Addr, b: Addr) {
    && y.timer.Awake? && a in y.t.paths && b in y.t.paths[a]
    && y.t.paths[a][b].count > 1 && y.timer.now - y.t.paths[a][b].lastActive > REG_TTL
  }

  ghost predicate SomeIdle(y: Sys) {
    exists a, b :: IdleOut(y, a, b)
  }

  predicate Counted(t: Tables, a: Addr, b: Addr) {
    PathState(t, a, b).Some? ==> 1 <= PathState(t, a, b).value <= LIVES
  }

  lemma TouchOne(paths: map<Addr, Row>, s: Addr, d: Addr, uuid: Uuid, now: int, a: Addr, b: Addr, t: Tables)
    ensures PathState(t.(paths := Touch(paths, s, d, uuid, now)), a, b)
         == if (a, b) == (s, d) then Some(LIVES) else PathState(t.(paths := paths), a, b)
  {
  }

  lemma PassOne(y: Sys, a: Addr, b: Addr)
    requires y.timer.Awake? && Counted(y.t, a, b)
    ensures PathState(Pass(y).t, a, b)
         == var c := PathState(y.t, a, b); if c.None? || c.value == 1 || IdleOut(y, a, b) then None
             else Some(c.value - 1)
  {
    var now := y.timer.now;
    if a in y.t.paths {
      var m := y.t.paths[a];
      if b in m && Survives(m[b], now) {
        assert b in DecayRow(m, now);
      }
    }
  }

  lemma StepOne(y: Sys, act: Act, since: Option<nat>, a: Addr, b: Addr)
    requires Enabled(y, act) && PathState(y.t, a, b) == Expected(since)
    ensures PathState(Step(y, act).t, a, b) == Expected(After(y, act, since, a, b))
        <==> !(act.Phase1? && IdleOut(y, a, b))
  {
    hide Touch, Decay;
    match act
    case Relay(dst, src, from, later) =>
      if dst in y.t.uuid2addr {
        var d := y.t.uuid2addr[dst].addr;
        TouchOne(y.t.paths, from, d, dst, y.clock, a, b, y.t);
        TouchOne(Touch(y.t.paths, from, d, dst, y.clock), d, from, src, later, a, b, y.t);
      }
    case Phase1 => PassOne(y, a, b);
    case _ =>
  }

  // ---- whole runs ----

  ghost predicate Matches(y: Sys, acts: seq<Act>, n: nat)
    requires Valid(y, acts) && n <= |acts|
  {
    forall a, b :: MatchesOne(y, acts, n, a, b)
  }

  predicate MatchesOne(y: Sys, acts: seq<Act>, n: nat, a: Addr, b: Addr)
    requires Valid(y, acts) && n <= |acts|
  {
    PathState(At(y, acts, n).t, a, b) == Expected(Since(y, acts[..n], a, b))
  }

  ghost predicate IdlesOut(y: Sys, acts: seq<Act>, n: nat)
    requires Valid(y, acts) && n < |acts|
  {
    acts[n].Phase1? && SomeIdle(At(y, acts, n))
  }

  lemma MatchesNext(y: Sys, acts: seq<Act>, n: nat)
    requires Valid(y, acts) && n < |acts| && Matches(y, acts, n)
    ensures Matches(y, acts, n + 1) <==> !IdlesOut(y, acts, n)
  {
    hide Step, IdleOut, MatchesOne;
    var z := At(y, acts, n);
    assert forall a, b :: MatchesOne(y, acts, n, a, b);
    if IdlesOut(y, acts, n) {
      var a, b :| IdleOut(z, a, b);
      NextOne(y, acts, n, a, b);
    } else {
      var m := n + 1;
      forall a, b ensures MatchesOne(y, acts, m, a, b) { NextOne(y, acts, n, a, b); }
    }
  }

  lemma NextOne(y: Sys, acts: seq<Act>, n: nat, a: Addr, b: Addr)
    requires Valid(y, acts) && n < |acts| && MatchesOne(y, acts, n, a, b)
    ensures MatchesOne(y, acts, n + 1, a, b) <==> !(acts[n].Phase1? && IdleOut(At(y, acts, n), a, b))
  {
    hide Step, PathState, IdleOut, Expected, After;
    AtNext(y, acts, n);
    assert acts[..n + 1][..n] == acts[..n];
    StepOne(At(y, acts, n), acts[n], Since(y, acts[..n], a, b), a, b);
  }

  lemma {:induction false} MatchesUpTo(max: nat, clock: int, acts: seq<Act>, n: nat)
    requires Valid(Start(max, clock), acts) && n <= |acts|
    requires forall i :: 0 <= i < n ==> !IdlesOut(Start(max, clock), acts, i)
    ensures Matches(Start(max, clock), acts, n)
  {
    var y := Start(max, clock);
    if n == 0 {
      assert acts[..0] == [];
    } else {
      MatchesUpTo(max, clock, acts, n - 1);
      MatchesNext(y, acts, n - 1);
    }
  }

  /** In every state of a run a path is present with count 3 - k exactly when k < 3 passes have gone by
      since the last exchange and neither end has unregistered since; this holds if and only if no
      pass finds a path with lives left idle for more than 120 seconds. */
  lemma HistoryExactly(max: nat, clock: int, acts: seq<Act>)
    requires Valid(Start(max, clock), acts)
    ensures (forall n :: 0 <= n <= |acts| ==> Matches(Start(max, clock), acts, n))
       <==> (forall n :: 0 <= n < |acts| ==> !IdlesOut(Start(max, clock), acts, n))
  {
    hide Matches, IdlesOut;
    var y := Start(max, clock);
    if forall n :: 0 <= n <= |acts| ==> Matches(y, acts, n) {
      forall n | 0 <= n < |acts| ensures !IdlesOut(y, acts, n) {
        assert Matches(y, acts, n) && Matches(y, acts, n + 1);
        MatchesNext(y, acts, n);
      }
    }
    if forall n :: 0 <= n < |acts| ==> !IdlesOut(y, acts, n) {
      forall n | 0 <= n <= |acts| ensures Matches(y, acts, n) { MatchesUpTo(max, clock, acts, n); }
    }
  }

  // ---- passes at most 60 seconds apart ----

  const MAX_GAP := 60

  predicate Prompt(y: Sys, act: Act) {
    act.Wake? ==> y.clock - y.lastPass <= MAX_GAP
  }

  predicate AllPrompt(y: Sys, acts: seq<Act>)
    requires Valid(y, acts)
  {
    forall n :: 0 <= n < |acts| ==> Prompt(At(y, acts, n), acts[n])
  }

  /** A path that has survived a pass was active after the pass before that one. */
  predicate Recent(y: Sys, a: Addr, b: Addr) {
    a in y.t.paths && b in y.t.paths[a] ==>
      var p := y.t.paths[a][b];
      (p.count >= 3 ==> p.lastActive >= y.lastPass) && (p.count >= 2 ==> p.lastActive >= y.prevPass)
  }

  ghost predicate Fresh(y: Sys) {
    && y.prevPass <= y.lastPass <= y.clock && y.lastPass - y.prevPass <= MAX_GAP
    && (y.timer.Awake? ==> y.lastPass <= y.timer.now <= y.clock && y.timer.now - y.lastPass <= MAX_GAP)
    && forall a, b :: Recent(y, a, b) && Counted(y.t, a, b)
  }

  lemma FreshNotIdle(y: Sys)
    requires Fresh(y)
    ensures !SomeIdle(y)
  {
    forall a, b ensures !IdleOut(y, a, b) { assert Recent(y, a, b) && Counted(y.t, a, b); }
  }

  lemma StepFresh(y: Sys, act: Act)
    requires Enabled(y, act) && Fresh(y) && Prompt(y, act)
    ensures Fresh(Step(y, act))
  {
    var z := Step(y, act);
    forall a, b ensures Recent(z, a, b) && Counted(z.t, a, b) { StepRecent(y, act, a, b); }
  }

  lemma StepRecent(y: Sys, act: Act, a: Addr, b: Addr)
    requires Enabled(y, act) && Fresh(y)
    ensures Recent(Step(y, act), a, b) && Counted(Step(y, act).t, a, b)
  {
    assert Recent(y, a, b) && Counted(y.t, a, b);
    match act
    case Relay(_, _, _, _) => RelayRecent(y, act, a, b);
    case Phase1 => PassRecent(y, a, b);
    case _ => hide Decay, Touch;
  }

  lemma RelayRecent(y: Sys, act: Act, a: Addr, b: Addr)
    requires Enabled(y, act) && act.Relay? && y.prevPass <= y.lastPass <= y.clock
    requires Recent(y, a, b) && Counted(y.t, a, b)
    ensures Recent(Step(y, act), a, b) && Counted(Step(y, act).t, a, b)
  {
  }

  lemma PassRecent(y: Sys, a: Addr, b: Addr)
    requires y.timer.Awake? && y.lastPass <= y.timer.now && Recent(y, a, b) && Counted(y.t, a, b)
    ensures Recent(Pass(y), a, b) && Counted(Pass(y).t, a, b)
  {
  }

  lemma {:induction false} FreshUpTo(max: nat, clock: int, acts: seq<Act>, n: nat)
    requires Valid(Start(max, clock), acts) && AllPrompt(Start(max, clock), acts) && n <= |acts|
    ensures Fresh(At(Start(max, clock), acts, n))
  {
    hide Step, Fresh;
    var y := Start(max, clock);
    if n == 0 {
      assert acts[..0] == [];
      StartFresh(max, clock);
    } else {
      FreshUpTo(max, clock, acts, n - 1);
      AtNext(y, acts, n - 1);
      StepFresh(At(y, acts, n - 1), acts[n - 1]);
    }
  }

  lemma StartFresh(max: nat, clock: int)
    ensures Fresh(Start(max, clock))
  {
  }

  /** With passes at most 60 seconds apart the table is the history, path by path, and in particular
      the paths of the two directions exist together with the same count of 1 to 3. */
  lemma TableIsHistory(max: nat, clock: int, acts: seq<Act>, a: Addr, b: Addr)
    requires Valid(Start(max, clock), acts) && AllPrompt(Start(max, clock), acts)
    ensures var t := Run(Start(max, clock), acts).t;
            && PathState(t, a, b) == Expected(Since(Start(max, clock), acts, a, b))
            && PathState(t, a, b) == PathState(t, b, a)
            && Counted(t, a, b)
  {
    hide PathState;
    var y := Start(max, clock);
    forall n | 0 <= n < |acts| ensures !IdlesOut(y, acts, n) {
      FreshUpTo(max, clock, acts, n);
      FreshNotIdle(At(y, acts, n));
    }
    MatchesUpTo(max, clock, acts, |acts|);
    assert MatchesOne(y, acts, |acts|, a, b) && MatchesOne(y, acts, |acts|, b, a);
    assert acts[..|acts|] == acts;
    SinceSymmetric(y, acts, a, b);
  }

  lemma {:induction false} SinceSymmetric(y: Sys, acts: seq<Act>, a: Addr, b: Addr)
    ensures Since(y, acts, a, b) == Since(y, acts, b, a)
  {
    if acts != [] { SinceSymmetric(y, acts[..|acts| - 1], a, b); }
  }

  /** A late pass can take one direction and leave the other, since their clock readings differ. */
  lemma OneWayPath() returns (acts: seq<Act>)
    ensures Valid(Start(8, 0), acts) && !AllPrompt(Start(8, 0), acts)
    ensures var t := Run(Start(8, 0), acts).t; PathState(t, 1, 2) == None && PathState(t, 2, 1) == Some(2)
  {
    hide Decay, Touch, Proxy.Register, AllPrompt;
    var y := Start(8, 0);
    FirstRegistration();
    acts := Go(y, [], Register("b", 2, true));
    acts := Go(y, acts, Relay("b", "a", 1, 1));
    acts := Go(y, acts, Wait(120));
    acts := Go(y, acts, Wake);
    var t := Run(y, acts).t;
    LateDecay(t);
    acts := Go(y, acts, Phase1);
    assert Run(y, acts).t.paths == Decay(t.paths, 121);
    if AllPrompt(y, acts) { TableIsHistory(8, 0, acts, 1, 2); }
  }

  lemma FirstRegistration()
    ensures Proxy.Register(Tables(map[], map[], map[]), 8, "b", 2, true, 0)
        == (0, Tables(map["b" := Entry(2, 0)], map[2 := "b"], map[]))
  {
    var none: map<Uuid, Entry> := map[];
    assert none - {} == none;
  }

  lemma LateDecay(t: Tables)
    requires t.paths == Touch(Touch(map[], 1, 2, "b", 0), 2, 1, "a", 1)
    ensures Decay(t.paths, 121).Keys == {2} && PathState(t.(paths := Decay(t.paths, 121)), 2, 1) == Some(2)
    ensures PathState(t.(paths := Decay(t.paths, 121)), 1, 2) == None
  {
    assert t.paths[1] == map[2 := Path(2, 3, "b", 0)];
    assert t.paths[2] == map[1 := Path(1, 3, "a", 1)];
    assert DecayRow(t.paths[1], 121) == map[];
    assert DecayRow(t.paths[2], 121) == map[1 := Path(1, 2, "a", 1)];
  }
}
