/** Runs of the relay proxy: packets of any number of clients interleaved with the timer, whose
    pass reads the clock, then takes the lock twice. */
module ProxyRun {
  import opened Bytes
  import opened Proxy

  datatype Timer = Asleep | Awake(now: int) | Collected(dead: set<Addr>)

  /** `lastPass` and `prevPass` are the readings of the two latest timer passes, for the record. */
  datatype Sys = Sys(t: Tables, max: nat, timer: Timer, clock: int, lastPass: int, prevPass: int)

  datatype Act =
    | Register(uuid: Uuid, from: Addr, authentic: bool)
    | Unregister(uuid: Uuid, from: Addr)
    | Relay(dst: Uuid, src: Uuid, from: Addr, later: int)
    | Wait(seconds: nat)
    | Wake
    | Phase1
    | Phase2

  function Start(max: nat, clock: int): Sys {
    Sys(Tables(map[], map[], map[]), max, Asleep, clock, clock, clock)
  }

  predicate Enabled(y: Sys, act: Act) {
    match act
    case Relay(_, _, _, later) => later >= y.clock
    case Wake => y.timer.Asleep?
    case Phase1 => y.timer.Awake?
    case Phase2 => y.timer.Collected?
    case _ => true
  }

  function Step(y: Sys, act: Act): Sys {
    match act
    case Register(uuid, from, authentic) => y.(t := Proxy.Register(y.t, y.max, uuid, from, authentic, y.clock).1)
    case Unregister(uuid, from) => y.(t := Proxy.Unregister(y.t, uuid, from))
    case Relay(dst, src, from, later) => y.(t := Proxy.Relay(y.t, dst, src, from, y.clock, later).1, clock := later)
    case Wait(seconds) => y.(clock := y.clock + seconds)
    case Wake => y.(timer := Awake(y.clock))
    case Phase1 => if y.timer.Awake? then Pass(y) else y
    case Phase2 => if y.timer.Collected? then y.(t := Proxy.Phase2(y.t, y.timer.dead), timer := Asleep) else y
  }

  /** The first locked section of a pass. */
  function Pass(y: Sys): Sys
    requires y.timer.Awake?
  {
    var now := y.timer.now;
    var (t, dead) := Proxy.Phase1(y.t, now);
    y.(t := t, timer := Collected(dead), lastPass := now, prevPass := y.lastPass)
  }

  function Run(y: Sys, acts: seq<Act>): Sys {
    if acts == [] then y else Step(Run(y, acts[..|acts| - 1]), acts[|acts| - 1])
  }

  predicate Valid(y: Sys, acts: seq<Act>) {
    acts != [] ==>
      var n := |acts| - 1;
      Valid(y, acts[..n]) && Enabled(Run(y, acts[..n]), acts[n])
  }

  lemma {:induction false} ValidPrefix(y: Sys, acts: seq<Act>, n: nat)
    requires Valid(y, acts) && n <= |acts|
    ensures Valid(y, acts[..n])
    ensures n < |acts| ==> Valid(y, acts[..n + 1]) && Enabled(Run(y, acts[..n]), acts[n])
                           && Run(y, acts[..n + 1]) == Step(Run(y, acts[..n]), acts[n])
    decreases |acts|
  {
    if n == |acts| {
      assert acts[..n] == acts;
    } else if n == |acts| - 1 {
      assert acts[..n + 1] == acts;
    } else {
      var m := |acts| - 1;
      ValidPrefix(y, acts[..m], n);
      assert acts[..m][..n] == acts[..n] && acts[..m][..n + 1] == acts[..n + 1];
    }
  }

  /** The state after the first `n` steps. */
  function At(y: Sys, acts: seq<Act>, n: nat): Sys
    requires Valid(y, acts) && n <= |acts|
  {
    ValidPrefix(y, acts, n);
    Run(y, acts[..n])
  }

  lemma AtNext(y: Sys, acts: seq<Act>, n: nat)
    requires Valid(y, acts) && n < |acts|
    ensures Enabled(At(y, acts, n), acts[n]) && At(y, acts, n + 1) == Step(At(y, acts, n), acts[n])
  {
    ValidPrefix(y, acts, n);
  }

  // ---- capacity ----

  lemma InsertSize<K, V>(m: map<K, V>, k: K, v: V)
    ensures |m[k := v]| == if k in m then |m| else |m| + 1
  {
    if k in m {
      assert m[k := v].Keys == m.Keys;
    } else {
      assert m[k := v].Keys == m.Keys + {k};
    }
  }

  lemma {:induction false} SubsetSize<T>(a: set<T>, b: set<T>)
    requires a <= b
    ensures |a| <= |b|
  {
    if a != {} {
      var x :| x in a;
      SubsetSize(a - {x}, b - {x});
    }
  }

  lemma StepCapacity(y: Sys, act: Act)
    requires Enabled(y, act) && |y.t.uuid2addr| <= y.max
    ensures |Step(y, act).t.uuid2addr| <= y.max
  {
    hide Decay;
    var z := Step(y, act);
    match act
    case Register(uuid, from, authentic) =>
      var kept := y.t.uuid2addr - Replaced(y.t, uuid, from);
      SubsetSize(kept.Keys, y.t.uuid2addr.Keys);
      InsertSize(kept, uuid, Entry(from, y.clock));
      if uuid in y.t.uuid2addr { assert uuid in kept; }
    case _ =>
      assert z.t.uuid2addr.Keys <= y.t.uuid2addr.Keys;
      SubsetSize(z.t.uuid2addr.Keys, y.t.uuid2addr.Keys);
  }

  /** However packets and timer interleave, there are never more than `max` registrations. */
  lemma {:induction false} NeverOverCapacity(max: nat, clock: int, acts: seq<Act>)
    requires Valid(Start(max, clock), acts)
    ensures var y := Run(Start(max, clock), acts); y.max == max && |y.t.uuid2addr| <= max
  {
    hide Step;
    if acts != [] {
      var n := |acts| - 1;
      NeverOverCapacity(max, clock, acts[..n]);
      StepCapacity(Run(Start(max, clock), acts[..n]), acts[n]);
      StepMax(Run(Start(max, clock), acts[..n]), acts[n]);
    }
  }

  lemma StepMax(y: Sys, act: Act)
    requires Enabled(y, act)
    ensures Step(y, act).max == y.max
  {
  }

  // ---- agreement of the two maps ----

  predicate Known(t: Tables, u: Uuid)
    requires u in t.uuid2addr
  {
    var a := t.uuid2addr[u].addr;
    a in t.addr2uuid && t.addr2uuid[a] == u
  }

  predicate Agree(t: Tables) {
    forall u :: u in t.uuid2addr ==> Known(t, u)
  }

  /** While the maps agree, an address belongs to one uuid. */
  lemma AgreeInjective(t: Tables, u: Uuid, v: Uuid)
    requires Agree(t) && u in t.uuid2addr && v in t.uuid2addr && t.uuid2addr[u].addr == t.uuid2addr[v].addr
    ensures u == v
  {
    assert Known(t, u) && Known(t, v);
  }

  predicate LiveAt(t: Tables, u: Uuid, dead: set<Addr>)
    requires u in t.uuid2addr
  {
    t.uuid2addr[u].addr in dead
  }

  /** A live registration has an address that the second phase is about to forget. */
  predicate Clash(y: Sys) {
    y.timer.Collected? && exists u :: u in y.t.uuid2addr && LiveAt(y.t, u, y.timer.dead)
  }

  lemma StepAgree(y: Sys, act: Act)
    requires Enabled(y, act) && Agree(y.t)
    ensures Agree(Step(y, act).t) <==> !(act.Phase2? && Clash(y))
  {
    hide Decay;
    var z := Step(y, act);
    match act
    case Phase2 =>
      if Clash(y) {
        var u :| u in y.t.uuid2addr && LiveAt(y.t, u, y.timer.dead);
        assert !Known(z.t, u);
      } else {
        forall u | u in z.t.uuid2addr ensures Known(z.t, u) {
          assert Known(y.t, u) && !LiveAt(y.t, u, y.timer.dead);
        }
      }
    case _ =>
      forall u | u in z.t.uuid2addr ensures Known(z.t, u) {
        if u in y.t.uuid2addr { assert Known(y.t, u); }
      }
  }

  predicate AgreesAt(y: Sys, acts: seq<Act>, n: nat)
    requires Valid(y, acts) && n <= |acts|
  {
    Agree(At(y, acts, n).t)
  }

  predicate ForgetsLive(y: Sys, acts: seq<Act>, n: nat)
    requires Valid(y, acts) && n < |acts|
  {
    acts[n].Phase2? && Clash(At(y, acts, n))
  }

  /** The maps agree in every state of a run exactly when no second phase runs while a live
      registration has an address put aside by the first. */
  lemma AgreementExactly(max: nat, clock: int, acts: seq<Act>)
    requires Valid(Start(max, clock), acts)
    ensures (forall n :: 0 <= n <= |acts| ==> AgreesAt(Start(max, clock), acts, n))
       <==> (forall n :: 0 <= n < |acts| ==> !ForgetsLive(Start(max, clock), acts, n))
  {
    hide Step, At;
    var y := Start(max, clock);
    if forall n :: 0 <= n <= |acts| ==> AgreesAt(y, acts, n) {
      forall n | 0 <= n < |acts| ensures !ForgetsLive(y, acts, n) {
        AtNext(y, acts, n);
        assert AgreesAt(y, acts, n) && AgreesAt(y, acts, n + 1);
        StepAgree(At(y, acts, n), acts[n]);
      }
    }
    if forall n :: 0 <= n < |acts| ==> !ForgetsLive(y, acts, n) {
      forall n | 0 <= n <= |acts| ensures AgreesAt(y, acts, n) { AgreesUpTo(max, clock, acts, n); }
    }
  }

  lemma {:induction false} AgreesUpTo(max: nat, clock: int, acts: seq<Act>, n: nat)
    requires Valid(Start(max, clock), acts) && n <= |acts|
    requires forall i :: 0 <= i < |acts| ==> !ForgetsLive(Start(max, clock), acts, i)
    ensures AgreesAt(Start(max, clock), acts, n)
  {
    hide Step;
    var y := Start(max, clock);
    if n == 0 {
      assert acts[..0] == [];
    } else {
      AgreesUpTo(max, clock, acts, n - 1);
      AtNext(y, acts, n - 1);
      assert !ForgetsLive(y, acts, n - 1);
      StepAgree(At(y, acts, n - 1), acts[n - 1]);
    }
  }

  /** A registration that is accepted between the phases from an address put aside by the first. */
  predicate RegistersDead(y: Sys, act: Act) {
    && act.Register? && y.timer.Collected? && act.from in y.timer.dead
    && Proxy.Register(y.t, y.max, act.uuid, act.from, act.authentic, y.clock).0 == 0
  }

  lemma StepNoClash(y: Sys, act: Act)
    requires Enabled(y, act) && Agree(y.t) && !Clash(y)
    ensures Clash(Step(y, act)) <==> RegistersDead(y, act)
  {
    hide Decay;
    var z := Step(y, act);
    if RegistersDead(y, act) {
      assert act.uuid in z.t.uuid2addr && LiveAt(z.t, act.uuid, z.timer.dead);
    } else if z.timer.Collected? {
      forall u | u in z.t.uuid2addr ensures !LiveAt(z.t, u, z.timer.dead) {
        if act.Phase1? {
          forall v | v in y.t.uuid2addr && y.t.uuid2addr[v].addr == y.t.uuid2addr[u].addr
              ensures u == v { AgreeInjective(y.t, u, v); }
        } else if u in y.t.uuid2addr {
          assert !LiveAt(y.t, u, y.timer.dead);
        }
      }
    }
  }

  predicate NoneFromDead(y: Sys, acts: seq<Act>)
    requires Valid(y, acts)
  {
    forall n :: 0 <= n < |acts| ==> !RegistersDead(At(y, acts, n), acts[n])
  }

  /** Without such a registration the maps agree in every state, and no two uuids share an address. */
  lemma {:induction false} AgreementHolds(max: nat, clock: int, acts: seq<Act>, n: nat)
    requires Valid(Start(max, clock), acts) && NoneFromDead(Start(max, clock), acts) && n <= |acts|
    ensures var y := At(Start(max, clock), acts, n);
            && Agree(y.t) && !Clash(y)
            && (forall u, v ::
                  u in y.t.uuid2addr && v in y.t.uuid2addr && y.t.uuid2addr[u].addr == y.t.uuid2addr[v].addr ==> u == v)
  {
    hide Step;
    var y := Start(max, clock);
    if n == 0 {
      assert acts[..0] == [];
    } else {
      AgreementHolds(max, clock, acts, n - 1);
      AtNext(y, acts, n - 1);
      StepAgree(At(y, acts, n - 1), acts[n - 1]);
      StepNoClash(At(y, acts, n - 1), acts[n - 1]);
    }
    var z := At(y, acts, n);
    forall u, v | u in z.t.uuid2addr && v in z.t.uuid2addr && z.t.uuid2addr[u].addr == z.t.uuid2addr[v].addr
        ensures u == v {
      AgreeInjective(z.t, u, v);
    }
  }

  // ---- the run that breaks agreement ----

  lemma RunSnoc(y: Sys, acts: seq<Act>, act: Act)
    requires Valid(y, acts) && Enabled(Run(y, acts), act)
    ensures Valid(y, acts + [act]) && Run(y, acts + [act]) == Step(Run(y, acts), act)
  {
    assert (acts + [act])[..|acts|] == acts;
  }

  lemma Expiry()
    ensures Proxy.Phase1(Tables(map["u" := Entry(7, 0)], map[7 := "u"], map[]), 121)
        == (Tables(map[], map[7 := "u"], map[]), {7})
  {
    var t := Tables(map["u" := Entry(7, 0)], map[7 := "u"], map[]);
    var (z, dead) := Proxy.Phase1(t, 121);
    assert z.uuid2addr == map[] && z.paths == map[];
    assert "u" in t.uuid2addr && Expired(t.uuid2addr["u"], 121);
    assert dead == {7};
  }

  lemma Registrations(now: int)
    ensures Proxy.Register(Tables(map[], map[], map[]), 8, "u", 7, true, 0)
        == (0, Tables(map["u" := Entry(7, 0)], map[7 := "u"], map[]))
    ensures Proxy.Register(Tables(map[], map[7 := "u"], map[]), 8, "u", 7, true, now)
        == (0, Tables(map["u" := Entry(7, now)], map[7 := "u"], map[]))
    ensures Proxy.Register(Tables(map["u" := Entry(7, now)], map[], map[]), 8, "v", 7, true, now)
         == (0, Tables(map["u" := Entry(7, now), "v" := Entry(7, now)], map[7 := "v"], map[]))
  {
    var none: map<Uuid, Entry> := map[];
    InsertSize(none, "u", Entry(7, now));
    assert none - {} == none;
    var named: map<Addr, Uuid> := map[7 := "u"];
    assert named[7 := "u"] == named;
    assert map["u" := Entry(7, now)] - {} == map["u" := Entry(7, now)];
  }

  /** A registration runs out, and the first phase puts its address aside. */
  lemma RunsOut() returns (acts: seq<Act>)
    ensures Valid(Start(8, 0), acts)
    ensures Run(Start(8, 0), acts) == Sys(Tables(map[], map[7 := "u"], map[]), 8, Collected({7}), 121, 121, 0)
  {
    hide Proxy.Register, Proxy.Phase1;
    var y := Start(8, 0);
    Registrations(121);
    Expiry();
    acts := Go(y, [], Register("u", 7, true));
    acts := Go(y, acts, Wait(121));
    acts := Go(y, acts, Wake);
    acts := Go(y, acts, Phase1);
  }

  /** A client that registers again from its old address between the two phases is forgotten by
      `addr2uuid_`; the next client at that address then shares it. */
  lemma SharedAddress() returns (acts: seq<Act>)
    ensures Valid(Start(8, 0), acts)
    ensures var t := Run(Start(8, 0), acts).t;
            && "u" in t.uuid2addr && "v" in t.uuid2addr
            && t.uuid2addr["u"].addr == t.uuid2addr["v"].addr && !Agree(t)
  {
    hide Proxy.Register, Run, Valid;
    var y := Start(8, 0);
    Registrations(121);
    acts := RunsOut();
    acts := Go(y, acts, Register("u", 7, true));
    acts := Go(y, acts, Phase2);
    assert map[7 := "u"] - {7} == map[];
    acts := Go(y, acts, Register("v", 7, true));
    assert !Known(Run(y, acts).t, "u");
  }

  lemma Go(y: Sys, acts: seq<Act>, act: Act) returns (more: seq<Act>)
    requires Valid(y, acts) && Enabled(Run(y, acts), act)
    ensures more == acts + [act] && Valid(y, more) && Run(y, more) == Step(Run(y, acts), act)
  {
    RunSnoc(y, acts, act);
    more := acts + [act];
  }
}
