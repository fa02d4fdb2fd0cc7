/** Addresses that clients have moved away from: the proxy keeps them on record in `addr2uuid_`, without bound, and
    throws out a live registration over one. */
module ProxyMoves {
  import opened Bytes
  import opened Proxy
  import opened ProxyRun

  predicate LivesAt(t: Tables, u: Uuid, a: Addr) {
    u in t.uuid2addr && t.uuid2addr[u].addr == a
  }

  predicate PutAside(y: Sys, a: Addr) { y.timer.Collected? && a in y.timer.dead }

  /** On record without a registration, and not about to be forgotten by the timer. */
  predicate LeftBehind(y: Sys, a: Addr) {
    && a in y.t.addr2uuid && !PutAside(y, a)
    && forall u :: u in y.t.uuid2addr ==> !LivesAt(y.t, u, a)
  }

  predicate Accepted(y: Sys, act: Act) {
    act.Register? && Proxy.Register(y.t, y.max, act.uuid, act.from, act.authentic, y.clock).0 == 0
  }

  predicate AcceptedFrom(y: Sys, act: Act, a: Addr) { Accepted(y, act) && act.from == a }

  /** A registration takes away what lives at `a`: its own client registers from elsewhere, or the client was on
      record for the new address too and is thrown out. */
  predicate Vacates(y: Sys, act: Act, a: Addr) {
    && Accepted(y, act) && act.from != a && a in y.t.addr2uuid && !PutAside(y, a)
    && forall u :: u in y.t.uuid2addr && LivesAt(y.t, u, a) ==> u == act.uuid || u in Replaced(y.t, act.uuid, act.from)
  }

  lemma OthersLeave(y: Sys, act: Act, a: Addr)
    requires Enabled(y, act) && !act.Register?
    ensures LeftBehind(Step(y, act), a) <==> LeftBehind(y, a)
    ensures LeftBehind(y, a) ==> Step(y, act).t.addr2uuid[a] == y.t.addr2uuid[a]
  {
    hide Decay, Touch, WithoutEnd;
    var z := Step(y, act);
    if LeftBehind(y, a) {
      forall u | u in z.t.uuid2addr ensures !LivesAt(z.t, u, a) { assert u in y.t.uuid2addr && !LivesAt(y.t, u, a); }
    } else if a in y.t.addr2uuid && !PutAside(y, a) {
      var u :| u in y.t.uuid2addr && LivesAt(y.t, u, a);
      assert u in z.t.uuid2addr ==> LivesAt(z.t, u, a);
    }
  }

  /** What is left behind after a step: what was and did not register again, and what a registration vacates. */
  lemma LeftBehindExactly(y: Sys, act: Act, a: Addr)
    requires Enabled(y, act)
    ensures LeftBehind(Step(y, act), a) <==>
              if LeftBehind(y, a) then !AcceptedFrom(y, act, a) else Vacates(y, act, a)
    ensures LeftBehind(y, a) && LeftBehind(Step(y, act), a) ==> Step(y, act).t.addr2uuid[a] == y.t.addr2uuid[a]
  {
    if act.Register? {
      RegisterLeaves(y, act, a);
    } else {
      OthersLeave(y, act, a);
    }
  }

  lemma RegisterLeaves(y: Sys, act: Act, a: Addr)
    requires act.Register?
    ensures LeftBehind(Step(y, act), a) <==>
              if LeftBehind(y, a) then !AcceptedFrom(y, act, a) else Vacates(y, act, a)
    ensures LeftBehind(y, a) && LeftBehind(Step(y, act), a) ==> Step(y, act).t.addr2uuid[a] == y.t.addr2uuid[a]
  {
    var z := Step(y, act);
    if Accepted(y, act) {
      if act.from == a {
        assert act.uuid in z.t.uuid2addr && LivesAt(z.t, act.uuid, a);
      } else {
        forall u | u in y.t.uuid2addr && LivesAt(y.t, u, a)
          ensures LivesAt(z.t, u, a) <==> !(u == act.uuid || u in Replaced(y.t, act.uuid, act.from))
        {
        }
        forall u | u in z.t.uuid2addr && LivesAt(z.t, u, a) ensures LivesAt(y.t, u, a) {}
      }
    } else {
      assert z == y;
    }
  }

  predicate NoneFrom(y: Sys, acts: seq<Act>, a: Addr)
    requires Valid(y, acts)
  {
    forall n :: 0 <= n < |acts| ==> !AcceptedFrom(At(y, acts, n), acts[n], a)
  }

  /** Timer passes, relays and registrations from elsewhere never remove an address that was left behind: until a
      client registers from there it stays on record, for the same uuid. */
  lemma {:induction false} LeftBehindStays(y: Sys, acts: seq<Act>, a: Addr)
    requires LeftBehind(y, a) && Valid(y, acts) && NoneFrom(y, acts, a)
    ensures LeftBehind(Run(y, acts), a) && Run(y, acts).t.addr2uuid[a] == y.t.addr2uuid[a]
  {
    hide LeftBehind, AcceptedFrom, Step, Enabled;
    if acts != [] {
      var n := |acts| - 1;
      forall k | 0 <= k < n ensures !AcceptedFrom(At(y, acts[..n], k), acts[..n][k], a) {
        assert acts[..n][..k] == acts[..k];
        assert At(y, acts[..n], k) == At(y, acts, k) && acts[..n][k] == acts[k];
      }
      LeftBehindStays(y, acts[..n], a);
      assert !AcceptedFrom(At(y, acts, n), acts[n], a);
      LeftBehindExactly(Run(y, acts[..n]), acts[n], a);
    }
  }

  function Moves(u: Uuid, n: nat): (acts: seq<Act>)
    ensures |acts| == n
  {
    seq(n, i requires 0 <= i < n => Register(u, i, true))
  }

  /** The addresses below `n`, all on record for `u`. */
  function Record(u: Uuid, n: nat): (m: map<Addr, Uuid>)
    ensures |m| == n && forall a: Addr :: a in m <==> a < n
  {
    if n == 0 then map[]
    else
      var m := Record(u, n - 1);
      InsertSize(m, n - 1, u);
      m[n - 1 := u]
  }

  /** One client that keeps moving leaves any number of addresses on record, whatever the maximum. */
  lemma {:induction false} RecordsWithoutBound(max: nat, clock: int, u: Uuid, n: nat)
    requires max >= 1 && u != ""
    ensures Valid(Start(max, clock), Moves(u, n))
    ensures var y := Run(Start(max, clock), Moves(u, n));
            && y.max == max && y.clock == clock && y.timer.Asleep?
            && y.t.uuid2addr == (if n == 0 then map[] else map[u := Entry(n - 1, clock)])
            && y.t.addr2uuid == Record(u, n) && |y.t.addr2uuid| == n
            && forall a: Addr :: a < n - 1 ==> LeftBehind(y, a)
  {
    if n > 0 {
      assert Moves(u, n)[..n - 1] == Moves(u, n - 1);
      RecordsWithoutBound(max, clock, u, n - 1);
      var y := Run(Start(max, clock), Moves(u, n - 1));
      assert Moves(u, n)[n - 1] == Register(u, n - 1, true);
      MoveOn(y.t, max, clock, u, n - 1);
    }
  }

  lemma MoveOn(t: Tables, max: nat, clock: int, u: Uuid, n: nat)
    requires max >= 1 && u != "" && t.addr2uuid == Record(u, n)
    requires t.uuid2addr == (if n == 0 then map[] else map[u := Entry(n - 1, clock)])
    ensures var (rc, t') := Proxy.Register(t, max, u, n, true, clock);
            && rc == 0 && t'.uuid2addr == map[u := Entry(n, clock)]
            && t'.addr2uuid == Record(u, n + 1)
  {
    assert n !in t.addr2uuid;
  }

  /** An accepted registration removes another uuid exactly when `addr2uuid_` names it for the
      address, and the removed one may long have moved away from there. */
  lemma RegisterRemoves(t: Tables, max: nat, uuid: Uuid, from: Addr, now: int, w: Uuid)
    requires Proxy.Register(t, max, uuid, from, true, now).0 == 0 && w in t.uuid2addr && w != uuid
    ensures w !in Proxy.Register(t, max, uuid, from, true, now).1.uuid2addr
        <==> from in t.addr2uuid && t.addr2uuid[from] == w
  {
  }

  /** A client that moved from address 1 to address 2 loses its live registration when another one
      registers from address 1. */
  lemma MovedClientEvicted() returns (acts: seq<Act>)
    ensures Valid(Start(8, 0), acts) && |acts| == 3
    ensures var before := Run(Start(8, 0), acts[..2]).t; "u" in before.uuid2addr && before.uuid2addr["u"].addr == 2
    ensures acts[2] == Register("v", 1, true) && "u" !in Run(Start(8, 0), acts).t.uuid2addr
  {
    var y := Start(8, 0);
    acts := Go(y, [], Register("u", 1, true));
    InsertSize(y.t.uuid2addr, "u", Entry(1, 0));
    acts := Go(y, acts, Register("u", 2, true));
    var two := acts;
    InsertSize(Run(y, two).t.uuid2addr, "u", Entry(2, 0));
    acts := Go(y, acts, Register("v", 1, true));
    assert acts[..2] == two;
  }
}
