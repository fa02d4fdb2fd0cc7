/** Runs of a NatServer with authentication switched on, as a log of what happened. */
module LoginRun {
  import opened Bytes
  import opened PeerManage
  import opened Login

  datatype Event =
    | Issued(uuid: string, nonce: Nonce, at: int)
    | Tried(uuid: string, nonce: Nonce, tag: seq<byte>, at: int, ok: bool, expire: int)
    | Synced(uuid: string, hb: int)
    | Registered(uuid: string, at: int)
    | Refused(uuid: string, at: int)

  datatype Sys = Sys(d: Desk, log: seq<Event>, clock: int)

  datatype Act =
    | AskChallenge(gate: Gate, uuid: string, nonce: Nonce)
    | TryLogin(gate: Gate, uuid: string, nonce: Nonce, tag: seq<byte>, later: int)
    | Beat(gate: Gate, uuid: string, report: Report, later: int)
    | Sync(uuid: string, report: Report, hb: int)
    | Extinfo(uuid: string, extinfo: seq<byte>)
    | Delete(uuid: string)
    | Cleanup(timeout: int)
    | Wait(seconds: nat)

  predicate Enabled(y: Sys, act: Act) {
    match act
    case TryLogin(_, _, _, _, later) => later >= y.clock
    case Beat(_, _, _, later) => later >= y.clock
    case _ => true
  }

  function Step(y: Sys, mac: Mac, act: Act): Sys {
    match act
    case AskChallenge(gate, uuid, nonce) =>
      var (rc, d) := Login.AskChallenge(y.d, gate, uuid, nonce, y.clock);
      y.(d := d, log := y.log + if rc == 0 then [Issued(uuid, nonce, y.clock)] else [])
    case TryLogin(gate, uuid, nonce, tag, later) =>
      var (result, d) := DoLogin(y.d, true, mac, gate, uuid, nonce, tag, y.clock, later);
      var tried := Tried(uuid, nonce, tag, y.clock, result.AuthOk?, later + SESSION_SECONDS);
      Sys(d, y.log + if result.AuthOk? || result.BadMac? then [tried] else [], later)
    case Beat(gate, uuid, r, later) =>
      var (rc, d) := Heartbeat(y.d, true, gate, uuid, r, y.clock, later);
      Sys(d,
          y.log + (if rc == 0 && UuidOk(uuid) then [Registered(uuid, y.clock)]
                   else if rc == 1 then [Refused(uuid, y.clock)] else []),
          later)
    case Sync(uuid, r, hb) =>
      y.(d := y.d.(table := UpsertSynced(y.d.table, uuid, r.pub, r.lan, r.devType, r.natType, r.extinfo, hb)),
         log := y.log + [Synced(uuid, hb)])
    case Extinfo(uuid, ext) =>
      if uuid !in y.d.table.peers then y
      else
        var p := y.d.table.peers[uuid];
        y.(d := y.d.(table := Upsert(y.d.table, uuid, p.pub, p.lan, p.devType, p.natType, ext, y.clock)))
    case Delete(uuid) => y.(d := y.d.(table := Remove(y.d.table, uuid)))
    case Cleanup(timeout) =>
      y.(d := y.d.(table := CleanupSessions(CleanupTimeout(y.d.table, timeout, y.clock), y.clock)))
    case Wait(seconds) => y.(clock := y.clock + seconds)
  }

  function Start(clock: int): Sys { Sys(Desk(map[], Table(map[], map[])), [], clock) }

  function Run(mac: Mac, clock: int, acts: seq<Act>): Sys {
    if acts == [] then Start(clock) else Step(Run(mac, clock, acts[..|acts| - 1]), mac, acts[|acts| - 1])
  }

  predicate Valid(mac: Mac, clock: int, acts: seq<Act>) {
    acts != [] ==>
      var n := |acts| - 1;
      Valid(mac, clock, acts[..n]) && Enabled(Run(mac, clock, acts[..n]), acts[n])
  }

  // ---- challenges ----

  /** The challenge a uuid can still answer, read off the log: the last one issued, if not tried since. */
  function Open(log: seq<Event>, uuid: string): Option<Challenge> {
    if log == [] then None
    else
      var n := |log| - 1;
      match log[n]
      case Issued(u, nonce, at) => if u == uuid then Some(Challenge(nonce, at + NONCE_SECONDS))
          else Open(log[..n], uuid)
      case Tried(u, _, _, _, _, _) => if u == uuid then None else Open(log[..n], uuid)
      case _ => Open(log[..n], uuid)
  }

  predicate Concerns(ev: Event, uuid: string) {
    (ev.Issued? || ev.Tried?) && ev.uuid == uuid
  }

  /** Event `i` issued the nonce, and nothing about the uuid's challenges happened between `i` and `j`. */
  predicate IssuedFor(log: seq<Event>, i: int, j: nat, uuid: string, nonce: Nonce) {
    && 0 <= i < j <= |log| && log[i].Issued? && log[i].uuid == uuid && log[i].nonce == nonce
    && forall k :: i < k < j ==> !Concerns(log[k], uuid)
  }

  lemma {:induction false} OpenMeans(log: seq<Event>, uuid: string, j: nat)
    requires j <= |log|
    ensures forall i, nonce :: IssuedFor(log, i, j, uuid, nonce) ==>
              Open(log[..j], uuid) == Some(Challenge(nonce, log[i].at + NONCE_SECONDS))
    ensures var c := Open(log[..j], uuid);
            c.Some? ==>
              exists i :: IssuedFor(log, i, j, uuid, c.value.nonce) && c.value.expire == log[i].at + NONCE_SECONDS
    decreases j
  {
    if j > 0 {
      OpenMeans(log, uuid, j - 1);
      assert log[..j][..j - 1] == log[..j - 1];
      forall i, nonce | IssuedFor(log, i, j, uuid, nonce) && i < j - 1
        ensures Open(log[..j], uuid) == Some(Challenge(nonce, log[i].at + NONCE_SECONDS))
      {
        assert IssuedFor(log, i, j - 1, uuid, nonce);
        assert !Concerns(log[j - 1], uuid);
      }
      var c := Open(log[..j], uuid);
      if c.Some? {
        if log[j - 1].Issued? && log[j - 1].uuid == uuid {
          assert IssuedFor(log, j - 1, j, uuid, c.value.nonce);
        } else {
          var i :| IssuedFor(log, i, j - 1, uuid, c.value.nonce) && c.value.expire == log[i].at + NONCE_SECONDS;
          assert IssuedFor(log, i, j, uuid, c.value.nonce);
        }
      }
    }
  }

  function NonceOf(d: Desk, uuid: string): Option<Challenge> {
    if uuid in d.nonces then Some(d.nonces[uuid]) else None
  }

  /** What the log says of an attempt: it succeeded exactly when it answered the open challenge in time. */
  predicate TryOk(mac: Mac, log: seq<Event>, j: nat)
    requires j < |log|
  {
    log[j].Tried? ==>
      var c := Open(log[..j], log[j].uuid);
      log[j].ok <==> c.Some? && Answers(c.value, mac, log[j].uuid, log[j].nonce, log[j].tag, log[j].at)
  }

  ghost predicate Faithful(mac: Mac, y: Sys) {
    && (forall u :: NonceOf(y.d, u) == Open(y.log, u))
    && (forall j :: 0 <= j < |y.log| ==> TryOk(mac, y.log, j))
  }

  lemma LogGrows(mac: Mac, log: seq<Event>, ev: Event)
    requires forall j :: 0 <= j < |log| ==> TryOk(mac, log, j)
    ensures forall j :: 0 <= j < |log| ==> TryOk(mac, log + [ev], j)
    ensures (log + [ev])[..|log|] == log
  {
    forall j | 0 <= j < |log| ensures TryOk(mac, log + [ev], j) {
      assert (log + [ev])[..j] == log[..j];
      assert TryOk(mac, log, j);
    }
  }

  lemma OpenSnoc(log: seq<Event>, ev: Event, u: string)
    ensures Open(log + [ev], u) ==
              match ev
              case Issued(v, nonce, at) => if v == u then Some(Challenge(nonce, at + NONCE_SECONDS)) else Open(log, u)
              case Tried(v, _, _, _, _, _) => if v == u then None else Open(log, u)
              case _ => Open(log, u)
  {
    assert (log + [ev])[..|log|] == log;
  }

  lemma StepGrows(mac: Mac, y: Sys, act: Act)
    ensures var log := Step(y, mac, act).log;
            log == y.log || (|log| == |y.log| + 1 && log == y.log + [log[|y.log|]])
  {
    hide DoLogin, Login.AskChallenge, Heartbeat, Upsert, UpsertSynced, CleanupSessions, CleanupTimeout, Remove;
  }

  lemma StepNonce(mac: Mac, y: Sys, act: Act, u: string)
    requires NonceOf(y.d, u) == Open(y.log, u)
    ensures NonceOf(Step(y, mac, act).d, u) == Open(Step(y, mac, act).log, u)
  {
    hide Open, Answers, Upsert, UpsertSynced, SetAuthExpire, CleanupSessions, CleanupTimeout, Remove, Authed;
    StepGrows(mac, y, act);
    var log := Step(y, mac, act).log;
    if log != y.log { OpenSnoc(y.log, log[|y.log|], u); }
  }

  lemma StepFaithful(mac: Mac, y: Sys, act: Act)
    requires Faithful(mac, y)
    ensures Faithful(mac, Step(y, mac, act))
  {
    hide Step, Open, TryOk, NonceOf;
    var z := Step(y, mac, act);
    StepGrows(mac, y, act);
    forall u ensures NonceOf(z.d, u) == Open(z.log, u) { StepNonce(mac, y, act, u); }
    if z.log != y.log {
      var ev := z.log[|y.log|];
      LogGrows(mac, y.log, ev);
      if ev.Tried? { LastTry(mac, y, act, ev); } else { NotTried(mac, z.log, |y.log|); }
    }
  }

  lemma NotTried(mac: Mac, log: seq<Event>, j: nat)
    requires j < |log| && !log[j].Tried?
    ensures TryOk(mac, log, j)
  {
  }

  lemma LastTry(mac: Mac, y: Sys, act: Act, ev: Event)
    requires Step(y, mac, act).log == y.log + [ev] && ev.Tried? && NonceOf(y.d, ev.uuid) == Open(y.log, ev.uuid)
    ensures TryOk(mac, y.log + [ev], |y.log|)
  {
    hide Answers;
    assert act.TryLogin?;
    assert (y.log + [ev])[..|y.log|] == y.log;
    assert ev == (y.log + [ev])[|y.log|];
  }

  lemma {:induction false} RunFaithful(mac: Mac, clock: int, acts: seq<Act>)
    requires Valid(mac, clock, acts)
    ensures Faithful(mac, Run(mac, clock, acts))
  {
    hide Step;
    if acts != [] {
      var n := |acts| - 1;
      RunFaithful(mac, clock, acts[..n]);
      StepFaithful(mac, Run(mac, clock, acts[..n]), acts[n]);
    }
  }

  /** The nonce of attempt `j` was issued to the uuid by event `i` at most 30 seconds earlier, and neither
      another challenge nor another attempt for the uuid came in between. */
  predicate Matched(log: seq<Event>, i: int, j: nat)
    requires j < |log| && log[j].Tried?
  {
    IssuedFor(log, i, j, log[j].uuid, log[j].nonce) && log[j].at <= log[i].at + NONCE_SECONDS
  }

  /** A login succeeds if and only if it carries the right MAC for a nonce so matched. */
  lemma LoginAgreement(mac: Mac, clock: int, acts: seq<Act>, j: nat)
    requires Valid(mac, clock, acts)
    requires var log := Run(mac, clock, acts).log; j < |log| && log[j].Tried?
    ensures var log := Run(mac, clock, acts).log;
            log[j].ok <==> log[j].tag == mac(log[j].uuid, log[j].nonce) && exists i :: Matched(log, i, j)
  {
    hide Run, Open, Concerns;
    RunFaithful(mac, clock, acts);
    var log := Run(mac, clock, acts).log;
    var ev := log[j];
    assert TryOk(mac, log, j);
    OpenMeans(log, ev.uuid, j);
    var c := Open(log[..j], ev.uuid);
    if ev.ok {
      var i :| IssuedFor(log, i, j, ev.uuid, c.value.nonce) && c.value.expire == log[i].at + NONCE_SECONDS;
      assert Matched(log, i, j);
    }
    if i :| Matched(log, i, j) {
      assert c == Some(Challenge(ev.nonce, log[i].at + NONCE_SECONDS));
    }
  }

  /** No challenge is good for two attempts, whatever their nonces. */
  lemma ChallengesUsedOnce(log: seq<Event>, i: int, j: nat, k: nat)
    requires j < k < |log| && log[j].Tried? && log[k].Tried? && Matched(log, i, j)
    ensures !Matched(log, i, k)
  {
    if log[j].uuid == log[k].uuid { assert Concerns(log[j], log[k].uuid); }
  }

  // ---- registrations ----

  /** A login that succeeded, or an entry from another server, is good for the uuid after time `t`. */
  predicate Grants(ev: Event, uuid: string, t: int) {
    || (ev.Tried? && ev.ok && ev.uuid == uuid && t < ev.expire)
    || (ev.Synced? && ev.uuid == uuid && t < ev.hb + SESSION_SECONDS)
  }

  predicate GrantedBefore(log: seq<Event>, j: nat, uuid: string, t: int)
    requires j <= |log|
  {
    exists i :: 0 <= i < j && Grants(log[i], uuid, t)
  }

  predicate RegisteredOk(log: seq<Event>, j: nat)
    requires j < |log|
  {
    && (log[j].Registered? ==> GrantedBefore(log, j, log[j].uuid, log[j].at))
    && (log[j].Refused? ==> !LoggedInBefore(log, j, log[j].uuid, log[j].at))
  }

  predicate LogsIn(ev: Event, uuid: string, t: int) { ev.Tried? && ev.ok && ev.uuid == uuid && t < ev.expire }

  predicate LoggedInBefore(log: seq<Event>, j: nat, uuid: string, t: int)
    requires j <= |log|
  {
    exists i :: 0 <= i < j && LogsIn(log[i], uuid, t)
  }

  predicate SessionUntil(t: Table, uuid: string, at: int) {
    uuid in t.sessions && t.sessions[uuid] > at
  }

  predicate SessionCap(y: Sys, u: string) {
    u in y.d.table.sessions ==> y.d.table.sessions[u] <= y.clock + SESSION_SECONDS
  }

  /** Every right to register stems from the log, and every login that has not expired is on record. */
  ghost predicate Backed(y: Sys) {
    && y.clock >= 0
    && (forall u, t: int :: t >= y.clock && Authed(y.d.table, u, t) ==> GrantedBefore(y.log, |y.log|, u, t))
    && (forall u, t: int :: t >= y.clock && LoggedInBefore(y.log, |y.log|, u, t) ==> SessionUntil(y.d.table, u, t))
    && (forall u :: SessionCap(y, u))
    && (forall j :: 0 <= j < |y.log| ==> RegisteredOk(y.log, j))
  }

  lemma GrantsGrow(log: seq<Event>, ev: Event, u: string, t: int)
    ensures GrantedBefore(log + [ev], |log| + 1, u, t) <==> GrantedBefore(log, |log|, u, t) || Grants(ev, u, t)
    ensures LoggedInBefore(log + [ev], |log| + 1, u, t) <==> LoggedInBefore(log, |log|, u, t) || LogsIn(ev, u, t)
  {
    var more := log + [ev];
    assert more[|log|] == ev;
    forall i | 0 <= i < |log| ensures more[i] == log[i] {}
    if GrantedBefore(log, |log|, u, t) {
      var i :| 0 <= i < |log| && Grants(log[i], u, t);
      assert Grants(more[i], u, t);
    }
    if LoggedInBefore(log, |log|, u, t) {
      var i :| 0 <= i < |log| && LogsIn(log[i], u, t);
      assert LogsIn(more[i], u, t);
    }
  }

  lemma OkGrows(log: seq<Event>, ev: Event, j: nat)
    requires j < |log| && RegisteredOk(log, j)
    ensures RegisteredOk(log + [ev], j)
  {
    var more := log + [ev];
    forall i | 0 <= i < |log| ensures more[i] == log[i] {}
    if log[j].Registered? {
      var i :| 0 <= i < j && Grants(log[i], log[j].uuid, log[j].at);
      assert Grants(more[i], log[j].uuid, log[j].at);
    }
  }

  /** The rights after a step: those before, and those the new event gives. */
  lemma StepRights(mac: Mac, y: Sys, act: Act, u: string, t: int)
    requires Enabled(y, act) && Backed(y)
    requires var z := Step(y, mac, act); t >= z.clock
    ensures var z := Step(y, mac, act);
            Authed(z.d.table, u, t) ==>
              Authed(y.d.table, u, t) || (|z.log| == |y.log| + 1 && Grants(z.log[|y.log|], u, t))
  {
  }

  lemma StepSessions(mac: Mac, y: Sys, act: Act, u: string, t: int)
    requires Enabled(y, act) && SessionCap(y, u)
    requires var z := Step(y, mac, act); t >= z.clock
    ensures var z := Step(y, mac, act);
            && SessionCap(z, u)
            && (SessionUntil(y.d.table, u, t) || (|z.log| == |y.log| + 1 && LogsIn(z.log[|y.log|], u, t))
                ==> SessionUntil(z.d.table, u, t))
  {
  }

  lemma StepLog(mac: Mac, y: Sys, act: Act)
    requires Enabled(y, act) && Backed(y)
    ensures var z := Step(y, mac, act);
            z.log == y.log || (|z.log| == |y.log| + 1 && z.log == y.log + [z.log[|y.log|]]
                && RegisteredOk(z.log, |y.log|))
    ensures Step(y, mac, act).clock >= y.clock
  {
    hide Upsert, UpsertSynced, SetAuthExpire, CleanupSessions, CleanupTimeout, Remove, GrantedBefore, LoggedInBefore;
    var z := Step(y, mac, act);
    if z.log != y.log {
      var ev := z.log[|y.log|];
      if ev.Registered? || ev.Refused? {
        GrantsGrow(y.log, ev, ev.uuid, ev.at);
        EarlierOnly(y.log, ev, ev.uuid, ev.at);
        assert SessionUntil(y.d.table, ev.uuid, ev.at) ==> Authed(y.d.table, ev.uuid, ev.at);
      }
    }
  }

  lemma EarlierOnly(log: seq<Event>, ev: Event, u: string, t: int)
    ensures GrantedBefore(log + [ev], |log|, u, t) <==> GrantedBefore(log, |log|, u, t)
    ensures LoggedInBefore(log + [ev], |log|, u, t) <==> LoggedInBefore(log, |log|, u, t)
  {
    var more := log + [ev];
    forall i | 0 <= i < |log| ensures more[i] == log[i] {}
    if GrantedBefore(log, |log|, u, t) {
      var i :| 0 <= i < |log| && Grants(log[i], u, t);
      assert Grants(more[i], u, t);
    }
    if LoggedInBefore(log, |log|, u, t) {
      var i :| 0 <= i < |log| && LogsIn(log[i], u, t);
      assert LogsIn(more[i], u, t);
    }
  }

  lemma StepBacked(mac: Mac, y: Sys, act: Act)
    requires Enabled(y, act) && Backed(y)
    ensures Backed(Step(y, mac, act))
  {
    hide Step, Authed, Grants, LogsIn, GrantedBefore, LoggedInBefore, SessionUntil, RegisteredOk;
    var z := Step(y, mac, act);
    StepLog(mac, y, act);
    forall u, t: int | t >= z.clock
      ensures Authed(z.d.table, u, t) ==> GrantedBefore(z.log, |z.log|, u, t)
      ensures LoggedInBefore(z.log, |z.log|, u, t) ==> SessionUntil(z.d.table, u, t)
    {
      assert SessionCap(y, u);
      StepRights(mac, y, act, u, t);
      StepSessions(mac, y, act, u, t);
      if z.log != y.log { GrantsGrow(y.log, z.log[|y.log|], u, t); }
    }
    forall u ensures SessionCap(z, u) { assert SessionCap(y, u); StepSessions(mac, y, act, u, z.clock); }
    forall j | 0 <= j < |z.log| ensures RegisteredOk(z.log, j) {
      if j < |y.log| {
        assert RegisteredOk(y.log, j);
        if z.log != y.log { OkGrows(y.log, z.log[|y.log|], j); }
      }
    }
  }

  lemma {:induction false} RunBacked(mac: Mac, clock: int, acts: seq<Act>)
    requires clock >= 0 && Valid(mac, clock, acts)
    ensures Backed(Run(mac, clock, acts))
  {
    hide Step;
    if acts != [] {
      var n := |acts| - 1;
      RunBacked(mac, clock, acts[..n]);
      StepBacked(mac, Run(mac, clock, acts[..n]), acts[n]);
    }
  }

  /** A heartbeat registers a uuid only if an earlier login of the uuid or an entry from another server is
      less than an hour old; and it is never told to log in while such a login is. */
  lemma RegistrationsAreGranted(mac: Mac, clock: int, acts: seq<Act>, j: nat)
    requires clock >= 0 && Valid(mac, clock, acts) && j < |Run(mac, clock, acts).log|
    ensures var log := Run(mac, clock, acts).log;
            && (log[j].Registered? ==> exists i :: 0 <= i < j && Grants(log[i], log[j].uuid, log[j].at))
            && (log[j].Refused? ==> !exists i :: 0 <= i < j && LogsIn(log[i], log[j].uuid, log[j].at))
  {
    hide Run, Grants, LogsIn;
    RunBacked(mac, clock, acts);
    assert RegisteredOk(Run(mac, clock, acts).log, j);
  }
}
