/** The online peers and the login sessions of a NatServer, PeerManage.cpp. */
module PeerManage {
  import opened Bytes

  const MAX_EXTINFO := 1024
  const SESSION_SECONDS := 3600

  datatype Peer = Peer(pub: Endpoint, lan: Endpoint, devType: byte, natType: byte,
                       lastHeartbeat: int, registerTime: int, authExpire: int, extinfo: seq<byte>)

  datatype Table = Table(peers: map<string, Peer>, sessions: map<string, int>)

  predicate UuidOk(uuid: string) { uuid != "" && |uuid| <= MAX_UUID_LEN }

  /** A peer record with what a heartbeat reports; over-long extension data is ignored. */
  function Reported(p: Peer, pub: Endpoint, lan: Endpoint, dev: byte, nat_: byte, ext: seq<byte>, at: int): Peer {
    p.(pub := pub, lan := lan, devType := dev, natType := nat_, lastHeartbeat := at,
       extinfo := if |ext| <= MAX_EXTINFO then ext else p.extinfo)
  }

  function Blank(pub: Endpoint, at: int): Peer {
    Peer(pub, pub, 0, 0, at, at, 0, [])
  }

  function Upsert(t: Table, uuid: string, pub: Endpoint, lan: Endpoint, dev: byte, nat_: byte, ext: seq<byte>,
      now: int): Table {
    if !UuidOk(uuid) then t
    else
      var was := if uuid in t.peers then t.peers[uuid] else Blank(pub, now);
      t.(peers := t.peers[uuid := Reported(was, pub, lan, dev, nat_, ext, now)])
  }

  /** A record from another server keeps the heartbeat time of its source, and counts as logged in. */
  function UpsertSynced(t: Table, uuid: string, pub: Endpoint, lan: Endpoint, dev: byte, nat_: byte, ext: seq<byte>,
      hb: int): Table {
    if !UuidOk(uuid) then t
    else
      var was := if uuid in t.peers then t.peers[uuid] else Blank(pub, hb);
      t.(peers := t.peers[uuid := Reported(was, pub, lan, dev, nat_, ext, hb).(authExpire := hb + SESSION_SECONDS)])
  }

  function Remove(t: Table, uuid: string): Table { t.(peers := t.peers - {uuid}) }

  function SetAuthExpire(t: Table, uuid: string, expire: int): Table {
    Table(if uuid in t.peers then t.peers[uuid := t.peers[uuid].(authExpire := expire)] else t.peers,
          t.sessions[uuid := expire])
  }

  predicate Authed(t: Table, uuid: string, now: int) {
    (uuid in t.sessions && t.sessions[uuid] > now) || (uuid in t.peers && t.peers[uuid].authExpire > now)
  }

  function CleanupSessions(t: Table, now: int): Table {
    t.(sessions := map u | u in t.sessions && t.sessions[u] > now :: t.sessions[u])
  }

  predicate TimedOut(p: Peer, timeout: int, now: int) { now - p.lastHeartbeat > timeout }

  function CleanupTimeout(t: Table, timeout: int, now: int): Table {
    t.(peers := map u | u in t.peers && !TimedOut(t.peers[u], timeout, now) :: t.peers[u])
  }

  /** Dropping expired sessions changes no answer about who is logged in, now or later. */
  lemma CleanupKeepsAuthed(t: Table, uuid: string, now: int, later: int)
    requires now <= later
    ensures Authed(CleanupSessions(t, now), uuid, later) <==> Authed(t, uuid, later)
  {
  }

  class PeerManager {
    var peers: map<string, Peer>
    var sessions: map<string, int>

    constructor ()
      ensures State() == Table(map[], map[])
    {
      peers, sessions := map[], map[];
    }

    function State(): Table
      reads this
    {
      Table(peers, sessions)
    }

    method DoUpsert(uuid: string, pub: Endpoint, lan: Endpoint, dev: byte, nat_: byte, ext: seq<byte>, now: int)
        returns (ok: bool)
      modifies this
      ensures State() == Upsert(old(State()), uuid, pub, lan, dev, nat_, ext, now)
      ensures ok == UuidOk(uuid)
    {
      if uuid == "" || |uuid| > MAX_UUID_LEN { return false; }
      if uuid !in peers {
        peers := peers[uuid := Peer(pub, lan, dev, nat_, now, now, 0, if |ext| <= MAX_EXTINFO then ext else [])];
      } else {
        var p := peers[uuid];
        p := p.(pub := pub, lan := lan, devType := dev, natType := nat_, lastHeartbeat := now);
        if |ext| <= MAX_EXTINFO { p := p.(extinfo := ext); }
        peers := peers[uuid := p];
      }
      ok := true;
    }

    method DoUpsertSynced(uuid: string, pub: Endpoint, lan: Endpoint, dev: byte, nat_: byte, ext: seq<byte>, hb: int)
        returns (ok: bool)
      modifies this
      ensures State() == UpsertSynced(old(State()), uuid, pub, lan, dev, nat_, ext, hb)
      ensures ok == UuidOk(uuid)
    {
      if uuid == "" || |uuid| > MAX_UUID_LEN { return false; }
      if uuid !in peers {
        peers := peers[uuid := Peer(pub, lan, dev, nat_, hb, hb, hb + 3600, if |ext| <= MAX_EXTINFO then ext else [])];
      } else {
        var p := peers[uuid];
        p := p.(pub := pub, lan := lan, devType := dev, natType := nat_, lastHeartbeat := hb);
        if |ext| <= MAX_EXTINFO { p := p.(extinfo := ext); }
        peers := peers[uuid := p.(authExpire := hb + 3600)];
      }
      ok := true;
    }

    method DoRemove(uuid: string) returns (had: bool)
      modifies this
      ensures State() == Remove(old(State()), uuid) && had == (uuid in old(peers))
    {
      had := uuid in peers;
      peers := peers - {uuid};
    }

    method DoSetAuthExpire(uuid: string, expire: int)
      modifies this
      ensures State() == SetAuthExpire(old(State()), uuid, expire)
    {
      sessions := sessions[uuid := expire];
      if uuid in peers { peers := peers[uuid := peers[uuid].(authExpire := expire)]; }
    }

    method IsAuthed(uuid: string, now: int) returns (yes: bool)
      ensures yes == Authed(State(), uuid, now)
    {
      if uuid in sessions && sessions[uuid] > now { return true; }
      if uuid !in peers { return false; }
      yes := peers[uuid].authExpire > now;
    }

    method DoCleanupSessions(now: int)
      modifies this
      ensures State() == CleanupSessions(old(State()), now)
    {
      ghost var s0 := sessions;
      var todo := sessions.Keys;
      while todo != {}
        invariant todo <= s0.Keys && peers == old(peers)
        invariant forall u :: u in sessions <==> u in s0 && (u in todo || s0[u] > now)
        invariant forall u :: u in sessions ==> sessions[u] == s0[u]
      {
        var u :| u in todo;
        if sessions[u] <= now { sessions := sessions - {u}; }
        todo := todo - {u};
      }
      assert sessions == CleanupSessions(old(State()), now).sessions;
    }

    /** Returns the uuids removed, each once. */
    method CleanupAndCollect(timeout: int, now: int) returns (removed: seq<string>)
      modifies this
      ensures State() == CleanupTimeout(old(State()), timeout, now)
      ensures forall u :: u in removed <==> u in old(peers) && u !in peers
      ensures forall i, j :: 0 <= i < j < |removed| ==> removed[i] != removed[j]
    {
      ghost var p0 := peers;
      removed := [];
      var todo := peers.Keys;
      while todo != {}
        invariant todo <= p0.Keys && sessions == old(sessions)
        invariant forall u :: u in peers <==> u in p0 && (u in todo || !TimedOut(p0[u], timeout, now))
        invariant forall u :: u in peers ==> peers[u] == p0[u]
        invariant forall u :: u in removed <==> u in p0 && u !in peers
        invariant forall i, j :: 0 <= i < j < |removed| ==> removed[i] != removed[j]
      {
        var u :| u in todo;
        if now - peers[u].lastHeartbeat > timeout {
          assert TimedOut(p0[u], timeout, now) && u !in removed;
          removed := removed + [u];
          peers := peers - {u};
        }
        todo := todo - {u};
      }
      assert peers == CleanupTimeout(old(State()), timeout, now).peers;
    }
  }
}
