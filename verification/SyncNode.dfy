/** The registry sync of one NatServer: what it does with an update of its own, with an entry and
    with a delete notice from another server. */
module SyncNode {
  import opened Bytes
  import opened Graph
  import opened PeerManage

  const SYNC_HOP_MAX: byte := 3
  const SYNC_HOP_SNAP: byte := 0xFF
  const SEEN_SECONDS := 300
  const SEEN_MAX := 16384

  /** A sync entry without extension data. */
  datatype Entry = Entry(uuid: string, pub: Endpoint, lan: Endpoint, devType: byte, natType: byte, hop: byte, hb: nat)

  datatype Key = Key(uuid: string, hb: nat, from: Endpoint)

  type SeenMap = map<Key, int>

  datatype Node = Node(enabled: bool, addrs: seq<Endpoint>, seen: SeenMap, table: Table)
  {
    predicate Syncing() { enabled && addrs != [] }
  }

  predicate Recent(seen: SeenMap, k: Key, now: int) {
    k in seen && now - seen[k] < SEEN_SECONDS
  }

  function Prune(seen: SeenMap, now: int): SeenMap {
    map k | k in seen && Recent(seen, k, now) :: seen[k]
  }

  function MarkSeen(seen: SeenMap, k: Key, now: int): SeenMap {
    if Recent(seen, k, now) then seen
    else
      var s := seen[k := now];
      if |s| > SEEN_MAX then Prune(s, now) else s
  }

  predicate Duplicate(n: Node, e: Entry, from: Endpoint, now: int) {
    e.hop != SYNC_HOP_SNAP && Recent(n.seen, Key(e.uuid, e.hb, from), now)
  }

  /** The entry is taken into the table. */
  predicate Lands(n: Node, e: Entry, from: Endpoint, now: int) {
    n.Syncing() && e.uuid != "" && !Duplicate(n, e, from, now)
  }

  predicate Forwards(e: Entry) { e.hop != SYNC_HOP_SNAP && e.hop < SYNC_HOP_MAX }

  function HandleEntry(n: Node, e: Entry, from: Endpoint, now: int): (r: (Node, seq<Endpoint>)) {
    if !Lands(n, e, from, now) then (n, [])
    else
      (n.(seen := if e.hop != SYNC_HOP_SNAP then MarkSeen(n.seen, Key(e.uuid, e.hb, from), now) else n.seen,
          table := UpsertSynced(n.table, e.uuid, e.pub, e.lan, e.devType, e.natType, [], e.hb)),
       if Forwards(e) then Onward(n.addrs, Some(from)) else [])
  }

  /** What is forwarded to each of them. */
  function Forwarded(e: Entry): Entry
    requires Forwards(e)
  {
    e.(hop := e.hop + 1)
  }

  function HandleDel(n: Node, uuid: string, from: Endpoint): (r: (Node, seq<Endpoint>)) {
    if !n.Syncing() then (n, [])
    else (n.(table := Remove(n.table, uuid)), Onward(n.addrs, Some(from)))
  }

  /** A landed entry is on record with the data of its source, logged in for an hour from its heartbeat. */
  lemma LandedIsOnRecord(n: Node, e: Entry, from: Endpoint, now: int)
    requires Lands(n, e, from, now) && |e.uuid| <= MAX_UUID_LEN
    ensures var t := HandleEntry(n, e, from, now).0.table;
            && e.uuid in t.peers && t.peers[e.uuid].pub == e.pub && t.peers[e.uuid].lastHeartbeat == e.hb
            && forall later: int :: later < e.hb + SESSION_SECONDS ==> Authed(t, e.uuid, later)
  {
  }

  /** A copy of an entry over the same link is dropped for 300 seconds; pruning never forgets a key earlier. */
  lemma SecondCopyDropped(n: Node, e: Entry, from: Endpoint, now: int, later: int)
    requires Lands(n, e, from, now) && e.hop != SYNC_HOP_SNAP && now <= later < now + SEEN_SECONDS
    ensures !Lands(HandleEntry(n, e, from, now).0, e, from, later)
  {
    var k := Key(e.uuid, e.hb, from);
    assert k in n.seen[k := now];
    assert Recent(n.seen[k := now], k, now);
  }

  lemma MarkKeepsRecent(seen: SeenMap, k: Key, j: Key, now: int)
    ensures Recent(MarkSeen(seen, k, now), j, now) <==> j == k || Recent(seen, j, now)
  {
    assert Recent(seen[k := now], k, now);
    if j != k { assert Recent(seen[k := now], j, now) <==> Recent(seen, j, now); }
  }

  class NatServer {
    const enabled: bool
    const addrs: seq<Endpoint>
    const peers: PeerManager
    var seen: SeenMap

    constructor (enabled: bool, addrs: seq<Endpoint>)
      ensures fresh(peers) && State() == Node(enabled, addrs, map[], Table(map[], map[]))
    {
      this.enabled, this.addrs, seen := enabled, addrs, map[];
      peers := new PeerManager();
    }

    function State(): Node
      reads this, peers
    {
      Node(enabled, addrs, seen, peers.State())
    }

    method SeenSyncEntry(k: Key, now: int) returns (dup: bool)
      modifies this
      ensures dup == Recent(old(seen), k, now) && seen == MarkSeen(old(seen), k, now)
    {
      if k in seen && now - seen[k] < SEEN_SECONDS { return true; }
      seen := seen[k := now];
      if |seen| > SEEN_MAX {
        ghost var s0 := seen;
        var todo := seen.Keys;
        while todo != {}
          invariant todo <= s0.Keys
          invariant forall j :: j in seen <==> j in s0 && (j in todo || Recent(s0, j, now))
          invariant forall j :: j in seen ==> seen[j] == s0[j]
        {
          var j :| j in todo;
          if now - seen[j] >= SEEN_SECONDS { seen := seen - {j}; }
          todo := todo - {j};
        }
        assert seen == Prune(s0, now);
      }
      dup := false;
    }

    /** The addresses a message is sent to; `except` is the server it came from. */
    method Targets(except: Option<Endpoint>) returns (to: seq<Endpoint>)
      ensures to == Onward(addrs, except)
    {
      hide Onward;
      to := [];
      OnwardOfNone(except);
      for i := 0 to |addrs|
        invariant to == Onward(addrs[..i], except)
      {
        assert addrs[..i + 1] == addrs[..i] + [addrs[i]];
        OnwardSnoc(addrs[..i], addrs[i], except);
        if Some(addrs[i]) != except { to := to + [addrs[i]]; }
      }
      assert addrs[..|addrs|] == addrs;
    }

    method HandleSyncEntry(e: Entry, from: Endpoint, now: int) returns (sends: seq<(Endpoint, Entry)>)
      modifies this, peers
      ensures var (n, to) := HandleEntry(old(State()), e, from, now);
              && State() == n && |sends| == |to|
              && forall i :: 0 <= i < |to| ==> sends[i].0 == to[i] && Forwards(e) && sends[i].1 == Forwarded(e)
    {
      if !enabled || addrs == [] || e.uuid == "" { return []; }
      if e.hop != SYNC_HOP_SNAP {
        var dup := SeenSyncEntry(Key(e.uuid, e.hb, from), now);
        if dup { return []; }
      }
      var ok := peers.DoUpsertSynced(e.uuid, e.pub, e.lan, e.devType, e.natType, [], e.hb);
      sends := [];
      if e.hop != SYNC_HOP_SNAP && e.hop < SYNC_HOP_MAX {
        var to := Targets(Some(from));
        var f := e.(hop := e.hop + 1);
        sends := seq(|to|, i requires 0 <= i < |to| => (to[i], f));
      }
    }

    method HandleSyncDel(uuid: string, from: Endpoint) returns (to: seq<Endpoint>)
      modifies this, peers
      ensures (State(), to) == HandleDel(old(State()), uuid, from)
    {
      if !enabled || addrs == [] { return []; }
      to := Targets(Some(from));
      var had := peers.DoRemove(uuid);
    }

    /** A registration of this server's own starts at hop 1, towards every sync peer. */
    method BroadcastPeerEntry(e: Entry) returns (sends: seq<(Endpoint, Entry)>)
      ensures |sends| == if enabled then |addrs| else 0
      ensures forall i :: 0 <= i < |sends| ==> sends[i] == (addrs[i], e.(hop := 1))
    {
      if !enabled || addrs == [] { return []; }
      sends := [(addrs[0], e.(hop := 1))];
      for i := 1 to |addrs|
        invariant |sends| == i && forall j :: 0 <= j < i ==> sends[j] == (addrs[j], e.(hop := 1))
      {
        sends := sends + [(addrs[i], e.(hop := 1))];
      }
    }
  }
}
