/** The tables of the relay proxy, P2PProxy.cpp: each locked section as a function on the tables,
    and the class whose methods update them in place. */
module Proxy {
  import opened Bytes

  const REG_TTL := 120

  type Uuid = string

  /** `addr_to_u64`, which is injective on IPv4 endpoints. */
  type Addr = nat

  datatype Entry = Entry(addr: Addr, lastReg: int)

  datatype Path = Path(dst: Addr, count: nat, uuid: Uuid, lastActive: int)

  type Row = map<Addr, Path>

  datatype Tables = Tables(uuid2addr: map<Uuid, Entry>, addr2uuid: map<Addr, Uuid>, paths: map<Addr, Row>)

  // ---- the locked sections ----

  /** The uuid that a registration from `from` throws out: whoever is on record for the address. */
  function Replaced(t: Tables, uuid: Uuid, from: Addr): set<Uuid> {
    if from in t.addr2uuid && t.addr2uuid[from] != uuid then {t.addr2uuid[from]} else {}
  }

  function Register(t: Tables, max: nat, uuid: Uuid, from: Addr, authentic: bool, now: int): (r: (int, Tables)) {
    if uuid == "" then (2, t)
    else if !authentic then (3, t)
    else if |t.uuid2addr| >= max && uuid !in t.uuid2addr then (1, t)
    else (0, t.(uuid2addr := (t.uuid2addr - Replaced(t, uuid, from))[uuid := Entry(from, now)],
                addr2uuid := t.addr2uuid[from := uuid]))
  }

  predicate Unregisters(t: Tables, uuid: Uuid, from: Addr) {
    uuid in t.uuid2addr && t.uuid2addr[uuid].addr == from
  }

  function WithoutEnd(paths: map<Addr, Row>, a: Addr): map<Addr, Row> {
    map s | s in paths && s != a :: paths[s] - {a}
  }

  function Unregister(t: Tables, uuid: Uuid, from: Addr): Tables {
    if !Unregisters(t, uuid, from) then t
    else Tables(t.uuid2addr - {uuid}, t.addr2uuid - {from}, WithoutEnd(t.paths, from))
  }

  function RowOf(paths: map<Addr, Row>, s: Addr): Row {
    if s in paths then paths[s] else map[]
  }

  /** Resets the path from `s` to `d`, or creates it. */
  function Touch(paths: map<Addr, Row>, s: Addr, d: Addr, uuid: Uuid, now: int): map<Addr, Row> {
    var m := RowOf(paths, s);
    paths[s := m[d := if d in m then m[d].(count := 3, lastActive := now) else Path(d, 3, uuid, now)]]
  }

  /** The clock is read once for each direction. */
  function Relay(t: Tables, dst: Uuid, src: Uuid, from: Addr, now1: int, now2: int): (Option<Addr>, Tables) {
    if dst !in t.uuid2addr then (None, t)
    else
      var d := t.uuid2addr[dst].addr;
      (Some(d), t.(paths := Touch(Touch(t.paths, from, d, dst, now1), d, from, src, now2)))
  }

  function Less(p: Path): Path { p.(count := if p.count > 0 then p.count - 1 else 0) }

  predicate Survives(p: Path, now: int) {
    Less(p).count != 0 && now - p.lastActive <= REG_TTL
  }

  function DecayRow(m: Row, now: int): Row {
    map d | d in m && Survives(m[d], now) :: Less(m[d])
  }

  function Decay(paths: map<Addr, Row>, now: int): map<Addr, Row> {
    map s | s in paths && DecayRow(paths[s], now) != map[] :: DecayRow(paths[s], now)
  }

  predicate Expired(e: Entry, now: int) { now - e.lastReg > REG_TTL }

  /** The first locked section of a timer pass, and the addresses it puts aside for the second. */
  function Phase1(t: Tables, now: int): (r: (Tables, set<Addr>)) {
    (Tables(map u | u in t.uuid2addr && !Expired(t.uuid2addr[u], now) :: t.uuid2addr[u],
            t.addr2uuid, Decay(t.paths, now)),
     set u | u in t.uuid2addr && Expired(t.uuid2addr[u], now) :: t.uuid2addr[u].addr)
  }

  function Phase2(t: Tables, dead: set<Addr>): Tables {
    t.(addr2uuid := t.addr2uuid - dead)
  }

  // ---- the code ----

  class P2PProxy {
    const maxProxy: u16
    var uuid2addr: map<Uuid, Entry>
    var addr2uuid: map<Addr, Uuid>
    var srcpaths: map<Addr, Row>
    var relayPkts: nat
    var relayBytes: nat

    constructor (maxProxy: u16)
      ensures this.maxProxy == maxProxy && State() == Tables(map[], map[], map[])
    {
      this.maxProxy := maxProxy;
      uuid2addr, addr2uuid, srcpaths, relayPkts, relayBytes := map[], map[], map[], 0, 0;
    }

    function State(): Tables
      reads this
    {
      Tables(uuid2addr, addr2uuid, srcpaths)
    }

    method DoRegister(uuid: Uuid, from: Addr, authentic: bool, now: int) returns (result: int)
      modifies this`uuid2addr, this`addr2uuid
      ensures (result, State()) == Register(old(State()), maxProxy, uuid, from, authentic, now)
    {
      if uuid == "" { return 2; }
      if !authentic { return 3; }
      if |uuid2addr| >= maxProxy && uuid !in uuid2addr { return 1; }
      if from in addr2uuid && addr2uuid[from] != uuid {
        uuid2addr := uuid2addr - {addr2uuid[from]};
      }
      assert uuid2addr == old(uuid2addr) - Replaced(old(State()), uuid, from);
      uuid2addr := uuid2addr[uuid := Entry(from, now)];
      addr2uuid := addr2uuid[from := uuid];
      result := 0;
    }

    method DoUnregister(uuid: Uuid, from: Addr)
      modifies this`uuid2addr, this`addr2uuid, this`srcpaths
      ensures State() == Unregister(old(State()), uuid, from)
    {
      if uuid !in uuid2addr { return; }
      var ua := uuid2addr[uuid].addr;
      if ua != from { return; }
      addr2uuid := addr2uuid - {ua};
      ghost var p0 := srcpaths;
      srcpaths := srcpaths - {ua};
      var rows := srcpaths.Keys;
      while rows != {}
        invariant rows <= srcpaths.Keys == p0.Keys - {ua}
        invariant forall s :: s in rows ==> srcpaths[s] == p0[s]
        invariant forall s :: s in srcpaths && s !in rows ==> srcpaths[s] == p0[s] - {ua}
        invariant uuid2addr == old(uuid2addr) && addr2uuid == old(addr2uuid) - {ua}
      {
        var s :| s in rows;
        srcpaths := srcpaths[s := srcpaths[s] - {ua}];
        rows := rows - {s};
      }
      assert srcpaths == WithoutEnd(p0, ua);
      uuid2addr := uuid2addr - {uuid};
    }

    method TouchPath(s: Addr, d: Addr, uuid: Uuid, now: int)
      modifies this`srcpaths
      ensures srcpaths == Touch(old(srcpaths), s, d, uuid, now)
    {
      if s !in srcpaths { srcpaths := srcpaths[s := map[]]; }
      var m := srcpaths[s];
      if d !in m {
        m := m[d := Path(d, 3, uuid, now)];
      } else {
        m := m[d := m[d].(count := 3, lastActive := now)];
      }
      srcpaths := srcpaths[s := m];
    }

    /** RELAY_DATA: `sent` is where the packet of `plen` bytes was forwarded to. */
    method RelayData(dst: Uuid, src: Uuid, from: Addr, now1: int, now2: int, plen: nat) returns (sent: Option<Addr>)
      modifies this`srcpaths, this`relayPkts, this`relayBytes
      ensures (sent, State()) == Relay(old(State()), dst, src, from, now1, now2)
      ensures relayPkts == old(relayPkts) + (if sent.Some? then 1 else 0)
      ensures relayBytes == old(relayBytes) + (if sent.Some? then plen else 0)
    {
      if dst !in uuid2addr { return None; }
      var d := uuid2addr[dst].addr;
      TouchPath(from, d, dst, now1);
      TouchPath(d, from, src, now2);
      relayPkts := relayPkts + 1;
      relayBytes := relayBytes + plen;
      sent := Some(d);
    }

    method TimerPhase1(now: int) returns (dead: seq<Addr>)
      modifies this`uuid2addr, this`srcpaths
      ensures (State(), set a | a in dead) == Phase1(old(State()), now)
    {
      DecayPaths(now);
      dead := DropExpired(now);
      assert uuid2addr == Phase1(old(State()), now).0.uuid2addr;
    }

    method DecayPaths(now: int)
      modifies this`srcpaths
      ensures srcpaths == Decay(old(srcpaths), now)
    {
      hide DecayRow;
      ghost var p0 := srcpaths;
      var rows := srcpaths.Keys;
      while rows != {}
        invariant rows <= p0.Keys
        invariant forall s :: s in rows ==> s in srcpaths && srcpaths[s] == p0[s]
        invariant forall s :: s in p0 && s !in rows ==>
                    if DecayRow(p0[s], now) == map[] then s !in srcpaths
                    else s in srcpaths && srcpaths[s] == DecayRow(p0[s], now)
        invariant srcpaths.Keys <= p0.Keys
      {
        var s :| s in rows;
        var m := DecayOne(srcpaths[s], now);
        if m == map[] { srcpaths := srcpaths - {s}; } else { srcpaths := srcpaths[s := m]; }
        rows := rows - {s};
      }
      assert srcpaths == Decay(p0, now);
    }

    static method DecayOne(row: Row, now: int) returns (m: Row)
      ensures m == DecayRow(row, now)
    {
      m := row;
      var todo := m.Keys;
      while todo != {}
        invariant todo <= row.Keys && m.Keys <= row.Keys
        invariant forall d :: d in todo ==> d in m && m[d] == row[d]
        invariant forall d :: d in row && d !in todo ==>
                    if Survives(row[d], now) then d in m && m[d] == Less(row[d]) else d !in m
      {
        var d :| d in todo;
        var p := m[d];
        if p.count > 0 { p := p.(count := p.count - 1); }
        if p.count == 0 || now - p.lastActive > REG_TTL { m := m - {d}; } else { m := m[d := p]; }
        todo := todo - {d};
      }
      assert m == DecayRow(row, now);
    }

    method DropExpired(now: int) returns (dead: seq<Addr>)
      modifies this`uuid2addr
      ensures uuid2addr == Phase1(old(State()), now).0.uuid2addr
      ensures (set a | a in dead) == Phase1(old(State()), now).1
    {
      hide Decay;
      ghost var m0 := uuid2addr;
      dead := [];
      var todo := uuid2addr.Keys;
      while todo != {}
        invariant todo <= m0.Keys
        invariant forall u :: u in uuid2addr <==> u in m0 && (u in todo || !Expired(m0[u], now))
        invariant forall u :: u in uuid2addr ==> uuid2addr[u] == m0[u]
        invariant forall a :: a in dead ==> DeadIn(m0, now, a)
        invariant forall u :: u in m0 && u !in todo && Expired(m0[u], now) ==> m0[u].addr in dead
      {
        var u :| u in todo;
        var e := uuid2addr[u];
        if Expired(e, now) {
          dead := dead + [e.addr];
          uuid2addr := uuid2addr - {u};
        }
        todo := todo - {u};
      }
      assert uuid2addr == Phase1(old(State()), now).0.uuid2addr;
    }

    ghost static predicate DeadIn(m: map<Uuid, Entry>, now: int, a: Addr) {
      exists u :: u in m && Expired(m[u], now) && m[u].addr == a
    }

    method TimerPhase2(dead: seq<Addr>)
      modifies this`addr2uuid
      ensures State() == Phase2(old(State()), set a | a in dead)
    {
      for i := 0 to |dead|
        invariant addr2uuid == old(addr2uuid) - (set a | a in dead[..i])
        invariant uuid2addr == old(uuid2addr) && srcpaths == old(srcpaths)
      {
        addr2uuid := addr2uuid - {dead[i]};
        assert dead[..i + 1] == dead[..i] + [dead[i]];
      }
      assert dead[..|dead|] == dead;
    }
  }
}
