/** Challenge login and heartbeat registration of a NatServer. */
module Login {
  import opened Bytes
  import opened PeerManage

  const NONCE_SECONDS := 30

  type Nonce = seq<byte>

  /** HMAC under the server's secret, over uuid and nonce. */
  type Mac = (string, Nonce) -> seq<byte>

  datatype Challenge = Challenge(nonce: Nonce, expire: int)

  datatype Desk = Desk(nonces: map<string, Challenge>, table: Table)

  datatype LoginResult = AuthOk | BadMac | Blacklisted | NotWhitelisted

  /** Whether blacklist and licence let a uuid pass. */
  datatype Gate = Gate(blacklisted: bool, licensed: bool)

  function Issue(d: Desk, uuid: string, nonce: Nonce, now: int): Desk {
    d.(nonces := d.nonces[uuid := Challenge(nonce, now + NONCE_SECONDS)])
  }

  /** AUTH_CHALLENGE: the result code, and the nonce only for a uuid that may log in. */
  function AskChallenge(d: Desk, gate: Gate, uuid: string, nonce: Nonce, now: int): (int, Desk) {
    if gate.blacklisted then (1, d)
    else if !gate.licensed then (2, d)
    else (0, Issue(d, uuid, nonce, now))
  }

  predicate Answers(c: Challenge, mac: Mac, uuid: string, nonce: Nonce, tag: seq<byte>, now: int) {
    now <= c.expire && nonce == c.nonce && tag == mac(uuid, nonce)
  }

  /** A challenge is used up by the first attempt, right or wrong. */
  function Verify(d: Desk, enabled: bool, mac: Mac, uuid: string, nonce: Nonce, tag: seq<byte>, now: int,
      later: int): (bool, Desk) {
    if !enabled then (true, d)
    else if uuid !in d.nonces then (false, d)
    else
      var rest := d.nonces - {uuid};
      if Answers(d.nonces[uuid], mac, uuid, nonce, tag, now) then
        (true, Desk(rest, SetAuthExpire(d.table, uuid, later + SESSION_SECONDS)))
      else (false, d.(nonces := rest))
  }

  function DoLogin(d: Desk, enabled: bool, mac: Mac, gate: Gate, uuid: string, nonce: Nonce, tag: seq<byte>, now: int,
      later: int): (LoginResult, Desk) {
    if gate.blacklisted then (Blacklisted, d)
    else if !gate.licensed then (NotWhitelisted, d)
    else
      var (ok, d') := Verify(d, enabled, mac, uuid, nonce, tag, now, later);
      (if ok then AuthOk else BadMac, d')
  }

  datatype Report = Report(pub: Endpoint, lan: Endpoint, devType: byte, natType: byte, extinfo: seq<byte>)

  /** Result 1: log in first; 2: refused; 0: registered. */
  function Heartbeat(d: Desk, enabled: bool, gate: Gate, uuid: string, r: Report, now: int, later: int): (int, Desk) {
    if enabled && !Authed(d.table, uuid, now) then (1, d)
    else if gate.blacklisted || !gate.licensed then (2, d)
    else (0, d.(table := Upsert(d.table, uuid, r.pub, r.lan, r.devType, r.natType, r.extinfo, later)))
  }

  class AuthServer {
    const enabled: bool
    const mac: Mac
    const peers: PeerManager
    var nonces: map<string, Challenge>

    constructor (enabled: bool, mac: Mac)
      ensures this.enabled == enabled && this.mac == mac && fresh(peers) && State() == Desk(map[], Table(map[], map[]))
    {
      this.enabled, this.mac, nonces := enabled, mac, map[];
      peers := new PeerManager();
    }

    function State(): Desk
      reads this, peers
    {
      Desk(nonces, peers.State())
    }

    method OnChallenge(gate: Gate, uuid: string, nonce: Nonce, now: int) returns (result: int)
      modifies this`nonces
      ensures (result, State()) == AskChallenge(old(State()), gate, uuid, nonce, now)
    {
      if gate.blacklisted { return 1; }
      if !gate.licensed { return 2; }
      nonces := nonces[uuid := Challenge(nonce, now + 30)];
      result := 0;
    }

    method VerifyAuthLogin(uuid: string, nonce: Nonce, tag: seq<byte>, now: int, later: int) returns (ok: bool)
      modifies this`nonces, peers
      ensures (ok, State()) == Verify(old(State()), enabled, mac, uuid, nonce, tag, now, later)
    {
      if !enabled { return true; }
      if uuid !in nonces { return false; }
      var c := nonces[uuid];
      nonces := nonces - {uuid};
      if now > c.expire { return false; }
      if c.nonce != nonce { return false; }
      if mac(uuid, nonce) != tag { return false; }
      peers.DoSetAuthExpire(uuid, later + 3600);
      ok := true;
    }

    method OnLogin(gate: Gate, uuid: string, nonce: Nonce, tag: seq<byte>, now: int, later: int)
        returns (result: LoginResult)
      modifies this`nonces, peers
      ensures (result, State()) == DoLogin(old(State()), enabled, mac, gate, uuid, nonce, tag, now, later)
    {
      if gate.blacklisted { return Blacklisted; }
      if !gate.licensed { return NotWhitelisted; }
      var ok := VerifyAuthLogin(uuid, nonce, tag, now, later);
      result := if ok then AuthOk else BadMac;
    }

    method HandleHeartbeat(gate: Gate, uuid: string, r: Report, now: int, later: int) returns (result: int)
      modifies peers
      ensures (result, State()) == Heartbeat(old(State()), enabled, gate, uuid, r, now, later)
    {
      if enabled {
        var authed := peers.IsAuthed(uuid, now);
        if !authed { return 1; }
      }
      if gate.blacklisted || !gate.licensed { return 2; }
      var ok := peers.DoUpsert(uuid, r.pub, r.lan, r.devType, r.natType, r.extinfo, later);
      result := 0;
    }
  }
}
