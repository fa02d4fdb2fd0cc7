/** AntiAbuse.cpp: the blacklist with its expiry, its file, and the flood window. */
module AntiAbuse {
  import opened Bytes
  import opened TextFile
  import opened Blacklist
  import opened FileCipher
  import AesCode

  /** "P2PB" */
  const MAGIC: Text := [80, 50, 80, 66]

  /** Whether the file was accepted, and the tables after loading it on top of `t`. */
  function Load(t: Lists, pass: Text, raw: Text): (bool, Lists) {
    if raw == [] then (false, t)
    else if !StartsWith(raw, MAGIC) then (true, Parse(t, raw))
    else
      match OpenFile(pass, raw)
      case None => (false, t)
      case Some(o) =>
        if o.plen < |HEADER| || |o.buf| < |HEADER| || !StartsWith(o.buf, HEADER) then (false, t)
        else (true, Parse(t, Body(o)))
  }

  /** `substr(18, plen)` of the buffer: the length is that of the whole text, so bytes behind it come along. */
  function Body(o: Opened): Text
    requires |o.buf| >= |HEADER|
  {
    o.buf[|HEADER|..Min(|HEADER| + o.plen, |o.buf|)]
  }

  function Saved(t: Lists, pass: Text, salt: Text, iv: Text, ips: seq<Ip>, uuids: seq<Text>, now: Clock): Text
    requires Enumerates(ips, t.ips) && Enumerates(uuids, t.uuids) && |salt| == SALT_LEN && |iv| == IV_LEN
  {
    var plain := Plain(t, ips, uuids, now);
    if pass == [] then plain else SealFile(MAGIC, pass, salt, iv, plain)
  }

  lemma SavedBody(plain: Text)
    requires |plain| >= |HEADER| && plain[..|HEADER|] == HEADER
    ensures var o := Opened(plain + Padding(|plain|) + [0], |plain|);
            && StartsWith(o.buf, HEADER)
            && Leftover(Padding(|plain|) + [0])
            && Body(o) == plain[|HEADER|..] + (Padding(|plain|) + [0])
  {
    var left := Padding(|plain|) + [0];
    var buf := plain + Padding(|plain|) + [0];
    assert buf == plain + left;
    assert buf[..|HEADER|] == HEADER;
    assert |HEADER| + |plain| >= |buf|;
    assert buf[|HEADER|..|buf|] == plain[|HEADER|..] + left;
  }

  lemma PlainStarts(t: Lists, ips: seq<Ip>, uuids: seq<Text>, now: Clock)
    requires Enumerates(ips, t.ips) && Enumerates(uuids, t.uuids)
    ensures var plain := Plain(t, ips, uuids, now);
            && |plain| >= |HEADER| && plain[..|HEADER|] == HEADER && !StartsWith(plain, MAGIC)
            && plain[|HEADER|..] == IpLines(t.ips, ips, now) + UuidLines(t.uuids, uuids, now)
  {
    hide IpLines, UuidLines;
    var plain := Plain(t, ips, uuids, now);
    assert plain == HEADER + (IpLines(t.ips, ips, now) + UuidLines(t.uuids, uuids, now));
    assert plain[..4][0] == 35;
  }

  /** A saved file is accepted, and what is parsed is the text without its header, in the encrypted case
      with leftover bytes behind it. */
  lemma LoadsBody(t: Lists, pass: Text, salt: Text, iv: Text, ips: seq<Ip>, uuids: seq<Text>, now: Clock)
      returns (left: Text)
    requires Enumerates(ips, t.ips) && Enumerates(uuids, t.uuids) && |salt| == SALT_LEN && |iv| == IV_LEN && pass != []
    ensures Leftover(left)
    ensures Load(Lists(map[], map[]), pass, Saved(t, pass, salt, iv, ips, uuids, now))
         == (true, Parse(Lists(map[], map[]), IpLines(t.ips, ips, now) + UuidLines(t.uuids, uuids, now) + left))
  {
    hide Parse, Plain, IpLines, UuidLines, SealFile, OpenFile, Body, Padding, Leftover;
    var plain := Plain(t, ips, uuids, now);
    PlainStarts(t, ips, uuids, now);
    OpenSealed(MAGIC, pass, salt, iv, plain);
    SealStarts(pass, salt, iv, plain);
    SavedBody(plain);
    left := Padding(|plain|) + [0];
  }

  lemma SealStarts(pass: Text, salt: Text, iv: Text, plain: Text)
    requires |salt| == SALT_LEN && |iv| == IV_LEN
    ensures var raw := SealFile(MAGIC, pass, salt, iv, plain); raw != [] && StartsWith(raw, MAGIC)
  {
    hide SealFile;
    SealParts(MAGIC, pass, salt, iv, plain);
  }

  /** Saving and loading into empty tables, in the clear or encrypted, under any iteration order of the hash
      tables, clock readings, salt and IV: the file is accepted, and the result is exactly the unexpired
      entries if and only if no unexpired uuid contains a space or a newline. */
  lemma SaveLoad(t: Lists, pass: Text, salt: Text, iv: Text, ips: seq<Ip>, uuids: seq<Text>, now: Clock)
    requires Enumerates(ips, t.ips) && Enumerates(uuids, t.uuids) && |salt| == SALT_LEN && |iv| == IV_LEN
    ensures var (ok, r) := Load(Lists(map[], map[]), pass, Saved(t, pass, salt, iv, ips, uuids, now));
            ok && (r == Unexpired(t, now) <==> AllClean(t, now))
  {
    hide Parse, Plain, IpLines, UuidLines, Unexpired, AllClean, OpenFile, Leftover;
    if pass == [] {
      PlainStarts(t, ips, uuids, now);
      RestoredExactly(t, ips, uuids, now);
    } else {
      hide Load, Saved, Enumerates;
      var left := LoadsBody(t, pass, salt, iv, ips, uuids, now);
      EncryptedExactly(t, ips, uuids, now, left);
    }
  }

  lemma EncryptedExactly(t: Lists, ips: seq<Ip>, uuids: seq<Text>, now: Clock, left: Text)
    requires Enumerates(ips, t.ips) && Enumerates(uuids, t.uuids) && Leftover(left)
    ensures var content := IpLines(t.ips, ips, now) + UuidLines(t.uuids, uuids, now) + left;
            Parse(Lists(map[], map[]), content) == Unexpired(t, now) <==> AllClean(t, now)
  {
    hide Parse, IpLines, UuidLines, Leftover;
    var none := Lists(map[], map[]);
    var content := IpLines(t.ips, ips, now) + UuidLines(t.uuids, uuids, now) + left;
    if AllClean(t, now) { BodyRestores(t, ips, uuids, now, left); }
    ParsedUuidsClean(none, content);
    if Parse(none, content) == Unexpired(t, now) {
      forall u | u in t.uuids && t.uuids[u] > now.uuid(u) ensures CleanUuid(u) { assert u in Unexpired(t, now).uuids; }
    }
  }

  // ---- the flood window ----

  /** The arrivals of the last second. */
  function Window(arrivals: seq<int>, now: int): seq<int> {
    if arrivals != [] && now - arrivals[0] >= 1 then Window(arrivals[1..], now) else arrivals
  }

  predicate Sorted(s: seq<int>) { forall i, j :: 0 <= i <= j < |s| ==> s[i] <= s[j] }

  /** The first `k` arrivals are over a second old, the others are not. */
  predicate Splits(s: seq<int>, k: int, now: int)
    requires 0 <= k <= |s|
  {
    && (forall i :: 0 <= i < k ==> now - s[i] >= 1)
    && (forall i :: k <= i < |s| ==> now - s[i] < 1)
  }

  lemma SplitsPast(s: seq<int>, k: nat, now: int)
    requires s != [] && now - s[0] >= 1 && k <= |s[1..]| && Splits(s[1..], k, now)
    ensures Splits(s, k + 1, now)
  {
    forall i | 0 <= i < k + 1 ensures now - s[i] >= 1 { if i > 0 { assert s[i] == s[1..][i - 1]; } }
    forall i | k + 1 <= i < |s| ensures now - s[i] < 1 { assert s[i] == s[1..][i - 1]; }
  }

  lemma WindowStep(arrivals: seq<int>, now: int)
    ensures Window(arrivals, now)
         == if arrivals != [] && now - arrivals[0] >= 1 then Window(arrivals[1..], now) else arrivals
  {
  }

  /** For arrivals in order of time the window keeps exactly those of the current second, in order. */
  lemma {:induction false} WindowIs(arrivals: seq<int>, now: int) returns (k: nat)
    requires Sorted(arrivals)
    ensures k <= |arrivals| && Window(arrivals, now) == arrivals[k..] && Splits(arrivals, k, now)
    decreases |arrivals|
  {
    hide Window;
    WindowStep(arrivals, now);
    if arrivals != [] && now - arrivals[0] >= 1 {
      var rest := arrivals[1..];
      assert Sorted(rest);
      hide Sorted, Splits;
      k := WindowIs(rest, now);
      SplitsPast(arrivals, k, now);
      assert rest[k..] == arrivals[k + 1..];
      k := k + 1;
    } else {
      k := 0;
    }
  }

  class AntiAbuse {
    const tables: AesCode.Tables
    var floodThreshold: nat
    var blacklistSec: nat
    var flood: map<Ip, seq<int>>
    var ipBlack: map<Ip, int>
    var uuidBlack: map<Text, int>
    var path: Text
    var pass: Text
    var dirty: bool
    var droppedFlood: nat

    constructor (tables: AesCode.Tables)
      ensures this.tables == tables && State() == Lists(map[], map[]) && path == [] && pass == [] && !dirty
          && flood == map[]
      ensures floodThreshold == 200 && blacklistSec == 60
    {
      this.tables := tables;
      floodThreshold, blacklistSec, flood, ipBlack, uuidBlack := 200, 60, map[], map[], map[];
      path, pass, dirty, droppedFlood := [], [], false, 0;
    }

    function State(): Lists
      reads this
    {
      Lists(ipBlack, uuidBlack)
    }

    /** `raw` is the content of the file, if it could be opened. */
    method DoLoad(raw: Option<Text>) returns (ok: bool)
      requires tables.Valid()
      modifies this`ipBlack, this`uuidBlack, this`dirty
      ensures raw.None? ==> !ok && State() == old(State()) && dirty == old(dirty)
      ensures raw.Some? ==> (ok, State()) == Load(old(State()), pass, raw.value) && dirty == (old(dirty) || ok)
    {
      hide Parse, OpenFile, AesCode.Tables.Valid;
      if raw.None? || raw.value == [] { return false; }
      var content := raw.value;
      if StartsWith(content, MAGIC) {
        var o := OpenFileCode(tables, pass, content);
        if o.None? { return false; }
        var buf, plen := o.value.buf, o.value.plen;
        if plen < |HEADER| || |buf| < |HEADER| || !StartsWith(buf, HEADER) { return false; }
        content := buf[|HEADER|..Min(|HEADER| + plen, |buf|)];
      }
      var r := ParseEntries(State(), content);
      ipBlack, uuidBlack := r.ips, r.uuids;
      dirty := true;
      ok := true;
    }

    /** The loop over the addresses. */
    method WriteIps(now: Clock) returns (text: Text, ghost order: seq<Ip>)
      ensures Enumerates(order, ipBlack) && text == IpLines(ipBlack, order, now)
    {
      hide IpLine;
      text, order := [], [];
      var todo := ipBlack.Keys;
      while todo != {}
        invariant todo <= ipBlack.Keys
        invariant forall ip :: ip in order <==> ip in ipBlack && ip !in todo
        invariant text == IpLines(ipBlack, order, now)
      {
        var ip :| ip in todo;
        assert (order + [ip])[..|order|] == order;
        if ipBlack[ip] > now.ip(ip) { text := text + (IpLine(ip, ipBlack[ip]) + [NL]); }
        order := order + [ip];
        todo := todo - {ip};
      }
    }

    /** The loop over the uuids. */
    method WriteUuids(now: Clock) returns (text: Text, ghost order: seq<Text>)
      ensures Enumerates(order, uuidBlack) && text == UuidLines(uuidBlack, order, now)
    {
      hide UuidLine;
      text, order := [], [];
      var todo := uuidBlack.Keys;
      while todo != {}
        invariant todo <= uuidBlack.Keys
        invariant forall u :: u in order <==> u in uuidBlack && u !in todo
        invariant text == UuidLines(uuidBlack, order, now)
      {
        var u :| u in todo;
        assert (order + [u])[..|order|] == order;
        if uuidBlack[u] > now.uuid(u) { text := text + (UuidLine(u, uuidBlack[u]) + [NL]); }
        order := order + [u];
        todo := todo - {u};
      }
    }

    /** The content of the file that is written, if one is; `ips` and `uuids` are the orders in which the
        tables were walked. */
    method Save(now: Clock, salt: Text, iv: Text)
      returns (file: Option<Text>, ghost ips: seq<Ip>, ghost uuids: seq<Text>)
      requires tables.Valid() && |salt| == SALT_LEN && |iv| == IV_LEN
      ensures file.Some? <==> path != [] && dirty
      ensures file.Some? ==> Enumerates(ips, ipBlack) && Enumerates(uuids, uuidBlack)
                             && file.value == Saved(State(), pass, salt, iv, ips, uuids, now)
    {
      hide IpLines, UuidLines, Enumerates, SealFile, AesCode.Tables.Valid;
      ips, uuids := [], [];
      if path == [] || !dirty { return None, [], []; }
      var il, ul: Text;
      il, ips := WriteIps(now);
      ul, uuids := WriteUuids(now);
      var plain := HEADER + il + ul;
      if pass == [] { return Some(plain), ips, uuids; }
      var raw := SealFileCode(tables, MAGIC, pass, salt, iv, plain);
      file := Some(raw);
    }

    /** True for a packet to be dropped. An address that sends more than the threshold within a second is
        blacklisted, and stays so until its entry is removed. */
    method CheckFlood(ip: Ip, now: int) returns (drop: bool)
      modifies this`flood, this`ipBlack, this`dirty, this`droppedFlood
      ensures var w := Window(if ip in old(flood) then old(flood)[ip] else [], now) + [now];
              && drop == (ip in old(ipBlack) || |w| > floodThreshold)
              && (ip in old(ipBlack) ==> flood == old(flood) && ipBlack == old(ipBlack) && dirty == old(dirty))
              && (ip !in old(ipBlack) && !drop ==>
                    flood == old(flood)[ip := w] && ipBlack == old(ipBlack) && dirty == old(dirty))
              && (ip !in old(ipBlack) && drop ==>
                    flood == old(flood)[ip := []] && ipBlack == old(ipBlack)[ip := now + blacklistSec] && dirty)
    {
      if ip in ipBlack { return true; }
      var dq := if ip in flood then flood[ip] else [];
      ghost var was := dq;
      while dq != [] && now - dq[0] >= 1
        invariant Window(dq, now) == Window(was, now)
        decreases |dq|
      {
        dq := dq[1..];
      }
      dq := dq + [now];
      if |dq| > floodThreshold {
        ipBlack := ipBlack[ip := now + blacklistSec];
        flood := flood[ip := []];
        dirty := true;
        droppedFlood := droppedFlood + floodThreshold;
        return true;
      }
      flood := flood[ip := dq];
      drop := false;
    }

    method IsUuidBlacklisted(uuid: Text, now: int) returns (yes: bool)
      modifies this`uuidBlack, this`dirty
      ensures yes == (uuid != [] && uuid in old(uuidBlack) && now <= old(uuidBlack)[uuid])
      ensures uuidBlack == if !yes && uuid != [] then old(uuidBlack) - {uuid} else old(uuidBlack)
      ensures dirty == (old(dirty) || uuidBlack != old(uuidBlack))
    {
      if uuid == [] { return false; }
      if uuid !in uuidBlack {
        assert uuidBlack - {uuid} == uuidBlack;
        return false;
      }
      if now > uuidBlack[uuid] {
        uuidBlack := uuidBlack - {uuid};
        dirty := true;
        return false;
      }
      yes := true;
    }
  }
}
