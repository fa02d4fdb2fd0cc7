/** The blacklist file of AntiAbuse.cpp as text: what is written, what is read, and that reading undoes
    writing even with the leftover bytes the loader passes on. */
module Blacklist {
  import opened Bytes
  import opened TextFile

  /** "#P2P-BLACKLIST-v1\n" */
  const HEADER: Text := [35, 80, 50, 80, 45, 66, 76, 65, 67, 75, 76, 73, 83, 84, 45, 118, 49, 10]

  const IP_TAG: Text := [73, 80, 32]
  const UUID_TAG: Text := [85, 85, 73, 68, 32]

  datatype Lists = Lists(ips: map<Ip, int>, uuids: map<Text, int>)

  // ---- reading ----

  function ParseIpLine(t: Lists, line: Text): Lists
    requires |line| >= 3
  {
    var sp := Find(line, SPACE, 3);
    if sp == |line| then t
    else
      match ParseIp(CStr(line[3..sp]))
      case None => t
      case Some(ip) => t.(ips := t.ips[ip := Atoll(CStr(line[sp + 1..]))])
  }

  function ParseUuidLine(t: Lists, line: Text): Lists
    requires |line| >= 5
  {
    var sp := Find(line, SPACE, 5);
    if sp == |line| then t else t.(uuids := t.uuids[line[5..sp] := Atoll(CStr(line[sp + 1..]))])
  }

  function ParseLine(t: Lists, line: Text): Lists {
    if line == [] || line[0] == HASH then t
    else
      var line := WithoutCr(line);
      if StartsWith(line, IP_TAG) then ParseIpLine(t, line)
      else if StartsWith(line, UUID_TAG) then ParseUuidLine(t, line)
      else t
  }

  function Parse(t: Lists, content: Text): Lists
    decreases |content|
  {
    if content == [] then t
    else var (line, rest) := FirstLine(content); Parse(ParseLine(t, line), rest)
  }

  lemma ParseFrom(t: Lists, content: Text, pos: nat)
    requires pos < |content|
    ensures var nl := Find(content, NL, pos);
            Parse(t, Rest(content, pos)) == Parse(ParseLine(t, content[pos..nl]), Rest(content, nl + 1))
  {
    hide ParseLine, FirstLine;
    FirstLineAt(content, pos);
  }

  method ParseEntries(t: Lists, content: Text) returns (r: Lists)
    ensures r == Parse(t, content)
  {
    hide ParseLine, Parse, Find;
    r := t;
    var pos := 0;
    assert Rest(content, 0) == content;
    while pos < |content|
      invariant 0 <= pos <= |content| + 1
      invariant Parse(r, Rest(content, pos)) == Parse(t, content)
    {
      var nl := Find(content, NL, pos);
      ParseFrom(r, content, pos);
      var line := content[pos..nl];
      pos := nl + 1;
      r := ParseLine(r, line);
    }
    assert Rest(content, pos) == [];
    ParseNothing(r);
  }

  lemma ParseNothing(t: Lists)
    ensures Parse(t, []) == t
  {
  }

  // ---- writing ----

  function IpLine(ip: Ip, expire: int): Text { IP_TAG + PrintIp(ip) + [SPACE] + PrintInt(expire) }

  function UuidLine(uuid: Text, expire: int): Text { UUID_TAG + uuid + [SPACE] + PrintInt(expire) }

  /** When the clock was read for each entry: `save` reads it once for every line. */
  datatype Clock = Clock(ip: Ip -> int, uuid: Text -> int)

  /** The lines of the addresses in `order` that had not expired. */
  function IpLines(m: map<Ip, int>, order: seq<Ip>, now: Clock): Text
    requires forall ip :: ip in order ==> ip in m
  {
    if order == [] then []
    else
      var n := |order| - 1;
      IpLines(m, order[..n], now) + if m[order[n]] > now.ip(order[n]) then IpLine(order[n], m[order[n]]) + [NL] else []
  }

  function UuidLines(m: map<Text, int>, order: seq<Text>, now: Clock): Text
    requires forall u :: u in order ==> u in m
  {
    if order == [] then []
    else
      var n := |order| - 1;
      UuidLines(m, order[..n], now)
        + if m[order[n]] > now.uuid(order[n]) then UuidLine(order[n], m[order[n]]) + [NL] else []
  }

  /** The hash tables are written in an order of their own. */
  ghost predicate Enumerates<K(!new), V>(order: seq<K>, m: map<K, V>) {
    forall k :: k in order <==> k in m
  }

  function Plain(t: Lists, ips: seq<Ip>, uuids: seq<Text>, now: Clock): Text
    requires Enumerates(ips, t.ips) && Enumerates(uuids, t.uuids)
  {
    HEADER + IpLines(t.ips, ips, now) + UuidLines(t.uuids, uuids, now)
  }

  function Unexpired(t: Lists, now: Clock): Lists {
    Lists(map ip | ip in t.ips && t.ips[ip] > now.ip(ip) :: t.ips[ip],
          map u | u in t.uuids && t.uuids[u] > now.uuid(u) :: t.uuids[u])
  }

  // ---- reading what was written ----

  predicate CleanUuid(u: Text) { SPACE !in u && NL !in u }

  predicate AllClean(t: Lists, now: Clock) {
    forall u :: u in t.uuids && t.uuids[u] > now.uuid(u) ==> CleanUuid(u)
  }

  lemma PrintIntClean(n: int)
    ensures SPACE !in PrintInt(n) && NL !in PrintInt(n) && 0 !in PrintInt(n)
    ensures PrintInt(n)[|PrintInt(n)| - 1] != CR
  {
    hide PrintInt;
  }

  /** The two fields of a line, cut at the first space after the tag. */
  lemma Fields(tag: Text, key: Text, value: Text)
    requires SPACE !in key
    ensures var line := tag + key + [SPACE] + value;
            var sp := Find(line, SPACE, |tag|);
            sp < |line| && line[|tag|..sp] == key && line[sp + 1..] == value && line[..|tag|] == tag
  {
    var line := tag + key + [SPACE] + value;
    var sp := |tag| + |key|;
    forall k | |tag| <= k < sp ensures line[k] != SPACE { assert line[k] == key[k - |tag|]; }
    FindIs(line, SPACE, |tag|, sp);
    assert line[|tag|..sp] == key && line[sp + 1..] == value && line[..|tag|] == tag;
  }

  lemma ParseIpLineBack(t: Lists, ip: Ip, expire: int)
    ensures ParseLine(t, IpLine(ip, expire)) == t.(ips := t.ips[ip := expire]) && NL !in IpLine(ip, expire)
  {
    hide PrintIp, PrintInt, ParseIp, Atoll, CStr;
    PrintIpClean(ip);
    PrintIntClean(expire);
    ParsePrintIp(ip);
    AtollPrint(expire);
    Fields(IP_TAG, PrintIp(ip), PrintInt(expire));
    CStrWhole(PrintIp(ip));
    CStrWhole(PrintInt(expire));
    var line := IpLine(ip, expire);
    assert line[|line| - 1] == PrintInt(expire)[|PrintInt(expire)| - 1];
    assert line[0] == 73;
  }

  lemma ParseUuidLineBack(t: Lists, u: Text, expire: int)
    requires CleanUuid(u)
    ensures ParseLine(t, UuidLine(u, expire)) == t.(uuids := t.uuids[u := expire]) && NL !in UuidLine(u, expire)
  {
    hide PrintInt, Atoll, CStr;
    PrintIntClean(expire);
    AtollPrint(expire);
    Fields(UUID_TAG, u, PrintInt(expire));
    CStrWhole(PrintInt(expire));
    var line := UuidLine(u, expire);
    assert line[|line| - 1] == PrintInt(expire)[|PrintInt(expire)| - 1];
    assert line[0] == 85;
    assert !StartsWith(line, IP_TAG) by { assert line[..3][0] == 85; }
  }

  lemma ParseFirst(t: Lists, line: Text, rest: Text)
    requires NL !in line
    ensures Parse(t, line + [NL] + rest) == Parse(ParseLine(t, line), rest)
  {
    hide ParseLine;
    FirstLineOf(line, rest);
  }

  function AddIps(t: Lists, m: map<Ip, int>, order: seq<Ip>, now: Clock): Lists
    requires forall ip :: ip in order ==> ip in m
  {
    if order == [] then t
    else
      var n := |order| - 1;
      var s := AddIps(t, m, order[..n], now);
      if m[order[n]] > now.ip(order[n]) then s.(ips := s.ips[order[n] := m[order[n]]]) else s
  }

  function AddUuids(t: Lists, m: map<Text, int>, order: seq<Text>, now: Clock): Lists
    requires forall u :: u in order ==> u in m
  {
    if order == [] then t
    else
      var n := |order| - 1;
      var s := AddUuids(t, m, order[..n], now);
      if m[order[n]] > now.uuid(order[n]) then s.(uuids := s.uuids[order[n] := m[order[n]]]) else s
  }

  lemma IpsStep(m: map<Ip, int>, order: seq<Ip>, now: Clock, rest: Text)
    requires order != [] && forall ip :: ip in order ==> ip in m
    ensures var n := |order| - 1;
            IpLines(m, order, now) + rest
              == IpLines(m, order[..n], now)
                 + if m[order[n]] > now.ip(order[n]) then IpLine(order[n], m[order[n]]) + [NL] + rest else rest
  {
    hide IpLine;
  }

  lemma UuidsStep(m: map<Text, int>, order: seq<Text>, now: Clock, rest: Text)
    requires order != [] && forall u :: u in order ==> u in m
    ensures var n := |order| - 1;
            UuidLines(m, order, now) + rest
              == UuidLines(m, order[..n], now)
                 + if m[order[n]] > now.uuid(order[n]) then UuidLine(order[n], m[order[n]]) + [NL] + rest else rest
  {
    hide UuidLine;
  }

  lemma {:induction false} ParseIps(t: Lists, m: map<Ip, int>, order: seq<Ip>, now: Clock, rest: Text)
    requires forall ip :: ip in order ==> ip in m
    ensures Parse(t, IpLines(m, order, now) + rest) == Parse(AddIps(t, m, order, now), rest)
    decreases |order|
  {
    hide ParseLine, IpLine, Parse;
    if order == [] {
      assert IpLines(m, order, now) + rest == rest;
    } else {
      hide IpLines;
      var n := |order| - 1;
      var ip := order[n];
      var line := IpLine(ip, m[ip]);
      IpsStep(m, order, now, rest);
      ParseIps(t, m, order[..n], now, if m[ip] > now.ip(ip) then line + [NL] + rest else rest);
      if m[ip] > now.ip(ip) {
        ParseIpLineBack(AddIps(t, m, order[..n], now), ip, m[ip]);
        ParseFirst(AddIps(t, m, order[..n], now), line, rest);
      }
    }
  }

  lemma {:induction false} ParseUuids(t: Lists, m: map<Text, int>, order: seq<Text>, now: Clock, rest: Text)
    requires forall u :: u in order ==> u in m && (m[u] > now.uuid(u) ==> CleanUuid(u))
    ensures Parse(t, UuidLines(m, order, now) + rest) == Parse(AddUuids(t, m, order, now), rest)
    decreases |order|
  {
    hide ParseLine, UuidLine, Parse, CleanUuid;
    if order == [] {
      assert UuidLines(m, order, now) + rest == rest;
    } else {
      hide UuidLines;
      var n := |order| - 1;
      var u := order[n];
      var line := UuidLine(u, m[u]);
      UuidsStep(m, order, now, rest);
      ParseUuids(t, m, order[..n], now, if m[u] > now.uuid(u) then line + [NL] + rest else rest);
      if m[u] > now.uuid(u) {
        ParseUuidLineBack(AddUuids(t, m, order[..n], now), u, m[u]);
        ParseFirst(AddUuids(t, m, order[..n], now), line, rest);
      }
    }
  }

  lemma {:induction false} AddIpsAt(t: Lists, m: map<Ip, int>, order: seq<Ip>, now: Clock, ip: Ip)
    requires forall ip :: ip in order ==> ip in m
    ensures var r := AddIps(t, m, order, now);
            && r.uuids == t.uuids
            && (ip in r.ips <==> ip in t.ips || (ip in order && m[ip] > now.ip(ip)))
            && (ip in r.ips ==> r.ips[ip] == if ip in order && m[ip] > now.ip(ip) then m[ip] else t.ips[ip])
  {
    if order != [] {
      var n := |order| - 1;
      AddIpsAt(t, m, order[..n], now, ip);
      assert ip in order <==> ip in order[..n] || ip == order[n];
    }
  }

  lemma {:induction false} AddUuidsAt(t: Lists, m: map<Text, int>, order: seq<Text>, now: Clock, u: Text)
    requires forall u :: u in order ==> u in m
    ensures var r := AddUuids(t, m, order, now);
            && r.ips == t.ips
            && (u in r.uuids <==> u in t.uuids || (u in order && m[u] > now.uuid(u)))
            && (u in r.uuids ==> r.uuids[u] == if u in order && m[u] > now.uuid(u) then m[u] else t.uuids[u])
  {
    if order != [] {
      var n := |order| - 1;
      AddUuidsAt(t, m, order[..n], now, u);
      assert u in order <==> u in order[..n] || u == order[n];
    }
  }

  /** Adding the lines of a table to empty tables gives its unexpired part. */
  lemma AddAll(t: Lists, ips: seq<Ip>, uuids: seq<Text>, now: Clock)
    requires Enumerates(ips, t.ips) && Enumerates(uuids, t.uuids)
    ensures AddUuids(AddIps(Lists(map[], map[]), t.ips, ips, now), t.uuids, uuids, now) == Unexpired(t, now)
  {
    hide AddIps, AddUuids;
    var none := Lists(map[], map[]);
    var a := AddIps(none, t.ips, ips, now);
    var b := AddUuids(a, t.uuids, uuids, now);
    forall ip
      ensures b.ips == a.ips && a.uuids == map[]
      ensures ip in a.ips <==> ip in t.ips && t.ips[ip] > now.ip(ip)
      ensures ip in a.ips ==> a.ips[ip] == t.ips[ip]
    {
      AddIpsAt(none, t.ips, ips, now, ip);
      AddUuidsAt(a, t.uuids, uuids, now, []);
    }
    forall u
      ensures u in b.uuids <==> u in t.uuids && t.uuids[u] > now.uuid(u)
      ensures u in b.uuids ==> b.uuids[u] == t.uuids[u]
    {
      AddIpsAt(none, t.ips, ips, now, Ip(0, 0, 0, 0));
      AddUuidsAt(a, t.uuids, uuids, now, u);
    }
    assert b.ips == Unexpired(t, now).ips;
    assert b.uuids == Unexpired(t, now).uuids;
  }

  // ---- leftover bytes ----

  /** Padding bytes and a NUL, as the loader leaves them behind the text. */
  predicate Leftover(s: Text) {
    forall i :: 0 <= i < |s| ==> s[i] <= 16
  }

  /** Such bytes, newlines or not, are never an entry. */
  lemma {:induction false} LeftoverIgnored(t: Lists, s: Text)
    requires Leftover(s)
    ensures Parse(t, s) == t
    decreases |s|
  {
    if s != [] {
      var (line, rest) := FirstLine(s);
      assert Leftover(line) && Leftover(rest);
      assert ParseLine(t, line) == t by {
        var l := WithoutCr(line);
        if StartsWith(l, IP_TAG) { assert l[..3][0] == 73; }
        if StartsWith(l, UUID_TAG) { assert l[..5][0] == 85; }
      }
      LeftoverIgnored(t, rest);
    }
  }

  lemma HeaderSkipped(t: Lists, rest: Text)
    ensures Parse(t, HEADER + rest) == Parse(t, rest)
  {
    var line := HEADER[..17];
    assert HEADER == line + [NL];
    assert HEADER + rest == line + [NL] + rest;
    ParseFirst(t, line, rest);
  }

  /** The body of a saved file, followed by any leftover bytes, restores exactly the unexpired entries. */
  lemma BodyRestores(t: Lists, ips: seq<Ip>, uuids: seq<Text>, now: Clock, left: Text)
    requires Enumerates(ips, t.ips) && Enumerates(uuids, t.uuids) && AllClean(t, now) && Leftover(left)
    ensures Parse(Lists(map[], map[]), IpLines(t.ips, ips, now) + UuidLines(t.uuids, uuids, now) + left)
        == Unexpired(t, now)
  {
    hide Leftover, Parse, IpLines, UuidLines, CleanUuid, AddIps, AddUuids, Unexpired;
    var none := Lists(map[], map[]);
    var il, ul := IpLines(t.ips, ips, now), UuidLines(t.uuids, uuids, now);
    assert il + ul + left == il + (ul + left);
    ParseIps(none, t.ips, ips, now, ul + left);
    var a := AddIps(none, t.ips, ips, now);
    ParseUuids(a, t.uuids, uuids, now, left);
    LeftoverIgnored(AddUuids(a, t.uuids, uuids, now), left);
    AddAll(t, ips, uuids, now);
  }

  // ---- uuids with a space or a newline are lost ----

  lemma {:induction false} ParsedUuidsClean(t: Lists, content: Text)
    requires forall u :: u in t.uuids ==> CleanUuid(u)
    ensures forall u :: u in Parse(t, content).uuids ==> CleanUuid(u)
    decreases |content|
  {
    if content != [] {
      var (line, rest) := FirstLine(content);
      LineUuidsClean(t, line);
      ParsedUuidsClean(ParseLine(t, line), rest);
    }
  }

  lemma LineUuidsClean(t: Lists, line: Text)
    requires NL !in line && forall u :: u in t.uuids ==> CleanUuid(u)
    ensures forall u :: u in ParseLine(t, line).uuids ==> CleanUuid(u)
  {
    hide ParseIp, Atoll, CStr;
    var l := WithoutCr(line);
    if StartsWith(l, UUID_TAG) {
      var sp := Find(l, SPACE, 5);
      forall i | 0 <= i < sp - 5 ensures l[5..sp][i] != SPACE && l[5..sp][i] != NL {
        assert l[5..sp][i] == l[5 + i] == line[5 + i];
      }
    }
  }

  /** A saved blacklist, loaded into empty tables, is exactly the unexpired one if and only if no unexpired
      uuid contains a space or a newline. */
  lemma RestoredExactly(t: Lists, ips: seq<Ip>, uuids: seq<Text>, now: Clock)
    requires Enumerates(ips, t.ips) && Enumerates(uuids, t.uuids)
    ensures Parse(Lists(map[], map[]), Plain(t, ips, uuids, now)) == Unexpired(t, now) <==> AllClean(t, now)
  {
    hide Parse, IpLines, UuidLines;
    var none := Lists(map[], map[]);
    var body := IpLines(t.ips, ips, now) + UuidLines(t.uuids, uuids, now);
    assert Plain(t, ips, uuids, now) == HEADER + body;
    HeaderSkipped(none, body);
    if AllClean(t, now) {
      assert body + [] == body;
      BodyRestores(t, ips, uuids, now, []);
    }
    ParsedUuidsClean(none, Plain(t, ips, uuids, now));
    if Parse(none, Plain(t, ips, uuids, now)) == Unexpired(t, now) {
      forall u | u in t.uuids && t.uuids[u] > now.uuid(u) ensures CleanUuid(u) { assert u in Unexpired(t, now).uuids; }
    }
  }
}
