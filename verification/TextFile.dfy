/** Text as the server's files hold it: searching, decimal numbers and dotted addresses. */
module TextFile {
  import opened Bytes

  type Text = seq<byte>

  const NL: byte := 10
  const CR: byte := 13
  const SPACE: byte := 32
  const HASH: byte := 35
  const PLUS: byte := 43
  const MINUS: byte := 45
  const DOT: byte := 46
  const ZERO: byte := 48

  /** `find(c, from)`, with the length standing for "not found". */
  function Find(s: Text, c: byte, from: nat): (i: nat)
    requires from <= |s|
    ensures from <= i <= |s| && (i < |s| ==> s[i] == c)
    ensures forall k :: from <= k < i ==> s[k] != c
    decreases |s| - from
  {
    if from == |s| || s[from] == c then from else Find(s, c, from + 1)
  }

  lemma FindIs(s: Text, c: byte, from: nat, i: nat)
    requires from <= i <= |s| && (i < |s| ==> s[i] == c) && forall k :: from <= k < i ==> s[k] != c
    ensures Find(s, c, from) == i
  {
  }

  /** A string up to its first NUL, as the C library sees it. */
  function CStr(s: Text): Text { s[..Find(s, 0, 0)] }

  lemma CStrWhole(s: Text)
    requires 0 !in s
    ensures CStr(s) == s
  {
    FindIs(s, 0, 0, |s|);
  }

  predicate StartsWith(s: Text, p: Text) { |p| <= |s| && s[..|p|] == p }

  // ---- decimal numbers ----

  predicate IsDigit(c: byte) { ZERO <= c <= ZERO + 9 }

  predicate AllDigits(s: Text) { forall i :: 0 <= i < |s| ==> IsDigit(s[i]) }

  function Decimal(n: nat): (s: Text)
    ensures s != [] && AllDigits(s)
    ensures |s| > 1 ==> s[0] != ZERO
    ensures n >= 10 ==> |s| > 1
  {
    if n < 10 then [ZERO + n] else Decimal(n / 10) + [ZERO + n % 10]
  }

  /** The value of the digits at the front, on top of `acc`. */
  function Digits(s: Text, acc: nat): nat {
    if s == [] || !IsDigit(s[0]) then acc else Digits(s[1..], 10 * acc + s[0] - ZERO)
  }

  lemma {:induction false} DigitsDecimal(n: nat, rest: Text)
    ensures Digits(Decimal(n) + rest, 0) == Digits(rest, n)
    decreases n
  {
    if n < 10 {
      assert (Decimal(n) + rest)[1..] == rest;
    } else {
      var last: Text := [ZERO + n % 10];
      assert Decimal(n) + rest == Decimal(n / 10) + (last + rest);
      DigitsDecimal(n / 10, last + rest);
      assert (last + rest)[1..] == rest;
    }
  }

  predicate IsSpace(c: byte) { c == SPACE || 9 <= c <= 13 }

  function SkipSpace(s: Text): Text {
    if s != [] && IsSpace(s[0]) then SkipSpace(s[1..]) else s
  }

  /** `atoll`, on numbers that fit. */
  function Atoll(s: Text): int {
    var t := SkipSpace(s);
    if t != [] && t[0] == MINUS then (var v: int := Digits(t[1..], 0); -v)
    else if t != [] && t[0] == PLUS then Digits(t[1..], 0)
    else Digits(t, 0)
  }

  function PrintInt(n: int): (s: Text)
    ensures s != [] && forall i :: 0 <= i < |s| ==> IsDigit(s[i]) || s[i] == MINUS
  {
    if n < 0 then [MINUS] + Decimal(-n) else Decimal(n)
  }

  /** Reading a printed number gives it back. */
  lemma AtollPrint(n: int)
    ensures Atoll(PrintInt(n)) == n
  {
    var m := if n < 0 then -n else n;
    DigitsDecimal(m, []);
    assert Decimal(m) + [] == Decimal(m);
    if n < 0 { assert PrintInt(n)[1..] == Decimal(m); }
    assert IsDigit(Decimal(m)[0]);
  }

  // ---- dotted addresses ----

  datatype Ip = Ip(a: byte, b: byte, c: byte, d: byte)

  function PrintIp(ip: Ip): Text {
    Decimal(ip.a) + [DOT] + (Decimal(ip.b) + [DOT] + (Decimal(ip.c) + [DOT] + Decimal(ip.d)))
  }

  /** One part of an address, as inet_pton accepts it: digits without a leading zero, at most 255. */
  function Octet(s: Text): Option<byte> {
    if s == [] || !AllDigits(s) || (|s| > 1 && s[0] == ZERO) || Digits(s, 0) > 255 then None else Some(Digits(s, 0))
  }

  /** What comes before the first dot, and what comes after it. */
  function Cut(s: Text): (Text, Option<Text>) {
    var i := Find(s, DOT, 0);
    if i == |s| then (s, None) else (s[..i], Some(s[i + 1..]))
  }

  lemma CutAt(a: Text, rest: Text)
    requires DOT !in a
    ensures Cut(a + [DOT] + rest) == (a, Some(rest))
  {
    var s := a + [DOT] + rest;
    forall k | 0 <= k < |a| ensures s[k] != DOT { assert s[k] == a[k]; }
    FindIs(s, DOT, 0, |a|);
    assert s[..|a|] == a && s[|a| + 1..] == rest;
  }

  function ParseIp(s: Text): Option<Ip> {
    var (a, s1) := Cut(s);
    if s1.None? then None
    else
      var (b, s2) := Cut(s1.value);
      if s2.None? then None
      else
        var (c, s3) := Cut(s2.value);
        if s3.None? then None
        else
          match (Octet(a), Octet(b), Octet(c), Octet(s3.value))
          case (Some(a), Some(b), Some(c), Some(d)) => Some(Ip(a, b, c, d))
          case _ => None
  }

  lemma OctetDecimal(b: byte)
    ensures Octet(Decimal(b)) == Some(b)
  {
    DigitsDecimal(b, []);
    assert Decimal(b) + [] == Decimal(b);
  }

  lemma NoDot(s: Text)
    requires AllDigits(s)
    ensures DOT !in s && SPACE !in s && NL !in s && 0 !in s
  {
  }

  /** Parsing a printed address gives it back. */
  lemma ParsePrintIp(ip: Ip)
    ensures ParseIp(PrintIp(ip)) == Some(ip)
  {
    hide Octet, Decimal, Cut;
    var a, b, c, d := Decimal(ip.a), Decimal(ip.b), Decimal(ip.c), Decimal(ip.d);
    NoDot(a);
    NoDot(b);
    NoDot(c);
    CutAt(a, b + [DOT] + (c + [DOT] + d));
    CutAt(b, c + [DOT] + d);
    CutAt(c, d);
    OctetDecimal(ip.a);
    OctetDecimal(ip.b);
    OctetDecimal(ip.c);
    OctetDecimal(ip.d);
  }

  lemma PrintIpClean(ip: Ip)
    ensures SPACE !in PrintIp(ip) && NL !in PrintIp(ip) && 0 !in PrintIp(ip) && PrintIp(ip) != []
  {
    hide Decimal;
    NoDot(Decimal(ip.a));
    NoDot(Decimal(ip.b));
    NoDot(Decimal(ip.c));
    NoDot(Decimal(ip.d));
  }

  // ---- lines ----

  /** The first line, without its end, and what comes after it. */
  function FirstLine(s: Text): (r: (Text, Text))
    requires s != []
    ensures |r.1| < |s|
  {
    var nl := Find(s, NL, 0);
    (s[..nl], if nl < |s| then s[nl + 1..] else [])
  }

  lemma FirstLineOf(line: Text, rest: Text)
    requires NL !in line
    ensures FirstLine(line + [NL] + rest) == (line, rest)
  {
    var s := line + [NL] + rest;
    forall k | 0 <= k < |line| ensures s[k] != NL { assert s[k] == line[k]; }
    FindIs(s, NL, 0, |line|);
    assert s[..|line|] == line && s[|line| + 1..] == rest;
  }

  /** What a loader that has come to `pos` has still to read. */
  function Rest(content: Text, pos: nat): Text {
    if pos <= |content| then content[pos..] else []
  }

  lemma FirstLineAt(content: Text, pos: nat)
    requires pos < |content|
    ensures var nl := Find(content, NL, pos);
            FirstLine(Rest(content, pos)) == (content[pos..nl], Rest(content, nl + 1))
  {
    var nl := Find(content, NL, pos);
    var s := content[pos..];
    FindIs(s, NL, 0, nl - pos);
    assert s[..nl - pos] == content[pos..nl];
    if nl < |content| { assert s[nl - pos + 1..] == content[nl + 1..]; }
  }

  function WithoutCr(line: Text): Text {
    if line != [] && line[|line| - 1] == CR then line[..|line| - 1] else line
  }
}
