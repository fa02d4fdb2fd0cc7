/** The licence file of LicenseMgr.cpp as text: one uuid to a line. */
module License {
  import opened Bytes
  import opened TextFile

  /** "#P2P-LICENSE-v1\n" */
  const HEADER: Text := [35, 80, 50, 80, 45, 76, 73, 67, 69, 78, 83, 69, 45, 118, 49, 10]

  // ---- reading ----

  function ParseLine(out: set<Text>, line: Text): set<Text> {
    if line == [] || line[0] == HASH then out
    else
      var l := WithoutCr(line);
      if l == [] then out else out + {l}
  }

  function Parse(out: set<Text>, content: Text): set<Text>
    decreases |content|
  {
    if content == [] then out
    else var (line, rest) := FirstLine(content); Parse(ParseLine(out, line), rest)
  }

  lemma ParseFrom(out: set<Text>, content: Text, pos: nat)
    requires pos < |content|
    ensures var nl := Find(content, NL, pos);
            Parse(out, Rest(content, pos)) == Parse(ParseLine(out, content[pos..nl]), Rest(content, nl + 1))
  {
    hide ParseLine, FirstLine;
    FirstLineAt(content, pos);
  }

  method ParseUuids(out: set<Text>, content: Text) returns (r: set<Text>)
    ensures r == Parse(out, content)
  {
    hide Parse, Find;
    r := out;
    var pos := 0;
    assert Rest(content, 0) == content;
    while pos < |content|
      invariant 0 <= pos <= |content| + 1
      invariant Parse(r, Rest(content, pos)) == Parse(out, content)
    {
      var nl := Find(content, NL, pos);
      ParseFrom(r, content, pos);
      var line := content[pos..nl];
      pos := nl + 1;
      if line != [] && line[0] != HASH {
        if line[|line| - 1] == CR { line := line[..|line| - 1]; }
        if line != [] { r := r + {line}; }
      }
    }
    assert Rest(content, pos) == [];
    ParseNothing(r);
  }

  lemma ParseNothing(out: set<Text>)
    ensures Parse(out, []) == out
  {
  }

  // ---- writing ----

  function Lines(order: seq<Text>): Text {
    if order == [] then [] else Lines(order[..|order| - 1]) + order[|order| - 1] + [NL]
  }

  ghost predicate Enumerates(order: seq<Text>, uuids: set<Text>) {
    forall u :: u in order <==> u in uuids
  }

  function Plain(order: seq<Text>): Text { HEADER + Lines(order) }

  // ---- reading what was written ----

  lemma ParseFirst(out: set<Text>, line: Text, rest: Text)
    requires NL !in line
    ensures Parse(out, line + [NL] + rest) == Parse(ParseLine(out, line), rest)
  {
    hide ParseLine;
    FirstLineOf(line, rest);
  }

  /** A uuid that comes back as it was written. */
  predicate LineSafe(u: Text) {
    u != [] && u[0] != HASH && NL !in u && u[|u| - 1] != CR
  }

  function Folded(out: set<Text>, order: seq<Text>): set<Text> {
    if order == [] then out else ParseLine(Folded(out, order[..|order| - 1]), order[|order| - 1])
  }

  lemma {:induction false} ParseLines(out: set<Text>, order: seq<Text>, rest: Text)
    requires forall u :: u in order ==> NL !in u
    ensures Parse(out, Lines(order) + rest) == Parse(Folded(out, order), rest)
    decreases |order|
  {
    hide ParseLine, Parse;
    if order == [] {
      assert Lines(order) + rest == rest;
    } else {
      var n := |order| - 1;
      var u := order[n];
      assert u in order;
      assert Lines(order) + rest == Lines(order[..n]) + (u + [NL] + rest);
      ParseLines(out, order[..n], u + [NL] + rest);
      ParseFirst(Folded(out, order[..n]), u, rest);
    }
  }

  lemma {:induction false} FoldedIs(out: set<Text>, order: seq<Text>, x: Text)
    ensures x in Folded(out, order) <==> x in out || exists u :: u in order && Yields(u, x)
    decreases |order|
  {
    if order != [] {
      var n := |order| - 1;
      FoldedIs(out, order[..n], x);
      assert order == order[..n] + [order[n]];
      assert x in Folded(out, order) <==> x in Folded(out, order[..n]) || Yields(order[n], x);
      if u :| u in order && Yields(u, x) { assert u in order[..n] || u == order[n]; }
      if Yields(order[n], x) { assert order[n] in order; }
      if u :| u in order[..n] && Yields(u, x) { assert u in order; }
    }
  }

  /** Reading the line `u` yields the uuid `x`. */
  predicate Yields(u: Text, x: Text) {
    u != [] && u[0] != HASH && WithoutCr(u) == x && x != []
  }

  lemma HeaderSkipped(out: set<Text>, rest: Text)
    ensures Parse(out, HEADER + rest) == Parse(out, rest)
  {
    var line := HEADER[..15];
    assert HEADER == line + [NL];
    assert HEADER + rest == line + [NL] + rest;
    ParseFirst(out, line, rest);
  }

  /** What is read back after a written list, with any bytes behind it. */
  lemma ReadBack(uuids: set<Text>, order: seq<Text>, left: Text)
    requires Enumerates(order, uuids) && forall u :: u in uuids ==> LineSafe(u)
    ensures Parse({}, Lines(order) + left) == Parse(uuids, left)
  {
    hide Parse, Folded, Lines;
    ParseLines({}, order, left);
    forall x ensures x in Folded({}, order) <==> x in uuids {
      FoldedIs({}, order, x);
      if x in uuids { assert LineSafe(x) && x in order && Yields(x, x); }
      if u :| u in order && Yields(u, x) { assert LineSafe(u); }
    }
    assert Folded({}, order) == uuids;
  }

  lemma {:induction false} ParsedAreLines(out: set<Text>, content: Text)
    requires forall u :: u in out ==> Readable(u)
    ensures forall u :: u in Parse(out, content) ==> Readable(u)
    decreases |content|
  {
    hide Find;
    if content != [] {
      var (line, rest) := FirstLine(content);
      ParsedAreLines(ParseLine(out, line), rest);
    }
  }

  predicate Readable(u: Text) { u != [] && u[0] != HASH && NL !in u }

  /** The longest of the uuids that end in a carriage return. */
  lemma {:induction false} Longest(uuids: set<Text>, u: Text) returns (w: Text)
    requires u in uuids && EndsInCr(u)
    ensures w in uuids && EndsInCr(w) && forall x :: x in uuids && EndsInCr(x) ==> |x| <= |w|
    decreases uuids
  {
    if x :| x in uuids && EndsInCr(x) && |x| > |u| {
      w := Longest(uuids - {u}, x);
    } else {
      w := u;
    }
  }

  predicate EndsInCr(u: Text) { u != [] && u[|u| - 1] == CR }

  lemma CrIsLost(uuids: set<Text>, order: seq<Text>, u: Text)
    requires Enumerates(order, uuids) && u in uuids && EndsInCr(u) && forall x :: x in uuids ==> NL !in x
    ensures Parse({}, Lines(order)) != uuids
  {
    hide Parse, Folded, Lines;
    var w := Longest(uuids, u);
    ParseLines({}, order, []);
    assert Lines(order) + [] == Lines(order);
    ParseNothing(Folded({}, order));
    FoldedIs({}, order, w);
    forall x | x in order ensures !Yields(x, w) { NotYielded(x, w); }
  }

  lemma NotYielded(x: Text, w: Text)
    requires EndsInCr(w) && (EndsInCr(x) ==> |x| <= |w|)
    ensures !Yields(x, w)
  {
  }

  /** The lines of a list parse back to it exactly if every uuid is safe, and only then. */
  lemma LinesExactly(uuids: set<Text>, order: seq<Text>)
    requires Enumerates(order, uuids)
    ensures Parse({}, Lines(order)) == uuids <==> forall u :: u in uuids ==> LineSafe(u)
  {
    hide Parse, Lines;
    if forall u :: u in uuids ==> LineSafe(u) {
      assert Lines(order) + [] == Lines(order);
      ReadBack(uuids, order, []);
      ParseNothing(uuids);
    }
    if Parse({}, Lines(order)) == uuids {
      ParsedAreLines({}, Lines(order));
      assert forall x :: x in uuids ==> Readable(x);
      forall u | u in uuids ensures LineSafe(u) {
        if EndsInCr(u) { CrIsLost(uuids, order, u); }
      }
    }
  }

  /** A plain licence file restores exactly the saved uuids if and only if none is empty, starts with a hash,
      contains a newline or ends in a carriage return. */
  lemma RestoredExactly(uuids: set<Text>, order: seq<Text>)
    requires Enumerates(order, uuids)
    ensures Parse({}, Plain(order)) == uuids <==> forall u :: u in uuids ==> LineSafe(u)
  {
    hide Parse, Lines;
    HeaderSkipped({}, Lines(order));
    LinesExactly(uuids, order);
  }

  // ---- leftover bytes ----

  /** What the loader passes on behind the text of a decrypted file: at most sixteen bytes of padding and a NUL. */
  function Leftover(pad: byte): Text
    requires 1 <= pad <= 16
  {
    var s := Repeat<byte>(pad, pad) + [0];
    s[..Min(16, |s|)]
  }

  /** The uuid these bytes are read as. */
  function Spurious(pad: byte): Text
    requires 1 <= pad <= 16
  {
    if pad == NL then [0] else Leftover(pad)
  }

  lemma {:induction false} NewlinesSkipped(out: set<Text>, n: nat, rest: Text)
    ensures Parse(out, Repeat<byte>(NL, n) + rest) == Parse(out, rest)
  {
    if n == 0 {
      assert Repeat<byte>(NL, 0) + rest == rest;
    } else {
      assert Repeat<byte>(NL, n) + rest == [] + [NL] + (Repeat<byte>(NL, n - 1) + rest);
      ParseFirst(out, [], Repeat<byte>(NL, n - 1) + rest);
      NewlinesSkipped(out, n - 1, rest);
    }
  }

  lemma LastLine(out: set<Text>, s: Text)
    requires s != [] && NL !in s
    ensures Parse(out, s) == ParseLine(out, s)
  {
    hide ParseLine;
    FindIs(s, NL, 0, |s|);
    assert s[..|s|] == s;
    assert FirstLine(s) == (s, []);
    ParseNothing(ParseLine(out, s));
  }

  /** The leftover bytes are read as one more uuid. */
  lemma LeftoverAdds(out: set<Text>, pad: byte)
    requires 1 <= pad <= 16
    ensures Parse(out, Leftover(pad)) == out + {Spurious(pad)}
  {
    hide Parse;
    if pad == NL {
      var s := Repeat<byte>(NL, 10) + [0];
      assert s[..11] == s;
      assert Leftover(pad) == s;
      NewlinesSkipped(out, 10, [0]);
      LastLine(out, [0]);
    } else {
      var s := Leftover(pad);
      assert NL !in s && s[0] == pad && s[|s| - 1] != CR;
      LastLine(out, s);
    }
  }
}
