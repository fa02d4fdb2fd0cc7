/** LicenseMgr.cpp: the licence list, its file, and the mutex that a successful load never gives back. */
module LicenseMgr {
  import opened Bytes
  import opened TextFile
  import opened License
  import opened FileCipher
  import AesCode
  import Cbc

  /** "P2PL" */
  const MAGIC: Text := [80, 50, 80, 76]

  /** Whether the file is accepted, and the list `uuids_` holds once it is parsed. */
  function Load(t: set<Text>, pass: Text, raw: Text): (bool, set<Text>) {
    if !StartsWith(raw, MAGIC) then (true, Parse({}, raw))
    else
      match OpenFile(pass, raw)
      case None => (false, t)
      case Some(o) =>
        if o.plen < |HEADER| || |o.buf| < |HEADER| || !StartsWith(o.buf, HEADER) then (false, t)
        else (true, Parse({}, Body(o)))
  }

  /** `substr(16, plen)` of the buffer. */
  function Body(o: Opened): Text
    requires |o.buf| >= |HEADER|
  {
    o.buf[|HEADER|..Min(|HEADER| + o.plen, |o.buf|)]
  }

  /** The text proper: the same with the length of the header taken off. */
  function Intended(o: Opened): Text
    requires |HEADER| <= o.plen <= |o.buf|
  {
    o.buf[|HEADER|..o.plen]
  }

  function Saved(pass: Text, salt: Text, iv: Text, order: seq<Text>): Text
    requires |salt| == SALT_LEN && |iv| == IV_LEN
  {
    if pass == [] then Plain(order) else SealFile(MAGIC, pass, salt, iv, Plain(order))
  }

  /** An empty list lets everyone in. */
  predicate Allowed(uuids: set<Text>, uuid: Text) { uuids == {} || uuid in uuids }

  lemma PlainStarts(order: seq<Text>)
    ensures var plain := Plain(order);
            |plain| >= |HEADER| && plain[..|HEADER|] == HEADER && !StartsWith(plain, MAGIC)
                && plain[|HEADER|..] == Lines(order)
  {
    hide Lines;
    assert Plain(order)[..4][0] == 35;
  }

  /** The bytes the loader passes on: the text and then the first bytes of the padding and the NUL. */
  lemma SavedBody(plain: Text)
    requires |plain| >= |HEADER| && plain[..|HEADER|] == HEADER
    ensures var o := Opened(plain + Padding(|plain|) + [0], |plain|);
            && StartsWith(o.buf, HEADER)
            && Intended(o) == plain[|HEADER|..]
            && Body(o) == plain[|HEADER|..] + Leftover(Cbc.PadLen(|plain|))
  {
    var pad: byte := Cbc.PadLen(|plain|);
    var s := Repeat<byte>(pad, pad) + [0];
    var buf := plain + Padding(|plain|) + [0];
    assert buf == plain + s;
    assert buf[..|HEADER|] == HEADER;
    assert Min(|HEADER| + |plain|, |buf|) == |plain| + Min(16, |s|);
  }

  /** In the clear, the list parsed from a saved file is the saved one if and only if every uuid is safe on a
      line of its own. */
  lemma SaveLoadPlain(t: set<Text>, uuids: set<Text>, salt: Text, iv: Text, order: seq<Text>)
    requires Enumerates(order, uuids) && |salt| == SALT_LEN && |iv| == IV_LEN
    ensures var (ok, r) := Load(t, [], Saved([], salt, iv, order));
            ok && (r == uuids <==> forall u :: u in uuids ==> LineSafe(u))
  {
    hide Parse, Lines;
    PlainStarts(order);
    RestoredExactly(uuids, order);
  }

  /** An encrypted list is accepted, and its text is read together with the leftover bytes. */
  lemma EncryptedLoad(t: set<Text>, pass: Text, salt: Text, iv: Text, order: seq<Text>)
    requires |salt| == SALT_LEN && |iv| == IV_LEN && pass != []
    ensures Load(t, pass, Saved(pass, salt, iv, order))
        == (true, Parse({}, Lines(order) + Leftover(Cbc.PadLen(|Plain(order)|))))
    ensures var o := OpenFile(pass, Saved(pass, salt, iv, order));
            o.Some? && |HEADER| <= o.value.plen <= |o.value.buf| && Intended(o.value) == Lines(order)
  {
    hide Parse, Plain, Lines, SealFile, OpenFile, Body, Padding, Intended, Leftover;
    var plain := Plain(order);
    PlainStarts(order);
    OpenSealed(MAGIC, pass, salt, iv, plain);
    SealStarts(MAGIC, pass, salt, iv, plain);
    SavedBody(plain);
  }

  lemma SealStarts(magic: Text, pass: Text, salt: Text, iv: Text, plain: Text)
    requires |magic| == 4 && |salt| == SALT_LEN && |iv| == IV_LEN
    ensures StartsWith(SealFile(magic, pass, salt, iv, plain), magic)
  {
    hide SealFile;
    SealParts(magic, pass, salt, iv, plain);
  }

  /** Without newlines the parser yields the lines it was given, less their carriage returns, and one uuid more. */
  lemma ParsedWithLeftover(order: seq<Text>, pad: byte, x: Text)
    requires 1 <= pad <= 16 && forall u :: u in order ==> NL !in u
    ensures x in Parse({}, Lines(order) + Leftover(pad))
       <==> x == Spurious(pad) || exists u :: u in order && Yields(u, x)
  {
    hide Parse, Lines, Leftover, Spurious, Folded;
    ParseLines({}, order, Leftover(pad));
    LeftoverAdds(Folded({}, order), pad);
    FoldedIs({}, order, x);
  }

  lemma SpuriousSafe(pad: byte)
    requires 1 <= pad <= 16
    ensures LineSafe(Spurious(pad)) && !EndsInCr(Spurious(pad))
  {
  }

  /** A uuid that ends in a carriage return is lost here as well. */
  lemma CrIsLostWithLeftover(uuids: set<Text>, order: seq<Text>, pad: byte, u: Text)
    requires 1 <= pad <= 16 && Enumerates(order, uuids) && forall x :: x in uuids ==> NL !in x
    requires u in uuids && EndsInCr(u)
    ensures Parse({}, Lines(order) + Leftover(pad)) != uuids
  {
    hide Parse, Lines, Leftover, Spurious, LineSafe;
    var w := Longest(uuids, u);
    SpuriousSafe(pad);
    ParsedWithLeftover(order, pad, w);
    forall x | x in order ensures !Yields(x, w) { NotYielded(x, w); }
  }

  /** Encrypted, the loader reads one uuid too many. Every list of safe uuids comes back with it; a list comes
      back unchanged if and only if all its uuids are safe and it holds the extra one already. With the length
      that was meant, every list of safe uuids would come back exactly. */
  lemma SaveLoadEncrypted(t: set<Text>, pass: Text, uuids: set<Text>, salt: Text, iv: Text, order: seq<Text>)
    requires Enumerates(order, uuids) && |salt| == SALT_LEN && |iv| == IV_LEN && pass != []
    ensures var extra := Spurious(Cbc.PadLen(|Plain(order)|));
            var safe := forall u :: u in uuids ==> LineSafe(u);
            var (ok, r) := Load(t, pass, Saved(pass, salt, iv, order));
            && ok
            && (safe ==> r == uuids + {extra})
            && (r == uuids <==> safe && extra in uuids)
    ensures var o := OpenFile(pass, Saved(pass, salt, iv, order));
            && o.Some? && |HEADER| <= o.value.plen <= |o.value.buf|
            && (Parse({}, Intended(o.value)) == uuids <==> forall u :: u in uuids ==> LineSafe(u))
  {
    hide Parse, Plain, Lines, OpenFile, Load, Saved, Intended, Spurious, Leftover, LineSafe;
    var pad: byte := Cbc.PadLen(|Plain(order)|);
    EncryptedLoad(t, pass, salt, iv, order);
    LinesExactly(uuids, order);
    LeftoverExactly(uuids, order, pad);
  }

  /** What the parser makes of the text and the leftover bytes. */
  lemma LeftoverExactly(uuids: set<Text>, order: seq<Text>, pad: byte)
    requires 1 <= pad <= 16 && Enumerates(order, uuids)
    ensures var r := Parse({}, Lines(order) + Leftover(pad));
            var safe := forall u :: u in uuids ==> LineSafe(u);
            && (safe ==> r == uuids + {Spurious(pad)})
            && (r == uuids <==> safe && Spurious(pad) in uuids)
  {
    hide Parse, Lines, Spurious, Leftover;
    var r := Parse({}, Lines(order) + Leftover(pad));
    if forall u :: u in uuids ==> LineSafe(u) {
      ReadBack(uuids, order, Leftover(pad));
      LeftoverAdds(uuids, pad);
    }
    if r == uuids {
      ParsedAreLines({}, Lines(order) + Leftover(pad));
      assert forall u :: u in uuids ==> Readable(u);
      forall u | u in uuids ensures LineSafe(u) {
        if EndsInCr(u) { CrIsLostWithLeftover(uuids, order, pad, u); }
      }
    }
  }

  // ---- the mutex ----

  /** How a call ends: it returns, or it waits for a mutex that is never given back. */
  datatype Outcome = Returns(ok: bool) | Blocks

  /** A load of a file that is missing or refused returns. After an accepted one the log message asks for the
      number of uuids, which takes the mutex a second time. */
  function LoadOutcome(t: set<Text>, pass: Text, raw: Option<Text>): Outcome {
    if raw.Some? && Load(t, pass, raw.value).0 then Blocks else Returns(false)
  }

  /** So `load` returns exactly for missing files and for encrypted ones that do not open to the header, and
      its answer is always false. */
  lemma LoadReturnsExactly(t: set<Text>, pass: Text, raw: Option<Text>)
    ensures LoadOutcome(t, pass, raw) != Returns(true)
    ensures LoadOutcome(t, pass, raw).Returns?
       <==> raw.None? || (StartsWith(raw.value, MAGIC) && !OpensToHeader(pass, raw.value))
  {
    hide OpenFile, Parse;
  }

  predicate OpensToHeader(pass: Text, raw: Text) {
    match OpenFile(pass, raw)
    case None => false
    case Some(o) => |HEADER| <= o.plen && StartsWith(o.buf, HEADER)
  }

  /** No file that was saved can be loaded again: the load accepts it and does not return. */
  lemma SavedNeverReturns(t: set<Text>, pass: Text, salt: Text, iv: Text, order: seq<Text>)
    requires |salt| == SALT_LEN && |iv| == IV_LEN
    ensures LoadOutcome(t, pass, Some(Saved(pass, salt, iv, order))) == Blocks
  {
    hide Parse, Lines, OpenFile, Intended, Leftover;
    if pass == [] {
      PlainStarts(order);
    } else {
      hide Load, Saved;
      EncryptedLoad(t, pass, salt, iv, order);
    }
  }

  /** The empty list, which lets everyone in, is parsed back as a list that would let in one uuid of control
      characters only. */
  lemma EmptyListLocksOut(t: set<Text>, pass: Text, salt: Text, iv: Text, uuid: Text)
    requires |salt| == SALT_LEN && |iv| == IV_LEN && pass != []
    requires exists i :: 0 <= i < |uuid| && uuid[i] > 16
    ensures Allowed({}, uuid) && !Allowed(Load(t, pass, Saved(pass, salt, iv, [])).1, uuid)
  {
    hide Parse, Plain, SealFile, OpenFile, Load, Saved;
    SaveLoadEncrypted(t, pass, {}, salt, iv, []);
    SpuriousLow(Cbc.PadLen(|Plain([])|));
  }

  lemma SpuriousLow(pad: byte)
    requires 1 <= pad <= 16
    ensures forall i :: 0 <= i < |Spurious(pad)| ==> Spurious(pad)[i] <= 16
  {
  }

  class LicenseMgr {
    const tables: AesCode.Tables
    var path: Text
    var pass: Text
    var uuids: set<Text>
    /** `mu_` is held by a call that has not returned. */
    var held: bool

    constructor (tables: AesCode.Tables)
      ensures this.tables == tables && uuids == {} && path == [] && pass == [] && !held
    {
      this.tables, path, pass, uuids, held := tables, [], [], {}, false;
    }

    /** None if the call has to wait for the mutex. */
    method Count() returns (n: Option<nat>)
      ensures n == if held then None else Some(|uuids|)
    {
      if held { return None; }
      n := Some(|uuids|);
    }

    /** The file is opened before the mutex is taken, and `Count` is an argument of the last log message. */
    method DoLoad(path: Text, raw: Option<Text>) returns (o: Outcome)
      requires tables.Valid()
      modifies this`path, this`uuids, this`held
      ensures raw.None? ==>
                o == Returns(false) && uuids == old(uuids) && this.path == old(this.path) && held == old(held)
      ensures raw.Some? && old(held) ==> o == Blocks && uuids == old(uuids) && this.path == old(this.path) && held
      ensures raw.Some? && !old(held) ==>
                && o == LoadOutcome(old(uuids), pass, raw) && held == o.Blocks?
                && uuids == Load(old(uuids), pass, raw.value).1 && this.path == path
    {
      hide Parse, OpenFile, AesCode.Tables.Valid;
      if raw.None? { return Returns(false); }
      if held { return Blocks; }
      held := true;
      this.path := path;
      var content := raw.value;
      if StartsWith(content, MAGIC) {
        var text := OpenFileCode(tables, pass, content);
        if text.None? {
          held := false;
          return Returns(false);
        }
        var buf, plen := text.value.buf, text.value.plen;
        if plen < |HEADER| || |buf| < |HEADER| || !StartsWith(buf, HEADER) {
          held := false;
          return Returns(false);
        }
        content := buf[|HEADER|..Min(|HEADER| + plen, |buf|)];
      }
      uuids := ParseUuids({}, content);
      var n := Count();
      held := held && n.None?;
      o := if n.None? then Blocks else Returns(true);
    }

    /** The content of the file, if there is a path; `order` is the order in which the list was walked. */
    method Save(salt: Text, iv: Text) returns (blocked: bool, file: Option<Text>, ghost order: seq<Text>)
      requires tables.Valid() && |salt| == SALT_LEN && |iv| == IV_LEN
      ensures blocked == held
      ensures file.Some? <==> !held && path != []
      ensures file.Some? ==> Enumerates(order, uuids) && file.value == Saved(pass, salt, iv, order)
    {
      hide SealFile, AesCode.Tables.Valid;
      blocked, file, order := held, None, [];
      if held || path == [] { return; }
      var lines: Text := [];
      var todo := uuids;
      while todo != {}
        invariant todo <= uuids
        invariant forall u :: u in order <==> u in uuids && u !in todo
        invariant lines == Lines(order)
      {
        var u :| u in todo;
        assert (order + [u])[..|order|] == order;
        lines := lines + u + [NL];
        order := order + [u];
        todo := todo - {u};
      }
      var plain := HEADER + lines;
      if pass == [] { return false, Some(plain), order; }
      var raw := SealFileCode(tables, MAGIC, pass, salt, iv, plain);
      file := Some(raw);
    }

    method IsAllowed(uuid: Text) returns (yes: Option<bool>)
      ensures yes == if held then None else Some(Allowed(uuids, uuid))
    {
      if held { return None; }
      yes := Some(uuids == {} || uuid in uuids);
    }
  }
}
