/** The table-driven AES-256 code of Crypto.cpp, proved to compute the cipher of module Aes. */
module AesCode {
  import opened Bytes
  import opened CryptoBytes
  import opened Gf256
  import opened Aes

  // ---- the tables ----

  datatype Tables = Tables(sbox: seq<bv8>, invSbox: seq<bv8>, mul2: seq<bv8>, mul3: seq<bv8>,
                           mul9: seq<bv8>, mul11: seq<bv8>, mul13: seq<bv8>, mul14: seq<bv8>)
  {
    ghost predicate Valid() {
      && |sbox| == |invSbox| == |mul2| == |mul3| == 256
      && |mul9| == |mul11| == |mul13| == |mul14| == 256
      && forall x: bv8 :: EntryOk(x)
    }

    ghost predicate EntryOk(x: bv8)
      requires |sbox| == |invSbox| == |mul2| == |mul3| == 256
      requires |mul9| == |mul11| == |mul13| == |mul14| == 256
    {
      && sbox[Ix(x)] == Sub(x) && invSbox[Ix(x)] == InvSub(x)
      && mul2[Ix(x)] == Mul(x, 2) && mul3[Ix(x)] == Mul(x, 3) && mul9[Ix(x)] == Mul(x, 9)
      && mul11[Ix(x)] == Mul(x, 11) && mul13[Ix(x)] == Mul(x, 13) && mul14[Ix(x)] == Mul(x, 14)
    }
  }

  method SubByte(x: bv8) returns (s: bv8)
    ensures s == Sub(x)
  {
    hide Inv;
    var y := 0;
    if x == 0 { InvZero(); } else { y := GInv(x); }
    s := y ^ RotL8(y, 1) ^ RotL8(y, 2) ^ RotL8(y, 3) ^ RotL8(y, 4) ^ 0x63;
  }

  /** Fills the S-box, and the inverse S-box at the place the S-box points to. */
  method BuildSboxes() returns (sbox: array<bv8>, invSbox: array<bv8>)
    ensures fresh(sbox) && fresh(invSbox) && sbox.Length == invSbox.Length == 256
    ensures forall x: bv8 :: sbox[Ix(x)] == Sub(x) && invSbox[Ix(x)] == InvSub(x)
  {
    hide Ix, Sub, InvSub;
    sbox, invSbox := new bv8[256], new bv8[256];
    for i := 0 to 256
      invariant forall x: bv8 :: Ix(x) < i ==> sbox[Ix(x)] == Sub(x)
      invariant forall x: bv8 :: Ix(x) < i ==> invSbox[Ix(Sub(x))] == x
    {
      var x := ByteAt(i);
      var s := SubByte(x);
      sbox[i] := s;
      invSbox[Ix(s)] := x;
      forall y: bv8 | Ix(y) < i + 1
        ensures sbox[Ix(y)] == Sub(y) && invSbox[Ix(Sub(y))] == y
      {
        if Ix(y) == i { IxInjective(x, y); }
        else if Ix(Sub(y)) == Ix(s) {
          IxInjective(Sub(y), s);
          SubInverse(x);
          SubInverse(y);
        }
      }
    }
    forall y: bv8 ensures invSbox[Ix(y)] == InvSub(y) {
      SubInverse(y);
      assert Ix(InvSub(y)) < 256;
    }
  }

  method BuildMul(k: bv8) returns (table: array<bv8>)
    ensures fresh(table) && table.Length == 256
    ensures forall x: bv8 :: table[Ix(x)] == Mul(x, k)
  {
    hide Ix, Mul;
    table := new bv8[256];
    for i := 0 to 256
      invariant forall x: bv8 :: Ix(x) < i ==> table[Ix(x)] == Mul(x, k)
    {
      var x := ByteAt(i);
      table[i] := GMul(x, k);
      forall y: bv8 | Ix(y) < i + 1 ensures table[Ix(y)] == Mul(y, k) {
        if Ix(y) == i { IxInjective(x, y); }
      }
    }
  }

  method BuildTables() returns (t: Tables)
    ensures t.Valid()
  {
    hide Ix, Mul, Sub, InvSub;
    var sbox, invSbox := BuildSboxes();
    var m2 := BuildMul(2);
    var m3 := BuildMul(3);
    var m9 := BuildMul(9);
    var m11 := BuildMul(11);
    var m13 := BuildMul(13);
    var m14 := BuildMul(14);
    t := Tables(sbox[..], invSbox[..], m2[..], m3[..], m9[..], m11[..], m13[..], m14[..]);
    assert forall x: bv8 :: t.EntryOk(x);
  }

  // ---- key expansion ----

  function SubWord(w: bv32): bv32 {
    Pack(Sub(ByteOf(w, 24)), Sub(ByteOf(w, 16)), Sub(ByteOf(w, 8)), Sub(ByteOf(w, 0)))
  }

  function RotWord(w: bv32): bv32 { (w << 8) | (w >> 24) }

  /** Round constants: the powers of x (section 5.2 of FIPS 197). */
  function Rcon(i: nat): bv32
    requires 1 <= i
  {
    (XTimes(1, i - 1) as bv32) << 24
  }

  /** Word i >= 8 of the schedule, by the recurrence of section 5.2 with Nk = 8. */
  function NextWord(w: seq<bv32>, i: nat): bv32
    requires |w| == i >= 8
  {
    var t := w[i - 1];
    w[i - 8] ^ (if i % 8 == 0 then SubWord(RotWord(t)) ^ Rcon(i / 8) else if i % 8 == 4 then SubWord(t) else t)
  }

  function KeyWord(key: seq<bv8>, i: nat): bv32
    requires |key| == 32 && i < 8
  {
    Pack(key[4 * i], key[4 * i + 1], key[4 * i + 2], key[4 * i + 3])
  }

  /** The first `n` words of the key schedule. */
  function Words(key: seq<bv8>, n: nat): (w: seq<bv32>)
    requires |key| == 32
    ensures |w| == n
  {
    if n == 0 then []
    else
      var w := Words(key, n - 1);
      w + [if n <= 8 then KeyWord(key, n - 1) else NextWord(w, n - 1)]
  }

  function KeySchedule(key: seq<bv8>): Schedule
    requires |key| == 32
  {
    Words(key, RK_WORDS)
  }

  const RCON: seq<bv8> := [0, 0x01, 0x02, 0x04, 0x08, 0x10, 0x20, 0x40, 0x80, 0x1b, 0x36]

  lemma RconTable(i: nat)
    requires 1 <= i <= 10
    ensures |RCON| == 11 && (RCON[i] as bv32) << 24 == Rcon(i)
  {
    BitValues();
    XToTheEighth();
    assert XTimes(1, 9) == 0x36;
  }

  method SubWordCode(t: Tables, w: bv32) returns (r: bv32)
    requires t.Valid()
    ensures r == SubWord(w)
  {
    hide Ix, Sub, Pack, ByteOf;
    assert t.EntryOk(ByteOf(w, 24)) && t.EntryOk(ByteOf(w, 16)) && t.EntryOk(ByteOf(w, 8)) && t.EntryOk(ByteOf(w, 0));
    r := Pack(t.sbox[Ix(ByteOf(w, 24))], t.sbox[Ix(ByteOf(w, 16))], t.sbox[Ix(ByteOf(w, 8))], t.sbox[Ix(ByteOf(w, 0))]);
  }

  method NextWordCode(tables: Tables, w: seq<bv32>, i: nat) returns (x: bv32)
    requires tables.Valid() && |w| == i && 8 <= i < RK_WORDS
    ensures x == NextWord(w, i)
  {
    hide Pack, SubWord, RotWord, Rcon, Tables.Valid;
    var t := w[i - 1];
    if i % 8 == 0 {
      t := SubWordCode(tables, RotWord(t));
      RconTable(i / 8);
      t := t ^ ((RCON[i / 8] as bv32) << 24);
    } else if i % 8 == 4 {
      t := SubWordCode(tables, t);
    }
    x := w[i - 8] ^ t;
  }

  method ExpandKey(tables: Tables, key: seq<bv8>) returns (rk: Schedule)
    requires tables.Valid() && |key| == 32
    ensures rk == KeySchedule(key)
  {
    hide NextWord, Tables.Valid, Pack;
    var w: seq<bv32> := [];
    for i := 0 to 8
      invariant w == Words(key, i)
    {
      w := w + [Pack(key[4 * i], key[4 * i + 1], key[4 * i + 2], key[4 * i + 3])];
    }
    for i := 8 to RK_WORDS
      invariant w == Words(key, i)
    {
      var x := NextWordCode(tables, w, i);
      w := w + [x];
    }
    rk := w;
  }

  // ---- rounds ----

  method AddKey(st: array<bv8>, rk: Schedule, round: nat)
    requires st.Length == 16 && round <= ROUNDS
    modifies st
    ensures st[..] == AddRoundKey(old(st[..]), rk, round)
  {
    hide Xor, RkByte;
    for i := 0 to 16
      invariant forall j :: 0 <= j < i ==> st[j] == AddRoundKey(old(st[..]), rk, round)[j]
      invariant forall j :: i <= j < 16 ==> st[j] == old(st[j])
    {
      st[i] := Xor(st[i], RkByte(rk, 16 * round + i));
    }
  }

  method SubAll(t: Tables, st: array<bv8>)
    requires t.Valid() && st.Length == 16
    modifies st
    ensures st[..] == SubBytes(old(st[..]))
  {
    hide Ix, Sub;
    for i := 0 to 16
      invariant forall j :: 0 <= j < i ==> st[j] == Sub(old(st[j]))
      invariant forall j :: i <= j < 16 ==> st[j] == old(st[j])
    {
      assert t.EntryOk(st[i]);
      st[i] := t.sbox[Ix(st[i])];
    }
  }

  method InvSubAll(t: Tables, st: array<bv8>)
    requires t.Valid() && st.Length == 16
    modifies st
    ensures st[..] == InvSubBytes(old(st[..]))
  {
    hide Ix, InvSub;
    for i := 0 to 16
      invariant forall j :: 0 <= j < i ==> st[j] == InvSub(old(st[j]))
      invariant forall j :: i <= j < 16 ==> st[j] == old(st[j])
    {
      assert t.EntryOk(st[i]);
      st[i] := t.invSbox[Ix(st[i])];
    }
  }

  lemma ShiftByte(s: Block, r: nat, c: nat)
    requires r < 4 && c < 4
    ensures ShiftRows(s)[r + 4 * c] == At(s, r, c + r)
  {
    hide ShiftRows, At;
    ShiftAt(s, r, c);
    AtIs(ShiftRows(s), r, c);
  }

  lemma ShiftRowsBytes(s: Block, t: Block)
    requires t[0] == s[0] && t[1] == s[5] && t[2] == s[10] && t[3] == s[15] && t[4] == s[4] && t[5] == s[9]
          && t[6] == s[14] && t[7] == s[3]
    requires t[8] == s[8] && t[9] == s[13] && t[10] == s[2] && t[11] == s[7] && t[12] == s[12] && t[13] == s[1]
          && t[14] == s[6] && t[15] == s[11]
    ensures t == ShiftRows(s)
  {
    hide ShiftRows;
    ShiftByte(s, 0, 0); ShiftByte(s, 1, 0); ShiftByte(s, 2, 0); ShiftByte(s, 3, 0);
    ShiftByte(s, 0, 1); ShiftByte(s, 1, 1); ShiftByte(s, 2, 1); ShiftByte(s, 3, 1);
    ShiftByte(s, 0, 2); ShiftByte(s, 1, 2); ShiftByte(s, 2, 2); ShiftByte(s, 3, 2);
    ShiftByte(s, 0, 3); ShiftByte(s, 1, 3); ShiftByte(s, 2, 3); ShiftByte(s, 3, 3);
    assert t == ShiftRows(s);
  }

  lemma InvShiftByte(s: Block, r: nat, c: nat)
    requires r < 4 && c < 4
    ensures InvShiftRows(s)[r + 4 * c] == At(s, r, c - r)
  {
    hide InvShiftRows, At;
    ShiftAt(s, r, c);
    AtIs(InvShiftRows(s), r, c);
  }

  lemma InvShiftRowsBytes(s: Block, t: Block)
    requires t[0] == s[0] && t[1] == s[13] && t[2] == s[10] && t[3] == s[7] && t[4] == s[4] && t[5] == s[1]
          && t[6] == s[14] && t[7] == s[11]
    requires t[8] == s[8] && t[9] == s[5] && t[10] == s[2] && t[11] == s[15] && t[12] == s[12] && t[13] == s[9]
          && t[14] == s[6] && t[15] == s[3]
    ensures t == InvShiftRows(s)
  {
    hide InvShiftRows;
    InvShiftByte(s, 0, 0); InvShiftByte(s, 1, 0); InvShiftByte(s, 2, 0); InvShiftByte(s, 3, 0);
    InvShiftByte(s, 0, 1); InvShiftByte(s, 1, 1); InvShiftByte(s, 2, 1); InvShiftByte(s, 3, 1);
    InvShiftByte(s, 0, 2); InvShiftByte(s, 1, 2); InvShiftByte(s, 2, 2); InvShiftByte(s, 3, 2);
    InvShiftByte(s, 0, 3); InvShiftByte(s, 1, 3); InvShiftByte(s, 2, 3); InvShiftByte(s, 3, 3);
    assert t == InvShiftRows(s);
  }

  method SetColumn(t: array<bv8>, c: nat, b0: bv8, b1: bv8, b2: bv8, b3: bv8)
    requires t.Length == 16 && c < 4
    modifies t
    ensures t[4 * c] == b0 && t[4 * c + 1] == b1 && t[4 * c + 2] == b2 && t[4 * c + 3] == b3
    ensures forall j :: 0 <= j < 4 * c || 4 * c + 4 <= j < 16 ==> t[j] == old(t[j])
  {
    t[4 * c], t[4 * c + 1], t[4 * c + 2], t[4 * c + 3] := b0, b1, b2, b3;
  }

  method ShiftInto(st: array<bv8>, t: array<bv8>)
    requires st.Length == t.Length == 16 && st != t
    modifies t
    ensures t[..] == ShiftRows(st[..])
  {
    hide ShiftRows;
    var s := st[..];
    SetColumn(t, 0, s[0], s[5], s[10], s[15]);
    SetColumn(t, 1, s[4], s[9], s[14], s[3]);
    SetColumn(t, 2, s[8], s[13], s[2], s[7]);
    SetColumn(t, 3, s[12], s[1], s[6], s[11]);
    ShiftRowsBytes(s, t[..]);
  }

  method InvShiftInto(st: array<bv8>, t: array<bv8>)
    requires st.Length == t.Length == 16 && st != t
    modifies t
    ensures t[..] == InvShiftRows(st[..])
  {
    hide InvShiftRows;
    var s := st[..];
    SetColumn(t, 0, s[0], s[13], s[10], s[7]);
    SetColumn(t, 1, s[4], s[1], s[14], s[11]);
    SetColumn(t, 2, s[8], s[5], s[2], s[15]);
    SetColumn(t, 3, s[12], s[9], s[6], s[3]);
    InvShiftRowsBytes(s, t[..]);
  }

  /** The four bytes of column c, with the matrix rows written out from the left. */
  lemma ColumnBytes(s: Block, k0: bv8, k1: bv8, k2: bv8, k3: bv8, c: nat)
    requires c < 4
    ensures var (m, a0, a1, a2, a3) := (Columns(s, k0, k1, k2, k3), s[4 * c], s[4 * c + 1], s[4 * c + 2], s[4 * c + 3]);
            && m[4 * c] == Row(k0, k1, k2, k3, a0, a1, a2, a3)
            && m[4 * c + 1] == Row(k3, k0, k1, k2, a0, a1, a2, a3)
            && m[4 * c + 2] == Row(k2, k3, k0, k1, a0, a1, a2, a3)
            && m[4 * c + 3] == Row(k1, k2, k3, k0, a0, a1, a2, a3)
  {
    hide Row;
    var a0, a1, a2, a3 := s[4 * c], s[4 * c + 1], s[4 * c + 2], s[4 * c + 3];
    ColumnEntries(s, k0, k1, k2, k3, c);
    RowRotate(k0, k1, k2, k3, a0, a1, a2, a3);
    RowRotate(k0, k1, k2, k3, a1, a2, a3, a0);
    RowRotate(k3, k0, k1, k2, a0, a1, a2, a3);
    RowRotate(k0, k1, k2, k3, a2, a3, a0, a1);
    RowRotate(k3, k0, k1, k2, a1, a2, a3, a0);
    RowRotate(k2, k3, k0, k1, a0, a1, a2, a3);
  }

  lemma ColumnEntries(s: Block, k0: bv8, k1: bv8, k2: bv8, k3: bv8, c: nat)
    requires c < 4
    ensures var (m, a0, a1, a2, a3) := (Columns(s, k0, k1, k2, k3), s[4 * c], s[4 * c + 1], s[4 * c + 2], s[4 * c + 3]);
            && m[4 * c] == Row(k0, k1, k2, k3, a0, a1, a2, a3)
            && m[4 * c + 1] == Row(k0, k1, k2, k3, a1, a2, a3, a0)
            && m[4 * c + 2] == Row(k0, k1, k2, k3, a2, a3, a0, a1)
            && m[4 * c + 3] == Row(k0, k1, k2, k3, a3, a0, a1, a2)
  {
    hide Row, Columns;
    ColumnAt(s, k0, k1, k2, k3, 0, c);
    ColumnAt(s, k0, k1, k2, k3, 1, c);
    ColumnAt(s, k0, k1, k2, k3, 2, c);
    ColumnAt(s, k0, k1, k2, k3, 3, c);
  }

  lemma MixBytes(tb: Tables, s: Block, c: nat)
    requires tb.Valid() && c < 4
    ensures var (m, a0, a1, a2, a3) := (MixColumns(s), s[4 * c], s[4 * c + 1], s[4 * c + 2], s[4 * c + 3]);
            && m[4 * c] == Xor(Xor(Xor(tb.mul2[Ix(a0)], tb.mul3[Ix(a1)]), a2), a3)
            && m[4 * c + 1] == Xor(Xor(Xor(a0, tb.mul2[Ix(a1)]), tb.mul3[Ix(a2)]), a3)
            && m[4 * c + 2] == Xor(Xor(Xor(a0, a1), tb.mul2[Ix(a2)]), tb.mul3[Ix(a3)])
            && m[4 * c + 3] == Xor(Xor(Xor(tb.mul3[Ix(a0)], a1), a2), tb.mul2[Ix(a3)])
  {
    hide Ix, Xor, Mul, Columns;
    var a0, a1, a2, a3 := s[4 * c], s[4 * c + 1], s[4 * c + 2], s[4 * c + 3];
    assert tb.EntryOk(a0) && tb.EntryOk(a1) && tb.EntryOk(a2) && tb.EntryOk(a3);
    MulOne(a0); MulOne(a1); MulOne(a2); MulOne(a3);
    ColumnBytes(s, 2, 3, 1, 1, c);
  }

  method MixInto(tb: Tables, t: array<bv8>, st: array<bv8>)
    requires tb.Valid() && st.Length == t.Length == 16 && st != t
    modifies st
    ensures st[..] == MixColumns(t[..])
  {
    hide Ix, Xor, MixColumns;
    ghost var m := MixColumns(t[..]);
    for c := 0 to 4
      invariant forall j :: 0 <= j < 4 * c ==> st[j] == m[j]
    {
      var a0, a1, a2, a3 := t[4 * c], t[4 * c + 1], t[4 * c + 2], t[4 * c + 3];
      MixBytes(tb, t[..], c);
      SetColumn(st, c,
                Xor(Xor(Xor(tb.mul2[Ix(a0)], tb.mul3[Ix(a1)]), a2), a3),
                Xor(Xor(Xor(a0, tb.mul2[Ix(a1)]), tb.mul3[Ix(a2)]), a3),
                Xor(Xor(Xor(a0, a1), tb.mul2[Ix(a2)]), tb.mul3[Ix(a3)]),
                Xor(Xor(Xor(tb.mul3[Ix(a0)], a1), a2), tb.mul2[Ix(a3)]));
    }
  }

  method InvMixInto(tb: Tables, t: array<bv8>, st: array<bv8>)
    requires tb.Valid() && st.Length == t.Length == 16 && st != t
    modifies st
    ensures st[..] == InvMixColumns(t[..])
  {
    hide Ix, Xor, Mul, Columns;
    ghost var m := InvMixColumns(t[..]);
    for c := 0 to 4
      invariant forall j :: 0 <= j < 4 * c ==> st[j] == m[j]
    {
      var a0, a1, a2, a3 := t[4 * c], t[4 * c + 1], t[4 * c + 2], t[4 * c + 3];
      var i0, i1, i2, i3 := Ix(a0), Ix(a1), Ix(a2), Ix(a3);
      assert tb.EntryOk(a0) && tb.EntryOk(a1) && tb.EntryOk(a2) && tb.EntryOk(a3);
      ColumnBytes(t[..], 14, 11, 13, 9, c);
      SetColumn(st, c,
                Xor(Xor(Xor(tb.mul14[i0], tb.mul11[i1]), tb.mul13[i2]), tb.mul9[i3]),
                Xor(Xor(Xor(tb.mul9[i0], tb.mul14[i1]), tb.mul11[i2]), tb.mul13[i3]),
                Xor(Xor(Xor(tb.mul13[i0], tb.mul9[i1]), tb.mul14[i2]), tb.mul11[i3]),
                Xor(Xor(Xor(tb.mul11[i0], tb.mul13[i1]), tb.mul9[i2]), tb.mul14[i3]));
    }
  }

  method EncryptBlock(tb: Tables, input: Block, rk: Schedule) returns (out: Block)
    requires tb.Valid()
    ensures out == Encrypt(rk, input)
  {
    hide SubBytes, ShiftRows, MixColumns, AddRoundKey, Tables.Valid;
    var st, t := new bv8[16](i requires 0 <= i < 16 => input[i]), new bv8[16];
    assert st[..] == input;
    AddKey(st, rk, 0);
    for round := 1 to ROUNDS
      invariant st[..] == Rounds(rk, input, round - 1)
    {
      SubAll(tb, st);
      ShiftInto(st, t);
      MixInto(tb, t, st);
      AddKey(st, rk, round);
    }
    SubAll(tb, st);
    ShiftInto(st, t);
    AddKey(t, rk, ROUNDS);
    out := t[..];
  }

  method DecryptBlock(tb: Tables, input: Block, rk: Schedule) returns (out: Block)
    requires tb.Valid()
    ensures out == Decrypt(rk, input)
  {
    hide InvSubBytes, InvShiftRows, InvMixColumns, AddRoundKey, Tables.Valid;
    var st, t := new bv8[16](i requires 0 <= i < 16 => input[i]), new bv8[16];
    assert st[..] == input;
    AddKey(st, rk, ROUNDS);
    var round := ROUNDS - 1;
    while round >= 1
      invariant 0 <= round < ROUNDS
      invariant st[..] == InvRounds(rk, input, round + 1)
    {
      InvShiftInto(st, t);
      InvSubAll(tb, t);
      AddKey(t, rk, round);
      InvMixInto(tb, t, st);
      round := round - 1;
    }
    InvShiftInto(st, t);
    InvSubAll(tb, t);
    AddKey(t, rk, 0);
    out := t[..];
  }
}
