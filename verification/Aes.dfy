/** The AES-256 cipher and its inverse on 16-byte states (sections 4 and 5 of FIPS 197), and the
    proof that they undo each other for every key schedule. Byte r + 4c of a state is row r of
    column c. */
module Aes {
  import opened Gf256

  const ROUNDS := 14
  const RK_WORDS := 60

  type Block = s: seq<bv8> | |s| == 16 witness seq(16, i => 0)

  type Schedule = s: seq<bv32> | |s| == RK_WORDS witness seq(RK_WORDS, i => 0)

  // ---- the S-box ----

  function RotL8(x: bv8, n: nat): bv8
    requires 0 < n < 8
  {
    (x << n) | (x >> (8 - n))
  }

  /** The affine map of section 5.1.1 and its inverse, section 5.3.2. */
  function Affine(x: bv8): bv8 {
    x ^ RotL8(x, 1) ^ RotL8(x, 2) ^ RotL8(x, 3) ^ RotL8(x, 4) ^ 0x63
  }

  function InvAffine(y: bv8): bv8 {
    RotL8(y, 1) ^ RotL8(y, 3) ^ RotL8(y, 6) ^ 0x05
  }

  function Sub(x: bv8): bv8 { Affine(Inv(x)) }

  function InvSub(y: bv8): bv8 { Inv(InvAffine(y)) }

  lemma AffineUndone(x: bv8)
    ensures InvAffine(Affine(x)) == x
  {
  }

  lemma InvAffineUndone(x: bv8)
    ensures Affine(InvAffine(x)) == x
  {
  }

  /** The S-box is a bijection. */
  lemma SubInverse(x: bv8)
    ensures InvSub(Sub(x)) == x && Sub(InvSub(x)) == x
  {
    hide Inv, Affine, InvAffine;
    AffineUndone(Inv(x));
    InvInv(x);
    InvAffineUndone(x);
    InvInv(InvAffine(x));
  }

  // ---- the round transformations ----

  /** Row r of column c, with both taken modulo 4. */
  function At(s: Block, r: int, c: int): bv8 { s[r % 4 + 4 * (c % 4)] }

  lemma AtIs(s: Block, r: nat, c: nat)
    requires r < 4 && c < 4
    ensures At(s, r, c) == s[r + 4 * c]
  {
  }

  /** The state with `f(r, c)` in row r of column c. */
  function Build(f: (int, int) -> bv8): Block {
    seq(16, i requires 0 <= i < 16 => f(i % 4, i / 4))
  }

  lemma AtBuild(f: (int, int) -> bv8, r: int, c: int)
    ensures At(Build(f), r, c) == f(r % 4, c % 4)
  {
    var i := r % 4 + 4 * (c % 4);
    assert i % 4 == r % 4 && i / 4 == c % 4;
  }

  lemma SameBlock(s: Block, t: Block)
    requires forall r, c :: 0 <= r < 4 && 0 <= c < 4 ==> At(s, r, c) == At(t, r, c)
    ensures s == t
  {
    forall i | 0 <= i < 16 ensures s[i] == t[i] {
      assert At(s, i % 4, i / 4) == At(t, i % 4, i / 4);
    }
  }

  function SubBytes(s: Block): Block { seq(16, i requires 0 <= i < 16 => Sub(s[i])) }

  function InvSubBytes(s: Block): Block { seq(16, i requires 0 <= i < 16 => InvSub(s[i])) }

  /** Row r moves left by r columns, and back. */
  function ShiftRows(s: Block): Block { Build((r, c) => At(s, r, c + r)) }

  function InvShiftRows(s: Block): Block { Build((r, c) => At(s, r, c - r)) }

  /** A row of a matrix over GF(2^8) times a column. */
  function Row(k0: bv8, k1: bv8, k2: bv8, k3: bv8, a0: bv8, a1: bv8, a2: bv8, a3: bv8): bv8 {
    Xor(Xor(Xor(Mul(a0, k0), Mul(a1, k1)), Mul(a2, k2)), Mul(a3, k3))
  }

  /** The circulant matrix with first row k0 k1 k2 k3 times each column of the state. */
  function Columns(s: Block, k0: bv8, k1: bv8, k2: bv8, k3: bv8): Block {
    Build((r, c) => Entry(s, k0, k1, k2, k3, r, c))
  }

  function Entry(s: Block, k0: bv8, k1: bv8, k2: bv8, k3: bv8, r: int, c: int): bv8 {
    Row(k0, k1, k2, k3, At(s, r, c), At(s, r + 1, c), At(s, r + 2, c), At(s, r + 3, c))
  }

  function MixColumns(s: Block): Block { Columns(s, 2, 3, 1, 1) }

  function InvMixColumns(s: Block): Block { Columns(s, 14, 11, 13, 9) }

  function RkByte(rk: Schedule, i: nat): bv8
    requires i < 4 * RK_WORDS
  {
    ((rk[i / 4] >> (24 - 8 * (i % 4))) & 0xff) as bv8
  }

  function AddRoundKey(s: Block, rk: Schedule, round: nat): Block
    requires round <= ROUNDS
  {
    seq(16, i requires 0 <= i < 16 => Xor(s[i], RkByte(rk, 16 * round + i)))
  }

  /** The state after the initial key addition and `n` full rounds. */
  function Rounds(rk: Schedule, s: Block, n: nat): Block
    requires n < ROUNDS
  {
    if n == 0 then AddRoundKey(s, rk, 0)
    else AddRoundKey(MixColumns(ShiftRows(SubBytes(Rounds(rk, s, n - 1)))), rk, n)
  }

  function Encrypt(rk: Schedule, s: Block): Block {
    AddRoundKey(ShiftRows(SubBytes(Rounds(rk, s, ROUNDS - 1))), rk, ROUNDS)
  }

  /** The state of the inverse cipher before round `n` (counting down from 14). */
  function InvRounds(rk: Schedule, s: Block, n: nat): Block
    requires 1 <= n <= ROUNDS
    decreases ROUNDS - n
  {
    if n == ROUNDS then AddRoundKey(s, rk, ROUNDS)
    else InvMixColumns(AddRoundKey(InvSubBytes(InvShiftRows(InvRounds(rk, s, n + 1))), rk, n))
  }

  function Decrypt(rk: Schedule, s: Block): Block {
    AddRoundKey(InvSubBytes(InvShiftRows(InvRounds(rk, s, 1))), rk, 0)
  }

  // ---- each transformation is undone ----

  lemma SubBytesInverse(s: Block)
    ensures InvSubBytes(SubBytes(s)) == s && SubBytes(InvSubBytes(s)) == s
  {
    hide Sub, InvSub;
    forall i | 0 <= i < 16 ensures InvSub(Sub(s[i])) == s[i] && Sub(InvSub(s[i])) == s[i] { SubInverse(s[i]); }
  }

  lemma AtMod(s: Block, r: int, c: int, q: int, d: int)
    requires r % 4 == q % 4 && c % 4 == d % 4
    ensures At(s, r, c) == At(s, q, d)
  {
  }

  lemma ShiftAt(s: Block, r: int, c: int)
    requires 0 <= r < 4
    ensures At(ShiftRows(s), r, c) == At(s, r, c + r)
    ensures At(InvShiftRows(s), r, c) == At(s, r, c - r)
  {
    hide At, Build;
    AtBuild((r, c) => At(s, r, c + r), r, c);
    AtBuild((r, c) => At(s, r, c - r), r, c);
    AtMod(s, r, c % 4 + r, r, c + r);
    AtMod(s, r, c % 4 - r, r, c - r);
  }

  lemma ShiftRowsInverse(s: Block)
    ensures InvShiftRows(ShiftRows(s)) == s && ShiftRows(InvShiftRows(s)) == s
  {
    hide At, ShiftRows, InvShiftRows;
    forall r, c | 0 <= r < 4 && 0 <= c < 4
      ensures At(InvShiftRows(ShiftRows(s)), r, c) == At(s, r, c)
      ensures At(ShiftRows(InvShiftRows(s)), r, c) == At(s, r, c)
    {
      ShiftAt(ShiftRows(s), r, c);
      ShiftAt(InvShiftRows(s), r, c);
      ShiftAt(s, r, c - r);
      ShiftAt(s, r, c + r);
    }
    SameBlock(InvShiftRows(ShiftRows(s)), s);
    SameBlock(ShiftRows(InvShiftRows(s)), s);
  }

  lemma AddRoundKeyInverse(s: Block, rk: Schedule, round: nat)
    requires round <= ROUNDS
    ensures AddRoundKey(AddRoundKey(s, rk, round), rk, round) == s
  {
    hide Xor, RkByte;
    forall i | 0 <= i < 16 ensures Xor(Xor(s[i], RkByte(rk, 16 * round + i)), RkByte(rk, 16 * round + i)) == s[i] {
      XorTwice(s[i], RkByte(rk, 16 * round + i));
    }
  }

  lemma RowAdds(p0: bv8, p1: bv8, p2: bv8, p3: bv8, q0: bv8, q1: bv8, q2: bv8, q3: bv8,
                a0: bv8, a1: bv8, a2: bv8, a3: bv8)
    ensures Xor(Row(p0, p1, p2, p3, a0, a1, a2, a3), Row(q0, q1, q2, q3, a0, a1, a2, a3))
         == Row(Xor(p0, q0), Xor(p1, q1), Xor(p2, q2), Xor(p3, q3), a0, a1, a2, a3)
  {
    hide Xor, Mul;
    MulAdds(a0, p0, q0); MulAdds(a1, p1, q1); MulAdds(a2, p2, q2); MulAdds(a3, p3, q3);
    Regroup(Mul(a0, p0), Mul(a1, p1), Mul(a0, q0), Mul(a1, q1));
    var p01, q01 := Xor(Mul(a0, p0), Mul(a1, p1)), Xor(Mul(a0, q0), Mul(a1, q1));
    Regroup(p01, Mul(a2, p2), q01, Mul(a2, q2));
    Regroup(Xor(p01, Mul(a2, p2)), Mul(a3, p3), Xor(q01, Mul(a2, q2)), Mul(a3, q3));
  }

  lemma RowScales(p0: bv8, p1: bv8, p2: bv8, p3: bv8, k: bv8, a0: bv8, a1: bv8, a2: bv8, a3: bv8)
    ensures Mul(Row(p0, p1, p2, p3, a0, a1, a2, a3), k)
         == Row(Mul(p0, k), Mul(p1, k), Mul(p2, k), Mul(p3, k), a0, a1, a2, a3)
  {
    hide Xor, Mul;
    var t0, t1, t2, t3 := Mul(a0, p0), Mul(a1, p1), Mul(a2, p2), Mul(a3, p3);
    MulAdds(t0, t1, k);
    MulAdds(Xor(t0, t1), t2, k);
    MulAdds(Xor(Xor(t0, t1), t2), t3, k);
    MulAssoc(a0, p0, k); MulAssoc(a1, p1, k); MulAssoc(a2, p2, k); MulAssoc(a3, p3, k);
  }

  /** A row times a circulant matrix times a column: multiply the row and the matrix first. */
  lemma RowCompose(k0: bv8, k1: bv8, k2: bv8, k3: bv8, m0: bv8, m1: bv8, m2: bv8, m3: bv8,
                   a0: bv8, a1: bv8, a2: bv8, a3: bv8)
    ensures Row(k0, k1, k2, k3,
                Row(m0, m1, m2, m3, a0, a1, a2, a3), Row(m3, m0, m1, m2, a0, a1, a2, a3),
                Row(m2, m3, m0, m1, a0, a1, a2, a3), Row(m1, m2, m3, m0, a0, a1, a2, a3))
         == Row(Row(k0, k1, k2, k3, m0, m3, m2, m1), Row(k0, k1, k2, k3, m1, m0, m3, m2),
                Row(k0, k1, k2, k3, m2, m1, m0, m3), Row(k0, k1, k2, k3, m3, m2, m1, m0), a0, a1, a2, a3)
  {
    hide Xor, Mul;
    RowScales(m0, m1, m2, m3, k0, a0, a1, a2, a3);
    RowScales(m3, m0, m1, m2, k1, a0, a1, a2, a3);
    RowScales(m2, m3, m0, m1, k2, a0, a1, a2, a3);
    RowScales(m1, m2, m3, m0, k3, a0, a1, a2, a3);
    RowAdds(Mul(m0, k0), Mul(m1, k0), Mul(m2, k0), Mul(m3, k0), Mul(m3, k1), Mul(m0, k1), Mul(m1, k1), Mul(m2, k1),
            a0, a1, a2, a3);
    RowAdds(Xor(Mul(m0, k0), Mul(m3, k1)), Xor(Mul(m1, k0), Mul(m0, k1)),
            Xor(Mul(m2, k0), Mul(m1, k1)), Xor(Mul(m3, k0), Mul(m2, k1)),
            Mul(m2, k2), Mul(m3, k2), Mul(m0, k2), Mul(m1, k2), a0, a1, a2, a3);
    RowAdds(Xor(Xor(Mul(m0, k0), Mul(m3, k1)), Mul(m2, k2)), Xor(Xor(Mul(m1, k0), Mul(m0, k1)), Mul(m3, k2)),
            Xor(Xor(Mul(m2, k0), Mul(m1, k1)), Mul(m0, k2)), Xor(Xor(Mul(m3, k0), Mul(m2, k1)), Mul(m1, k2)),
            Mul(m1, k3), Mul(m2, k3), Mul(m3, k3), Mul(m0, k3), a0, a1, a2, a3);
  }

  lemma SumOfBits()
    ensures 3 == Xor(2, 1) && Bit(1) == 2
  {
    BitValues();
  }

  lemma TwoAndThree(k: bv8)
    ensures Mul(k, 2) == XTime(k) && Mul(k, 3) == Xor(XTime(k), k) && Mul(k, 1) == k
    ensures Mul(2, k) == Mul(k, 2) && Mul(3, k) == Mul(k, 3) && Mul(1, k) == k
  {
    hide Mul, Xor, XTime, Bit;
    SumOfBits();
    MulOne(k);
    MulAdds(k, 2, 1);
    MulBit(k, 1);
    assert XTimes(k, 1) == XTime(k) by { assert XTimes(k, 0) == k; }
    MulComm(2, k);
    MulComm(3, k);
  }

  /** The matrix of InvMixColumns times that of MixColumns is the identity, either way round. */
  lemma MatrixProducts()
    ensures Row(14, 11, 13, 9, 2, 1, 1, 3) == 1 && Row(14, 11, 13, 9, 3, 2, 1, 1) == 0
    ensures Row(14, 11, 13, 9, 1, 3, 2, 1) == 0 && Row(14, 11, 13, 9, 1, 1, 3, 2) == 0
    ensures Row(2, 3, 1, 1, 14, 9, 13, 11) == 1 && Row(2, 3, 1, 1, 11, 14, 9, 13) == 0
    ensures Row(2, 3, 1, 1, 13, 11, 14, 9) == 0 && Row(2, 3, 1, 1, 9, 13, 11, 14) == 0
  {
    TwoAndThree(14); TwoAndThree(11); TwoAndThree(13); TwoAndThree(9);
    hide Mul;
  }

  lemma RowOfIdentity(a0: bv8, a1: bv8, a2: bv8, a3: bv8)
    ensures Row(1, 0, 0, 0, a0, a1, a2, a3) == a0 && Row(0, 1, 0, 0, a0, a1, a2, a3) == a1
    ensures Row(0, 0, 1, 0, a0, a1, a2, a3) == a2 && Row(0, 0, 0, 1, a0, a1, a2, a3) == a3
  {
    hide Mul, Xor;
    MulOne(a0); MulOne(a1); MulOne(a2); MulOne(a3);
    XorZero(a0); XorZero(a1); XorZero(a2); XorZero(a3); XorZero(0);
  }

  lemma RowRotate(k0: bv8, k1: bv8, k2: bv8, k3: bv8, a0: bv8, a1: bv8, a2: bv8, a3: bv8)
    ensures Row(k0, k1, k2, k3, a1, a2, a3, a0) == Row(k3, k0, k1, k2, a0, a1, a2, a3)
  {
    hide Xor, Mul;
    var x0, x1, x2, x3 := Mul(a0, k3), Mul(a1, k0), Mul(a2, k1), Mul(a3, k2);
    XorComm(Xor(Xor(x1, x2), x3), x0);
    XorAssoc(x0, Xor(x1, x2), x3);
    XorAssoc(x0, x1, x2);
  }

  /** One column: a matrix row applied to the columns' images, for inverse circulant matrices. */
  lemma RowUndoes(k0: bv8, k1: bv8, k2: bv8, k3: bv8, m0: bv8, m1: bv8, m2: bv8, m3: bv8,
                  a0: bv8, a1: bv8, a2: bv8, a3: bv8)
    requires Row(k0, k1, k2, k3, m0, m3, m2, m1) == 1 && Row(k0, k1, k2, k3, m1, m0, m3, m2) == 0
    requires Row(k0, k1, k2, k3, m2, m1, m0, m3) == 0 && Row(k0, k1, k2, k3, m3, m2, m1, m0) == 0
    ensures Row(k0, k1, k2, k3,
                Row(m0, m1, m2, m3, a0, a1, a2, a3), Row(m0, m1, m2, m3, a1, a2, a3, a0),
                Row(m0, m1, m2, m3, a2, a3, a0, a1), Row(m0, m1, m2, m3, a3, a0, a1, a2)) == a0
  {
    hide Row;
    RowRotate(m0, m1, m2, m3, a0, a1, a2, a3);
    RowRotate(m0, m1, m2, m3, a1, a2, a3, a0);
    RowRotate(m3, m0, m1, m2, a0, a1, a2, a3);
    RowRotate(m0, m1, m2, m3, a2, a3, a0, a1);
    RowRotate(m3, m0, m1, m2, a1, a2, a3, a0);
    RowRotate(m2, m3, m0, m1, a0, a1, a2, a3);
    RowCompose(k0, k1, k2, k3, m0, m1, m2, m3, a0, a1, a2, a3);
    RowOfIdentity(a0, a1, a2, a3);
  }

  lemma ColumnAt(s: Block, m0: bv8, m1: bv8, m2: bv8, m3: bv8, r: int, c: int)
    ensures At(Columns(s, m0, m1, m2, m3), r, c) == Entry(s, m0, m1, m2, m3, r, c)
  {
    hide Row, Build, At;
    assert Entry(s, m0, m1, m2, m3, r % 4, c % 4) == Entry(s, m0, m1, m2, m3, r, c) by {
      AtMod(s, r % 4, c % 4, r, c);
      AtMod(s, r % 4 + 1, c % 4, r + 1, c);
      AtMod(s, r % 4 + 2, c % 4, r + 2, c);
      AtMod(s, r % 4 + 3, c % 4, r + 3, c);
    }
    hide Entry;
    AtBuild((r, c) => Entry(s, m0, m1, m2, m3, r, c), r, c);
  }

  lemma ColumnsUndo(s: Block, k0: bv8, k1: bv8, k2: bv8, k3: bv8, m0: bv8, m1: bv8, m2: bv8, m3: bv8)
    requires Row(k0, k1, k2, k3, m0, m3, m2, m1) == 1 && Row(k0, k1, k2, k3, m1, m0, m3, m2) == 0
    requires Row(k0, k1, k2, k3, m2, m1, m0, m3) == 0 && Row(k0, k1, k2, k3, m3, m2, m1, m0) == 0
    ensures Columns(Columns(s, m0, m1, m2, m3), k0, k1, k2, k3) == s
  {
    hide Row, Columns, At;
    var t := Columns(s, m0, m1, m2, m3);
    forall r, c | 0 <= r < 4 && 0 <= c < 4 ensures At(Columns(t, k0, k1, k2, k3), r, c) == At(s, r, c) {
      ColumnAt(t, k0, k1, k2, k3, r, c);
      ColumnAt(s, m0, m1, m2, m3, r, c);
      ColumnAt(s, m0, m1, m2, m3, r + 1, c);
      ColumnAt(s, m0, m1, m2, m3, r + 2, c);
      ColumnAt(s, m0, m1, m2, m3, r + 3, c);
      RowCyclic(s, r, c);
      RowUndoes(k0, k1, k2, k3, m0, m1, m2, m3, At(s, r, c), At(s, r + 1, c), At(s, r + 2, c), At(s, r + 3, c));
    }
    SameBlock(Columns(t, k0, k1, k2, k3), s);
  }

  lemma RowCyclic(s: Block, r: int, c: int)
    ensures At(s, r + 4, c) == At(s, r, c) && At(s, r + 5, c) == At(s, r + 1, c) && At(s, r + 6, c) == At(s, r + 2, c)
  {
  }

  lemma MixColumnsInverse(s: Block)
    ensures InvMixColumns(MixColumns(s)) == s && MixColumns(InvMixColumns(s)) == s
  {
    MatrixProducts();
    hide Row, Columns;
    ColumnsUndo(s, 14, 11, 13, 9, 2, 3, 1, 1);
    ColumnsUndo(s, 2, 3, 1, 1, 14, 11, 13, 9);
  }

  // ---- the ciphers are mutual inverses ----

  lemma {:induction false} InvRoundsOfEncrypt(rk: Schedule, s: Block, n: nat)
    requires 1 <= n <= ROUNDS
    ensures InvRounds(rk, Encrypt(rk, s), n) == ShiftRows(SubBytes(Rounds(rk, s, n - 1)))
    decreases ROUNDS - n
  {
    hide SubBytes, ShiftRows, MixColumns, AddRoundKey, InvSubBytes, InvShiftRows, InvMixColumns;
    if n == ROUNDS {
      AddRoundKeyInverse(ShiftRows(SubBytes(Rounds(rk, s, n - 1))), rk, ROUNDS);
    } else {
      InvRoundsOfEncrypt(rk, s, n + 1);
      var x := Rounds(rk, s, n);
      var y := ShiftRows(SubBytes(Rounds(rk, s, n - 1)));
      ShiftRowsInverse(SubBytes(x));
      SubBytesInverse(x);
      AddRoundKeyInverse(MixColumns(y), rk, n);
      MixColumnsInverse(y);
    }
  }

  lemma {:induction false} RoundsOfDecrypt(rk: Schedule, s: Block, n: nat)
    requires n < ROUNDS
    ensures Rounds(rk, Decrypt(rk, s), n) == InvSubBytes(InvShiftRows(InvRounds(rk, s, n + 1)))
  {
    hide SubBytes, ShiftRows, MixColumns, AddRoundKey, InvSubBytes, InvShiftRows, InvMixColumns;
    if n == 0 {
      AddRoundKeyInverse(InvSubBytes(InvShiftRows(InvRounds(rk, s, 1))), rk, 0);
    } else {
      RoundsOfDecrypt(rk, s, n - 1);
      var x := InvRounds(rk, s, n);
      var y := InvSubBytes(InvShiftRows(InvRounds(rk, s, n + 1)));
      SubBytesInverse(InvShiftRows(x));
      ShiftRowsInverse(x);
      MixColumnsInverse(AddRoundKey(y, rk, n));
      AddRoundKeyInverse(y, rk, n);
    }
  }

  /** For every schedule and block. */
  lemma BlockInverse(rk: Schedule, s: Block)
    ensures Decrypt(rk, Encrypt(rk, s)) == s
    ensures Encrypt(rk, Decrypt(rk, s)) == s
  {
    hide SubBytes, ShiftRows, MixColumns, AddRoundKey, InvSubBytes, InvShiftRows, InvMixColumns;
    InvRoundsOfEncrypt(rk, s, 1);
    ShiftRowsInverse(SubBytes(Rounds(rk, s, 0)));
    SubBytesInverse(Rounds(rk, s, 0));
    AddRoundKeyInverse(s, rk, 0);
    RoundsOfDecrypt(rk, s, ROUNDS - 1);
    SubBytesInverse(InvShiftRows(InvRounds(rk, s, ROUNDS)));
    ShiftRowsInverse(InvRounds(rk, s, ROUNDS));
    AddRoundKeyInverse(s, rk, ROUNDS);
  }
}
