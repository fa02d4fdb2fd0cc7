/** GF(2^8) as Crypto.cpp computes in it: shift-and-add multiplication and the inverse by the
    254th power. Multiplication is a field product, which makes `ginv` an involution. */
module Gf256 {
  function Xor(a: bv8, b: bv8): bv8 { a ^ b }

  function Double(a: bv8): bv8 { a << 1 }

  function Half(b: bv8): bv8 { b >> 1 }

  predicate HighBit(a: bv8) { a & 0x80 != 0 }

  predicate LowBit(b: bv8) { b & 1 != 0 }

  /** Multiplication by x modulo x^8 + x^4 + x^3 + x + 1. */
  function XTime(a: bv8): bv8 {
    if HighBit(a) then Xor(Double(a), 0x1b) else Double(a)
  }

  function XTimes(a: bv8, n: nat): bv8 {
    if n == 0 then a else XTime(XTimes(a, n - 1))
  }

  function MulBits(a: bv8, b: bv8, n: nat): bv8
    decreases n
  {
    if n == 0 then 0 else Xor(if LowBit(b) then a else 0, MulBits(XTime(a), Half(b), n - 1))
  }

  function Mul(a: bv8, b: bv8): bv8 { MulBits(a, b, 8) }

  function Pow(a: bv8, n: nat): bv8 {
    if n == 0 then 1 else Mul(a, Pow(a, n - 1))
  }

  function Inv(a: bv8): bv8 { Pow(a, 254) }

  // ---- exclusive or ----

  lemma XorComm(a: bv8, b: bv8)
    ensures Xor(a, b) == Xor(b, a)
  {
  }

  lemma XorAssoc(a: bv8, b: bv8, c: bv8)
    ensures Xor(Xor(a, b), c) == Xor(a, Xor(b, c))
  {
  }

  lemma XorZero(a: bv8)
    ensures Xor(a, 0) == a && Xor(0, a) == a && Xor(a, a) == 0
  {
  }

  lemma XorTwice(a: bv8, b: bv8)
    ensures Xor(Xor(a, b), b) == a
  {
  }

  lemma Regroup(a: bv8, b: bv8, c: bv8, d: bv8)
    ensures Xor(Xor(a, b), Xor(c, d)) == Xor(Xor(a, c), Xor(b, d))
  {
    hide Xor;
    XorAssoc(a, b, Xor(c, d));
    XorAssoc(b, c, d);
    XorComm(b, c);
    XorAssoc(c, b, d);
    XorAssoc(a, c, Xor(b, d));
  }

  method GMul(x: bv8, y: bv8) returns (r: bv8)
    ensures r == Mul(x, y)
  {
    hide Xor, Double, Half, HighBit, LowBit;
    var a, b := x, y;
    r := 0;
    XorZero(Mul(x, y));
    for i := 0 to 8
      invariant Xor(r, MulBits(a, b, 8 - i)) == Mul(x, y)
    {
      ghost var r0, rest := r, MulBits(XTime(a), Half(b), 7 - i);
      if LowBit(b) { XorAssoc(r, a, rest); r := Xor(r, a); } else { XorZero(rest); }
      var hi := HighBit(a);
      a := Double(a);
      if hi { a := Xor(a, 0x1b); }
      b := Half(b);
    }
    XorZero(r);
  }

  // ---- linearity ----

  lemma XTimeAdds(a: bv8, b: bv8)
    ensures XTime(Xor(a, b)) == Xor(XTime(a), XTime(b))
  {
    ShiftAdds(a, b);
    hide Xor, Double, Half, HighBit, LowBit;
    XorZero(0x1b);
    XorZero(Xor(Double(a), Double(b)));
    Regroup(Double(a), if HighBit(a) then 0x1b else 0, Double(b), if HighBit(b) then 0x1b else 0);
    XorZero(Double(a));
    XorZero(Double(b));
  }

  lemma ShiftAdds(a: bv8, b: bv8)
    ensures Double(Xor(a, b)) == Xor(Double(a), Double(b))
    ensures Half(Xor(a, b)) == Xor(Half(a), Half(b))
    ensures HighBit(Xor(a, b)) == (HighBit(a) != HighBit(b))
    ensures LowBit(Xor(a, b)) == (LowBit(a) != LowBit(b))
  {
  }

  lemma {:induction false} XTimesAdds(a: bv8, b: bv8, n: nat)
    ensures XTimes(Xor(a, b), n) == Xor(XTimes(a, n), XTimes(b, n))
  {
    hide Xor, XTime;
    if n > 0 {
      XTimesAdds(a, b, n - 1);
      XTimeAdds(XTimes(a, n - 1), XTimes(b, n - 1));
    }
  }

  lemma {:induction false} MulBitsAddsLeft(a: bv8, b: bv8, c: bv8, n: nat)
    ensures MulBits(Xor(a, b), c, n) == Xor(MulBits(a, c, n), MulBits(b, c, n))
    decreases n
  {
    hide Xor, XTime, LowBit, Half;
    XorZero(0);
    if n > 0 {
      XTimeAdds(a, b);
      MulBitsAddsLeft(XTime(a), XTime(b), Half(c), n - 1);
      var p, q := MulBits(XTime(a), Half(c), n - 1), MulBits(XTime(b), Half(c), n - 1);
      if LowBit(c) { Regroup(a, b, p, q); } else { Regroup(0, 0, p, q); }
    }
  }

  lemma {:induction false} MulBitsAddsRight(a: bv8, b: bv8, c: bv8, n: nat)
    ensures MulBits(a, Xor(b, c), n) == Xor(MulBits(a, b, n), MulBits(a, c, n))
    decreases n
  {
    ShiftAdds(b, c);
    hide Xor, XTime, LowBit, Half;
    XorZero(0);
    if n > 0 {
      MulBitsAddsRight(XTime(a), Half(b), Half(c), n - 1);
      var p, q := MulBits(XTime(a), Half(b), n - 1), MulBits(XTime(a), Half(c), n - 1);
      XorZero(a);
      Regroup(if LowBit(b) then a else 0, if LowBit(c) then a else 0, p, q);
    }
  }

  lemma MulAdds(a: bv8, b: bv8, c: bv8)
    ensures Mul(Xor(a, b), c) == Xor(Mul(a, c), Mul(b, c))
    ensures Mul(a, Xor(b, c)) == Xor(Mul(a, b), Mul(a, c))
  {
    hide Xor, MulBits;
    MulBitsAddsLeft(a, b, c, 8);
    MulBitsAddsRight(a, b, c, 8);
  }

  ghost predicate Additive(f: bv8 -> bv8) {
    forall x: bv8, y: bv8 :: f(Xor(x, y)) == Xor(f(x), f(y))
  }

  lemma AdditiveZero(f: bv8 -> bv8)
    requires Additive(f)
    ensures f(0) == 0
  {
    assert f(Xor(0, 0)) == Xor(f(0), f(0));
    hide Xor;
    XorZero(f(0));
    XorZero(0);
  }

  /** The byte with only bit `i` set, which is the i-th power of x. */
  function Bit(i: nat): bv8
    requires i < 8
  {
    XTimes(1, i)
  }

  lemma BitValues()
    ensures Bit(0) == 1 && Bit(1) == 2 && Bit(2) == 4 && Bit(3) == 8
    ensures Bit(4) == 16 && Bit(5) == 32 && Bit(6) == 64 && Bit(7) == 128
  {
    assert XTimes(1, 3) == 8;
    assert XTimes(1, 5) == 32;
  }

  function Shl(a: bv8, k: nat): bv8
    requires k <= 8
  {
    a << k
  }

  lemma ShiftSplit(a: bv8, k: nat)
    requires k < 8
    ensures Shl(a, k) == Xor(if LowBit(a) then Shl(1, k) else 0, Shl(Half(a), k + 1))
  {
    if k == 0 { assert a == (a & 1) ^ ((a >> 1) << 1); }
    if k == 1 { assert a << 1 == ((a & 1) << 1) ^ ((a >> 1) << 2); }
    if k == 2 { assert a << 2 == ((a & 1) << 2) ^ ((a >> 1) << 3); }
    if k == 3 { assert a << 3 == ((a & 1) << 3) ^ ((a >> 1) << 4); }
    if k == 4 { assert a << 4 == ((a & 1) << 4) ^ ((a >> 1) << 5); }
    if k == 5 { assert a << 5 == ((a & 1) << 5) ^ ((a >> 1) << 6); }
    if k == 6 { assert a << 6 == ((a & 1) << 6) ^ ((a >> 1) << 7); }
    if k == 7 { assert a << 7 == ((a & 1) << 7) ^ ((a >> 1) << 8); }
  }

  lemma BitIsShift(k: nat)
    requires k < 8
    ensures Bit(k) == Shl(1, k)
  {
    BitValues();
    hide Bit;
  }

  /** Multiplying the k-th power of x by the low bits of `a` only shifts them. */
  lemma {:induction false} MulBitsShift(a: bv8, n: nat)
    requires n <= 8
    ensures MulBits(XTimes(1, 8 - n), a, n) == Shl(a, 8 - n)
    decreases n
  {
    hide Xor, XTime, LowBit, Half, Bit;
    if n == 0 {
      assert Shl(a, 8) == 0;
    } else {
      hide Shl;
      MulBitsShift(Half(a), n - 1);
      ShiftSplit(a, 8 - n);
      BitIsShift(8 - n);
      BitIs(8 - n);
      assert XTime(XTimes(1, 8 - n)) == XTimes(1, 8 - (n - 1));
    }
  }

  lemma BitIs(i: nat)
    requires i < 8
    ensures Bit(i) == XTimes(1, i)
  {
  }

  lemma OneTimes(a: bv8)
    ensures Mul(1, a) == a
  {
    MulBitsShift(a, 8);
    assert XTimes(1, 0) == 1;
    assert Shl(a, 0) == a;
  }

  lemma {:induction false} OnBitsFrom(f: bv8 -> bv8, g: bv8 -> bv8, a: bv8, n: nat)
    requires Additive(f) && Additive(g) && n <= 8
    requires forall i :: 0 <= i < 8 ==> f(Bit(i)) == g(Bit(i))
    ensures var b := MulBits(XTimes(1, 8 - n), a, n); f(b) == g(b)
    decreases n
  {
    hide Xor, XTime, LowBit, Half, Bit, Additive;
    AdditiveZero(f);
    AdditiveZero(g);
    if n > 0 {
      var c := XTimes(1, 8 - n);
      BitIs(8 - n);
      assert f(c) == g(c);
      assert XTime(c) == XTimes(1, 8 - (n - 1));
      OnBitsFrom(f, g, Half(a), n - 1);
      var x, y := if LowBit(a) then c else 0, MulBits(XTime(c), Half(a), n - 1);
      AdditiveAt(f, x, y);
      AdditiveAt(g, x, y);
    }
  }

  lemma AdditiveAt(f: bv8 -> bv8, x: bv8, y: bv8)
    requires Additive(f)
    ensures f(Xor(x, y)) == Xor(f(x), f(y))
  {
  }

  /** Additive functions that agree on the eight single-bit bytes are equal. */
  lemma OnBits(f: bv8 -> bv8, g: bv8 -> bv8, a: bv8)
    requires Additive(f) && Additive(g)
    requires forall i :: 0 <= i < 8 ==> f(Bit(i)) == g(Bit(i))
    ensures f(a) == g(a)
  {
    hide Bit, Additive;
    OnBitsFrom(f, g, a, 8);
    OneTimes(a);
    assert XTimes(1, 0) == 1;
  }

  // ---- the product is commutative and associative ----

  lemma {:induction false} XTimesShift(a: bv8, i: nat, j: nat)
    ensures XTimes(XTimes(a, i), j) == XTimes(a, i + j)
  {
    if j > 0 { XTimesShift(a, i, j - 1); }
  }

  lemma {:induction false} MulBitsZero(a: bv8, n: nat)
    ensures MulBits(a, 0, n) == 0
    decreases n
  {
    if n > 0 {
      MulBitsZero(XTime(a), n - 1);
      assert Half(0) == 0 && !LowBit(0) && Xor(0, 0) == 0;
    }
  }

  lemma HalfBit(i: nat)
    requires i < 8
    ensures LowBit(Bit(i)) <==> i == 0
    ensures Half(Bit(i)) == if i == 0 then 0 else Bit(i - 1)
  {
    BitValues();
    hide Bit;
    assert Half(1) == 0 && Half(2) == 1 && Half(4) == 2 && Half(8) == 4;
    assert Half(16) == 8 && Half(32) == 16 && Half(64) == 32 && Half(128) == 64;
  }

  lemma {:induction false} MulBitsBit(a: bv8, i: nat, n: nat)
    requires i < n <= 8
    ensures MulBits(a, Bit(i), n) == XTimes(a, i)
    decreases n
  {
    hide Bit, Xor, LowBit, Half, XTime;
    HalfBit(i);
    if i == 0 {
      MulBitsZero(XTime(a), n - 1);
      XorZero(a);
    } else {
      MulBitsBit(XTime(a), i - 1, n - 1);
      XorZero(XTimes(a, i));
      XTimesShift(a, 1, i - 1);
      assert XTimes(a, 1) == XTime(a) by { assert XTimes(a, 0) == a; }
    }
  }

  /** Multiplying by a single bit is repeated multiplication by x. */
  lemma MulBit(a: bv8, i: nat)
    requires i < 8
    ensures Mul(a, Bit(i)) == XTimes(a, i)
  {
    hide Bit, XTimes;
    MulBitsBit(a, i, 8);
  }

  lemma MulAddsLeft(c: bv8)
    ensures Additive(x => Mul(x, c))
  {
    hide Xor, Mul;
    forall x: bv8, y: bv8 ensures Mul(Xor(x, y), c) == Xor(Mul(x, c), Mul(y, c)) { MulAdds(x, y, c); }
  }

  lemma MulAddsRight(c: bv8)
    ensures Additive(x => Mul(c, x))
  {
    hide Xor, Mul;
    forall x: bv8, y: bv8 ensures Mul(c, Xor(x, y)) == Xor(Mul(c, x), Mul(c, y)) { MulAdds(c, x, y); }
  }

  lemma BitMul(b: bv8, i: nat)
    requires i < 8
    ensures Mul(Bit(i), b) == XTimes(b, i)
  {
    hide Xor, Mul, XTime;
    var f := (x: bv8) => Mul(Bit(i), x);
    var g := (x: bv8) => XTimes(x, i);
    MulAddsRight(Bit(i));
    assert Additive(g) by {
      forall x: bv8, y: bv8 ensures XTimes(Xor(x, y), i) == Xor(XTimes(x, i), XTimes(y, i)) { XTimesAdds(x, y, i); }
    }
    forall j | 0 <= j < 8 ensures f(Bit(j)) == g(Bit(j)) {
      MulBit(Bit(i), j);
      XTimesShift(1, i, j);
      XTimesShift(1, j, i);
    }
    assert Additive(f);
    OnBits(f, g, b);
  }

  lemma MulComm(a: bv8, b: bv8)
    ensures Mul(a, b) == Mul(b, a)
  {
    hide Xor, Mul, Bit;
    var f := (x: bv8) => Mul(x, b);
    var g := (x: bv8) => Mul(b, x);
    MulAddsLeft(b);
    MulAddsRight(b);
    assert Additive(f) && Additive(g);
    forall j | 0 <= j < 8 ensures f(Bit(j)) == g(Bit(j)) {
      MulBit(b, j);
      BitMul(b, j);
    }
    OnBits(f, g, a);
  }

  lemma ReductionOnBit(j: nat)
    requires j < 8
    ensures XTimes(Bit(j), 8) == Mul(Bit(j), 0x1b)
  {
    hide Mul, XTime;
    BitMul(0x1b, j);
    XTimesShift(1, j, 8);
    XTimesShift(1, 8, j);
    XToTheEighth();
  }

  lemma XToTheEighth()
    ensures XTimes(1, 8) == 0x1b
  {
    assert XTimes(1, 4) == 0x10;
    assert XTimes(1, 7) == 0x80;
  }

  /** x^8 = x^4 + x^3 + x + 1. */
  lemma Reduction(a: bv8)
    ensures XTimes(a, 8) == Mul(a, 0x1b)
  {
    hide Mul, XTimes, Bit, Xor;
    var f := (x: bv8) => XTimes(x, 8);
    var g := (x: bv8) => Mul(x, 0x1b);
    assert Additive(f) by { forall x: bv8, y: bv8 { XTimesAdds(x, y, 8); } }
    assert Additive(g) by { MulAddsLeft(0x1b); }
    hide Additive;
    forall j | 0 <= j < 8 ensures f(Bit(j)) == g(Bit(j)) { ReductionOnBit(j); }
    OnBits(f, g, a);
  }

  lemma MulXTimeOnBit(a: bv8, j: nat)
    requires j < 8
    ensures Mul(a, XTime(Bit(j))) == XTime(Mul(a, Bit(j)))
  {
    hide Mul, XTime;
    MulBit(a, j);
    if j < 7 {
      MulBit(a, j + 1);
      assert XTime(Bit(j)) == Bit(j + 1);
    } else {
      Reduction(a);
      BitSeven();
    }
  }

  lemma BitSeven()
    ensures XTime(Bit(7)) == 0x1b
  {
    BitValues();
  }

  lemma MulXTimeAdds(a: bv8, x: bv8, y: bv8)
    ensures Mul(a, XTime(Xor(x, y))) == Xor(Mul(a, XTime(x)), Mul(a, XTime(y)))
    ensures XTime(Mul(a, Xor(x, y))) == Xor(XTime(Mul(a, x)), XTime(Mul(a, y)))
  {
    hide Xor, Mul, XTime;
    XTimeAdds(x, y);
    MulAdds(a, XTime(x), XTime(y));
    MulAdds(a, x, y);
    XTimeAdds(Mul(a, x), Mul(a, y));
  }

  lemma MulXTime(a: bv8, b: bv8)
    ensures Mul(a, XTime(b)) == XTime(Mul(a, b))
  {
    hide Xor, Mul, XTime, Bit;
    var f := (x: bv8) => Mul(a, XTime(x));
    var g := (x: bv8) => XTime(Mul(a, x));
    assert Additive(f) by { forall x: bv8, y: bv8 { MulXTimeAdds(a, x, y); } }
    assert Additive(g) by { forall x: bv8, y: bv8 { MulXTimeAdds(a, x, y); } }
    hide Additive;
    forall j | 0 <= j < 8 ensures f(Bit(j)) == g(Bit(j)) { MulXTimeOnBit(a, j); }
    OnBits(f, g, b);
  }

  lemma {:induction false} MulXTimes(a: bv8, b: bv8, n: nat)
    ensures Mul(a, XTimes(b, n)) == XTimes(Mul(a, b), n)
  {
    hide Mul, XTime;
    if n > 0 {
      MulXTimes(a, b, n - 1);
      MulXTime(a, XTimes(b, n - 1));
    }
  }

  lemma MulAssoc(a: bv8, b: bv8, c: bv8)
    ensures Mul(Mul(a, b), c) == Mul(a, Mul(b, c))
  {
    hide Xor, Mul, Bit, XTimes;
    var f := (x: bv8) => Mul(Mul(a, b), x);
    var g := (x: bv8) => Mul(a, Mul(b, x));
    MulAddsRight(Mul(a, b));
    forall x: bv8, y: bv8 ensures g(Xor(x, y)) == Xor(g(x), g(y)) {
      MulAdds(b, x, y);
      MulAdds(a, Mul(b, x), Mul(b, y));
    }
    assert Additive(f) && Additive(g);
    forall j | 0 <= j < 8 ensures f(Bit(j)) == g(Bit(j)) {
      MulBit(Mul(a, b), j);
      MulBit(b, j);
      MulXTimes(a, b, j);
    }
    OnBits(f, g, c);
  }

  lemma MulOne(a: bv8)
    ensures Mul(a, 1) == a && Mul(1, a) == a
    ensures Mul(a, 0) == 0 && Mul(0, a) == 0
  {
    MulBitsZero(a, 8);
    OneTimes(a);
    hide Mul;
    MulComm(a, 1);
    MulComm(a, 0);
  }

  // ---- powers and inverses ----

  lemma {:induction false} PowAdd(a: bv8, m: nat, n: nat)
    ensures Pow(a, m + n) == Mul(Pow(a, m), Pow(a, n))
  {
    hide Mul;
    if m == 0 {
      MulOne(Pow(a, n));
    } else {
      PowAdd(a, m - 1, n);
      MulAssoc(a, Pow(a, m - 1), Pow(a, n));
    }
  }

  lemma {:induction false} PowMul(a: bv8, b: bv8, n: nat)
    ensures Pow(Mul(a, b), n) == Mul(Pow(a, n), Pow(b, n))
  {
    hide Mul;
    if n == 0 {
      MulOne(1);
    } else {
      PowMul(a, b, n - 1);
      var p, q := Pow(a, n - 1), Pow(b, n - 1);
      MulAssoc(a, b, Mul(p, q));
      MulAssoc(b, p, q);
      MulComm(b, p);
      MulAssoc(p, b, q);
      MulAssoc(a, p, Mul(b, q));
    }
  }

  lemma {:induction false} PowSquare(a: bv8, n: nat)
    ensures Pow(Mul(a, a), n) == Pow(a, 2 * n)
  {
    hide Mul;
    PowMul(a, a, n);
    PowAdd(a, n, n);
  }

  /** The square-and-multiply loop of `ginv`. */
  method GInv(a: bv8) returns (res: bv8)
    ensures res == Inv(a)
  {
    hide Mul;
    res := 1;
    var base, e := a, 254;
    MulOne(Pow(a, 254));
    while e != 0
      invariant e >= 0 && Mul(res, Pow(base, e)) == Inv(a)
      decreases e
    {
      ghost var half := e / 2;
      PowSquare(base, half);
      if e % 2 == 1 {
        PowAdd(base, 1, 2 * half);
        assert Pow(base, 1) == base by { assert Pow(base, 0) == 1; MulOne(base); }
        MulAssoc(res, base, Pow(base, 2 * half));
        res := GMul(res, base);
      }
      base := GMul(base, base);
      e := e / 2;
    }
    MulOne(res);
  }

  /** Squaring adds (characteristic 2), and so do its iterates. */
  function Squares(a: bv8, n: nat): bv8
    decreases n
  {
    if n == 0 then a else Squares(Mul(a, a), n - 1)
  }

  lemma {:induction false} SquaresAdds(a: bv8, b: bv8, n: nat)
    ensures Squares(Xor(a, b), n) == Xor(Squares(a, n), Squares(b, n))
    decreases n
  {
    hide Mul, Xor;
    if n > 0 {
      var c := Xor(a, b);
      MulAdds(a, b, c);
      MulAdds(a, a, b);
      MulAdds(b, a, b);
      MulComm(a, b);
      var p, q, r := Mul(a, a), Mul(a, b), Mul(b, b);
      XorAssoc(p, q, Xor(q, r));
      XorAssoc(q, q, r);
      XorZero(q);
      XorZero(r);
      SquaresAdds(p, r, n - 1);
    }
  }

  lemma {:induction false} SquaresMul(a: bv8, b: bv8, n: nat)
    ensures Squares(Mul(a, b), n) == Mul(Squares(a, n), Squares(b, n))
    decreases n
  {
    hide Mul;
    if n > 0 {
      PowMul(a, b, 2);
      PowTwo(a);
      PowTwo(b);
      PowTwo(Mul(a, b));
      SquaresMul(Mul(a, a), Mul(b, b), n - 1);
    }
  }

  lemma PowTwo(a: bv8)
    ensures Pow(a, 2) == Mul(a, a)
  {
    hide Mul;
    assert Pow(a, 1) == a by { assert Pow(a, 0) == 1; MulOne(a); }
  }

  function TwoTo(n: nat): nat { if n == 0 then 1 else 2 * TwoTo(n - 1) }

  lemma {:induction false} SquaresPow(a: bv8, n: nat)
    ensures Squares(a, n) == Pow(a, TwoTo(n))
    decreases n
  {
    hide Mul;
    if n == 0 {
      assert Pow(a, 0) == 1;
      MulOne(a);
    } else {
      SquaresPow(Mul(a, a), n - 1);
      PowSquare(a, TwoTo(n - 1));
    }
  }

  /** The eighth iterate fixes x, hence every power of x, hence every byte: a^256 = a. */
  lemma Frobenius(a: bv8)
    ensures Pow(a, 256) == a
  {
    hide Mul, Xor, Bit;
    var f := (x: bv8) => Squares(x, 8);
    var g := (x: bv8) => x;
    assert Additive(f) by { forall x: bv8, y: bv8 { SquaresAdds(x, y, 8); } }
    assert Additive(g);
    hide Additive, Squares;
    forall j | 0 <= j < 8 ensures f(Bit(j)) == g(Bit(j)) { SquaresBit(j); }
    OnBits(f, g, a);
    SquaresPow(a, 8);
    assert TwoTo(8) == 256 by { assert TwoTo(4) == 16; assert TwoTo(6) == 64; }
  }

  lemma {:induction false} SquaresBit(j: nat)
    requires j < 8
    ensures Squares(Bit(j), 8) == Bit(j)
  {
    hide Mul;
    if j == 0 {
      SquaresOne(8);
    } else {
      SquaresBit(j - 1);
      SquaresTwo();
      SquaresMul(Bit(1), Bit(j - 1), 8);
      BitMul(Bit(j - 1), 1);
      XTimesShift(1, j - 1, 1);
    }
  }

  lemma {:induction false} SquaresOne(n: nat)
    ensures Squares(1, n) == 1
    decreases n
  {
    hide Mul;
    MulOne(1);
    if n > 0 { SquaresOne(n - 1); }
  }

  /** Squaring, as the linear map it is: bit i goes to x^(2i). */
  function Spread(c: bv8, x: bv8, n: nat): bv8
    decreases n
  {
    if n == 0 then 0 else Xor(Keep(x, c), Spread(XTime(XTime(c)), Half(x), n - 1))
  }

  function Keep(x: bv8, c: bv8): bv8 { if LowBit(x) then c else 0 }

  lemma {:induction false} SpreadAdds(c: bv8, x: bv8, y: bv8, n: nat)
    ensures Spread(c, Xor(x, y), n) == Xor(Spread(c, x, n), Spread(c, y, n))
    decreases n
  {
    hide Xor, XTime, LowBit, Half;
    XorZero(0);
    if n > 0 {
      ShiftAdds(x, y);
      var c' := XTime(XTime(c));
      SpreadAdds(c', Half(x), Half(y), n - 1);
      XorZero(c);
      Regroup(Keep(x, c), Keep(y, c), Spread(c', Half(x), n - 1), Spread(c', Half(y), n - 1));
    }
  }

  lemma {:induction false} SpreadZero(c: bv8, n: nat)
    ensures Spread(c, 0, n) == 0
    decreases n
  {
    if n > 0 {
      SpreadZero(XTime(XTime(c)), n - 1);
      assert Half(0) == 0 && !LowBit(0) && Xor(0, 0) == 0;
    }
  }

  lemma {:induction false} SpreadBit(c: bv8, i: nat, n: nat)
    requires i < n <= 8
    ensures Spread(c, Bit(i), n) == XTimes(c, 2 * i)
    decreases n
  {
    hide Bit, Xor, LowBit, Half, XTime;
    HalfBit(i);
    if i == 0 {
      SpreadZero(XTime(XTime(c)), n - 1);
      XorZero(c);
      assert XTimes(c, 0) == c;
    } else {
      SpreadBit(XTime(XTime(c)), i - 1, n - 1);
      XorZero(XTimes(c, 2 * i));
      XTimesShift(c, 2, 2 * i - 2);
      assert XTimes(c, 1) == XTime(c) by { assert XTimes(c, 0) == c; }
    }
  }

  lemma SquareIs(x: bv8)
    ensures Mul(x, x) == Spread(1, x, 8)
  {
    hide Mul, Xor, Spread, Bit, XTimes;
    var f := (x: bv8) => Mul(x, x);
    var g := (x: bv8) => Spread(1, x, 8);
    assert Additive(f) by { forall x: bv8, y: bv8 { SquareAdds(x, y); } }
    assert Additive(g) by { forall x: bv8, y: bv8 { SpreadAdds(1, x, y, 8); } }
    hide Additive;
    forall j | 0 <= j < 8 ensures f(Bit(j)) == g(Bit(j)) {
      MulBit(Bit(j), j);
      BitIs(j);
      XTimesShift(1, j, j);
      SpreadBit(1, j, 8);
    }
    OnBits(f, g, x);
  }

  /** The same map with its constants written out. */
  function SquareFlat(x: bv8): bv8 {
    var h1 := Half(x);
    var h2 := Half(h1);
    var h3 := Half(h2);
    var h4 := Half(h3);
    var h5 := Half(h4);
    var h6 := Half(h5);
    var h7 := Half(h6);
    Xor(Keep(x, 0x01), Xor(Keep(h1, 0x04), Xor(Keep(h2, 0x10), Xor(Keep(h3, 0x40),
    Xor(Keep(h4, 0x1b), Xor(Keep(h5, 0x6c), Xor(Keep(h6, 0xab), Keep(h7, 0x9a))))))))
  }

  lemma SquareConstants()
    ensures XTime(XTime(0x01)) == 0x04 && XTime(XTime(0x04)) == 0x10 && XTime(XTime(0x10)) == 0x40
    ensures XTime(XTime(0x40)) == 0x1b && XTime(XTime(0x1b)) == 0x6c && XTime(XTime(0x6c)) == 0xab
    ensures XTime(XTime(0xab)) == 0x9a
  {
  }

  lemma SpreadFlat(x: bv8)
    ensures Spread(1, x, 8) == SquareFlat(x)
  {
    SquareConstants();
    hide Xor, XTime, Half, Keep;
    var h1 := Half(x);
    var h2 := Half(h1);
    var h3 := Half(h2);
    var h4 := Half(h3);
    var h5 := Half(h4);
    var h6 := Half(h5);
    var h7 := Half(h6);
    assert Spread(0x9a, h7, 1) == Xor(Keep(h7, 0x9a), 0);
    XorZero(Keep(h7, 0x9a));
    assert Spread(0x6c, h5, 3) == Xor(Keep(h5, 0x6c), Xor(Keep(h6, 0xab), Keep(h7, 0x9a)));
    assert Spread(0x40, h3, 5) == Xor(Keep(h3, 0x40), Xor(Keep(h4, 0x1b), Spread(0x6c, h5, 3)));
    assert Spread(0x04, h1, 7) == Xor(Keep(h1, 0x04), Xor(Keep(h2, 0x10), Spread(0x40, h3, 5)));
  }

  lemma FlatChain()
    ensures SquareFlat(0x02) == 0x04 && SquareFlat(0x04) == 0x10 && SquareFlat(0x10) == 0x1b && SquareFlat(0x1b) == 0x5e
    ensures SquareFlat(0x5e) == 0xe4 && SquareFlat(0xe4) == 0x4d && SquareFlat(0x4d) == 0xfa && SquareFlat(0xfa) == 0x02
  {
  }

  lemma SquareAdds(x: bv8, y: bv8)
    ensures Mul(Xor(x, y), Xor(x, y)) == Xor(Mul(x, x), Mul(y, y))
  {
    hide Mul, Xor;
    SquaresAdds(x, y, 1);
    assert Squares(Mul(x, x), 0) == Mul(x, x);
  }

  lemma Square(x: bv8)
    ensures Mul(x, x) == SquareFlat(x)
  {
    hide Mul, Spread, SquareFlat;
    SquareIs(x);
    SpreadFlat(x);
  }

  lemma SquaresTwo()
    ensures Squares(Bit(1), 8) == Bit(1)
  {
    BitValues();
    FlatChain();
    hide Mul, Bit, SquareFlat;
    Square(0x02); Square(0x04); Square(0x10); Square(0x1b);
    Square(0x5e); Square(0xe4); Square(0x4d); Square(0xfa);
    assert Squares(0x4d, 2) == 0x02;
    assert Squares(0x5e, 4) == 0x02;
    assert Squares(0x10, 6) == 0x02;
  }

  /** Only 0 and 1 are their own square. */
  lemma Idempotent(e: bv8)
    requires Mul(e, e) == e
    ensures e == 0 || e == 1
  {
    hide Mul, SquareFlat;
    Square(e);
    SquareFlatFixed(e);
  }

  lemma SquareFlatFixed(e: bv8)
    requires SquareFlat(e) == e
    ensures e == 0 || e == 1
  {
  }

  lemma InverseLaw(a: bv8)
    requires a != 0
    ensures Mul(a, Inv(a)) == 1
  {
    hide Mul;
    var e := Pow(a, 255);
    assert e == Mul(a, Inv(a));
    Frobenius(a);
    assert Mul(a, e) == a;
    PowAdd(a, 256, 254);
    PowAdd(a, 255, 255);
    Idempotent(e);
    MulOne(a);
  }

  /** `ginv` is an involution of all 256 bytes (0 maps to 0). */
  lemma InvInv(a: bv8)
    ensures Inv(Inv(a)) == a
  {
    hide Mul, Inv;
    if a == 0 {
      InvZero();
    } else {
      var b := Inv(a);
      InverseLaw(a);
      MulOne(a);
      InverseLaw(b);
      MulAssoc(a, b, Inv(b));
      MulOne(Inv(b));
    }
  }

  lemma InvZero()
    ensures Inv(0) == 0
  {
    hide Mul;
    MulOne(Pow(0, 253));
  }
}
