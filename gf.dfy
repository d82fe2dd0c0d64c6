/** Arithmetic in GF(256) as ltq-nand.c performs it: addition is exclusive or
    (g_add) and multiplication goes through a logarithm table and its inverse
    (g_mul over g_num2alpha and g_alpha2num).

    The field is GF(2)[x] modulo x^8 + x^7 + x^2 + x + 1 with generator
    alpha = x. Multiplication by alpha is XTime, and Shift(x, k) multiplies x
    by alpha^k one XTime at a time. Shift is the reference against which the
    table multiplication is proved correct (MulShift), for any pair of tables
    that lists the powers of alpha and their logarithms (ValidTables). The
    field laws the parity proofs need are derived from it. The pair compiled
    into the C program is GfTables.NandTables. */
module Gf {

  /** Multiplication by alpha = x: a left shift, plus the reduction
      x^8 = x^7 + x^2 + x + 1 (0x87) times the bit that fell out. */
  function XTime(x: bv8): bv8 {
    (x << 1) ^ ((x >> 7) * 0x87)
  }

  /** x * alpha^k, computed by k multiplications by alpha. */
  function Shift(x: bv8, k: nat): bv8
    decreases k
  {
    if k == 0 then x else XTime(Shift(x, k - 1))
  }

  /** alpha^k. */
  function Pow(k: nat): bv8 {
    Shift(1, k)
  }

  /** The two lookup tables g_mul reads: log stands for g_num2alpha,
      indexed by a byte, and antilog for g_alpha2num, indexed by the number
      0 .. 255 g_mul computes. */
  datatype Tables = Tables(log: bv8 -> bv8, antilog: int -> bv8)

  /** Entry e + 1 of the antilog table is alpha times entry e. */
  ghost predicate StepAt(t: Tables, e: int) {
    t.antilog(e + 1) == XTime(t.antilog(e))
  }

  /** The antilog table lists alpha^0 .. alpha^255 and the log table inverts
      it on the nonzero bytes. */
  ghost predicate ValidTables(t: Tables) {
    && t.antilog(0) == 1
    && t.antilog(255) == 1
    && (forall e: int :: 0 <= e < 255 ==> StepAt(t, e))
    && (forall a: bv8 :: a != 0 ==> t.antilog(t.log(a) as int) == a)
  }

  /** g_add: addition in GF(256) is the exclusive or of the two bytes. Every
      byte is its own negative, so the sum is zero exactly when the operands
      agree, and adding b again takes the sum back to a. */
  function Add(a: bv8, b: bv8): (r: bv8)
    ensures r == 0 <==> a == b
    ensures b == 0 ==> r == a
    ensures r ^ b == a
  {
    a ^ b
  }

  /** g_add is commutative and associative, with 0 as its identity. */
  lemma AddLaws(a: bv8, b: bv8, c: bv8)
    ensures Add(a, b) == Add(b, a)
    ensures Add(Add(a, b), c) == Add(a, Add(b, c))
    ensures Add(a, 0) == a && Add(0, a) == a && Add(a, a) == 0
  {
  }

  /** The antilog index g_mul reads: the two logarithms summed modulo 255,
      reduced after each addition as the C does. The C keeps the partial sum
      in an unsigned char; every partial sum is below 255, so it is the same
      number as the int used here. */
  function MulExponent(t: Tables, a: bv8, b: bv8): int
    requires a != 0 && b != 0
  {
    var s1 := (0 + t.log(a) as int) % 255;
    (s1 + t.log(b) as int) % 255
  }

  /** g_mul: zero if either operand is zero, otherwise the antilog of the
      sum of the logarithms. */
  function Mul(t: Tables, a: bv8, b: bv8): (r: bv8)
    ensures a == 0 || b == 0 ==> r == 0
  {
    if a == 0 || b == 0 then 0 else t.antilog(MulExponent(t, a, b))
  }

  // ---------------------------------------------------------------------
  // Shift: linearity, composition, no zero divisors

  lemma XTimeLinear(x: bv8, y: bv8)
    ensures XTime(x ^ y) == XTime(x) ^ XTime(y)
  {
  }

  lemma {:induction false} ShiftLinear(x: bv8, y: bv8, k: nat)
    ensures Shift(x ^ y, k) == Shift(x, k) ^ Shift(y, k)
  {
    if k > 0 {
      ShiftLinear(x, y, k - 1);
      XTimeLinear(Shift(x, k - 1), Shift(y, k - 1));
    }
  }

  lemma {:induction false} ShiftZero(k: nat)
    ensures Shift(0, k) == 0
  {
    if k > 0 {
      ShiftZero(k - 1);
    }
  }

  lemma {:induction false} ShiftNonzero(x: bv8, k: nat)
    requires x != 0
    ensures Shift(x, k) != 0
  {
    if k > 0 {
      ShiftNonzero(x, k - 1);
    }
  }

  lemma {:induction false} ShiftShift(x: bv8, i: nat, j: nat)
    ensures Shift(Shift(x, i), j) == Shift(x, i + j)
    decreases j
  {
    if j > 0 {
      ShiftShift(x, i, j - 1);
    }
  }

  // ---------------------------------------------------------------------
  // Valid tables against the field

  /** Entry e of the antilog table is alpha^e, 255 included. */
  lemma {:induction false} AntilogIsPow(t: Tables, e: nat)
    requires ValidTables(t) && e < 256
    ensures t.antilog(e) == Pow(e)
  {
    if e != 0 {
      AntilogIsPow(t, e - 1);
      assert StepAt(t, e - 1);
    }
  }

  /** alpha^255 == 1. */
  lemma PowPeriod(t: Tables)
    requires ValidTables(t)
    ensures Pow(255) == 1
  {
    AntilogIsPow(t, 255);
  }

  lemma {:induction false} PowMod(t: Tables, n: nat)
    requires ValidTables(t)
    ensures Pow(n) == Pow(n % 255)
    decreases n
  {
    if n >= 255 {
      ShiftShift(1, 255, n - 255);
      PowPeriod(t);
      PowMod(t, n - 255);
    }
  }

  /** alpha^(log a) == a for every nonzero a. */
  lemma PowLog(t: Tables, a: bv8)
    requires ValidTables(t) && a != 0
    ensures Pow(t.log(a) as int) == a
  {
    AntilogIsPow(t, t.log(a) as int);
  }

  lemma ModStep(l: int, m: int)
    requires 0 <= l < 256 && 0 <= m < 256
    ensures ((0 + l) % 255 + m) % 255 == (l + m) % 255
  {
    if l == 255 {
      assert l % 255 == 0;
    } else {
      assert l % 255 == l;
    }
  }

  /** The index g_mul computes is log a + log b modulo 255; in particular it
      is never 255, so the last antilog entry is never read. */
  lemma MulExponentValue(t: Tables, a: bv8, b: bv8)
    requires a != 0 && b != 0
    ensures 0 <= MulExponent(t, a, b) == (t.log(a) as int + t.log(b) as int) % 255 < 255
  {
    var l, m := t.log(a) as int, t.log(b) as int;
    ModStep(l, m);
  }

  /** The product of two nonzero bytes is alpha to the sum of their logs. */
  lemma MulPow(t: Tables, a: bv8, b: bv8)
    requires ValidTables(t) && a != 0 && b != 0
    ensures Mul(t, a, b) == Pow(t.log(a) as int + t.log(b) as int)
  {
    var s := MulExponent(t, a, b);
    var n := t.log(a) as int + t.log(b) as int;
    calc {
      Mul(t, a, b);
      t.antilog(s);
      { MulExponentValue(t, a, b); AntilogIsPow(t, s); }
      Pow(s);
      { MulExponentValue(t, a, b); }
      Pow(n % 255);
      { PowMod(t, n); }
      Pow(n);
    }
  }

  /** Multiplying by a nonzero a is multiplying by alpha log(a) times. */
  lemma MulShift(t: Tables, a: bv8, b: bv8)
    requires ValidTables(t) && a != 0
    ensures Mul(t, a, b) == Shift(b, t.log(a) as int)
  {
    var la, lb := t.log(a) as int, t.log(b) as int;
    if b == 0 {
      ShiftZero(la);
    } else {
      MulPow(t, a, b);
      ShiftShift(1, lb, la);
      PowLog(t, b);
    }
  }

  /** Multiplying by alpha^k is multiplying by alpha k times. */
  lemma MulByPow(t: Tables, a: bv8, k: nat)
    requires ValidTables(t)
    ensures Mul(t, a, Pow(k)) == Shift(a, k)
  {
    if a == 0 {
      ShiftZero(k);
    } else {
      var la := t.log(a) as int;
      MulShift(t, a, Pow(k));
      ShiftShift(1, k, la);
      ShiftShift(1, la, k);
      PowLog(t, a);
    }
  }

  // ---------------------------------------------------------------------
  // Field laws of the table multiplication

  lemma MulComm(t: Tables, a: bv8, b: bv8)
    ensures Mul(t, a, b) == Mul(t, b, a)
  {
    if a != 0 && b != 0 {
      MulExponentValue(t, a, b);
      MulExponentValue(t, b, a);
    }
  }

  lemma MulOne(t: Tables, a: bv8)
    requires ValidTables(t)
    ensures Mul(t, 1, a) == a && Mul(t, a, 1) == a
  {
    assert Pow(0) == 1;
    MulByPow(t, a, 0);
    MulComm(t, a, 1);
  }

  lemma MulZeroIff(t: Tables, a: bv8, b: bv8)
    requires ValidTables(t)
    ensures Mul(t, a, b) == 0 <==> a == 0 || b == 0
  {
    if a != 0 && b != 0 {
      MulShift(t, a, b);
      ShiftNonzero(b, t.log(a) as int);
    }
  }

  /** a(b + c) == ab + ac. */
  lemma MulAdd(t: Tables, a: bv8, b: bv8, c: bv8)
    requires ValidTables(t)
    ensures Mul(t, a, Add(b, c)) == Add(Mul(t, a, b), Mul(t, a, c))
  {
    if a != 0 {
      MulShift(t, a, b);
      MulShift(t, a, c);
      MulShift(t, a, b ^ c);
      ShiftLinear(b, c, t.log(a) as int);
    }
  }

  /** (a + b)c == ac + bc. */
  lemma MulAddLeft(t: Tables, a: bv8, b: bv8, c: bv8)
    requires ValidTables(t)
    ensures Mul(t, Add(a, b), c) == Add(Mul(t, a, c), Mul(t, b, c))
  {
    MulComm(t, a ^ b, c);
    MulComm(t, a, c);
    MulComm(t, b, c);
    MulAdd(t, c, a, b);
  }

  lemma MulAssoc(t: Tables, a: bv8, b: bv8, c: bv8)
    requires ValidTables(t)
    ensures Mul(t, Mul(t, a, b), c) == Mul(t, a, Mul(t, b, c))
  {
    if a != 0 && b != 0 && c != 0 {
      var la, lc := t.log(a) as int, t.log(c) as int;
      MulComm(t, Mul(t, a, b), c);
      MulShift(t, c, Mul(t, a, b));
      MulShift(t, a, b);
      ShiftShift(b, la, lc);
      MulShift(t, a, Mul(t, b, c));
      MulComm(t, b, c);
      MulShift(t, c, b);
      ShiftShift(b, lc, la);
    }
  }

  // ---------------------------------------------------------------------
  // alpha^254, the inverse of alpha

  /** alpha^254 undoes one multiplication by alpha. */
  lemma ShiftBack(t: Tables, w: bv8)
    requires ValidTables(t)
    ensures Shift(XTime(w), 254) == w
  {
    ShiftShift(w, 1, 254);
    assert Shift(w, 1) == XTime(w);
    MulByPow(t, w, 255);
    PowPeriod(t);
    MulOne(t, w);
  }

  /** alpha^254 == 195 (0xc3). */
  lemma PowInverse(t: Tables)
    requires ValidTables(t)
    ensures Pow(254) == 195
  {
    assert XTime(195) == 1;
    ShiftBack(t, 195);
  }

  /** Multiplying by 195 divides by alpha. */
  lemma MulInverseAlpha(t: Tables, w: bv8)
    requires ValidTables(t)
    ensures Mul(t, XTime(w), 195) == w
  {
    PowInverse(t);
    MulByPow(t, XTime(w), 254);
    ShiftBack(t, w);
  }
}
