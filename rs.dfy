/** reed_solomon_128bytes_ecc: the Reed-Solomon parity generator of
    ltq-nand.c, a linear-feedback shift register over GF(256) fed one data
    byte at a time.

    ECC4 keeps four parity registers s[0..3] and divides by the generator
    x^4 + 205x^3 + 63x^2 + 92x + 32, whose roots are alpha, alpha^2,
    alpha^3 and alpha^254. ECC3 keeps three, s[0..2], and divides by
    (x + 2)(x + 4)(x + 8) = x^3 + 14x^2 + 56x + 64, whose coefficients the
    C computes at run time with g_add and g_mul. The strength argument takes
    the oob_mode values ECC4 = 2 and ECC3 = 3; any other value leaves the
    registers as they were.

    The registers read from the top down (s[3], s[2], s[1], s[0] for ECC4;
    s[2], s[1], s[0] for ECC3) are the order in which the caller stores them
    after the data, and the data followed by them is a codeword: a
    polynomial that vanishes at every root of the generator (Ecc4Codeword,
    Ecc3Codeword). */
module ReedSolomon {
  import opened Gf
  import opened Poly

  /** The strength argument selecting four parity bytes (oob_mode ECC4). */
  const ECC4: int := 2
  /** The strength argument selecting three parity bytes (oob_mode ECC3). */
  const ECC3: int := 3

  /** Number of data bytes one call consumes. */
  const ChunkSize: nat := 128

  /** The ECC4 generator coefficients g[0], g[1], g[2], g[3]. */
  const G4: seq<bv8> := [32, 92, 63, 205]

  /** The ECC3 generator coefficients g[0], g[1], g[2], computed from the
      roots 2, 4 and 8 as the C computes them. */
  function Ecc3Generator(t: Tables): (r: seq<bv8>)
    ensures |r| == 3 && r[2] == 14
  {
    [ Mul(t, Mul(t, 2, 4), 8),
      Add(Mul(t, 2, 4), Add(Mul(t, 4, 8), Mul(t, 2, 8))),
      Add(Add(2, 4), 8) ]
  }

  /** The register state before any data. */
  const Zero: seq<bv8> := [0, 0, 0, 0]

  /** One ECC4 iteration on data byte d: the feedback y = s[3] + d is
      multiplied into every tap and the registers shift up by one. */
  function Ecc4Step(t: Tables, s: seq<bv8>, d: bv8): (r: seq<bv8>)
    requires |s| == 4
    ensures |r| == 4
  {
    var y := Add(s[3], d);
    [ Mul(t, y, G4[0]),
      Add(s[0], Mul(t, y, G4[1])),
      Add(s[1], Mul(t, y, G4[2])),
      Add(s[2], Mul(t, y, G4[3])) ]
  }

  /** One ECC3 iteration on data byte d with generator coefficients g:
      feedback from s[2]; s[3] is not touched. */
  function Ecc3Step(t: Tables, g: seq<bv8>, s: seq<bv8>, d: bv8): (r: seq<bv8>)
    requires |g| == 3 && |s| == 4
    ensures |r| == 4 && r[3] == s[3]
  {
    var y := Add(s[2], d);
    [ Mul(t, y, g[0]),
      Add(s[0], Mul(t, y, g[1])),
      Add(s[1], Mul(t, y, g[2])),
      s[3] ]
  }

  /** The ECC4 registers after feeding data, first byte first. */
  function Ecc4Run(t: Tables, s: seq<bv8>, data: seq<bv8>): (r: seq<bv8>)
    requires |s| == 4
    ensures |r| == 4
    decreases |data|
  {
    if |data| == 0 then s
    else Ecc4Step(t, Ecc4Run(t, s, data[..|data| - 1]), data[|data| - 1])
  }

  /** The ECC3 registers after feeding data, first byte first; s[3] comes
      out as it went in. */
  function Ecc3Run(t: Tables, s: seq<bv8>, data: seq<bv8>): (r: seq<bv8>)
    requires |s| == 4
    ensures |r| == 4 && r[3] == s[3]
    decreases |data|
  {
    if |data| == 0 then s
    else Ecc3Step(t, Ecc3Generator(t), Ecc3Run(t, s, data[..|data| - 1]), data[|data| - 1])
  }

  /** What reed_solomon_128bytes_ecc leaves in s after consuming data. */
  function Parity(t: Tables, s: seq<bv8>, data: seq<bv8>, strength: int): (r: seq<bv8>)
    requires |s| == 4
    ensures |r| == 4
    ensures strength != ECC4 && strength != ECC3 ==> r == s
    ensures strength == ECC3 ==> r[3] == s[3]
  {
    if strength == ECC4 then Ecc4Run(t, s, data)
    else if strength == ECC3 then Ecc3Run(t, s, data)
    else s
  }

  /** The ECC4 parity bytes in the order the caller stores them. */
  function Ecc4Bytes(s: seq<bv8>): (r: seq<bv8>)
    requires |s| == 4
    ensures |r| == 4
  {
    [s[3], s[2], s[1], s[0]]
  }

  /** The ECC3 parity bytes in the order the caller stores them. */
  function Ecc3Bytes(s: seq<bv8>): (r: seq<bv8>)
    requires |s| == 4
    ensures |r| == 3
  {
    [s[2], s[1], s[0]]
  }

  /** reed_solomon_128bytes_ecc(data, s, strength): updates the registers
      s in place over the 128 data bytes. The two strengths are tested by two
      independent ifs, as in the C. */
  method ReedSolomon128Bytes(t: Tables, data: seq<bv8>, s: array<bv8>, strength: int)
    requires |data| == ChunkSize && s.Length == 4
    modifies s
    ensures s[..] == Parity(t, old(s[..]), data, strength)
  {
    if strength == ECC4 {
      Ecc4Loop(t, data, s);
    }
    if strength == ECC3 {
      Ecc3Loop(t, data, s);
    }
  }

  /** Feeding one more byte is one more step. */
  lemma Ecc4RunSnoc(t: Tables, s: seq<bv8>, data: seq<bv8>, i: nat)
    requires |s| == 4 && i < |data|
    ensures Ecc4Run(t, s, data[..i + 1]) == Ecc4Step(t, Ecc4Run(t, s, data[..i]), data[i])
  {
    assert data[..i + 1][..i] == data[..i];
  }

  lemma Ecc3RunSnoc(t: Tables, s: seq<bv8>, data: seq<bv8>, i: nat)
    requires |s| == 4 && i < |data|
    ensures Ecc3Run(t, s, data[..i + 1])
         == Ecc3Step(t, Ecc3Generator(t), Ecc3Run(t, s, data[..i]), data[i])
  {
    assert data[..i + 1][..i] == data[..i];
  }

  /** The ECC4 branch of reed_solomon_128bytes_ecc. */
  method Ecc4Loop(t: Tables, data: seq<bv8>, s: array<bv8>)
    requires |data| == ChunkSize && s.Length == 4
    modifies s
    ensures s[..] == Ecc4Run(t, old(s[..]), data)
  {
    ghost var s0 := s[..];
    ghost var regs := s[..];
    var g3, g2, g1, g0: bv8 := G4[3], G4[2], G4[1], G4[0];
    var i := 0;
    while i <= ChunkSize - 1
      invariant 0 <= i <= ChunkSize && |regs| == 4
      invariant regs == Ecc4Run(t, s0, data[..i])
      invariant s[..] == regs
    {
      Ecc4RunSnoc(t, s0, data, i);
      var y := Add(s[3], data[i]);
      var temp1 := Mul(t, y, g3);
      var temp2 := Mul(t, y, g2);
      var temp3 := Mul(t, y, g1);
      regs := Ecc4Step(t, regs, data[i]);
      s[3] := Add(s[2], temp1);
      s[2] := Add(s[1], temp2);
      s[1] := Add(s[0], temp3);
      s[0] := Mul(t, y, g0);
      i := i + 1;
    }
    assert data[..ChunkSize] == data;
  }

  /** The ECC3 branch of reed_solomon_128bytes_ecc: the generator is
      computed first, and s[3] is never written. */
  method Ecc3Loop(t: Tables, data: seq<bv8>, s: array<bv8>)
    requires |data| == ChunkSize && s.Length == 4
    modifies s
    ensures s[..] == Ecc3Run(t, old(s[..]), data)
  {
    ghost var s0 := s[..];
    ghost var regs := s[..];
    var g := Ecc3Generator(t);
    var g2, g1, g0 := g[2], g[1], g[0];
    var i := 0;
    while i <= ChunkSize - 1
      invariant 0 <= i <= ChunkSize && |regs| == 4
      invariant regs == Ecc3Run(t, s0, data[..i])
      invariant s[..] == regs
    {
      Ecc3RunSnoc(t, s0, data, i);
      var y := Add(s[2], data[i]);
      var temp2 := Mul(t, y, g2);
      var temp3 := Mul(t, y, g1);
      regs := Ecc3Step(t, g, regs, data[i]);
      s[2] := Add(s[1], temp2);
      s[1] := Add(s[0], temp3);
      s[0] := Mul(t, y, g0);
      i := i + 1;
    }
    assert data[..ChunkSize] == data;
  }

  // ---------------------------------------------------------------------
  // The generators

  /** The ECC4 generator, highest coefficient first. */
  const Ecc4Poly: seq<bv8> := [1, 205, 63, 92, 32]

  /** ECC3 coefficients g[0..2], highest first. */
  function Taps(g: seq<bv8>): (r: seq<bv8>)
    requires |g| == 3
    ensures |r| == 3
  {
    [g[2], g[1], g[0]]
  }

  /** The ECC3 generator the C computes, highest coefficient first. */
  function Ecc3Poly(t: Tables): seq<bv8> {
    [1] + Taps(Ecc3Generator(t))
  }

  /** With valid tables the run-time ECC3 coefficients are 64, 56, 14: the
      symmetric functions of 2, 4 and 8. */
  lemma Ecc3GeneratorValue(t: Tables)
    requires ValidTables(t)
    ensures Ecc3Generator(t) == [64, 56, 14]
  {
    assert Pow(2) == 4 && Pow(3) == 8;
    MulByPow(t, 2, 2);
    MulByPow(t, 8, 3);
    MulByPow(t, 4, 3);
    MulByPow(t, 2, 3);
  }

  /** alpha = 2, alpha^2 = 4 and alpha^3 = 8 are roots of the ECC4 generator. */
  lemma Ecc4RootsLow(t: Tables)
    requires ValidTables(t)
    ensures Horner(t, Ecc4Poly, 2) == 0
    ensures Horner(t, Ecc4Poly, 4) == 0
    ensures Horner(t, Ecc4Poly, 8) == 0
  {
    assert Pow(1) == 2 && Pow(2) == 4 && Pow(3) == 8;
    HornerFive(t, 1, 205, 63, 92, 32, 2);
    MulByPow(t, 1, 1);
    MulByPow(t, 207, 1);
    MulByPow(t, 38, 1);
    MulByPow(t, 16, 1);
    HornerFive(t, 1, 205, 63, 92, 32, 4);
    MulByPow(t, 1, 2);
    MulByPow(t, 201, 2);
    MulByPow(t, 21, 2);
    MulByPow(t, 8, 2);
    HornerFive(t, 1, 205, 63, 92, 32, 8);
    MulByPow(t, 1, 3);
    MulByPow(t, 197, 3);
    MulByPow(t, 11, 3);
    MulByPow(t, 4, 3);
  }

  /** alpha^254 = 195 is the fourth root of the ECC4 generator. */
  lemma Ecc4RootInverse(t: Tables)
    requires ValidTables(t)
    ensures Horner(t, Ecc4Poly, 195) == 0
  {
    HornerFive(t, 1, 205, 63, 92, 32, 195);
    MulInverseAlpha(t, 195);
    MulInverseAlpha(t, 7);
    MulInverseAlpha(t, 28);
    MulInverseAlpha(t, 32);
  }

  /** 2, 4 and 8 are roots of the ECC3 generator the C computes. */
  lemma Ecc3Roots(t: Tables)
    requires ValidTables(t)
    ensures Horner(t, Ecc3Poly(t), 2) == 0
    ensures Horner(t, Ecc3Poly(t), 4) == 0
    ensures Horner(t, Ecc3Poly(t), 8) == 0
  {
    Ecc3GeneratorValue(t);
    assert Ecc3Poly(t) == [1] + [14, 56, 64] == [1, 14, 56, 64];
    assert Pow(1) == 2 && Pow(2) == 4 && Pow(3) == 8;
    HornerFour(t, 1, 14, 56, 64, 2);
    MulByPow(t, 1, 1);
    MulByPow(t, 12, 1);
    MulByPow(t, 32, 1);
    HornerFour(t, 1, 14, 56, 64, 4);
    MulByPow(t, 1, 2);
    MulByPow(t, 10, 2);
    MulByPow(t, 16, 2);
    HornerFour(t, 1, 14, 56, 64, 8);
    MulByPow(t, 1, 3);
    MulByPow(t, 6, 3);
    MulByPow(t, 8, 3);
  }

  // ---------------------------------------------------------------------
  // The registers hold the remainder of data * x^k modulo the generator

  /** At a root x of the generator 1 + g, the taps g evaluate to x^|g|. */
  lemma TapsValue(t: Tables, g: seq<bv8>, x: bv8)
    requires ValidTables(t) && Horner(t, [1] + g, x) == 0
    ensures Horner(t, g, x) == XPow(t, x, |g|)
  {
    HornerAppend(t, [1], g, x);
    HornerConst(t, 1, x);
    MulOne(t, XPow(t, x, |g|));
  }

  /** Shifting in a zero multiplies by x. */
  lemma ShiftedValue(t: Tables, p: seq<bv8>, x: bv8)
    ensures Horner(t, p + [0], x) == Mul(t, Horner(t, p, x), x)
  {
    assert (p + [0])[..|p|] == p;
  }

  /** The leading coefficient's share of the value. */
  lemma HeadValue(t: Tables, p: seq<bv8>, x: bv8)
    requires ValidTables(t) && |p| >= 1
    ensures Horner(t, p, x) == Add(Mul(t, p[0], XPow(t, x, |p| - 1)), Horner(t, p[1..], x))
  {
    assert p == [p[0]] + p[1..];
    HornerAppend(t, [p[0]], p[1..], x);
    HornerConst(t, p[0], x);
  }

  /** Addition in GF(256) is associative and commutative. */
  lemma AddRearrange(a: bv8, b: bv8, c: bv8)
    ensures Add(a, Add(b, c)) == Add(Add(b, a), c)
  {
  }

  /** The shifted registers plus the scaled taps evaluate to hr * x + y * x^k. */
  lemma LfsrStepSplit(t: Tables, p: seq<bv8>, g: seq<bv8>, y: bv8, x: bv8)
    requires ValidTables(t) && |p| == |g| >= 1
    requires Horner(t, [1] + g, x) == 0
    ensures Horner(t, Sum(p[1..] + [0], Scale(t, y, g)), x)
         == Add(Mul(t, Horner(t, p[1..], x), x), Mul(t, y, XPow(t, x, |g|)))
  {
    calc {
      Horner(t, Sum(p[1..] + [0], Scale(t, y, g)), x);
      { HornerSum(t, p[1..] + [0], Scale(t, y, g), x); }
      Add(Horner(t, p[1..] + [0], x), Horner(t, Scale(t, y, g), x));
      { ShiftedValue(t, p[1..], x); HornerScale(t, y, g, x); }
      Add(Mul(t, Horner(t, p[1..], x), x), Mul(t, y, Horner(t, g, x)));
      { TapsValue(t, g, x); }
      Add(Mul(t, Horner(t, p[1..], x), x), Mul(t, y, XPow(t, x, |g|)));
    }
  }

  /** The field identity behind LfsrStepJoin, with x^k = x^(k-1) * x. */
  lemma JoinAlgebra(t: Tables, hr: bv8, p0: bv8, d: bv8, x: bv8, xk1: bv8)
    requires ValidTables(t)
    ensures Add(Mul(t, hr, x), Mul(t, Add(p0, d), Mul(t, xk1, x)))
         == Add(Mul(t, Add(Mul(t, p0, xk1), hr), x), Mul(t, d, Mul(t, xk1, x)))
  {
    var xk := Mul(t, xk1, x);
    var lead := Mul(t, p0, xk1);
    calc {
      Add(Mul(t, hr, x), Mul(t, Add(p0, d), xk));
      { MulAddLeft(t, p0, d, xk); MulAssoc(t, p0, xk1, x); }
      Add(Mul(t, hr, x), Add(Mul(t, lead, x), Mul(t, d, xk)));
      { AddRearrange(Mul(t, hr, x), Mul(t, lead, x), Mul(t, d, xk)); }
      Add(Add(Mul(t, lead, x), Mul(t, hr, x)), Mul(t, d, xk));
      { MulAddLeft(t, lead, hr, x); }
      Add(Mul(t, Add(lead, hr), x), Mul(t, d, xk));
    }
  }

  /** hr * x + (p[0] + d) * x^k == p * x + d * x^k. */
  lemma LfsrStepJoin(t: Tables, p: seq<bv8>, d: bv8, x: bv8, k: nat)
    requires ValidTables(t) && |p| == k >= 1
    ensures Add(Mul(t, Horner(t, p[1..], x), x), Mul(t, Add(p[0], d), XPow(t, x, k)))
         == Add(Mul(t, Horner(t, p, x), x), Mul(t, d, XPow(t, x, k)))
  {
    HeadValue(t, p, x);
    JoinAlgebra(t, Horner(t, p[1..], x), p[0], d, x, XPow(t, x, k - 1));
  }

  /** One shift-register step with taps g (highest first), feedback
      y = p[0] + d: shifting p up and adding y * g is, at any root x of the
      generator 1 + g, multiplying p by x and adding d * x^k. */
  lemma LfsrStep(t: Tables, p: seq<bv8>, g: seq<bv8>, d: bv8, x: bv8)
    requires ValidTables(t) && |p| == |g| >= 1
    requires Horner(t, [1] + g, x) == 0
    ensures Horner(t, Sum(p[1..] + [0], Scale(t, Add(p[0], d), g)), x)
         == Add(Mul(t, Horner(t, p, x), x), Mul(t, d, XPow(t, x, |g|)))
  {
    LfsrStepSplit(t, p, g, Add(p[0], d), x);
    LfsrStepJoin(t, p, d, x, |g|);
  }

  /** An ECC4 step is the shift-register step on the stored bytes. */
  lemma Ecc4StepBytes(t: Tables, s: seq<bv8>, d: bv8)
    requires |s| == 4
    ensures Ecc4Bytes(Ecc4Step(t, s, d))
         == Sum(Ecc4Bytes(s)[1..] + [0], Scale(t, Add(Ecc4Bytes(s)[0], d), Ecc4Poly[1..]))
  {
    assert Ecc4Poly[1..] == [205, 63, 92, 32];
  }

  /** An ECC3 step is the shift-register step on the stored bytes. */
  lemma Ecc3StepBytes(t: Tables, g: seq<bv8>, s: seq<bv8>, d: bv8)
    requires |g| == 3 && |s| == 4
    ensures Ecc3Bytes(Ecc3Step(t, g, s, d))
         == Sum(Ecc3Bytes(s)[1..] + [0], Scale(t, Add(Ecc3Bytes(s)[0], d), Taps(g)))
  {
  }

  /** Appending one byte to data multiplies its value by x and adds it, so
      the same holds for data * x^k. */
  lemma RemainderStep(t: Tables, data: seq<bv8>, h: bv8, c: bv8, x: bv8, k: nat)
    requires ValidTables(t) && |data| > 0
    requires data[|data| - 1] == c
    requires h == Mul(t, Horner(t, data[..|data| - 1], x), XPow(t, x, k))
    ensures Add(Mul(t, h, x), Mul(t, c, XPow(t, x, k))) == Mul(t, Horner(t, data, x), XPow(t, x, k))
  {
    var hd, xk := Horner(t, data[..|data| - 1], x), XPow(t, x, k);
    MulAssoc(t, hd, xk, x);
    MulComm(t, xk, x);
    MulAssoc(t, hd, x, xk);
    MulAddLeft(t, Mul(t, hd, x), c, xk);
  }

  /** From zero registers, the ECC4 parity bytes evaluate at any root x of
      the generator to data * x^4: they are the remainder of data * x^4. */
  lemma {:induction false} Ecc4Remainder(t: Tables, data: seq<bv8>, x: bv8)
    requires ValidTables(t) && Horner(t, Ecc4Poly, x) == 0
    ensures Horner(t, Ecc4Bytes(Ecc4Run(t, Zero, data)), x)
         == Mul(t, Horner(t, data, x), XPow(t, x, 4))
    decreases |data|
  {
    if |data| == 0 {
      ZeroBytes(t, x);
    } else {
      var n := |data|;
      var prev := Ecc4Run(t, Zero, data[..n - 1]);
      var bytes := Ecc4Bytes(prev);
      Ecc4Remainder(t, data[..n - 1], x);
      Ecc4StepBytes(t, prev, data[n - 1]);
      assert [1] + Ecc4Poly[1..] == Ecc4Poly;
      LfsrStep(t, bytes, Ecc4Poly[1..], data[n - 1], x);
      RemainderStep(t, data, Horner(t, bytes, x), data[n - 1], x, 4);
    }
  }

  /** The zero registers evaluate to zero. */
  lemma ZeroBytes(t: Tables, x: bv8)
    ensures Horner(t, Ecc4Bytes(Zero), x) == 0
    ensures Horner(t, Ecc3Bytes(Zero), x) == 0
  {
    assert Ecc4Bytes(Zero) == [0, 0, 0, 0];
    HornerFour(t, 0, 0, 0, 0, x);
    assert Ecc3Bytes(Zero) == [0, 0, 0];
    assert [0, 0][..1] == [0];
    assert [0, 0, 0][..2] == [0, 0];
    HornerConst(t, 0, x);
    assert Horner(t, [0, 0], x) == 0;
    assert Horner(t, [0, 0, 0], x) == Add(Mul(t, Horner(t, [0, 0], x), x), 0);
  }

  /** From zero registers, the ECC3 parity bytes are the remainder of
      data * x^3 at any root x of the generator. */
  lemma {:induction false} Ecc3Remainder(t: Tables, data: seq<bv8>, x: bv8)
    requires ValidTables(t) && Horner(t, Ecc3Poly(t), x) == 0
    ensures Horner(t, Ecc3Bytes(Ecc3Run(t, Zero, data)), x)
         == Mul(t, Horner(t, data, x), XPow(t, x, 3))
    decreases |data|
  {
    if |data| == 0 {
      ZeroBytes(t, x);
    } else {
      var g := Ecc3Generator(t);
      var taps := Taps(g);
      var n := |data|;
      var prev := Ecc3Run(t, Zero, data[..n - 1]);
      var bytes := Ecc3Bytes(prev);
      assert Ecc3Run(t, Zero, data) == Ecc3Step(t, g, prev, data[n - 1]);
      Ecc3Remainder(t, data[..n - 1], x);
      Ecc3StepBytes(t, g, prev, data[n - 1]);
      LfsrStep(t, bytes, taps, data[n - 1], x);
      RemainderStep(t, data, Horner(t, bytes, x), data[n - 1], x, 3);
    }
  }

  /** The data followed by its ECC4 parity bytes vanishes at every root of
      the generator. */
  lemma Ecc4Codeword(t: Tables, data: seq<bv8>, x: bv8)
    requires ValidTables(t) && Horner(t, Ecc4Poly, x) == 0
    ensures Horner(t, data + Ecc4Bytes(Ecc4Run(t, Zero, data)), x) == 0
  {
    HornerAppend(t, data, Ecc4Bytes(Ecc4Run(t, Zero, data)), x);
    Ecc4Remainder(t, data, x);
  }

  /** The data followed by its ECC3 parity bytes vanishes at every root of
      the generator. */
  lemma Ecc3Codeword(t: Tables, data: seq<bv8>, x: bv8)
    requires ValidTables(t) && Horner(t, Ecc3Poly(t), x) == 0
    ensures Horner(t, data + Ecc3Bytes(Ecc3Run(t, Zero, data)), x) == 0
  {
    HornerAppend(t, data, Ecc3Bytes(Ecc3Run(t, Zero, data)), x);
    Ecc3Remainder(t, data, x);
  }

  /** The roots of the generator a strength selects: 2, 4 and 8, and for
      ECC4 also 195. */
  function Roots(strength: int): set<bv8> {
    if strength == ECC4 then {2, 4, 8, 195} else {2, 4, 8}
  }

  /** A codeword of the code a strength selects: it vanishes at every root
      of that code's generator. */
  ghost predicate Codeword(t: Tables, c: seq<bv8>, strength: int) {
    forall x {:trigger Horner(t, c, x)} :: x in Roots(strength) ==> Horner(t, c, x) == 0
  }

  /** A sequence that vanishes at 2, 4 and 8, and for ECC4 also at 195, is
      a codeword. */
  lemma RootsCodeword(t: Tables, c: seq<bv8>, strength: int)
    requires Horner(t, c, 2) == 0 && Horner(t, c, 4) == 0 && Horner(t, c, 8) == 0
    requires strength == ECC4 ==> Horner(t, c, 195) == 0
    ensures Codeword(t, c, strength)
  {
  }

  /** With valid tables, the ECC4 parity of any data (from zero registers)
      makes data followed by its parity bytes vanish at alpha, alpha^2,
      alpha^3 and alpha^254. */
  lemma Ecc4ParityCodeword(t: Tables, data: seq<bv8>)
    requires ValidTables(t)
    ensures var c := data + Ecc4Bytes(Parity(t, Zero, data, ECC4));
      Horner(t, c, 2) == 0 && Horner(t, c, 4) == 0 && Horner(t, c, 8) == 0 && Horner(t, c, 195) == 0
  {
    Ecc4RootsLow(t);
    Ecc4RootInverse(t);
    Ecc4Codeword(t, data, 2);
    Ecc4Codeword(t, data, 4);
    Ecc4Codeword(t, data, 8);
    Ecc4Codeword(t, data, 195);
  }

  /** With valid tables, the ECC3 parity of any data (from zero registers)
      makes data followed by its parity bytes vanish at 2, 4 and 8. */
  lemma Ecc3ParityCodeword(t: Tables, data: seq<bv8>)
    requires ValidTables(t)
    ensures var c := data + Ecc3Bytes(Parity(t, Zero, data, ECC3));
      Horner(t, c, 2) == 0 && Horner(t, c, 4) == 0 && Horner(t, c, 8) == 0
  {
    Ecc3Roots(t);
    Ecc3Codeword(t, data, 2);
    Ecc3Codeword(t, data, 4);
    Ecc3Codeword(t, data, 8);
  }

  // ---------------------------------------------------------------------
  // Erased data

  /** Zero bytes from zero registers leave the ECC4 registers zero. */
  lemma {:induction false} Ecc4RunZeros(t: Tables, data: seq<bv8>)
    requires forall i | 0 <= i < |data| :: data[i] == 0
    ensures Ecc4Run(t, Zero, data) == Zero
    decreases |data|
  {
    if |data| > 0 {
      Ecc4RunZeros(t, data[..|data| - 1]);
    }
  }

  /** Zero bytes from zero registers leave the ECC3 registers zero. */
  lemma {:induction false} Ecc3RunZeros(t: Tables, data: seq<bv8>)
    requires forall i | 0 <= i < |data| :: data[i] == 0
    ensures Ecc3Run(t, Zero, data) == Zero
    decreases |data|
  {
    if |data| > 0 {
      Ecc3RunZeros(t, data[..|data| - 1]);
    }
  }

  /** A chunk of zero bytes has all-zero parity at either strength. */
  lemma ParityOfZeros(t: Tables, data: seq<bv8>, strength: int)
    requires forall i | 0 <= i < |data| :: data[i] == 0
    ensures Parity(t, Zero, data, strength) == Zero
  {
    Ecc4RunZeros(t, data);
    Ecc3RunZeros(t, data);
  }
}
