/** Polynomials over GF(256), written as byte sequences from the highest
    degree down: the order in which the parity generator consumes data bytes
    and the order in which its parity bytes are stored after them. */
module Poly {
  import opened Gf

  /** The value at x of the polynomial with coefficients p. */
  function Horner(t: Tables, p: seq<bv8>, x: bv8): bv8
    decreases |p|
  {
    if |p| == 0 then 0 else Add(Mul(t, Horner(t, p[..|p| - 1], x), x), p[|p| - 1])
  }

  /** x^n. */
  function XPow(t: Tables, x: bv8, n: nat): bv8 {
    if n == 0 then 1 else Mul(t, XPow(t, x, n - 1), x)
  }

  /** Coefficient-wise sum of two polynomials of the same length. */
  function Sum(p: seq<bv8>, q: seq<bv8>): (r: seq<bv8>)
    requires |p| == |q|
    ensures |r| == |p|
  {
    seq(|p|, i requires 0 <= i < |p| => Add(p[i], q[i]))
  }

  /** The polynomial p multiplied by the constant y. */
  function Scale(t: Tables, y: bv8, p: seq<bv8>): (r: seq<bv8>)
    ensures |r| == |p|
  {
    seq(|p|, i requires 0 <= i < |p| => Mul(t, y, p[i]))
  }

  /** Evaluation is additive. */
  lemma {:induction false} HornerSum(t: Tables, p: seq<bv8>, q: seq<bv8>, x: bv8)
    requires ValidTables(t) && |p| == |q|
    ensures Horner(t, Sum(p, q), x) == Add(Horner(t, p, x), Horner(t, q, x))
    decreases |p|
  {
    if |p| > 0 {
      var n := |p|;
      assert Sum(p, q)[..n - 1] == Sum(p[..n - 1], q[..n - 1]);
      HornerSum(t, p[..n - 1], q[..n - 1], x);
      SumStep(t, Horner(t, p[..n - 1], x), Horner(t, q[..n - 1], x), x, p[n - 1], q[n - 1]);
    }
  }

  /** One Horner step of a sum is the sum of the two steps. */
  lemma SumStep(t: Tables, a: bv8, b: bv8, x: bv8, c: bv8, d: bv8)
    requires ValidTables(t)
    ensures Add(Mul(t, Add(a, b), x), Add(c, d)) == Add(Add(Mul(t, a, x), c), Add(Mul(t, b, x), d))
  {
    MulAddLeft(t, a, b, x);
  }

  /** Evaluation commutes with scaling by a constant. */
  lemma {:induction false} HornerScale(t: Tables, y: bv8, p: seq<bv8>, x: bv8)
    requires ValidTables(t)
    ensures Horner(t, Scale(t, y, p), x) == Mul(t, y, Horner(t, p, x))
    decreases |p|
  {
    if |p| > 0 {
      var n := |p|;
      var h := Horner(t, p[..n - 1], x);
      assert Scale(t, y, p)[..n - 1] == Scale(t, y, p[..n - 1]);
      HornerScale(t, y, p[..n - 1], x);
      ScaleStep(t, y, h, x, p[n - 1]);
    }
  }

  /** One Horner step of a scaled polynomial is the scaled step. */
  lemma ScaleStep(t: Tables, y: bv8, h: bv8, x: bv8, c: bv8)
    requires ValidTables(t)
    ensures Add(Mul(t, Mul(t, y, h), x), Mul(t, y, c)) == Mul(t, y, Add(Mul(t, h, x), c))
  {
    MulAssoc(t, y, h, x);
    MulAdd(t, y, Mul(t, h, x), c);
  }

  /** Appending q to p multiplies p by x^|q| and adds q. */
  lemma {:induction false} HornerAppend(t: Tables, p: seq<bv8>, q: seq<bv8>, x: bv8)
    requires ValidTables(t)
    ensures Horner(t, p + q, x) == Add(Mul(t, Horner(t, p, x), XPow(t, x, |q|)), Horner(t, q, x))
    decreases |q|
  {
    var hp := Horner(t, p, x);
    if |q| == 0 {
      assert p + q == p;
      MulOne(t, hp);
    } else {
      var n := |q|;
      var q', c := q[..n - 1], q[n - 1];
      assert (p + q)[..|p + q| - 1] == p + q';
      assert (p + q)[|p + q| - 1] == c;
      HornerAppend(t, p, q', x);
      AppendStep(t, hp, XPow(t, x, n - 1), Horner(t, q', x), x, c);
    }
  }

  /** One Horner step after the appended part, regrouped. */
  lemma AppendStep(t: Tables, h: bv8, y: bv8, g: bv8, x: bv8, c: bv8)
    requires ValidTables(t)
    ensures Add(Mul(t, Add(Mul(t, h, y), g), x), c) == Add(Mul(t, h, Mul(t, y, x)), Add(Mul(t, g, x), c))
  {
    MulAddLeft(t, Mul(t, h, y), g, x);
    MulAssoc(t, h, y, x);
  }

  /** A one-coefficient polynomial is that constant. */
  lemma HornerConst(t: Tables, c: bv8, x: bv8)
    ensures Horner(t, [c], x) == c
  {
    assert [c][..0] == [];
  }

  /** A cubic evaluated by Horner's rule. */
  lemma HornerFour(t: Tables, a: bv8, b: bv8, c: bv8, d: bv8, x: bv8)
    ensures Horner(t, [a, b, c, d], x)
         == Add(Mul(t, Add(Mul(t, Add(Mul(t, a, x), b), x), c), x), d)
  {
    assert [a, b][..1] == [a];
    assert [a, b, c][..2] == [a, b];
    assert [a, b, c, d][..3] == [a, b, c];
    HornerConst(t, a, x);
    assert Horner(t, [a, b], x) == Add(Mul(t, a, x), b);
    assert Horner(t, [a, b, c], x) == Add(Mul(t, Horner(t, [a, b], x), x), c);
  }

  /** A quartic evaluated by Horner's rule. */
  lemma HornerFive(t: Tables, a: bv8, b: bv8, c: bv8, d: bv8, e: bv8, x: bv8)
    ensures Horner(t, [a, b, c, d, e], x)
         == Add(Mul(t, Add(Mul(t, Add(Mul(t, Add(Mul(t, a, x), b), x), c), x), d), x), e)
  {
    assert [a, b, c, d, e][..4] == [a, b, c, d];
    HornerFour(t, a, b, c, d, x);
  }
}
