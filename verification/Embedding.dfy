/** Vector canonicalisation (inference/embedding.go). Finite components are exact reals and the square root is a
    parameter, so rounding plays no part. */
module Embedding {
  import opened Wrappers

  // ---------- vectors ----------

  datatype Float = Finite(value: real) | NaN | PositiveInfinity | NegativeInfinity

  predicate AllFinite(values: seq<Float>) { forall i | 0 <= i < |values| :: values[i].Finite? }

  function Reals(values: seq<Float>): seq<real>
    requires AllFinite(values)
  { seq(|values|, i requires 0 <= i < |values| => values[i].value) }

  function Abs(x: real): real { if x < 0.0 then -x else x }

  function MaxAbs(v: seq<real>): real {
    if v == [] then 0.0
    else
      var m, a := MaxAbs(v[..|v| - 1]), Abs(v[|v| - 1]);
      if m < a then a else m
  }

  function Divide(v: seq<real>, d: real): seq<real>
    requires d != 0.0
  { seq(|v|, i requires 0 <= i < |v| => v[i] / d) }

  function SumSquares(v: seq<real>): real {
    if v == [] then 0.0 else SumSquares(v[..|v| - 1]) + Square(v[|v| - 1])
  }

  function Square(x: real): real { x * x }

  /** A square root on the non-negative reals. */
  type Root = real -> real

  ghost predicate IsSquareRoot(root: Root) {
    forall x: real :: x >= 0.0 ==> root(x) >= 0.0 && root(x) * root(x) == x
  }

  // ---------- canonicalEmbedding ----------

  /** What canonicalEmbedding returns, None standing for its errors. The last guard never holds when `root` is a
      square root: see ScaledNormBounds. */
  function Canonical(root: Root, values: seq<Float>, dimension: int, unit: bool): Option<seq<real>> {
    if dimension < 1 || |values| != dimension || !AllFinite(values) then None else
    var v := Reals(values);
    if !unit then Some(v) else
    var scale := MaxAbs(v);
    if scale == 0.0 then None else
    var scaled := Divide(v, scale);
    var norm := root(SumSquares(scaled));
    if norm == 0.0 then None else Some(Divide(scaled, norm))
  }

  lemma NormNotZero(root: Root, x: real)
    requires IsSquareRoot(root) && x >= 1.0
    ensures root(x) > 0.0 && root(x) * root(x) == x
  {
    assert root(x) * root(x) == x;
  }

  lemma {:induction false} MaxAbsBounds(v: seq<real>)
    ensures MaxAbs(v) >= 0.0
    ensures forall i | 0 <= i < |v| :: Abs(v[i]) <= MaxAbs(v)
    ensures v != [] ==> exists i | 0 <= i < |v| :: Abs(v[i]) == MaxAbs(v)
  {
    if v != [] {
      var n := |v| - 1;
      MaxAbsBounds(v[..n]);
      assert forall i | 0 <= i < n :: v[i] == v[..n][i];
      if MaxAbs(v[..n]) < Abs(v[n]) {
        assert Abs(v[n]) == MaxAbs(v);
      } else if n > 0 {
        var i :| 0 <= i < n && Abs(v[..n][i]) == MaxAbs(v[..n]);
        assert Abs(v[i]) == MaxAbs(v);
      } else {
        assert Abs(v[0]) == MaxAbs(v);
      }
    }
  }

  lemma ProductNotNegative(a: real, b: real)
    requires a >= 0.0 && b >= 0.0
    ensures a * b >= 0.0
  {}

  lemma SquareBounds(x: real)
    requires Abs(x) <= 1.0
    ensures 0.0 <= Square(x) <= 1.0
    ensures Abs(x) == 1.0 ==> Square(x) == 1.0
  {
    assert (1.0 - x) * (1.0 + x) == 1.0 - x * x;
    ProductNotNegative(1.0 - x, 1.0 + x);
    ProductNotNegative(Abs(x), Abs(x));
  }

  lemma {:induction false} SquaresUpperBound(v: seq<real>)
    requires forall i | 0 <= i < |v| :: Abs(v[i]) <= 1.0
    ensures 0.0 <= SumSquares(v) <= |v| as real
  {
    if v != [] {
      SquaresUpperBound(v[..|v| - 1]);
      SquareBounds(v[|v| - 1]);
    }
  }

  lemma {:induction false} SquaresLowerBound(v: seq<real>, k: nat)
    requires k < |v| && Abs(v[k]) == 1.0 && forall i | 0 <= i < |v| :: Abs(v[i]) <= 1.0
    ensures SumSquares(v) >= 1.0
  {
    var init := v[..|v| - 1];
    SquareBounds(v[|v| - 1]);
    if k < |v| - 1 {
      SquaresLowerBound(init, k);
    } else {
      SquaresUpperBound(init);
    }
  }

  lemma QuotientAbs(x: real, d: real)
    requires d > 0.0 && Abs(x) <= d
    ensures Abs(x / d) <= 1.0 && (Abs(x) == d ==> Abs(x / d) == 1.0)
  {
    var q := x / d;
    assert q * d == x;
    assert (1.0 - q) * d == d - x && (1.0 + q) * d == d + x;
    FactorNotNegative(1.0 - q, d);
    FactorNotNegative(1.0 + q, d);
  }

  lemma FactorNotNegative(x: real, d: real)
    requires d > 0.0
    ensures (x * d >= 0.0 ==> x >= 0.0) && (x * d == 0.0 ==> x == 0.0)
  {}

  /** Dividing a non-zero vector by its largest magnitude gives entries within [-1, 1], one of magnitude 1, so the
      squared norm lies in [1, dimension] and the divisor is never zero. */
  lemma ScaledNormBounds(v: seq<real>)
    requires MaxAbs(v) != 0.0
    ensures var scaled := Divide(v, MaxAbs(v));
            && (forall i | 0 <= i < |scaled| :: Abs(scaled[i]) <= 1.0)
            && (exists i | 0 <= i < |scaled| :: Abs(scaled[i]) == 1.0)
            && 1.0 <= SumSquares(scaled) <= |v| as real
  {
    MaxAbsBounds(v);
    var scaled := Divide(v, MaxAbs(v));
    forall i | 0 <= i < |scaled| ensures Abs(scaled[i]) <= 1.0 && (Abs(v[i]) == MaxAbs(v) ==> Abs(scaled[i]) == 1.0) {
      QuotientAbs(v[i], MaxAbs(v));
    }
    var k :| 0 <= k < |v| && Abs(v[k]) == MaxAbs(v);
    SquaresUpperBound(scaled);
    SquaresLowerBound(scaled, k);
  }

  lemma QuotientSquare(x: real, d: real, s: real)
    requires d > 0.0 && d * d == s && s > 0.0
    ensures Square(x / d) == Square(x) / s
  {
    var q := x / d;
    assert q * d == x;
    assert q * q * s == x * x by { assert (q * d) * (q * d) == (q * q) * (d * d); }
  }

  lemma AddQuotients(a: real, b: real, s: real)
    requires s > 0.0
    ensures a / s + b / s == (a + b) / s
  {}

  lemma {:induction false} DividedSquares(v: seq<real>, d: real, s: real)
    requires d > 0.0 && d * d == s && s > 0.0
    ensures SumSquares(Divide(v, d)) == SumSquares(v) / s
  {
    if v == [] {
      assert Divide(v, d) == [];
    } else {
      var n := |v| - 1;
      DividedSquares(v[..n], d, s);
      assert Divide(v, d)[..n] == Divide(v[..n], d);
      QuotientSquare(v[n], d, s);
      AddQuotients(SumSquares(v[..n]), Square(v[n]), s);
    }
  }

  /** `w` is `v` multiplied by the positive number `c`. */
  ghost predicate IsMultiple(w: seq<real>, c: real, v: seq<real>) {
    c > 0.0 && |w| == |v| && forall i | 0 <= i < |v| :: w[i] == c * v[i]
  }

  lemma TwoQuotients(x: real, a: real, b: real, c: real)
    requires a > 0.0 && b > 0.0 && c == (1.0 / a) / b
    ensures c > 0.0 && x / a / b == c * x
  {
    assert x / a == (1.0 / a) * x;
    var r := 1.0 / a;
    assert r > 0.0;
    assert (r * x) / b == (r / b) * x;
  }

  /** The two divisions of a non-zero vector: squared norm one, and a positive multiple of the vector. */
  lemma NormalisedVector(root: Root, v: seq<real>) returns (c: real)
    requires IsSquareRoot(root) && MaxAbs(v) != 0.0
    ensures var scaled := Divide(v, MaxAbs(v)); var s := SumSquares(scaled);
            && root(s) > 0.0
            && var w := Divide(scaled, root(s)); SumSquares(w) == 1.0 && IsMultiple(w, c, v)
  {
    MaxAbsBounds(v);
    ScaledNormBounds(v);
    var scale, scaled := MaxAbs(v), Divide(v, MaxAbs(v));
    var s := SumSquares(scaled);
    NormNotZero(root, s);
    UnitSquares(scaled, root(s), s);
    c := DividedTwice(v, scale, root(s));
  }

  lemma UnitSquares(v: seq<real>, d: real, s: real)
    requires d > 0.0 && d * d == s && s > 0.0 && SumSquares(v) == s
    ensures SumSquares(Divide(v, d)) == 1.0
  {
    DividedSquares(v, d, s);
  }

  lemma DividedTwice(v: seq<real>, a: real, b: real) returns (c: real)
    requires a > 0.0 && b > 0.0
    ensures IsMultiple(Divide(Divide(v, a), b), c, v)
  {
    c := (1.0 / a) / b;
    PositiveFactor(a, b);
    var w := Divide(Divide(v, a), b);
    forall i | 0 <= i < |v| ensures w[i] == c * v[i] {
      TwoQuotients(v[i], a, b, c);
    }
  }

  lemma PositiveFactor(a: real, b: real)
    requires a > 0.0 && b > 0.0
    ensures (1.0 / a) / b > 0.0
  {}

  /** Unit normalisation succeeds on every finite non-zero vector of the right dimension, and on no other; its result
      has squared norm one and is a positive multiple of the input. */
  lemma UnitNormalisation(root: Root, values: seq<Float>, dimension: int) returns (c: real)
    requires IsSquareRoot(root)
    ensures var r := Canonical(root, values, dimension, true);
            && (r.Some? <==> dimension >= 1 && |values| == dimension && AllFinite(values)
                             && exists i | 0 <= i < |values| :: values[i].value != 0.0)
            && (r.Some? ==> SumSquares(r.value) == 1.0 && IsMultiple(r.value, c, Reals(values)))
  {
    c := 1.0;
    if AllFinite(values) && |values| == dimension && dimension >= 1 {
      ZeroVector(values);
      if MaxAbs(Reals(values)) != 0.0 {
        c := NormalisedVector(root, Reals(values));
      }
    }
  }

  /** Without normalisation every finite vector of the right dimension is returned as it is, the zero vector included. */
  lemma NoNormalisation(root: Root, values: seq<Float>, dimension: int)
    ensures var r := Canonical(root, values, dimension, false);
            && (r.Some? <==> dimension >= 1 && |values| == dimension && forall i | 0 <= i < |values| :: values[i].Finite?)
            && (r.Some? ==> |r.value| == |values| && forall i | 0 <= i < |values| :: r.value[i] == values[i].value)
  {}

  lemma ZeroVector(values: seq<Float>)
    requires AllFinite(values) && values != []
    ensures MaxAbs(Reals(values)) != 0.0 <==> exists i | 0 <= i < |values| :: values[i].value != 0.0
  {
    var v := Reals(values);
    MaxAbsBounds(v);
    assert forall i | 0 <= i < |v| :: v[i] == values[i].value;
    if MaxAbs(v) != 0.0 {
      var i :| 0 <= i < |v| && Abs(v[i]) == MaxAbs(v);
      assert values[i].value != 0.0;
    }
  }

  /** canonicalEmbedding, scaling its copy of the vector in place. */
  method CanonicalEmbedding(root: Root, values: seq<Float>, dimension: int, unit: bool) returns (r: Option<seq<real>>)
    requires IsSquareRoot(root)
    ensures r == Canonical(root, values, dimension, unit)
    ensures r.Some? <==>
              && dimension >= 1 && |values| == dimension && AllFinite(values)
              && (unit ==> exists i | 0 <= i < |values| :: values[i].value != 0.0)
    ensures r.Some? && !unit ==> |r.value| == |values| && forall i | 0 <= i < |values| :: r.value[i] == values[i].value
    ensures r.Some? && unit ==> SumSquares(r.value) == 1.0 && exists c :: IsMultiple(r.value, c, Reals(values))
  {
    r := CanonicalInPlace(root, values, dimension, unit);
    NoNormalisation(root, values, dimension);
    ghost var factor := UnitNormalisation(root, values, dimension);
  }

  method CanonicalInPlace(root: Root, values: seq<Float>, dimension: int, unit: bool) returns (r: Option<seq<real>>)
    requires IsSquareRoot(root)
    ensures r == Canonical(root, values, dimension, unit)
  {
    if dimension < 1 || |values| != dimension {
      return None;
    }
    var vector := new real[|values|];
    for n := 0 to |values|
      invariant forall i | 0 <= i < n :: values[i].Finite? && vector[i] == values[i].value
    {
      if !values[n].Finite? {
        return None;
      }
      vector[n] := values[n].value;
    }
    ghost var v := Reals(values);
    assert vector[..] == v;
    if !unit {
      return Some(vector[..]);
    }
    var scale := 0.0;
    for n := 0 to vector.Length
      invariant scale == MaxAbs(v[..n])
      invariant vector[..] == v
    {
      assert v[..n + 1][..n] == v[..n];
      scale := if scale < Abs(vector[n]) then Abs(vector[n]) else scale;
    }
    assert v[..|v|] == v;
    if scale == 0.0 {
      return None;
    }
    ScaledNormBounds(v);
    var normSquared := ScaleInPlace(vector, scale);
    NormNotZero(root, normSquared);
    var norm := root(normSquared);
    DivideInPlace(vector, norm);
    return Some(vector[..]);
  }

  /** Divides each component and accumulates the squares of the results. */
  method ScaleInPlace(vector: array<real>, scale: real) returns (normSquared: real)
    requires scale != 0.0
    modifies vector
    ensures vector[..] == Divide(old(vector[..]), scale) && normSquared == SumSquares(vector[..])
  {
    ghost var scaled := Divide(vector[..], scale);
    normSquared := 0.0;
    for n := 0 to vector.Length
      invariant forall i | 0 <= i < n :: vector[i] == scaled[i]
      invariant forall i | n <= i < vector.Length :: vector[i] == old(vector[i])
      invariant normSquared == SumSquares(scaled[..n])
    {
      vector[n] := vector[n] / scale;
      assert scaled[..n + 1][..n] == scaled[..n];
      normSquared := normSquared + vector[n] * vector[n];
    }
    assert scaled[..vector.Length] == scaled == vector[..];
  }

  method DivideInPlace(vector: array<real>, norm: real)
    requires norm != 0.0
    modifies vector
    ensures vector[..] == Divide(old(vector[..]), norm)
  {
    for n := 0 to vector.Length
      invariant forall i | 0 <= i < n :: vector[i] == old(vector[i]) / norm
      invariant forall i | n <= i < vector.Length :: vector[i] == old(vector[i])
    {
      vector[n] := vector[n] / norm;
    }
  }
}
