// The simplified SWU map of crypto/bls12381_hashtocurve.c, after section 6.6.3
// of draft-irtf-cfrg-hash-to-curve-14, over a prime field with p = 3 modulo 4.
module Sswu {
  import opened ModArith

  // --------------------------------------------------------------- The field

  function Mul(x: nat, y: nat, p: nat): (r: nat)
    requires p > 0
    ensures r < p && Cong(r, x * y, p)
  {
    CongMod(x * y, p);
    (x * y) % p
  }

  function Add(x: nat, y: nat, p: nat): (r: nat)
    requires p > 0
    ensures r < p && Cong(r, x + y, p)
  {
    CongMod(x + y, p);
    (x + y) % p
  }

  function Neg(x: nat, p: nat): (r: nat)
    requires x < p
    ensures r < p && Cong(r, 0 - (x as int), p)
  {
    CongByWitness(p - x, 0 - (x as int), p, 1);
    CongByWitness(0, 0, p, 0);
    if x == 0 then 0 else p - x
  }

  function Exp(x: nat, e: nat, p: nat): (r: nat)
    requires p > 0
    ensures r < p && Cong(r, Pow(x, e), p)
  {
    CongMod(Pow(x, e), p);
    Pow(x, e) % p
  }

  /** The curve y^2 = x^3 + a x + b, the map constant z, and a square root of -z. */
  datatype Curve = Curve(p: nat, a: nat, b: nat, z: nat, sqrtZ: nat)

  /** x^3 + a x d^2 + b d^3: the numerator of g(x / d) over d^3. */
  function G(c: Curve, x: int, d: int): int {
    x * (x * x + c.a * (d * d)) + c.b * (d * (d * d))
  }

  /** u / v is a square. */
  ghost predicate IsSquareRatio(u: int, v: int, p: nat)
    requires p > 0
  {
    exists s: int :: Cong((s * s) * v, u, p)
  }

  ghost predicate ValidCurve(c: Curve) {
    && IsPrime(c.p) && c.p % 4 == 3
    && 0 < c.a < c.p && 0 < c.b < c.p && 0 < c.z < c.p && c.sqrtZ < c.p
    && Cong(c.sqrtZ * c.sqrtZ, 0 - (c.z as int), c.p)
    && IsSquareRatio(G(c, c.b, c.a * c.z), (c.a * c.z) * ((c.a * c.z) * (c.a * c.z)), c.p)
  }

  // ------------------------------------------------------------ Square roots

  /** The Legendre symbol as a power. */
  lemma HalfPower(x: int, p: nat)
    requires IsPrime(p) && p % 4 == 3 && x % p != 0
    ensures var h := Pow(x, (p - 1) / 2); Cong(h, 1, p) || Cong(h, -1, p)
  {
    var e := (p - 1) / 2;
    var h := Pow(x, e);
    Fermat(x, p);
    PowAdd(x, e, e);
    assert e + e == p - 1;
    CongSmall(1, p);
    assert Cong(h * h, 1, p);
    PlusMinusOne(h, p);
  }

  lemma PlusMinusOne(h: int, p: nat)
    requires IsPrime(p) && Cong(h * h, 1, p)
    ensures Cong(h, 1, p) || Cong(h, -1, p)
  {
    assert (h - 1) * (h + 1) == h * h - 1;
    var k := CongWitness(h * h, 1, p);
    MultipleIsZero(k, p);
    EuclidLemma(h - 1, h + 1, p);
    if (h - 1) % p == 0 {
      ZeroMod(h, 1, p);
    } else {
      assert h - (-1) == h + 1;
      ZeroMod(h, -1, p);
    }
  }

  /** A square has symbol one. */
  lemma SquareSymbol(x: int, s: int, p: nat)
    requires IsPrime(p) && p % 4 == 3 && x % p != 0 && Cong(s * s, x, p)
    ensures Cong(Pow(x, (p - 1) / 2), 1, p)
  {
    var e := (p - 1) / 2;
    if s % p == 0 {
      CongSmall(0, p);
      CongMul(s, 0, s, s, p);
      assert false;
    }
    PowCong(s * s, x, e, p);
    PowProduct(s, s, e);
    PowAdd(s, e, e);
    assert e + e == p - 1;
    Fermat(s, p);
    CongSmall(1, p);
  }

  /** u v^3, a square exactly when u / v is. */
  function Cube(u: int, v: int): int {
    u * (v * (v * v))
  }

  lemma RootSquared(u: int, v: int, w: int)
    ensures (((u * v) * w) * ((u * v) * w)) * v == u * (Cube(u, v) * (w * w))
  {
    var a := u * v;
    assert ((a * w) * (a * w)) * v == ((a * a) * v) * (w * w);
    assert (a * a) * v == u * Cube(u, v);
  }

  /** The candidate root: its square times v is u times the symbol of u v^3. */
  lemma CandidateRoot(u: int, v: int, out: int, p: nat)
    requires IsPrime(p) && p % 4 == 3 && Cong(out, (u * v) * Pow(Cube(u, v), (p - 3) / 4), p)
    ensures Cong((out * out) * v, u * Pow(Cube(u, v), (p - 1) / 2), p)
  {
    var k, e := Cube(u, v), (p - 3) / 4;
    var w := Pow(k, e);
    CongMul(out, (u * v) * w, out, (u * v) * w, p);
    CongMul(out * out, ((u * v) * w) * ((u * v) * w), v, v, p);
    RootSquared(u, v, w);
    PowAdd(k, e, e);
    assert Pow(k, e + e + 1) == k * Pow(k, e + e);
    assert e + e + 1 == (p - 1) / 2;
  }

  lemma CubeNonzero(u: int, v: int, p: nat)
    requires IsPrime(p) && u % p != 0 && v % p != 0
    ensures Cube(u, v) % p != 0
  {
    ProductNotZero(v, v, p);
    ProductNotZero(v, v * v, p);
    ProductNotZero(u, v * (v * v), p);
  }

  /** A square ratio has symbol one. */
  lemma SquareRatioSymbol(u: int, v: int, p: nat)
    requires IsPrime(p) && p % 4 == 3 && u % p != 0 && v % p != 0 && IsSquareRatio(u, v, p)
    ensures Cong(Pow(Cube(u, v), (p - 1) / 2), 1, p)
  {
    var s: int :| Cong((s * s) * v, u, p);
    CubeNonzero(u, v, p);
    CongMul((s * s) * v, u, v * (v * v), v * (v * v), p);
    SquareOfCube(s, v);
    SquareSymbol(Cube(u, v), s * (v * v), p);
  }

  lemma SquareOfCube(s: int, v: int)
    ensures ((s * s) * v) * (v * (v * v)) == (s * (v * v)) * (s * (v * v))
  {
    var w := v * v;
    assert ((s * s) * v) * (v * w) == (s * s) * (w * w);
    assert (s * w) * (s * w) == (s * s) * (w * w);
  }

  /** What the root of u / v, or of z u / v, has to satisfy. */
  ghost predicate IsRoot(c: Curve, isSqr: bool, out: int, u: int, v: int)
    requires c.p > 0
  {
    Cong((out * out) * v, if isSqr then u else c.z * u, c.p)
  }

  lemma NonSquareRoot(c: Curve, u: int, v: int, out: int, out': int)
    requires c.p > 0 && Cong((out * out) * v, 0 - u, c.p) && Cong(out', out * c.sqrtZ, c.p)
    requires Cong(c.sqrtZ * c.sqrtZ, 0 - (c.z as int), c.p)
    ensures IsRoot(c, false, out', u, v)
  {
    var p, q := c.p, c.sqrtZ;
    CongMul(out', out * q, out', out * q, p);
    CongMul(out' * out', (out * q) * (out * q), v, v, p);
    assert ((out * q) * (out * q)) * v == ((out * out) * v) * (q * q) by {
      Interchange(out, q, out, q);
      assert ((out * out) * (q * q)) * v == ((out * out) * v) * (q * q);
    }
    CongMul((out * out) * v, 0 - u, q * q, 0 - (c.z as int), p);
    assert (0 - u) * (0 - (c.z as int)) == c.z * u;
  }

  /** sqrt_ratio_3mod4 */
  method SqrtRatio(c: Curve, u: nat, v: nat) returns (isSqr: bool, out: nat)
    requires ValidCurve(c) && u < c.p && 0 < v < c.p
    ensures out < c.p && IsRoot(c, isSqr, out, u, v)
    ensures isSqr <==> IsSquareRatio(u, v, c.p)
  {
    var p := c.p;
    var t1 := Mul(v, v, p);
    var t2 := Mul(u, v, p);
    t1 := Mul(t1, t2, p);
    out := Exp(t1, (p - 3) / 4, p);
    out := Mul(out, t2, p);
    CandidateCong(u, v, Mul(v, v, p), t2, t1, Exp(t1, (p - 3) / 4, p), out, p);
    CandidateRoot(u, v, out, p);
    var t0 := Mul(out, out, p);
    CongMul(t0, out * out, v, v, p);
    t0 := Mul(t0, v, p);
    isSqr := true;
    RatioDecided(c, u, v, out, t0);
    if t0 != u {
      NonSquareRoot(c, u, v, out, Mul(out, c.sqrtZ, p));
      out := Mul(out, c.sqrtZ, p);
      isSqr := false;
    }
  }

  lemma CandidateCong(u: int, v: int, vv: int, uv: int, k: int, w: int, out: int, p: nat)
    requires IsPrime(p) && p % 4 == 3
    requires Cong(vv, v * v, p) && Cong(uv, u * v, p) && Cong(k, vv * uv, p)
    requires Cong(w, Pow(k, (p - 3) / 4), p) && Cong(out, w * uv, p)
    ensures Cong(out, (u * v) * Pow(Cube(u, v), (p - 3) / 4), p)
  {
    var e := (p - 3) / 4;
    CongMul(vv, v * v, uv, u * v, p);
    assert (v * v) * (u * v) == Cube(u, v);
    PowCong(k, Cube(u, v), e, p);
    CongMul(w, Pow(Cube(u, v), e), uv, u * v, p);
  }

  /** The comparison of out^2 v with u decides whether u / v is a square. */
  lemma RatioDecided(c: Curve, u: nat, v: nat, out: nat, t0: nat)
    requires ValidCurve(c) && u < c.p && 0 < v < c.p && t0 < c.p && Cong(t0, (out * out) * v, c.p)
    requires Cong((out * out) * v, u * Pow(Cube(u, v), (c.p - 1) / 2), c.p)
    ensures t0 == u ==> IsSquareRatio(u, v, c.p) && IsRoot(c, true, out, u, v)
    ensures t0 != u ==> !IsSquareRatio(u, v, c.p) && Cong((out * out) * v, 0 - (u as int), c.p)
  {
    var p, q, h := c.p, (out * out) * v, Pow(Cube(u, v), (c.p - 1) / 2);
    CongSmall(t0, p);
    CongSmall(u, p);
    CongSmall(v, p);
    TimesSymbol(u, h, q, p);
    if t0 == u {
      assert Cong((out * out) * v, u, p);
    } else {
      assert !Cong(q, u, p);
      if u == 0 {
        assert false;
      }
      CubeNonzero(u, v, p);
      HalfPower(Cube(u, v), p);
      if IsSquareRatio(u, v, p) {
        SquareRatioSymbol(u, v, p);
        assert false;
      }
    }
  }

  lemma TimesSymbol(u: int, h: int, q: int, p: nat)
    requires p > 0 && Cong(q, u * h, p)
    ensures Cong(h, 1, p) ==> Cong(q, u, p)
    ensures Cong(h, -1, p) ==> Cong(q, 0 - u, p)
    ensures u == 0 ==> Cong(q, u, p)
  {
    if Cong(h, 1, p) {
      CongMul(u, u, h, 1, p);
    }
    if Cong(h, -1, p) {
      CongMul(u, u, h, -1, p);
    }
  }

  // ----------------------------------------------------------------- The map

  /** A point (X, Y, Z) in Jacobian coordinates. */
  datatype Jacobian = Jacobian(X: nat, Y: nat, Z: nat)

  /** X^3 + a X Z^4 + b Z^6 */
  function CurveValue(c: Curve, X: int, Z: int): int {
    var Z2 := Z * Z;
    X * (X * X) + (c.a * X) * (Z2 * Z2) + c.b * (Z2 * (Z2 * Z2))
  }

  ghost predicate OnCurve(c: Curve, P: Jacobian)
    requires c.p > 0
  {
    P.Z % c.p != 0 && Cong(P.Y * P.Y, CurveValue(c, P.X, P.Z), c.p)
  }

  /** y^2 v = g(x, d) d^3 / d^3: the affine point (x / d, y) with v = d^3. */
  ghost predicate Affine(c: Curve, x: int, y: int, d: int, v: int)
    requires c.p > 0
  {
    Cong(v, d * (d * d), c.p) && Cong((y * y) * v, G(c, x, d), c.p)
  }

  lemma GCong(c: Curve, x: int, x': int, d: int, d': int)
    requires c.p > 0 && Cong(x, x', c.p) && Cong(d, d', c.p)
    ensures Cong(G(c, x, d), G(c, x', d'), c.p) && Cong(d * (d * d), d' * (d' * d'), c.p)
  {
    var p, a, b := c.p, c.a, c.b;
    CongMul(d, d', d, d', p);
    CongMul(d, d', d * d, d' * d', p);
    CongMul(a, a, d * d, d' * d', p);
    CongMul(b, b, d * (d * d), d' * (d' * d'), p);
    CongMul(x, x', x, x', p);
    CongAdd(x * x, x' * x', a * (d * d), a * (d' * d'), p);
    CongMul(x, x', x * x + a * (d * d), x' * x' + a * (d' * d'), p);
    CongAdd(x * (x * x + a * (d * d)), x' * (x' * x' + a * (d' * d')), b * (d * (d * d)), b * (d' * (d' * d')), p);
  }

  lemma CurveValueCong(c: Curve, X: int, X': int, Z: int)
    requires c.p > 0 && Cong(X, X', c.p)
    ensures Cong(CurveValue(c, X, Z), CurveValue(c, X', Z), c.p)
  {
    var p, Z2 := c.p, Z * Z;
    var Z4, Z6 := Z2 * Z2, c.b * (Z2 * (Z2 * Z2));
    CongMul(X, X', X, X', p);
    CongMul(X, X', X * X, X' * X', p);
    CongMul(c.a, c.a, X, X', p);
    CongMul(c.a * X, c.a * X', Z4, Z4, p);
    CongAdd(X * (X * X), X' * (X' * X'), (c.a * X) * Z4, (c.a * X') * Z4, p);
    CongAdd(X * (X * X) + (c.a * X) * Z4, X' * (X' * X') + (c.a * X') * Z4, Z6, Z6, p);
  }

  /** Clearing denominators: the curve value at (x d, d) is d^3 g(x, d). */
  lemma CurveValueScaled(c: Curve, x: int, d: int)
    ensures CurveValue(c, x * d, d) == (d * (d * d)) * G(c, x, d)
  {
    var d2 := d * d;
    var d3 := d * d2;
    assert (x * d) * ((x * d) * (x * d)) == d3 * (x * (x * x)) by {
      Interchange(x, d, x, d);
      Interchange(x, d, x * x, d * d);
    }
    assert (c.a * (x * d)) * (d2 * d2) == d3 * (x * (c.a * d2)) by {
      assert d2 * d2 == d * d3;
      assert (c.a * (x * d)) * (d * d3) == d3 * ((c.a * x) * (d * d));
    }
    assert c.b * (d2 * (d2 * d2)) == d3 * (c.b * d3) by {
      assert d2 * (d2 * d2) == d3 * d3;
    }
    assert d3 * G(c, x, d) == d3 * (x * (x * x)) + d3 * (x * (c.a * d2)) + d3 * (c.b * d3);
  }

  /** An affine point becomes a Jacobian one: X = x d, Y = y d^3, Z = d. */
  lemma ToJacobian(c: Curve, x: int, y: int, d: int, v: int, X: int, Y: int)
    requires c.p > 0 && Affine(c, x, y, d, v) && Cong(X, x * d, c.p) && Cong(Y, y * v, c.p)
    ensures Cong(Y * Y, CurveValue(c, X, d), c.p)
  {
    var p := c.p;
    CongMul(Y, y * v, Y, y * v, p);
    assert (y * v) * (y * v) == ((y * y) * v) * v by {
      Interchange(y, v, y, v);
    }
    CongMul((y * y) * v, G(c, x, d), v, d * (d * d), p);
    CurveValueScaled(c, x, d);
    CurveValueCong(c, X, x * d, d);
  }

  /** The heart of the map: with N = b (w + 1), D = -a w and w = xi^2 + xi, g(xi N / D) = xi^3 g(N / D). */
  lemma KeyIdentity(c: Curve, xi: int, w: int, N: int, D: int)
    requires c.p > 0 && Cong(w, xi * xi + xi, c.p) && Cong(N, c.b * (w + 1), c.p) && Cong(D, 0 - (c.a * w), c.p)
    ensures Cong((xi * (xi * xi)) * G(c, N, D), G(c, xi * N, D), c.p)
  {
    var p := c.p;
    var bracket := (c.a * (xi * xi + xi)) * N + (c.b * D) * (xi * xi + xi + 1);
    BracketVanishes(c, xi * xi + xi, w, N, D);
    DifferenceFactors(c, xi, N, D);
    CongMul((D * D) * (xi - 1), (D * D) * (xi - 1), bracket, 0, p);
    CongAdd((xi * (xi * xi)) * G(c, N, D) - G(c, xi * N, D), 0, G(c, xi * N, D), G(c, xi * N, D), p);
  }

  lemma BracketVanishes(c: Curve, w': int, w: int, N: int, D: int)
    requires c.p > 0 && Cong(w, w', c.p) && Cong(N, c.b * (w + 1), c.p) && Cong(D, 0 - (c.a * w), c.p)
    ensures Cong((c.a * w') * N + (c.b * D) * (w' + 1), 0, c.p)
  {
    var p, a, b := c.p, c.a, c.b;
    CongMul(a, a, w', w, p);
    CongMul(a * w', a * w, N, b * (w + 1), p);
    CongMul(b, b, D, 0 - (a * w), p);
    CongAdd(w', w, 1, 1, p);
    CongMul(b * D, b * (0 - (a * w)), w' + 1, w + 1, p);
    CongAdd((a * w') * N, (a * w) * (b * (w + 1)), (b * D) * (w' + 1), (b * (0 - (a * w))) * (w + 1), p);
    assert (a * w) * (b * (w + 1)) + (b * (0 - (a * w))) * (w + 1) == 0 by {
      var m := a * w;
      assert b * (0 - m) == 0 - (m * b);
      assert m * (b * (w + 1)) == (m * b) * (w + 1);
    }
  }

  lemma DifferenceFactors(c: Curve, xi: int, N: int, D: int)
    ensures (xi * (xi * xi)) * G(c, N, D) - G(c, xi * N, D)
         == ((D * D) * (xi - 1)) * ((c.a * (xi * xi + xi)) * N + (c.b * D) * (xi * xi + xi + 1))
  {
    var a, b, x2, d2 := c.a, c.b, xi * xi, D * D;
    var x3, n3 := xi * x2, N * (N * N);
    assert (xi * N) * ((xi * N) * (xi * N)) == x3 * n3 by {
      Interchange(xi, N, xi, N);
      Interchange(xi, N, xi * xi, N * N);
    }
    assert G(c, N, D) == n3 + (a * N) * d2 + (b * D) * d2;
    assert G(c, xi * N, D) == x3 * n3 + xi * ((a * N) * d2) + (b * D) * d2;
    assert x3 * G(c, N, D) == x3 * n3 + x3 * ((a * N) * d2) + x3 * ((b * D) * d2);
    Telescope(xi, x2, x3, (a * N) * d2, (b * D) * d2);
    assert ((d2 * (xi - 1)) * ((a * (x2 + xi)) * N + (b * D) * (x2 + xi + 1)))
        == ((xi - 1) * (x2 + xi)) * ((a * N) * d2) + ((xi - 1) * (x2 + xi + 1)) * ((b * D) * d2) by {
      Spread(d2, xi - 1, a, x2 + xi, N, b * D, x2 + xi + 1);
    }
  }

  /** (xi^3 - xi) u + (xi^3 - 1) v, factored. */
  lemma Telescope(xi: int, x2: int, x3: int, u: int, v: int)
    requires x2 == xi * xi && x3 == xi * x2
    ensures x3 * u - xi * u + x3 * v - v == ((xi - 1) * (x2 + xi)) * u + ((xi - 1) * (x2 + xi + 1)) * v
  {
    assert (xi - 1) * (x2 + xi) == x3 - xi;
    assert (xi - 1) * (x2 + xi + 1) == x3 - 1;
  }

  lemma Spread(d: int, e: int, a: int, s: int, N: int, m: int, t: int)
    ensures (d * e) * ((a * s) * N + m * t) == (e * s) * ((a * N) * d) + (e * t) * (m * d)
  {
    assert (d * e) * ((a * s) * N) == (e * s) * ((a * N) * d);
    assert (d * e) * (m * t) == (e * t) * (m * d);
  }

  /** The fraction N / D = X0(t): N = b (w + 1), D = -a w, or a z when w = xi^2 + xi vanishes. */
  ghost predicate IsFraction(c: Curve, t: int, xi: nat, w: nat, N: nat, D: nat)
    requires c.p > 0
  {
    && xi < c.p && w < c.p && N < c.p && 0 < D < c.p
    && Cong(xi, c.z * (t * t), c.p) && Cong(w, xi * xi + xi, c.p) && Cong(N, c.b * (w + 1), c.p)
    && (if w == 0 then Cong(D, c.a * c.z, c.p) else Cong(D, 0 - (c.a * w), c.p))
  }

  /** The first part of map_to_E1_osswu. */
  method Fraction(c: Curve, t: nat) returns (xi: nat, w: nat, N: nat, D: nat)
    requires ValidCurve(c) && t < c.p
    ensures IsFraction(c, t, xi, w, N, D)
  {
    var p := c.p;
    var t1 := Mul(t, t, p);
    xi := Mul(t1, c.z, p);
    MulReduced(xi, t1, t * t, c.z, p);
    var t2 := Mul(xi, xi, p);
    w := Add(t2, xi, p);
    CongAdd(t2, xi * xi, xi, xi, p);
    var t3 := Add(w, 1, p);
    N := Mul(t3, c.b, p);
    MulReduced(N, t3, w + 1, c.b, p);
    D := Denominator(c, w);
  }

  lemma MulReduced(r: int, x: int, x': int, k: int, p: nat)
    requires p > 0 && Cong(r, x * k, p) && Cong(x, x', p)
    ensures Cong(r, k * x', p)
  {
    CongMul(x, x', k, k, p);
  }

  method Denominator(c: Curve, w: nat) returns (D: nat)
    requires ValidCurve(c) && w < c.p
    ensures 0 < D < c.p && if w == 0 then Cong(D, c.a * c.z, c.p) else Cong(D, 0 - (c.a * w), c.p)
  {
    var p := c.p;
    CongSmall(c.a, p);
    CongSmall(c.z, p);
    CongSmall(w, p);
    if w == 0 {
      D := Mul(c.a, c.z, p);
      ProductNotZero(c.a, c.z, p);
      CongSmall(D, p);
    } else {
      var m := Neg(c.a, p);
      D := Mul(w, m, p);
      CongMul(w, w, m, 0 - (c.a as int), p);
      assert w * (0 - (c.a as int)) == 0 - (c.a * w);
      CongSmall(m, p);
      ProductNotZero(w, m, p);
      CongSmall(D, p);
    }
  }

  /** The second part: numerator and denominator of g(N / D). */
  method GRatio(c: Curve, N: nat, D: nat) returns (U: nat, V: nat)
    requires ValidCurve(c) && 0 < D < c.p
    ensures U < c.p && 0 < V < c.p && Cong(U, G(c, N, D), c.p) && Cong(V, D * (D * D), c.p)
  {
    var p := c.p;
    var n2 := Mul(N, N, p);
    var d2 := Mul(D, D, p);
    var t4 := Mul(c.a, d2, p);
    var t2 := Add(t4, n2, p);
    GRatioStep(c, N, D, n2, d2, t4, t2);
    t2 := Mul(N, t2, p);
    V := Mul(d2, D, p);
    CubeReduced(D, d2, V, p);
    t4 := Mul(c.b, V, p);
    CongMul(c.b, c.b, V, D * (D * D), p);
    CongAdd(t4, c.b * (D * (D * D)), t2, N * (N * N + c.a * (D * D)), p);
    U := Add(t4, t2, p);
  }

  lemma GRatioStep(c: Curve, N: nat, D: nat, n2: nat, d2: nat, t4: nat, t2: nat)
    requires c.p > 0 && Cong(n2, N * N, c.p) && Cong(d2, D * D, c.p)
    requires Cong(t4, c.a * d2, c.p) && Cong(t2, t4 + n2, c.p)
    ensures Cong(N * t2, N * (N * N + c.a * (D * D)), c.p)
  {
    CongMul(c.a, c.a, d2, D * D, c.p);
    CongAdd(t4, c.a * (D * D), n2, N * N, c.p);
    CongMul(N, N, t2, N * N + c.a * (D * D), c.p);
  }

  lemma CubeReduced(D: nat, d2: nat, V: nat, p: nat)
    requires IsPrime(p) && 0 < D < p && V < p && Cong(d2, D * D, p) && Cong(V, d2 * D, p)
    ensures V > 0 && Cong(V, D * (D * D), p)
  {
    CongMul(d2, D * D, D, D, p);
    CongSmall(D, p);
    ProductNotZero(D, D, p);
    ProductNotZero(D, D * D, p);
    CongSmall(V, p);
  }

  lemma RatioCong(u: int, v: int, u': int, v': int, p: nat)
    requires p > 0 && IsSquareRatio(u, v, p) && Cong(u, u', p) && Cong(v, v', p)
    ensures IsSquareRatio(u', v', p)
  {
    var s: int :| Cong((s * s) * v, u, p);
    CongMul(s * s, s * s, v, v', p);
    assert Cong((s * s) * v', u', p);
  }

  /** In the exceptional case the ratio is a square, by the condition on the curve. */
  lemma ExceptionalSquare(c: Curve, t: int, xi: nat, N: nat, D: nat, U: nat, V: nat)
    requires ValidCurve(c) && IsFraction(c, t, xi, 0, N, D) && Cong(U, G(c, N, D), c.p) && Cong(V, D * (D * D), c.p)
    ensures IsSquareRatio(U, V, c.p)
  {
    var d := c.a * c.z;
    GCong(c, N, c.b * (0 + 1), D, d);
    RatioCong(G(c, c.b, d), d * (d * d), U, V, c.p);
  }

  /** The non-square branch: x = xi N and y = xi t sqrt(z U / V). */
  lemma NonSquarePoint(c: Curve, t: nat, xi: nat, w: nat, N: nat, D: nat, U: nat, V: nat, root: nat, x: nat, y: nat)
    requires ValidCurve(c) && IsFraction(c, t, xi, w, N, D) && w != 0
    requires Cong(U, G(c, N, D), c.p) && Cong(V, D * (D * D), c.p) && IsRoot(c, false, root, U, V)
    requires Cong(x, xi * N, c.p) && Cong(y, root * (xi * t), c.p)
    ensures Affine(c, x, y, D, V)
  {
    var p := c.p;
    RootTimes(c, t, xi, U, V, root, y);
    CongMul(xi * (xi * xi), xi * (xi * xi), U, G(c, N, D), p);
    KeyIdentity(c, xi, w, N, D);
    GCong(c, xi * N, x, D, D);
  }

  lemma RootTimes(c: Curve, t: int, xi: int, U: int, V: int, root: int, y: int)
    requires c.p > 0 && Cong(xi, c.z * (t * t), c.p) && IsRoot(c, false, root, U, V) && Cong(y, root * (xi * t), c.p)
    ensures Cong((y * y) * V, (xi * (xi * xi)) * U, c.p)
  {
    var p, m := c.p, xi * t;
    CongMul(y, root * m, y, root * m, p);
    CongMul(y * y, (root * m) * (root * m), V, V, p);
    assert ((root * m) * (root * m)) * V == ((root * root) * V) * (m * m) by {
      Interchange(root, m, root, m);
      assert ((root * root) * (m * m)) * V == ((root * root) * V) * (m * m);
    }
    CongMul((root * root) * V, c.z * U, m * m, m * m, p);
    assert (c.z * U) * (m * m) == (c.z * (t * t)) * ((xi * xi) * U) by {
      Interchange(xi, t, xi, t);
      assert (c.z * U) * ((xi * xi) * (t * t)) == (c.z * (t * t)) * ((xi * xi) * U);
    }
    CongMul(xi, c.z * (t * t), (xi * xi) * U, (xi * xi) * U, p);
    assert xi * ((xi * xi) * U) == (xi * (xi * xi)) * U;
  }

  /** The sign of the output follows the sign of t, unless y is zero. */
  method FixSign(c: Curve, t: nat, y: nat, ghost x: int, ghost d: int, ghost v: int) returns (y': nat)
    requires ValidCurve(c) && y < c.p && Affine(c, x, y, d, v)
    ensures y' < c.p && Affine(c, x, y', d, v) && (y' % 2 == t % 2 || y' == 0)
  {
    y' := y;
    if t % 2 != y % 2 {
      y' := Neg(y, c.p);
      NegatedPoint(c, x, y, y', d, v);
      NegatedParity(y, c.p);
    }
  }

  lemma NegatedPoint(c: Curve, x: int, y: int, y': int, d: int, v: int)
    requires c.p > 0 && Affine(c, x, y, d, v) && Cong(y', 0 - y, c.p)
    ensures Affine(c, x, y', d, v)
  {
    CongMul(y', 0 - y, y', 0 - y, c.p);
    assert (0 - y) * (0 - y) == y * y;
    CongMul(y' * y', y * y, v, v, c.p);
  }

  lemma NegatedParity(y: nat, p: nat)
    requires p % 4 == 3 && y < p
    ensures Neg(y, p) == 0 || Neg(y, p) % 2 != y % 2
  {
  }

  // ----------------------------------------------- The map of the draft

  ghost predicate IsSquare(v: int, p: nat)
    requires p > 0
  {
    exists s: int :: Cong(s * s, v, p)
  }

  /** z t^2 */
  function Xi(c: Curve, t: int): int {
    c.z * (t * t)
  }

  /** z^2 t^4 + z t^2 */
  function Tv(c: Curve, t: int): int {
    Xi(c, t) * Xi(c, t) + Xi(c, t)
  }

  /** x1 = (-b / a) (1 + 1 / tv), or b / (a z) when tv vanishes, without the divisions. */
  ghost predicate IsX1(c: Curve, t: int, x1: int)
    requires c.p > 0
  {
    if Tv(c, t) % c.p == 0 then Cong((c.a * c.z) * x1, c.b, c.p)
    else Cong((c.a * Tv(c, t)) * x1, 0 - (c.b * (Tv(c, t) + 1)), c.p)
  }

  /** x is x1 when g(x1) is a square and z t^2 x1 otherwise, and y is the root of g(x) with the sign of t. */
  ghost predicate IsMapVia(c: Curve, t: nat, x1: int, x: nat, y: nat)
    requires c.p > 0
  {
    && x < c.p && y < c.p && IsX1(c, t, x1)
    && Cong(x, if IsSquare(G(c, x1, 1), c.p) then x1 else Xi(c, t) * x1, c.p)
    && Cong(y * y, G(c, x, 1), c.p) && (y % 2 == t % 2 || y == 0)
  }

  ghost predicate IsMap(c: Curve, t: nat, x: nat, y: nat)
    requires c.p > 0
  {
    exists x1: int :: IsMapVia(c, t, x1, x, y)
  }

  lemma SquareCong(v: int, v': int, p: nat)
    requires p > 0 && Cong(v, v', p) && IsSquare(v, p)
    ensures IsSquare(v', p)
  {
    var s: int :| Cong(s * s, v, p);
    assert Cong(s * s, v', p);
  }

  lemma X1Unique(c: Curve, t: int, x1: int, x1': int)
    requires ValidCurve(c) && IsX1(c, t, x1) && IsX1(c, t, x1')
    ensures Cong(x1, x1', c.p)
  {
    CongSmall(c.a, c.p);
    CongSmall(c.z, c.p);
    if Tv(c, t) % c.p == 0 {
      ProductNotZero(c.a, c.z, c.p);
      Cancel(c.a * c.z, x1, x1', c.p);
    } else {
      ProductNotZero(c.a, Tv(c, t), c.p);
      Cancel(c.a * Tv(c, t), x1, x1', c.p);
    }
  }

  /** Two roots of one number are equal or opposite. */
  lemma SameRoots(y: int, y': int, p: nat)
    requires IsPrime(p) && Cong(y * y, y' * y', p)
    ensures Cong(y, y', p) || Cong(y, 0 - y', p)
  {
    var k := CongWitness(y * y, y' * y', p);
    assert (y - y') * (y + y') == y * y - y' * y';
    MultipleIsZero(k, p);
    EuclidLemma(y - y', y + y', p);
    if (y - y') % p == 0 {
      ZeroMod(y, y', p);
    } else {
      assert y - (0 - y') == y + y';
      ZeroMod(y, 0 - y', p);
    }
  }

  lemma SameSign(y: nat, y': nat, t: nat, p: nat)
    requires IsPrime(p) && p % 4 == 3 && y < p && y' < p && Cong(y * y, y' * y', p)
    requires (y % 2 == t % 2 || y == 0) && (y' % 2 == t % 2 || y' == 0)
    ensures y == y'
  {
    SameRoots(y, y', p);
    CongSmall(y, p);
    CongSmall(y', p);
    CongSmall(Neg(y', p), p);
    NegatedParity(y', p);
  }

  /** The draft determines one point for every t. */
  lemma MapUnique(c: Curve, t: nat, x: nat, y: nat, x': nat, y': nat)
    requires ValidCurve(c) && IsMap(c, t, x, y) && IsMap(c, t, x', y')
    ensures x == x' && y == y'
  {
    var x1: int :| IsMapVia(c, t, x1, x, y);
    var x1': int :| IsMapVia(c, t, x1', x', y');
    X1Unique(c, t, x1, x1');
    GCong(c, x1, x1', 1, 1);
    if IsSquare(G(c, x1, 1), c.p) {
      SquareCong(G(c, x1, 1), G(c, x1', 1), c.p);
    } else {
      if IsSquare(G(c, x1', 1), c.p) {
        SquareCong(G(c, x1', 1), G(c, x1, 1), c.p);
        assert false;
      }
      CongMul(Xi(c, t), Xi(c, t), x1, x1', c.p);
    }
    CongSmall(x, c.p);
    CongSmall(x', c.p);
    SameSign(y, y', t, c.p);
  }

  // ------------------------------------------------------ The code's map

  /** g at a fraction: g(d x) over d^3. */
  lemma GScaled(c: Curve, x: int, d: int)
    ensures G(c, d * x, d) == (d * (d * d)) * G(c, x, 1)
  {
    var d3, x3 := d * (d * d), x * (x * x);
    assert (d * x) * ((d * x) * (d * x)) == d3 * x3 by {
      Interchange(d, x, d, x);
      Interchange(d, x, d * d, x * x);
    }
    assert (d * x) * (c.a * (d * d)) == d3 * (x * c.a);
    assert G(c, d * x, d) == d3 * x3 + d3 * (x * c.a) + c.b * d3;
    assert G(c, x, 1) == x3 + x * c.a + c.b;
  }

  lemma GAtQuotient(c: Curve, x: int, q: int, d: int)
    requires c.p > 0 && Cong(x, d * q, c.p)
    ensures Cong(G(c, x, d), (d * (d * d)) * G(c, q, 1), c.p)
  {
    GCong(c, x, d * q, d, d);
    GScaled(c, q, d);
  }

  lemma CubeOf(d: int, p: nat)
    requires IsPrime(p) && d % p != 0
    ensures (d * (d * d)) % p != 0
  {
    ProductNotZero(d, d, p);
    ProductNotZero(d, d * d, p);
  }

  /** The ratio that the code tests is a square exactly when g(x1) is. */
  lemma RatioIsSquare(c: Curve, N: int, x1: int, D: int, U: int, V: int)
    requires IsPrime(c.p) && D % c.p != 0 && Cong(N, D * x1, c.p)
    requires Cong(U, G(c, N, D), c.p) && Cong(V, D * (D * D), c.p)
    ensures IsSquareRatio(U, V, c.p) <==> IsSquare(G(c, x1, 1), c.p)
  {
    var p, d3, g := c.p, D * (D * D), G(c, x1, 1);
    GAtQuotient(c, N, x1, D);
    CubeOf(D, p);
    if IsSquareRatio(U, V, p) {
      var s: int :| Cong((s * s) * V, U, p);
      CongMul(s * s, s * s, V, d3, p);
      assert (s * s) * d3 == d3 * (s * s);
      Cancel(d3, s * s, g, p);
    }
    if IsSquare(g, p) {
      var s: int :| Cong(s * s, g, p);
      CongMul(d3, d3, s * s, g, p);
      assert (s * s) * d3 == d3 * (s * s);
      CongMul(s * s, s * s, V, d3, p);
      assert Cong((s * s) * V, U, p);
    }
  }

  /** An affine point over d, with its quotient: y is a root of g(x / d). */
  lemma RootOfQuotient(c: Curve, x: int, q: int, y: int, d: int, v: int)
    requires IsPrime(c.p) && d % c.p != 0 && Cong(x, d * q, c.p) && Affine(c, x, y, d, v)
    ensures Cong(y * y, G(c, q, 1), c.p)
  {
    var p, d3 := c.p, d * (d * d);
    GAtQuotient(c, x, q, d);
    CubeOf(d, p);
    CongMul(y * y, y * y, v, d3, p);
    assert (y * y) * d3 == d3 * (y * y);
    Cancel(d3, y * y, G(c, q, 1), p);
  }

  /** The quotient of x by d. */
  ghost function Quotient(x: int, d: int, p: nat): (q: nat)
    requires p >= 2
    ensures q < p
  {
    CongMod(x * Inverse(d, p), p);
    (x * Inverse(d, p)) % p
  }

  lemma QuotientCorrect(x: int, d: int, p: nat)
    requires IsPrime(p) && d % p != 0
    ensures Cong(x, d * Quotient(x, d, p), p)
  {
    InverseCorrect(d, p);
    CongMod(x * Inverse(d, p), p);
    CongMul(d, d, Quotient(x, d, p), x * Inverse(d, p), p);
    assert d * (x * Inverse(d, p)) == x * (d * Inverse(d, p));
    CongMul(x, x, d * Inverse(d, p), 1, p);
  }

  lemma TvCong(c: Curve, t: int, xi: nat, w: nat)
    requires c.p > 0 && xi < c.p && w < c.p && Cong(xi, Xi(c, t), c.p) && Cong(w, xi * xi + xi, c.p)
    ensures Cong(w, Tv(c, t), c.p) && (w == 0 <==> Tv(c, t) % c.p == 0)
  {
    CongMul(xi, Xi(c, t), xi, Xi(c, t), c.p);
    CongAdd(xi * xi, Xi(c, t) * Xi(c, t), xi, Xi(c, t), c.p);
    CongSmall(w, c.p);
  }

  /** The fraction N / D of the code is the x1 of the draft. */
  lemma FractionIsX1(c: Curve, t: int, xi: nat, w: nat, N: nat, D: nat, x1: int)
    requires ValidCurve(c) && IsFraction(c, t, xi, w, N, D) && Cong(N, D * x1, c.p)
    ensures IsX1(c, t, x1)
  {
    var p, tv := c.p, Tv(c, t);
    TvCong(c, t, xi, w);
    if w == 0 {
      CongMul(D, c.a * c.z, x1, x1, p);
      assert c.b * (0 + 1) == c.b;
    } else {
      CongAdd(w, tv, 1, 1, p);
      CongMul(c.b, c.b, w + 1, tv + 1, p);
      CongMul(c.a, c.a, w, tv, p);
      CongMul(D, 0 - (c.a * w), x1, x1, p);
      CongMul(c.a * w, c.a * tv, x1, x1, p);
      NegateBoth(c.a * w, c.a * tv, x1, c.b * (tv + 1), p);
    }
  }

  lemma NegateBoth(m: int, m': int, x: int, n: int, p: nat)
    requires p > 0 && Cong(m * x, m' * x, p) && Cong((0 - m) * x, n, p)
    ensures Cong(m' * x, 0 - n, p)
  {
    assert (0 - m) * x == 0 - (m * x);
    CongAdd(0, 0, 0 - (m * x), n, p);
    assert 0 - (0 - (m * x)) == m * x;
  }

  /** The affine point that the code ends with is the one of the draft. */
  lemma CodeIsMap(c: Curve, t: nat, xi: nat, w: nat, N: nat, D: nat, U: nat, V: nat, x: nat, y: nat)
    requires ValidCurve(c) && IsFraction(c, t, xi, w, N, D)
    requires Cong(U, G(c, N, D), c.p) && Cong(V, D * (D * D), c.p)
    requires Cong(x, if IsSquareRatio(U, V, c.p) then N else xi * N, c.p)
    requires y < c.p && Affine(c, x, y, D, V) && (y % 2 == t % 2 || y == 0)
    ensures IsMap(c, t, Quotient(x, D, c.p), y)
  {
    var p := c.p;
    var q, x1 := Quotient(x, D, p), Quotient(N, D, p);
    CongSmall(D, p);
    QuotientCorrect(x, D, p);
    QuotientCorrect(N, D, p);
    FractionIsX1(c, t, xi, w, N, D, x1);
    RatioIsSquare(c, N, x1, D, U, V);
    RootOfQuotient(c, x, q, y, D, V);
    QuotientOfX(c, t, xi, N, D, x, x1, q, IsSquareRatio(U, V, p));
    assert IsMapVia(c, t, x1, q, y);
  }

  lemma QuotientOfX(c: Curve, t: int, xi: nat, N: nat, D: nat, x: nat, x1: int, q: int, isSqr: bool)
    requires IsPrime(c.p) && D % c.p != 0 && Cong(xi, Xi(c, t), c.p)
    requires Cong(N, D * x1, c.p) && Cong(x, D * q, c.p) && Cong(x, if isSqr then N else xi * N, c.p)
    ensures Cong(q, if isSqr then x1 else Xi(c, t) * x1, c.p)
  {
    var p := c.p;
    if isSqr {
      Cancel(D, q, x1, p);
    } else {
      CongMul(xi, Xi(c, t), N, D * x1, p);
      assert Xi(c, t) * (D * x1) == D * (Xi(c, t) * x1);
      Cancel(D, q, Xi(c, t) * x1, p);
    }
  }

  /** X = x d is x / d times d^2. */
  lemma ScaledX(X: int, x: int, q: int, d: int, p: nat)
    requires p > 0 && Cong(X, x * d, p) && Cong(x, d * q, p)
    ensures Cong(X, q * (d * d), p)
  {
    CongMul(x, d * q, d, d, p);
    assert (d * q) * d == q * (d * d);
  }

  /** map_to_E1_osswu: the point of the draft, in Jacobian coordinates. */
  method MapToE1(c: Curve, t: nat) returns (P: Jacobian, ghost x: nat, ghost y: nat)
    requires ValidCurve(c) && t < c.p
    ensures OnCurve(c, P) && IsMap(c, t, x, y)
    ensures Cong(P.X, x * (P.Z * P.Z), c.p) && Cong(P.Y, y * (P.Z * (P.Z * P.Z)), c.p)
  {
    var p := c.p;
    var xi, w, N, D := Fraction(c, t);
    var U, V := GRatio(c, N, D);
    var x0, y0 := AffinePoint(c, t, xi, w, N, D, U, V);
    var y' := FixSign(c, t, y0, x0, D, V);
    P := Jacobian(Mul(x0, D, p), Mul(y', V, p), D);
    ToJacobian(c, x0, y', D, V, P.X, P.Y);
    CongSmall(D, p);
    x, y := Quotient(x0, D, p), y';
    CodeIsMap(c, t, xi, w, N, D, U, V, x0, y');
    QuotientCorrect(x0, D, p);
    ScaledX(P.X, x0, x, D, p);
    CongMul(y', y', V, D * (D * D), p);
  }

  /** The branch on whether g(N / D) is a square. */
  method AffinePoint(c: Curve, t: nat, xi: nat, ghost w: nat, N: nat, D: nat, U: nat, V: nat) returns (x: nat, y: nat)
    requires ValidCurve(c) && t < c.p && IsFraction(c, t, xi, w, N, D)
    requires U < c.p && 0 < V < c.p && Cong(U, G(c, N, D), c.p) && Cong(V, D * (D * D), c.p)
    ensures y < c.p && Affine(c, x, y, D, V)
    ensures Cong(x, if IsSquareRatio(U, V, c.p) then N else xi * N, c.p)
  {
    var isSqr;
    isSqr, y := SqrtRatio(c, U, V);
    if isSqr {
      x := N;
    } else {
      if w == 0 {
        ExceptionalSquare(c, t, xi, N, D, U, V);
        assert false;
      }
      x := Mul(xi, N, c.p);
      var m := Mul(xi, t, c.p);
      ghost var root := y;
      CongMul(y, y, m, xi * t, c.p);
      y := Mul(y, m, c.p);
      NonSquarePoint(c, t, xi, w, N, D, U, V, root, x, y);
    }
  }

  /** The conditions are consistent: a curve over the field of seven elements meets them. */
  lemma SmallCurve()
    ensures ValidCurve(Curve(7, 1, 2, 3, 2))
  {
    var c := Curve(7, 1, 2, 3, 2);
    assert IsPrime(7);
    assert Cong((2 * 2) * 27, G(c, 2, 3), 7);
    assert IsSquareRatio(G(c, 2, 3), 27, 7);
  }
}
