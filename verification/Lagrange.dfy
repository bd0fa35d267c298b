// Lagrange interpolation at zero modulo a prime: coefficients over a set of
// nodes, and the theorem that the weighted values of a polynomial of degree
// below the number of nodes add up to its constant term.
module Lagrange {
  import opened ModArith
  import opened Polynomials

  /** The product of b - a over the nodes b of Z. */
  ghost function DiffProduct(Z: set<nat>, a: nat): int
    decreases |Z|
  {
    if Z == {} then 1 else
      var b :| b in Z;
      (b - a) * DiffProduct(Z - {b}, a)
  }

  lemma {:induction false} DiffProductRemove(Z: set<nat>, a: nat, b: nat)
    requires b in Z
    ensures DiffProduct(Z, a) == (b - a) * DiffProduct(Z - {b}, a)
    decreases |Z|
  {
    var c :| c in Z && DiffProduct(Z, a) == (c - a) * DiffProduct(Z - {c}, a);
    if c != b {
      DiffProductRemove(Z - {c}, a, b);
      DiffProductRemove(Z - {b}, a, c);
      assert Z - {c} - {b} == Z - {b} - {c};
      Swap(c - a, b - a, DiffProduct(Z - {b} - {c}, a));
    }
  }

  lemma Swap(x: int, y: int, z: int)
    ensures x * (y * z) == y * (x * z)
  {
  }

  /** Distinct nodes that are nonzero modulo r. */
  ghost predicate Nodes(Z: set<nat>, r: int) {
    forall b :: b in Z ==> 0 < b < r
  }

  lemma {:induction false} DiffProductNonzero(Z: set<nat>, a: nat, r: int)
    requires IsPrime(r) && Nodes(Z, r) && 0 < a < r && a !in Z
    ensures DiffProduct(Z, a) % r != 0
    decreases |Z|
  {
    if Z != {} {
      var b :| b in Z;
      DiffProductRemove(Z, a, b);
      DiffProductNonzero(Z - {b}, a, r);
      DiffNonzero(a, b, r);
      if DiffProduct(Z, a) % r == 0 {
        EuclidLemma(b - a, DiffProduct(Z - {b}, a), r);
      }
    } else {
      CongSmall(1, r);
    }
  }

  lemma DiffNonzero(a: nat, b: nat, r: int)
    requires a < r && b < r && a != b
    ensures (b - a) % r != 0
  {
    if (b - a) % r == 0 {
      ZeroMod(b, a, r);
      CongSmall(a, r);
      CongSmall(b, r);
    }
  }

  /** The coefficient of node a at zero: the product of b / (b - a) over the other nodes b. */
  ghost function Coef(Z: set<nat>, a: nat, r: int): (c: nat)
    requires r >= 2
    ensures c < r
  {
    CongMod(SetProduct(Z - {a}) * Inverse(DiffProduct(Z - {a}, a), r), r);
    (SetProduct(Z - {a}) * Inverse(DiffProduct(Z - {a}, a), r)) % r
  }

  ghost predicate IsCoef(c: int, Z: set<nat>, a: nat, r: int)
    requires r > 0
  {
    Cong(c * DiffProduct(Z - {a}, a), SetProduct(Z - {a}), r)
  }

  lemma CoefCorrect(Z: set<nat>, a: nat, r: int)
    requires IsPrime(r) && Nodes(Z, r) && 0 < a < r
    ensures IsCoef(Coef(Z, a, r), Z, a, r)
  {
    var N, D := SetProduct(Z - {a}), DiffProduct(Z - {a}, a);
    DiffProductNonzero(Z - {a}, a, r);
    InverseCorrect(D, r);
    CongMod(N * Inverse(D, r), r);
    CongMul(Coef(Z, a, r), N * Inverse(D, r), D, D, r);
    CongMul(N, N, D * Inverse(D, r), 1, r);
    Rotate(N, Inverse(D, r), D);
  }

  lemma Rotate(x: int, y: int, z: int)
    ensures (x * y) * z == x * (z * y)
  {
  }

  /** The defining congruence has one solution below r. */
  lemma CoefUnique(c: nat, Z: set<nat>, a: nat, r: int)
    requires IsPrime(r) && Nodes(Z, r) && 0 < a < r && c < r && IsCoef(c, Z, a, r)
    ensures c == Coef(Z, a, r)
  {
    var D := DiffProduct(Z - {a}, a);
    CoefCorrect(Z, a, r);
    DiffProductNonzero(Z - {a}, a, r);
    SameQuotient(c, Coef(Z, a, r), D, r);
  }

  lemma SameQuotient(c: nat, c': nat, D: int, r: int)
    requires IsPrime(r) && c < r && c' < r && D % r != 0 && Cong(c * D, c' * D, r)
    ensures c == c'
  {
    assert c * D == D * c && c' * D == D * c';
    Cancel(D, c, c', r);
    CongSmall(c, r);
    CongSmall(c', r);
  }

  /** Dropping node k rescales the other coefficients by (k - a) / k. */
  lemma CoefDrop(Z: set<nat>, a: nat, k: nat, r: int)
    requires IsPrime(r) && Nodes(Z, r) && a in Z && k in Z && a != k
    ensures Cong(Coef(Z, a, r) * (k - a), k * Coef(Z - {k}, a, r), r)
  {
    var W := Z - {k};
    var D, N := DiffProduct(W - {a}, a), SetProduct(W - {a});
    assert Z - {a} - {k} == W - {a};
    DiffProductRemove(Z - {a}, a, k);
    SetProductRemove(Z - {a}, k);
    CoefCorrect(Z, a, r);
    CoefCorrect(W, a, r);
    DiffProductNonzero(W - {a}, a, r);
    CoefDropStep(Coef(Z, a, r), Coef(W, a, r), k, k - a, D, N, r);
  }

  lemma CoefDropStep(c: int, c': int, k: int, d: int, D: int, N: int, r: int)
    requires IsPrime(r) && D % r != 0 && Cong(c * (d * D), k * N, r) && Cong(c' * D, N, r)
    ensures Cong(c * d, k * c', r)
  {
    CongMul(k, k, c' * D, N, r);
    assert c * (d * D) == D * (c * d) && k * (c' * D) == D * (k * c');
    Cancel(D, c * d, k * c', r);
  }

  /** The sum of f over a set. */
  ghost function SetSum(f: nat -> int, Z: set<nat>): int
    decreases |Z|
  {
    if Z == {} then 0 else
      var a :| a in Z;
      f(a) + SetSum(f, Z - {a})
  }

  lemma {:induction false} SetSumRemove(f: nat -> int, Z: set<nat>, a: nat)
    requires a in Z
    ensures SetSum(f, Z) == f(a) + SetSum(f, Z - {a})
    decreases |Z|
  {
    var b :| b in Z && SetSum(f, Z) == f(b) + SetSum(f, Z - {b});
    if a != b {
      SetSumRemove(f, Z - {b}, a);
      SetSumRemove(f, Z - {a}, b);
      assert Z - {a} - {b} == Z - {b} - {a};
    }
  }

  /** u is congruent to x v + y w. */
  ghost predicate Combines(u: int, x: int, v: int, y: int, w: int, r: int)
    requires r > 0
  {
    Cong(u, x * v + y * w, r)
  }

  /** u is congruent to k v. */
  ghost predicate Scales(u: int, k: int, v: int, r: int)
    requires r > 0
  {
    Cong(u, k * v, r)
  }

  ghost predicate CombinesAt(f: nat -> int, x: int, g: nat -> int, y: int, h: nat -> int, a: nat, r: int)
    requires r > 0
  {
    Combines(f(a), x, g(a), y, h(a), r)
  }

  lemma {:induction false} SetSumCombine(
      f: nat -> int, x: int, g: nat -> int, y: int, h: nat -> int, Z: set<nat>, r: int)
    requires r > 0 && forall a :: a in Z ==> CombinesAt(f, x, g, y, h, a, r)
    ensures Combines(SetSum(f, Z), x, SetSum(g, Z), y, SetSum(h, Z), r)
    decreases |Z|
  {
    if Z != {} {
      var a :| a in Z;
      SetSumRemove(f, Z, a);
      SetSumRemove(g, Z, a);
      SetSumRemove(h, Z, a);
      SetSumCombine(f, x, g, y, h, Z - {a}, r);
      assert CombinesAt(f, x, g, y, h, a, r);
      CombinesSum(f(a), SetSum(f, Z - {a}), x, g(a), SetSum(g, Z - {a}), y, h(a), SetSum(h, Z - {a}), r);
    }
  }

  lemma CombinesSum(u: int, u': int, x: int, v: int, v': int, y: int, w: int, w': int, r: int)
    requires r > 0 && Combines(u, x, v, y, w, r) && Combines(u', x, v', y, w', r)
    ensures Combines(u + u', x, v + v', y, w + w', r)
  {
    CongAdd(u, x * v + y * w, u', x * v' + y * w', r);
    Distribute(x, v, v');
    Distribute(y, w, w');
  }

  lemma Distribute(x: int, u: int, v: int)
    ensures x * (u + v) == x * u + x * v
  {
  }

  /** The weighted sum of the values f over the nodes Z. */
  ghost function Interpolated(f: nat -> int, Z: set<nat>, r: int): int
    requires r >= 2
  {
    SetSum(Weighted(f, Z, r), Z)
  }

  ghost function Weighted(f: nat -> int, Z: set<nat>, r: int): nat -> int
    requires r >= 2
  {
    (a: nat) => Coef(Z, a, r) * f(a)
  }

  ghost function Ones(): nat -> int {
    (a: nat) => 1
  }

  ghost function AwayFrom(k: nat, f: nat -> int): nat -> int {
    (a: nat) => (k - a) * f(a)
  }

  ghost function Values(p: seq<nat>): nat -> int {
    (a: nat) => Eval(p, a)
  }

  /** Interpolating (k - a) f(a) over Z is k times interpolating f over Z without k. */
  lemma DropNode(f: nat -> int, Z: set<nat>, k: nat, r: int)
    requires IsPrime(r) && Nodes(Z, r) && k in Z
    ensures Scales(Interpolated(AwayFrom(k, f), Z, r), k, Interpolated(f, Z - {k}, r), r)
  {
    var F, G := Weighted(AwayFrom(k, f), Z, r), Weighted(f, Z - {k}, r);
    SetSumRemove(F, Z, k);
    forall a | a in Z - {k}
      ensures CombinesAt(F, k, G, 0, G, a, r)
    {
      DropOne(f, Z, k, a, r);
    }
    SetSumCombine(F, k, G, 0, G, Z - {k}, r);
    DroppedTerm(f, Z, k, r);
    DropEnd(Interpolated(AwayFrom(k, f), Z, r), SetSum(F, Z - {k}), k, Interpolated(f, Z - {k}, r), r);
  }

  lemma DroppedTerm(f: nat -> int, Z: set<nat>, k: nat, r: int)
    requires r >= 2
    ensures Weighted(AwayFrom(k, f), Z, r)(k) == 0
  {
    ZeroFactor(Coef(Z, k, r), k - k, f(k));
  }

  lemma ZeroFactor(c: int, d: int, v: int)
    requires d == 0
    ensures c * (d * v) == 0
  {
  }

  lemma DropEnd(total: int, s: int, k: int, t: int, r: int)
    requires r > 0 && total == s && Combines(s, k, t, 0, t, r)
    ensures Scales(total, k, t, r)
  {
  }

  lemma DropOne(f: nat -> int, Z: set<nat>, k: nat, a: nat, r: int)
    requires IsPrime(r) && Nodes(Z, r) && k in Z && a in Z && a != k
    ensures CombinesAt(Weighted(AwayFrom(k, f), Z, r), k, Weighted(f, Z - {k}, r), 0, Weighted(f, Z - {k}, r), a, r)
  {
    CoefDrop(Z, a, k, r);
    DropAt(Coef(Z, a, r), Coef(Z - {k}, a, r), k, k - a, f(a), r);
  }

  lemma DropAt(c: int, c': int, k: int, d: int, v: int, r: int)
    requires r > 0 && Cong(c * d, k * c', r)
    ensures Cong(c * (d * v), k * (c' * v), r)
  {
    CongMul(c * d, k * c', v, v, r);
    Associate(c, d, v);
    Associate(k, c', v);
  }

  lemma Associate(x: int, y: int, z: int)
    ensures (x * y) * z == x * (y * z)
  {
  }

  /** I(x f + y g) = x I(f) + y I(g). */
  lemma InterpolatedLinear(F: nat -> int, x: int, f: nat -> int, y: int, g: nat -> int, Z: set<nat>, r: int)
    requires r >= 2 && forall a :: a in Z ==> F(a) == x * f(a) + y * g(a)
    ensures Combines(Interpolated(F, Z, r), x, Interpolated(f, Z, r), y, Interpolated(g, Z, r), r)
  {
    var FF, ff, gg := Weighted(F, Z, r), Weighted(f, Z, r), Weighted(g, Z, r);
    forall a | a in Z
      ensures CombinesAt(FF, x, ff, y, gg, a, r)
    {
      WeightedCombine(Coef(Z, a, r), x, f(a), y, g(a));
    }
    SetSumCombine(FF, x, ff, y, gg, Z, r);
  }

  lemma WeightedCombine(c: int, x: int, u: int, y: int, v: int)
    ensures c * (x * u + y * v) == x * (c * u) + y * (c * v)
  {
    Swap(c, x, u);
    Swap(c, y, v);
    Distribute(c, x * u, y * v);
  }

  ghost function Identity(): nat -> int {
    (a: nat) => a
  }

  /** k I(1) - I(a) = k I(1) over the nodes without k. */
  lemma DropFromOnes(Z: set<nat>, k: nat, r: int)
    requires IsPrime(r) && Nodes(Z, r) && k in Z && Cong(Interpolated(Ones(), Z - {k}, r), 1, r)
    ensures Cong(k * Interpolated(Ones(), Z, r) - Interpolated(Identity(), Z, r), k, r)
  {
    var S, S', M := Interpolated(Ones(), Z, r), Interpolated(Ones(), Z - {k}, r), Interpolated(Identity(), Z, r);
    DropNode(Ones(), Z, k, r);
    InterpolatedLinear(AwayFrom(k, Ones()), k, Ones(), -1, Identity(), Z, r);
    DropScalars(Interpolated(AwayFrom(k, Ones()), Z, r), k, S, S', M, r);
  }

  lemma DropScalars(u: int, k: int, s: int, s': int, m: int, r: int)
    requires r > 0 && Scales(u, k, s', r) && Combines(u, k, s, -1, m, r) && Cong(s', 1, r)
    ensures Cong(k * s - m, k, r)
  {
    CongMul(k, k, s', 1, r);
  }

  /** The coefficients add up to one. */
  lemma {:induction false} CoefficientsSumToOne(Z: set<nat>, r: int)
    requires IsPrime(r) && Nodes(Z, r) && Z != {}
    ensures Cong(Interpolated(Ones(), Z, r), 1, r)
    decreases |Z|
  {
    var k :| k in Z;
    if Z == {k} {
      OneNode(k, r);
    } else {
      assert Z - {k} != {};
      var l :| l in Z - {k};
      CoefficientsSumToOne(Z - {k}, r);
      CoefficientsSumToOne(Z - {l}, r);
      TwoNodes(Z, k, l, r);
    }
  }

  lemma TwoNodes(Z: set<nat>, k: nat, l: nat, r: int)
    requires IsPrime(r) && Nodes(Z, r) && k in Z && l in Z && k != l
    requires Cong(Interpolated(Ones(), Z - {k}, r), 1, r) && Cong(Interpolated(Ones(), Z - {l}, r), 1, r)
    ensures Cong(Interpolated(Ones(), Z, r), 1, r)
  {
    DropFromOnes(Z, k, r);
    DropFromOnes(Z, l, r);
    DiffNonzero(l, k, r);
    TwoEquations(k, l, Interpolated(Ones(), Z, r), Interpolated(Identity(), Z, r), r);
  }

  lemma TwoEquations(k: int, l: int, s: int, m: int, r: int)
    requires IsPrime(r) && (k - l) % r != 0 && Cong(k * s - m, k, r) && Cong(l * s - m, l, r)
    ensures Cong(s, 1, r)
  {
    CongAdd(k * s - m, k, l * s - m, l, r);
    assert (k * s - m) - (l * s - m) == (k - l) * s;
    Cancel(k - l, s, 1, r);
  }

  lemma OneNode(k: nat, r: int)
    requires IsPrime(r) && 0 < k < r
    ensures Cong(Interpolated(Ones(), {k}, r), 1, r)
  {
    SetSumRemove(Weighted(Ones(), {k}, r), {k}, k);
    assert {k} - {k} == {};
    CoefCorrect({k}, k, r);
    assert Interpolated(Ones(), {k}, r) == Coef({k}, k, r);
  }

  /** The quotient of P(x) - P(k) by x - k. */
  function Quotient(p: seq<nat>, k: nat): (q: seq<nat>)
    ensures |p| >= 1 ==> |q| == |p| - 1
  {
    if |p| <= 1 then [] else [Eval(p[1..], k)] + Quotient(p[1..], k)
  }

  lemma {:induction false} QuotientCorrect(p: seq<nat>, k: nat, x: nat)
    ensures Eval(p, x) - Eval(p, k) == (x - k) * Eval(Quotient(p, k), x)
  {
    if |p| >= 1 {
      var p' := p[1..];
      var q' := Quotient(p', k);
      QuotientCorrect(p', k, x);
      if |p| == 1 {
        assert Eval(p', x) == 0 && Eval(p', k) == 0;
      } else {
        assert Quotient(p, k)[1..] == q';
        QuotientStep(x, k, Eval(p', x), Eval(p', k), Eval(q', x));
      }
    }
  }

  lemma QuotientStep(x: int, k: int, u: int, v: int, w: int)
    requires u - v == (x - k) * w
    ensures x * u - k * v == (x - k) * (v + x * w)
  {
    assert (x - k) * (v + x * w) == (x - k) * v + x * ((x - k) * w);
  }

  /** Weighted values of a polynomial of degree below the number of nodes give its constant term. */
  lemma {:induction false} InterpolationAtZero(p: seq<nat>, Z: set<nat>, r: int)
    requires IsPrime(r) && Nodes(Z, r) && Z != {} && |p| <= |Z|
    ensures Cong(Interpolated(Values(p), Z, r), Eval(p, 0), r)
    decreases |Z|
  {
    var k :| k in Z;
    var q := Quotient(p, k);
    if Z == {k} {
      NoNodes(Values(q), r);
    } else {
      assert Z - {k} != {};
      InterpolationAtZero(q, Z - {k}, r);
    }
    InterpolationNext(p, Z, k, r);
  }

  ghost predicate Reduces(i: int, q: int, s: int, k: int, v: int, r: int)
    requires r > 0
  {
    Cong(i, (-1) * (k * q) + v * s, r)
  }

  ghost predicate AtZero(p0: int, v: int, k: int, q0: int) {
    p0 == v - k * q0
  }

  lemma QuotientAtZero(p: seq<nat>, k: nat)
    ensures AtZero(Eval(p, 0), Eval(p, k), k, Eval(Quotient(p, k), 0))
  {
    QuotientCorrect(p, k, 0);
    assert (0 - k) * Eval(Quotient(p, k), 0) == -(k * Eval(Quotient(p, k), 0));
  }

  /** One more node and one more degree. */
  lemma InterpolationNext(p: seq<nat>, Z: set<nat>, k: nat, r: int)
    requires IsPrime(r) && Nodes(Z, r) && k in Z
    requires Cong(Interpolated(Values(Quotient(p, k)), Z - {k}, r), Eval(Quotient(p, k), 0), r)
    ensures Cong(Interpolated(Values(p), Z, r), Eval(p, 0), r)
  {
    var q := Quotient(p, k);
    CoefficientsSumToOne(Z, r);
    DivideAndDrop(p, Z, k, r);
    QuotientAtZero(p, k);
    InterpolationStep(Interpolated(Values(p), Z, r), Interpolated(Values(q), Z - {k}, r), Interpolated(Ones(), Z, r),
                      k, Eval(p, k), Eval(q, 0), Eval(p, 0), r);
  }

  lemma DivideAndDrop(p: seq<nat>, Z: set<nat>, k: nat, r: int)
    requires IsPrime(r) && Nodes(Z, r) && k in Z
    ensures Reduces(Interpolated(Values(p), Z, r), Interpolated(Values(Quotient(p, k)), Z - {k}, r),
                    Interpolated(Ones(), Z, r), k, Eval(p, k), r)
  {
    var q := Quotient(p, k);
    DivideValues(p, Z, k, r);
    DropNode(Values(q), Z, k, r);
    Substitute(Interpolated(Values(p), Z, r), Interpolated(AwayFrom(k, Values(q)), Z, r), k,
               Interpolated(Values(q), Z - {k}, r), Eval(p, k), Interpolated(Ones(), Z, r), r);
  }

  lemma Substitute(i: int, j: int, k: int, q: int, v: int, s: int, r: int)
    requires r > 0 && Combines(i, -1, j, v, s, r) && Scales(j, k, q, r)
    ensures Reduces(i, q, s, k, v, r)
  {
    CongMul(-1, -1, j, k * q, r);
    CongAdd((-1) * j, (-1) * (k * q), v * s, v * s, r);
  }

  lemma DivideValues(p: seq<nat>, Z: set<nat>, k: nat, r: int)
    requires r >= 2
    ensures Combines(Interpolated(Values(p), Z, r), -1, Interpolated(AwayFrom(k, Values(Quotient(p, k))), Z, r),
                     Eval(p, k), Interpolated(Ones(), Z, r), r)
  {
    var F := AwayFrom(k, Values(Quotient(p, k)));
    forall x: nat | x in Z
      ensures Values(p)(x) == (-1) * F(x) + Eval(p, k) * Ones()(x)
    {
      DivideAt(p, k, x);
    }
    InterpolatedLinear(Values(p), -1, F, Eval(p, k), Ones(), Z, r);
  }

  lemma DivideAt(p: seq<nat>, k: nat, x: nat)
    ensures Values(p)(x) == (-1) * AwayFrom(k, Values(Quotient(p, k)))(x) + Eval(p, k) * Ones()(x)
  {
    QuotientCorrect(p, k, x);
    DivideScalars(Eval(p, x), Eval(p, k), Eval(Quotient(p, k), x), AwayFrom(k, Values(Quotient(p, k)))(x), Ones()(x),
      k, x);
  }

  lemma DivideScalars(u: int, v: int, q: int, w: int, one: int, k: int, x: int)
    requires u - v == (x - k) * q && w == (k - x) * q && one == 1
    ensures u == (-1) * w + v * one
  {
    assert (k - x) * q == -((x - k) * q);
  }

  lemma NoNodes(f: nat -> int, r: int)
    requires r >= 2
    ensures Interpolated(f, {}, r) == 0
  {
  }

  lemma InterpolationStep(i: int, q: int, s: int, k: int, v: int, q0: int, p0: int, r: int)
    requires r > 0 && Reduces(i, q, s, k, v, r) && Cong(q, q0, r) && Cong(s, 1, r) && AtZero(p0, v, k, q0)
    ensures Cong(i, p0, r)
  {
    CongMul(k, k, q, q0, r);
    CongMul(v, v, s, 1, r);
    CongAdd(v * s, v * 1, k * q, k * q0, r);
  }
}
