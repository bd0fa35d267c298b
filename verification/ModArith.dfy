// Arithmetic modulo a prime: congruences, Euclid's lemma, powers and Fermat's
// little theorem, on which the inversions and square roots of the curve code rest.
module ModArith {

  /** Congruence modulo m. */
  ghost predicate Cong(a: int, b: int, m: int)
    requires m > 0
  {
    a % m == b % m
  }

  ghost predicate Divides(d: int, a: int) {
    d != 0 && a % d == 0
  }

  ghost predicate IsPrime(p: int) {
    && p >= 2
    && forall d :: 2 <= d < p ==> !Divides(d, p)
  }

  lemma DivModUnique(a: int, m: int, q: int, r: int)
    requires m > 0 && a == q * m + r && 0 <= r < m
    ensures a / m == q && a % m == r
  {
    var q', r' := a / m, a % m;
    assert a == q' * m + r';
    var d := q - q';
    assert d * m == q * m - q' * m == r' - r;
    assert d >= 1 ==> d * m >= m;
    assert d <= -1 ==> d * m <= -m;
  }

  lemma CongByWitness(a: int, b: int, m: int, k: int)
    requires m > 0 && a - b == k * m
    ensures Cong(a, b, m)
  {
    var q, r := b / m, b % m;
    assert a == (q + k) * m + r;
    DivModUnique(a, m, q + k, r);
  }

  lemma CongWitness(a: int, b: int, m: int) returns (k: int)
    requires m > 0 && Cong(a, b, m)
    ensures a - b == k * m
  {
    k := a / m - b / m;
    assert a - b == (a / m) * m - (b / m) * m;
  }

  lemma CongAdd(a: int, b: int, c: int, d: int, m: int)
    requires m > 0 && Cong(a, b, m) && Cong(c, d, m)
    ensures Cong(a + c, b + d, m) && Cong(a - c, b - d, m)
  {
    var k := CongWitness(a, b, m);
    var l := CongWitness(c, d, m);
    assert (a + c) - (b + d) == (k + l) * m;
    CongByWitness(a + c, b + d, m, k + l);
    assert (a - c) - (b - d) == (k - l) * m;
    CongByWitness(a - c, b - d, m, k - l);
  }

  lemma CongMul(a: int, b: int, c: int, d: int, m: int)
    requires m > 0 && Cong(a, b, m) && Cong(c, d, m)
    ensures Cong(a * c, b * d, m)
  {
    var k := CongWitness(a, b, m);
    var l := CongWitness(c, d, m);
    assert a * c - b * d == (a - b) * c + b * (c - d);
    assert (k * m) * c == (k * c) * m;
    assert b * (l * m) == (b * l) * m;
    assert a * c - b * d == (k * c + b * l) * m;
    CongByWitness(a * c, b * d, m, k * c + b * l);
  }

  lemma CongMod(a: int, m: int)
    requires m > 0
    ensures 0 <= a % m < m && Cong(a % m, a, m)
  {
    var q := a / m;
    assert a % m - a == (-q) * m;
    CongByWitness(a % m, a, m, -q);
  }

  /** A residue in [0, m) is determined by its congruence class. */
  lemma CongSmall(a: int, m: int)
    requires 0 <= a < m
    ensures a % m == a
  {
    DivModUnique(a, m, 0, a);
  }

  lemma MultipleIsZero(k: int, m: int)
    requires m > 0
    ensures (k * m) % m == 0 && (m * k) % m == 0
  {
    DivModUnique(k * m, m, k, 0);
  }

  // ---------------------------------------------------------------- primes

  /** Euclid's lemma, for a reduced nonzero factor. */
  lemma {:induction false} EuclidReduced(a: int, b: int, p: int)
    requires IsPrime(p) && 0 < a < p && (a * b) % p == 0
    ensures b % p == 0
    decreases a
  {
    if a > 1 {
      var q, r := p / a, p % a;
      assert !Divides(a, p);
      assert p == q * a + r && 0 < r < a;
      // r * b = p * b - q * (a * b) is a multiple of p
      var k := (a * b) / p;
      assert a * b == k * p;
      assert q * (a * b) == q * (k * p) == (q * k) * p;
      assert (q * a + r) * b == q * (a * b) + r * b;
      assert r * b == (b - q * k) * p;
      DivModUnique(r * b, p, b - q * k, 0);
      EuclidReduced(r, b, p);
    }
  }

  lemma EuclidLemma(a: int, b: int, p: int)
    requires IsPrime(p) && (a * b) % p == 0
    ensures a % p == 0 || b % p == 0
  {
    if a % p != 0 {
      CongMod(a, p);
      CongMul(a % p, a, b, b, p);
      EuclidReduced(a % p, b, p);
    }
  }

  /** A factor that is nonzero modulo a prime cancels. */
  lemma ProductNotZero(x: int, y: int, p: int)
    requires IsPrime(p) && x % p != 0 && y % p != 0
    ensures (x * y) % p != 0
  {
    if (x * y) % p == 0 {
      EuclidLemma(x, y, p);
    }
  }

  lemma Cancel(a: int, x: int, y: int, p: int)
    requires IsPrime(p) && a % p != 0 && Cong(a * x, a * y, p)
    ensures Cong(x, y, p)
  {
    var k := CongWitness(a * x, a * y, p);
    Factor(a, x, y);
    MultipleIsZero(k, p);
    EuclidLemma(a, x - y, p);
    ZeroMod(x, y, p);
  }

  lemma Factor(a: int, x: int, y: int)
    ensures a * (x - y) == a * x - a * y
  {
  }

  /** Two numbers are congruent when their difference is a multiple. */
  lemma ZeroMod(x: int, y: int, p: int)
    requires p > 0 && (x - y) % p == 0
    ensures Cong(x, y, p)
  {
    CongByWitness(x, y, p, (x - y) / p);
  }

  // ---------------------------------------------------------------- powers

  function Pow(b: int, e: nat): int {
    if e == 0 then 1 else b * Pow(b, e - 1)
  }

  lemma {:induction false} PowAdd(b: int, e: nat, f: nat)
    ensures Pow(b, e + f) == Pow(b, e) * Pow(b, f)
  {
    if e > 0 {
      PowAdd(b, e - 1, f);
      assert Pow(b, e + f) == b * Pow(b, e - 1 + f);
      assert b * (Pow(b, e - 1) * Pow(b, f)) == (b * Pow(b, e - 1)) * Pow(b, f);
    }
  }

  lemma Interchange(a: int, b: int, x: int, y: int)
    ensures (a * b) * (x * y) == (a * x) * (b * y)
  {
    assert (a * b) * (x * y) == a * (b * x * y);
  }

  lemma {:induction false} PowProduct(a: int, b: int, e: nat)
    ensures Pow(a * b, e) == Pow(a, e) * Pow(b, e)
  {
    if e > 0 {
      PowProduct(a, b, e - 1);
      Interchange(a, b, Pow(a, e - 1), Pow(b, e - 1));
    }
  }

  lemma {:induction false} PowCong(a: int, b: int, e: nat, m: int)
    requires m > 0 && Cong(a, b, m)
    ensures Cong(Pow(a, e), Pow(b, e), m)
  {
    if e > 0 {
      PowCong(a, b, e - 1, m);
      CongMul(a, b, Pow(a, e - 1), Pow(b, e - 1), m);
    }
  }

  // ---------------------------------------------- Fermat's little theorem

  ghost function SetProduct(s: set<nat>): int
    decreases |s|
  {
    if s == {} then 1 else
      var x :| x in s;
      x * SetProduct(s - {x})
  }

  lemma {:induction false} SetProductRemove(s: set<nat>, x: nat)
    requires x in s
    ensures SetProduct(s) == x * SetProduct(s - {x})
    decreases |s|
  {
    var y :| y in s && SetProduct(s) == y * SetProduct(s - {y});
    if y != x {
      SetProductRemove(s - {y}, x);
      SetProductRemove(s - {x}, y);
      assert s - {y} - {x} == s - {x} - {y};
      var rest := SetProduct(s - {x} - {y});
      assert y * (x * rest) == x * (y * rest);
    }
  }

  ghost function Image<X(!new), Y>(f: X -> Y, s: set<X>): set<Y> {
    set x | x in s :: f(x)
  }

  ghost predicate InjectiveOn<X(!new), Y>(f: X -> Y, s: set<X>) {
    forall x, y :: x in s && y in s && f(x) == f(y) ==> x == y
  }

  lemma ImageRemove<X(!new), Y>(f: X -> Y, s: set<X>, x: X)
    requires InjectiveOn(f, s) && x in s
    ensures f(x) in Image(f, s) && Image(f, s) - {f(x)} == Image(f, s - {x})
  {
  }

  lemma {:induction false} ImageSize<X(!new), Y>(f: X -> Y, s: set<X>)
    requires InjectiveOn(f, s)
    ensures |Image(f, s)| == |s|
    decreases |s|
  {
    if s != {} {
      var x :| x in s;
      ImageRemove(f, s, x);
      ImageSize(f, s - {x});
    }
  }

  /** Multiplication by a modulo p. */
  ghost function Scale(a: int, p: int): nat -> nat
    requires p > 0
  {
    (x: nat) => (a * x) % p
  }

  ghost predicate Residues(s: set<nat>, p: int) {
    forall x :: x in s ==> 0 < x < p
  }

  lemma ScaleInjective(a: int, s: set<nat>, p: int)
    requires IsPrime(p) && a % p != 0 && Residues(s, p)
    ensures InjectiveOn(Scale(a, p), s)
  {
    var f := Scale(a, p);
    forall x, y | x in s && y in s && f(x) == f(y)
      ensures x == y
    {
      Cancel(a, x, y, p);
      CongSmall(x, p);
      CongSmall(y, p);
    }
  }

  lemma ScaleNonzero(a: int, x: nat, p: int)
    requires IsPrime(p) && a % p != 0 && 0 < x < p
    ensures 0 < Scale(a, p)(x) < p
  {
    CongSmall(x, p);
    if (a * x) % p == 0 {
      EuclidLemma(a, x, p);
    }
  }

  /** Scaling a set of residues multiplies its product by a power of the factor. */
  lemma {:induction false} ScaledProduct(a: int, s: set<nat>, p: int)
    requires IsPrime(p) && a % p != 0 && Residues(s, p)
    ensures Cong(SetProduct(Image(Scale(a, p), s)), Pow(a, |s|) * SetProduct(s), p)
    decreases |s|
  {
    if |s| == 0 {
      assert Image(Scale(a, p), s) == {};
    } else {
      var x :| x in s;
      var t := s - {x};
      ScaledProduct(a, t, p);
      ScaledImage(a, s, x, p);
      SetProductRemove(s, x);
      ScaledStep(a, x, SetProduct(Image(Scale(a, p), t)), Pow(a, |t|), SetProduct(t), p);
    }
  }

  lemma ScaledImage(a: int, s: set<nat>, x: nat, p: int)
    requires IsPrime(p) && a % p != 0 && Residues(s, p) && x in s
    ensures SetProduct(Image(Scale(a, p), s)) == Scale(a, p)(x) * SetProduct(Image(Scale(a, p), s - {x}))
  {
    var f := Scale(a, p);
    ScaleInjective(a, s, p);
    ImageRemove(f, s, x);
    SetProductRemove(Image(f, s), f(x));
  }

  lemma ScaledStep(a: int, x: nat, img: int, w: int, v: int, p: int)
    requires p > 0 && Cong(img, w * v, p)
    ensures Cong(Scale(a, p)(x) * img, (a * w) * (x * v), p)
  {
    CongMod(a * x, p);
    CongMul((a * x) % p, a * x, img, w * v, p);
    Interchange(a, x, w, v);
  }

  /** An injection of a finite set into itself is onto. */
  lemma ImageOnto<X(!new)>(f: X -> X, s: set<X>)
    requires InjectiveOn(f, s) && Image(f, s) <= s
    ensures Image(f, s) == s
  {
    ImageSize(f, s);
    SubsetSameSize(Image(f, s), s);
  }

  lemma ScaledWithin(a: int, p: int)
    requires IsPrime(p) && a % p != 0
    ensures Image(Scale(a, p), Range(p)) <= Range(p)
  {
    var f, s := Scale(a, p), Range(p);
    forall y | y in Image(f, s)
      ensures y in s
    {
      var x :| x in s && y == f(x);
      ScaleNonzero(a, x, p);
    }
  }

  lemma ScaledRange(a: int, p: int) returns (s: set<nat>)
    requires IsPrime(p) && a % p != 0
    ensures |s| == p - 1 && Residues(s, p) && Image(Scale(a, p), s) == s
  {
    s := Range(p);
    ScaledWithin(a, p);
    ScaleInjective(a, s, p);
    ImageOnto(Scale(a, p), s);
  }

  /** The nonzero residues modulo p. */
  ghost function Range(p: int): (s: set<nat>)
    ensures forall x: nat :: x in s <==> 0 < x < p
    ensures p >= 1 ==> |s| == p - 1
    decreases p
  {
    if p <= 1 then {} else Range(p - 1) + {p - 1}
  }

  lemma SubsetSameSize<X>(s: set<X>, t: set<X>)
    requires s <= t && |s| == |t|
    ensures s == t
  {
    if s != t {
      var x :| x in t && x !in s;
      SubsetSize(s, t - {x});
    }
  }

  lemma {:induction false} SubsetSize<X>(s: set<X>, t: set<X>)
    requires s <= t
    ensures |s| <= |t|
    decreases |s|
  {
    if s != {} {
      var x :| x in s;
      SubsetSize(s - {x}, t - {x});
    }
  }

  lemma {:induction false} ProductNonzero(s: set<nat>, p: int)
    requires IsPrime(p) && Residues(s, p)
    ensures SetProduct(s) % p != 0
    decreases |s|
  {
    if s == {} {
      CongSmall(1, p);
    } else {
      var x :| x in s;
      SetProductRemove(s, x);
      ProductNonzero(s - {x}, p);
      CongSmall(x, p);
      if SetProduct(s) % p == 0 {
        EuclidLemma(x, SetProduct(s - {x}), p);
      }
    }
  }

  lemma CancelToOne(v: int, w: int, p: int)
    requires IsPrime(p) && v % p != 0 && Cong(v, w * v, p)
    ensures w % p == 1
  {
    assert w * v == v * w && v == v * 1;
    Cancel(v, 1, w, p);
    CongSmall(1, p);
  }

  /** A set of residues that multiplication by a permutes forces a^|s| == 1. */
  lemma FixedSet(a: int, s: set<nat>, p: int)
    requires IsPrime(p) && a % p != 0 && Residues(s, p)
    requires Image(Scale(a, p), s) == s
    ensures Pow(a, |s|) % p == 1
  {
    ProductNonzero(s, p);
    ScaledProduct(a, s, p);
    CancelToOne(SetProduct(s), Pow(a, |s|), p);
  }

  /** Fermat's little theorem. */
  lemma Fermat(a: int, p: int)
    requires IsPrime(p) && a % p != 0
    ensures Pow(a, p - 1) % p == 1
  {
    var s := ScaledRange(a, p);
    FixedSet(a, s, p);
  }

  /** The inverse the code computes: b^(p-2) mod p. */
  function Inverse(b: int, p: int): (inv: int)
    requires p >= 2
    ensures 0 <= inv < p
  {
    Pow(b, p - 2) % p
  }

  lemma InverseCorrect(b: int, p: int)
    requires IsPrime(p) && b % p != 0
    ensures Cong(b * Inverse(b, p), 1, p)
  {
    Fermat(b, p);
    CongMod(Pow(b, p - 2), p);
    CongMul(b, b, Inverse(b, p), Pow(b, p - 2), p);
    CongSmall(1, p);
  }
}
