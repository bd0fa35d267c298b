// Abelian groups given by their operations, scalar multiplication, elements of
// prime order and bilinear maps: the contracts of the curve library.
module Groups {
  import opened ModArith

  datatype Group<!T(==)> = Group(zero: T, add: (T, T) -> T, neg: T -> T)

  /** The group laws at three given elements. */
  ghost predicate LawsAt<T>(G: Group<T>, a: T, b: T, c: T) {
    && G.add(G.add(a, b), c) == G.add(a, G.add(b, c))
    && G.add(a, b) == G.add(b, a)
    && G.add(a, G.zero) == a
    && G.add(a, G.neg(a)) == G.zero
  }

  ghost predicate Abelian<T(!new)>(G: Group<T>) {
    forall a, b, c :: LawsAt(G, a, b, c)
  }

  function Times<T>(G: Group<T>, n: nat, P: T): T {
    if n == 0 then G.zero else G.add(P, Times(G, n - 1, P))
  }

  lemma ZeroLeft<T(!new)>(G: Group<T>, a: T)
    requires Abelian(G)
    ensures G.add(G.zero, a) == a && G.add(a, G.zero) == a
  {
    assert LawsAt(G, G.zero, a, a);
    assert LawsAt(G, a, G.zero, a);
  }

  lemma CancelLeft<T(!new)>(G: Group<T>, a: T, b: T, c: T)
    requires Abelian(G) && G.add(a, b) == G.add(a, c)
    ensures b == c
  {
    assert LawsAt(G, a, a, a);
    assert LawsAt(G, G.neg(a), a, b);
    assert LawsAt(G, G.neg(a), a, c);
    ZeroLeft(G, b);
    ZeroLeft(G, c);
  }

  /** (a + b) + (c + d) == (a + c) + (b + d) */
  lemma Shuffle<T(!new)>(G: Group<T>, a: T, b: T, c: T, d: T)
    requires Abelian(G)
    ensures G.add(G.add(a, b), G.add(c, d)) == G.add(G.add(a, c), G.add(b, d))
  {
    assert LawsAt(G, a, b, G.add(c, d));
    assert LawsAt(G, b, c, d);
    assert LawsAt(G, c, b, d);
    assert LawsAt(G, a, c, G.add(b, d));
  }

  lemma {:induction false} TimesAdd<T(!new)>(G: Group<T>, m: nat, n: nat, P: T)
    requires Abelian(G)
    ensures Times(G, m + n, P) == G.add(Times(G, m, P), Times(G, n, P))
  {
    if m == 0 {
      ZeroLeft(G, Times(G, n, P));
    } else {
      TimesAdd(G, m - 1, n, P);
      assert LawsAt(G, P, Times(G, m - 1, P), Times(G, n, P));
    }
  }

  lemma {:induction false} TimesZero<T(!new)>(G: Group<T>, n: nat)
    requires Abelian(G)
    ensures Times(G, n, G.zero) == G.zero
  {
    if n > 0 {
      TimesZero(G, n - 1);
      ZeroLeft(G, G.zero);
    }
  }

  lemma {:induction false} TimesSum<T(!new)>(G: Group<T>, n: nat, P: T, Q: T)
    requires Abelian(G)
    ensures Times(G, n, G.add(P, Q)) == G.add(Times(G, n, P), Times(G, n, Q))
  {
    if n == 0 {
      ZeroLeft(G, G.zero);
    } else {
      TimesSum(G, n - 1, P, Q);
      Shuffle(G, P, Q, Times(G, n - 1, P), Times(G, n - 1, Q));
    }
  }

  lemma {:induction false} TimesTimes<T(!new)>(G: Group<T>, m: nat, n: nat, P: T)
    requires Abelian(G)
    ensures m * n >= 0 && Times(G, m * n, P) == Times(G, m, Times(G, n, P))
  {
    if m == 0 {
      assert m * n == 0;
    } else {
      TimesTimes(G, m - 1, n, P);
      assert m * n == n + (m - 1) * n;
      TimesAdd(G, n, (m - 1) * n, P);
    }
  }

  // ------------------------------------------------------------ prime order

  /** P has prime order r. */
  ghost predicate PrimeOrder<T>(G: Group<T>, P: T, r: int) {
    IsPrime(r) && P != G.zero && Times(G, r, P) == G.zero
  }

  lemma TimesMultiple<T(!new)>(G: Group<T>, P: T, k: nat, r: nat)
    requires Abelian(G) && Times(G, r, P) == G.zero
    ensures k * r >= 0 && Times(G, k * r, P) == G.zero
  {
    TimesTimes(G, k, r, P);
    TimesZero(G, k);
  }

  /** Scalars act through their residue. */
  lemma TimesMod<T(!new)>(G: Group<T>, n: nat, P: T, r: nat)
    requires Abelian(G) && r > 0 && Times(G, r, P) == G.zero
    ensures Times(G, n, P) == Times(G, n % r, P)
  {
    var q := n / r;
    TimesMultiple(G, P, q, r);
    assert n == q * r + n % r;
    TimesAdd(G, q * r, n % r, P);
    ZeroLeft(G, Times(G, n % r, P));
  }

  lemma TimesCong<T(!new)>(G: Group<T>, m: nat, n: nat, P: T, r: nat)
    requires Abelian(G) && r > 0 && Times(G, r, P) == G.zero && Cong(m, n, r)
    ensures Times(G, m, P) == Times(G, n, P)
  {
    TimesMod(G, m, P, r);
    TimesMod(G, n, P, r);
  }

  /** Only the multiples of the order annihilate. */
  lemma TimesIsZero<T(!new)>(G: Group<T>, n: nat, P: T, r: nat)
    requires Abelian(G) && PrimeOrder(G, P, r)
    ensures Times(G, n, P) == G.zero <==> n % r == 0
  {
    if n % r == 0 {
      TimesMod(G, n, P, r);
    } else if Times(G, n, P) == G.zero {
      var k := Inverse(n, r);
      InverseCorrect(n, r);
      assert n * k == k * n;
      TimesTimes(G, k, n, P);
      TimesZero(G, k);
      TimesCong(G, k * n, 1, P, r);
      ZeroLeft(G, P);
    }
  }

  /** Discrete logarithms are unique modulo the order. */
  lemma TimesInjective<T(!new)>(G: Group<T>, m: nat, n: nat, P: T, r: nat)
    requires Abelian(G) && PrimeOrder(G, P, r)
    ensures Times(G, m, P) == Times(G, n, P) <==> Cong(m, n, r)
  {
    if Cong(m, n, r) {
      TimesCong(G, m, n, P, r);
    } else if Times(G, m, P) == Times(G, n, P) {
      var lo, hi := if m <= n then m else n, if m <= n then n else m;
      TimesAdd(G, lo, hi - lo, P);
      ZeroLeft(G, Times(G, lo, P));
      CancelLeft(G, Times(G, lo, P), Times(G, hi - lo, P), G.zero);
      TimesIsZero(G, hi - lo, P, r);
      ZeroMod(hi, lo, r);
    }
  }

  // ------------------------------------------------------------------ sums

  function Sum<T>(G: Group<T>, s: seq<T>): T {
    if s == [] then G.zero else G.add(s[0], Sum(G, s[1..]))
  }

  lemma {:induction false} SumAppend<T(!new)>(G: Group<T>, s: seq<T>, t: seq<T>)
    requires Abelian(G)
    ensures Sum(G, s + t) == G.add(Sum(G, s), Sum(G, t))
  {
    if s == [] {
      assert s + t == t;
      ZeroLeft(G, Sum(G, t));
    } else {
      assert (s + t)[1..] == s[1..] + t;
      SumAppend(G, s[1..], t);
      assert LawsAt(G, s[0], Sum(G, s[1..]), Sum(G, t));
    }
  }

  lemma SumOne<T(!new)>(G: Group<T>, a: T)
    requires Abelian(G)
    ensures Sum(G, [a]) == a
  {
    ZeroLeft(G, a);
    assert [a][1..] == [];
  }

  lemma SumSnoc<T(!new)>(G: Group<T>, s: seq<T>, a: T)
    requires Abelian(G)
    ensures Sum(G, s + [a]) == G.add(Sum(G, s), a)
  {
    SumAppend(G, s, [a]);
    SumOne(G, a);
  }

  // ---------------------------------------------------------- bilinear maps

  /** A map into a third group, additive in each argument. */
  ghost predicate BilinearAt<A, B, C>(
      GA: Group<A>, GB: Group<B>, GC: Group<C>, e: (A, B) -> C, a: A, a': A, b: B, b': B) {
    && e(GA.add(a, a'), b) == GC.add(e(a, b), e(a', b))
    && e(a, GB.add(b, b')) == GC.add(e(a, b), e(a, b'))
  }

  ghost predicate Bilinear<A(!new), B(!new), C>(GA: Group<A>, GB: Group<B>, GC: Group<C>, e: (A, B) -> C) {
    forall a, a', b, b' :: BilinearAt(GA, GB, GC, e, a, a', b, b')
  }

  lemma BilinearZero<A(!new), B(!new), C(!new)>(GA: Group<A>, GB: Group<B>, GC: Group<C>, e: (A, B) -> C, a: A, b: B)
    requires Abelian(GA) && Abelian(GB) && Abelian(GC) && Bilinear(GA, GB, GC, e)
    ensures e(GA.zero, b) == GC.zero && e(a, GB.zero) == GC.zero
  {
    assert BilinearAt(GA, GB, GC, e, GA.zero, GA.zero, b, b);
    assert BilinearAt(GA, GB, GC, e, a, a, GB.zero, GB.zero);
    ZeroLeft(GA, GA.zero);
    ZeroLeft(GB, GB.zero);
    ZeroLeft(GC, e(GA.zero, b));
    ZeroLeft(GC, e(a, GB.zero));
    CancelLeft(GC, e(GA.zero, b), e(GA.zero, b), GC.zero);
    CancelLeft(GC, e(a, GB.zero), e(a, GB.zero), GC.zero);
  }

  lemma {:induction false} BilinearTimes<A(!new), B(!new), C(!new)>(
      GA: Group<A>, GB: Group<B>, GC: Group<C>, e: (A, B) -> C, n: nat, a: A, b: B)
    requires Abelian(GA) && Abelian(GB) && Abelian(GC) && Bilinear(GA, GB, GC, e)
    ensures e(Times(GA, n, a), b) == Times(GC, n, e(a, b))
    ensures e(a, Times(GB, n, b)) == Times(GC, n, e(a, b))
  {
    if n == 0 {
      BilinearZero(GA, GB, GC, e, a, b);
    } else {
      BilinearTimes(GA, GB, GC, e, n - 1, a, b);
      assert BilinearAt(GA, GB, GC, e, a, Times(GA, n - 1, a), b, Times(GB, n - 1, b));
    }
  }
}
