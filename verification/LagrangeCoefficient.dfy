// The Lagrange coefficient at zero of crypto/bls_thresholdsign_core.c: signed
// differences tracked apart from their absolute values, factors multiplied in
// batches of 32, one modular inverse per batch.
module LagrangeCoefficient {
  import opened ModArith
  import opened Bytes
  import opened Polynomials
  import opened Lagrange

  /** MAX_IND_LOOPS */
  const LOOPS := 32

  /** Participant b sits at point b + 1. */
  function Node(b: byte): (z: nat)
    ensures 0 < z <= 256
  {
    b as int + 1
  }

  function Gap(a: byte, i: byte): int {
    a as int - i as int
  }

  /** The product of s[j] + 1 over the signers other than i in a range. */
  function Numerators(s: seq<byte>, i: byte, from: nat, to: nat): (n: nat)
    requires from <= to <= |s|
    ensures n > 0
  {
    if from == to then 1 else
      var n := Numerators(s, i, from, to - 1);
      if s[to - 1] == i then n else Positive(n, Node(s[to - 1])); n * Node(s[to - 1])
  }

  /** The product of s[j] - i over the signers other than i in a range. */
  function Differences(s: seq<byte>, i: byte, from: nat, to: nat): int
    requires from <= to <= |s|
  {
    if from == to then 1 else
      var d := Differences(s, i, from, to - 1);
      if s[to - 1] == i then d else d * Gap(s[to - 1], i)
  }

  /** The product of the absolute differences. */
  function Distances(s: seq<byte>, i: byte, from: nat, to: nat): (n: nat)
    requires from <= to <= |s|
    ensures n > 0
  {
    if from == to then 1 else
      var n := Distances(s, i, from, to - 1);
      if s[to - 1] == i then n else Positive(n, Abs(Gap(s[to - 1], i))); n * Abs(Gap(s[to - 1], i))
  }

  function Abs(x: int): nat {
    if x < 0 then -x else x
  }

  lemma Positive(x: nat, y: nat)
    requires x > 0 && y > 0
    ensures x * y > 0
  {
  }

  /** The sign flag: true for plus. */
  function Sign(sign: bool): int {
    if sign then 1 else -1
  }

  lemma {:induction false} NumeratorsAppend(s: seq<byte>, i: byte, k: nat, j: nat)
    requires k <= j <= |s|
    ensures Numerators(s, i, 0, j) == Numerators(s, i, 0, k) * Numerators(s, i, k, j)
  {
    if k < j {
      NumeratorsAppend(s, i, k, j - 1);
      Associate(Numerators(s, i, 0, k), Numerators(s, i, k, j - 1), Node(s[j - 1]));
    }
  }

  lemma {:induction false} DifferencesAppend(s: seq<byte>, i: byte, k: nat, j: nat)
    requires k <= j <= |s|
    ensures Differences(s, i, 0, j) == Differences(s, i, 0, k) * Differences(s, i, k, j)
  {
    if k < j {
      DifferencesAppend(s, i, k, j - 1);
      Associate(Differences(s, i, 0, k), Differences(s, i, k, j - 1), Gap(s[j - 1], i));
    }
  }

  lemma {:induction false} NumeratorsNonzero(s: seq<byte>, i: byte, from: nat, to: nat, r: int)
    requires from <= to <= |s| && IsPrime(r) && r > 256
    ensures Numerators(s, i, from, to) % r != 0
  {
    if from < to {
      NumeratorsNonzero(s, i, from, to - 1, r);
      CongSmall(Node(s[to - 1]), r);
      ProductNotZero(Numerators(s, i, from, to - 1), Node(s[to - 1]), r);
    } else {
      CongSmall(1, r);
    }
  }

  lemma {:induction false} DifferencesNonzero(s: seq<byte>, i: byte, from: nat, to: nat, r: int)
    requires from <= to <= |s| && IsPrime(r) && r > 256
    ensures Differences(s, i, from, to) % r != 0
  {
    if from < to {
      DifferencesNonzero(s, i, from, to - 1, r);
      if s[to - 1] != i {
        DiffNonzero(Node(i), Node(s[to - 1]), r);
        ProductNotZero(Differences(s, i, from, to - 1), Gap(s[to - 1], i), r);
      }
    } else {
      CongSmall(1, r);
    }
  }

  lemma {:induction false} DistancesNonzero(s: seq<byte>, i: byte, from: nat, to: nat, r: int)
    requires from <= to <= |s| && IsPrime(r) && r > 256
    ensures Distances(s, i, from, to) % r != 0
  {
    if from < to {
      DistancesNonzero(s, i, from, to - 1, r);
      if s[to - 1] != i {
        CongSmall(Abs(Gap(s[to - 1], i)), r);
        ProductNotZero(Distances(s, i, from, to - 1), Abs(Gap(s[to - 1], i)), r);
      }
    } else {
      CongSmall(1, r);
    }
  }

  // ------------------------------------------------------- Width of a batch

  ghost predicate Distinct(s: seq<byte>) {
    forall j, k :: 0 <= j < k < |s| ==> s[j] != s[k]
  }

  /** m (m-1) ... (m-n+1) */
  function Falling(m: nat, n: nat): nat {
    if n == 0 then 1 else if m == 0 then 0 else m * Falling(m - 1, n - 1)
  }

  lemma {:induction false} FallingMonotone(m: nat, n: nat)
    ensures Falling(m, n) <= Falling(m + 1, n)
  {
    if n > 0 && m > 0 {
      FallingMonotone(m - 1, n - 1);
      Monotone(m, m + 1, Falling(m - 1, n - 1), Falling(m, n - 1));
    }
  }

  lemma Monotone(x: nat, x': nat, y: nat, y': nat)
    requires x <= x' && y <= y'
    ensures x * y <= x' * y'
  {
    assert x * y <= x' * y && x' * y <= x' * y';
  }

  /** At most n distinct factors of at most m have a product of at most m (m-1) ... (m-n+1). */
  lemma {:induction false} SetProductBound(Z: set<nat>, m: nat, n: nat)
    requires |Z| <= n <= m && forall b :: b in Z ==> 0 < b <= m
    ensures 0 < SetProduct(Z) <= Falling(m, n)
    decreases m
  {
    if n == 0 {
      assert Z == {};
    } else if m in Z {
      SetProductBound(Z - {m}, m - 1, n - 1);
      WithTopFactor(Z, m, n);
    } else if |Z| < n {
      SetProductBound(Z, m - 1, n - 1);
      SlackFactor(m, n);
    } else {
      BelowSize(Z, m);
      SetProductBound(Z, m - 1, n);
      FallingMonotone(m - 1, n);
    }
  }

  lemma TopFactor(m: nat, x: int, f: nat)
    requires 0 < x <= f && m > 0
    ensures 0 < m * x <= m * f
  {
    assert m * x <= m * f && x <= m * x;
  }

  lemma SlackFactor(m: nat, n: nat)
    requires 0 < n <= m
    ensures Falling(m - 1, n - 1) <= Falling(m, n)
  {
    Monotone(1, m, Falling(m - 1, n - 1), Falling(m - 1, n - 1));
  }

  lemma WithTopFactor(Z: set<nat>, m: nat, n: nat)
    requires m > 0 && n > 0 && m in Z && 0 < SetProduct(Z - {m}) <= Falling(m - 1, n - 1)
    ensures 0 < SetProduct(Z) <= Falling(m, n)
  {
    SetProductRemove(Z, m);
    TopFactor(m, SetProduct(Z - {m}), Falling(m - 1, n - 1));
  }

  lemma BelowSize(Z: set<nat>, m: nat)
    requires m > 0 && forall b :: b in Z ==> 0 < b < m
    ensures |Z| <= m - 1
  {
    SubsetSize(Z, Range(m));
  }

  /** The nodes s[j] + 1 of the signers other than i in a range. */
  ghost function NodeSet(s: seq<byte>, i: byte, from: nat, to: nat): (Z: set<nat>)
    requires from <= to <= |s|
    ensures |Z| <= to - from
  {
    if from == to then {} else
      var Z := NodeSet(s, i, from, to - 1);
      if s[to - 1] == i then Z else Z + {Node(s[to - 1])}
  }

  lemma SetProductAdd(Z: set<nat>, b: nat)
    requires b !in Z
    ensures SetProduct(Z + {b}) == b * SetProduct(Z)
  {
    SetProductRemove(Z + {b}, b);
    assert Z + {b} - {b} == Z;
  }

  lemma DiffProductAdd(Z: set<nat>, a: nat, b: nat, d: int)
    requires b !in Z && d == b - a
    ensures DiffProduct(Z + {b}, a) == DiffProduct(Z, a) * d
  {
    DiffProductRemove(Z + {b}, a, b);
    assert Z + {b} - {b} == Z;
  }

  lemma {:induction false} NodeSetHas(s: seq<byte>, i: byte, from: nat, to: nat, b: nat)
    requires from <= to <= |s|
    ensures b in NodeSet(s, i, from, to) <==> exists j :: from <= j < to && s[j] != i && b == Node(s[j])
  {
    if from < to {
      NodeSetHas(s, i, from, to - 1, b);
    }
  }

  /** Distinct signers have distinct nodes. */
  lemma NewNode(s: seq<byte>, i: byte, from: nat, to: nat)
    requires from < to <= |s| && Distinct(s)
    ensures Node(s[to - 1]) !in NodeSet(s, i, from, to - 1)
  {
    NodeSetHas(s, i, from, to - 1, Node(s[to - 1]));
  }

  lemma {:induction false} NumeratorsAsSet(s: seq<byte>, i: byte, from: nat, to: nat)
    requires from <= to <= |s| && Distinct(s)
    ensures Numerators(s, i, from, to) == SetProduct(NodeSet(s, i, from, to))
  {
    if from < to {
      NumeratorsAsSet(s, i, from, to - 1);
      if s[to - 1] != i {
        NewNode(s, i, from, to);
        SetProductAdd(NodeSet(s, i, from, to - 1), Node(s[to - 1]));
      }
    }
  }

  lemma {:induction false} DifferencesAsSet(s: seq<byte>, i: byte, from: nat, to: nat)
    requires from <= to <= |s| && Distinct(s)
    ensures Differences(s, i, from, to) == DiffProduct(NodeSet(s, i, from, to), Node(i))
  {
    if from < to {
      DifferencesAsSet(s, i, from, to - 1);
      if s[to - 1] != i {
        NewNode(s, i, from, to);
        DiffProductAdd(NodeSet(s, i, from, to - 1), Node(i), Node(s[to - 1]), Gap(s[to - 1], i));
      }
    }
  }

  /** A bound on |a - i| that is distinct for distinct a. */
  function Spread(a: byte, i: byte): (d: nat)
    ensures a != i ==> Abs(Gap(a, i)) <= d && 0 < d < 256
  {
    if a > i then a else i - a
  }

  ghost function SpreadSet(s: seq<byte>, i: byte, from: nat, to: nat): (Z: set<nat>)
    requires from <= to <= |s|
    ensures |Z| <= to - from
  {
    if from == to then {} else
      var Z := SpreadSet(s, i, from, to - 1);
      if s[to - 1] == i then Z else Z + {Spread(s[to - 1], i)}
  }

  lemma SpreadInjective(a: byte, b: byte, i: byte)
    requires a != b && a != i && b != i
    ensures Spread(a, i) != Spread(b, i)
  {
  }

  lemma {:induction false} SpreadSetHas(s: seq<byte>, i: byte, from: nat, to: nat, b: nat)
    requires from <= to <= |s|
    ensures b in SpreadSet(s, i, from, to) <==> exists j :: from <= j < to && s[j] != i && b == Spread(s[j], i)
  {
    if from < to {
      SpreadSetHas(s, i, from, to - 1, b);
    }
  }

  lemma NewSpread(s: seq<byte>, i: byte, from: nat, to: nat)
    requires from < to <= |s| && Distinct(s) && s[to - 1] != i
    ensures Spread(s[to - 1], i) !in SpreadSet(s, i, from, to - 1)
  {
    SpreadSetHas(s, i, from, to - 1, Spread(s[to - 1], i));
    forall j | from <= j < to - 1 && s[j] != i
      ensures Spread(s[j], i) != Spread(s[to - 1], i)
    {
      SpreadInjective(s[j], s[to - 1], i);
    }
  }

  lemma {:induction false} DistancesBelowSpread(s: seq<byte>, i: byte, from: nat, to: nat)
    requires from <= to <= |s| && Distinct(s)
    ensures Distances(s, i, from, to) <= SetProduct(SpreadSet(s, i, from, to))
  {
    if from < to {
      DistancesBelowSpread(s, i, from, to - 1);
      if s[to - 1] != i {
        NewSpread(s, i, from, to);
        SetProductAdd(SpreadSet(s, i, from, to - 1), Spread(s[to - 1], i));
        Monotone(Abs(Gap(s[to - 1], i)), Spread(s[to - 1], i), Distances(s, i, from, to - 1),
          SetProduct(SpreadSet(s, i, from, to - 1)));
      }
    }
  }

  lemma ThirtyTwoFactors()
    ensures Falling(256, 32) < TWO_254
  {
    assert Falling(226, 2) == 50850;
    assert Falling(228, 4) == 2631792600;
    assert Falling(230, 6) == 138616516242000;
    assert Falling(232, 8) == 7428736338441264000;
    assert Falling(234, 10) == 405029562644494595808000;
    assert Falling(236, 12) == 22462939544263670283511680000;
    assert Falling(238, 14) == 1267044567933736586011759822080000;
    assert Falling(240, 16) == 72677676416679130573634543394508800000;
    assert Falling(242, 18) == 4238707443973560253315513839854542233600000;
    assert Falling(244, 20) == 251321441768080334539583446592655518114611200000;
    assert Falling(246, 22) == 15147143295362201762700694326139348076767617024000000;
    assert Falling(248, 24) == 927853409700707031175993731641991905790477148422144000000;
    assert Falling(250, 26) == 57758874753869012690705609794713996135457202489278464000000000;
    assert Falling(252, 28) == 3653364345931722790712511230735249683559938971851841404928000000000;
    assert Falling(254, 30) == 234772499598264369976767396709508615164928798209143032363483136000000000;
    assert Falling(256, 32) == 15325948773774698072083375657196722397966551947092857152688179118080000000000;
  }

  /** With distinct signers a batch stays below the group order. */
  lemma BatchFits(s: seq<byte>, i: byte, from: nat, to: nat)
    requires from <= to <= |s| && to - from <= LOOPS && Distinct(s)
    ensures Numerators(s, i, from, to) < TWO_254 && Distances(s, i, from, to) < TWO_254
  {
    ThirtyTwoFactors();
    NumeratorsAsSet(s, i, from, to);
    forall b | b in NodeSet(s, i, from, to)
      ensures 0 < b <= 256
    {
      NodeSetHas(s, i, from, to, b);
    }
    SetProductBound(NodeSet(s, i, from, to), 256, 32);
    DistancesBelowSpread(s, i, from, to);
    forall b | b in SpreadSet(s, i, from, to)
      ensures 0 < b <= 256
    {
      SpreadSetHas(s, i, from, to, b);
    }
    SetProductBound(SpreadSet(s, i, from, to), 256, 32);
  }

  // ------------------------------------------------------------- The loops

  /** The inner loop: one batch of at most 32 factors starting at k. */
  method Batch(i: byte, signers: seq<byte>, k: nat, sign: bool) returns (base: nat, numerator: nat, sign': bool, j: nat)
    requires k < |signers|
    ensures k < j <= |signers| && j <= k + LOOPS && (j < |signers| ==> j == k + LOOPS)
    ensures base == Distances(signers, i, k, j) && numerator == Numerators(signers, i, k, j)
    ensures Sign(sign') * base == Sign(sign) * Differences(signers, i, k, j)
    ensures Distinct(signers) ==> base < TWO_254 && numerator < TWO_254
  {
    base, numerator, sign', j := 1, 1, sign, k;
    while j < |signers| && j < k + LOOPS
      invariant k <= j <= |signers| && j <= k + LOOPS
      invariant base == Distances(signers, i, k, j) && numerator == Numerators(signers, i, k, j)
      invariant Sign(sign') * base == Sign(sign) * Differences(signers, i, k, j)
    {
      if signers[j] != i {
        SignStep(sign', base, Sign(sign), Differences(signers, i, k, j), Gap(signers[j], i));
        if signers[j] < i {
          sign' := !sign';
        }
        base := base * Abs(Gap(signers[j], i));
        numerator := numerator * Node(signers[j]);
      }
      j := j + 1;
    }
    if Distinct(signers) {
      BatchFits(signers, i, k, j);
    }
  }

  lemma SignStep(sign: bool, base: nat, sg: int, d: int, x: int)
    requires Sign(sign) * base == sg * d
    ensures Sign(if x < 0 then !sign else sign) * (base * Abs(x)) == sg * (d * x)
  {
    assert Sign(if x < 0 then !sign else sign) * Abs(x) == Sign(sign) * x;
    assert Sign(if x < 0 then !sign else sign) * (base * Abs(x)) == (Sign(sign) * base) * x;
    assert sg * (d * x) == (sg * d) * x;
  }

  /** sg acc D = N modulo r, for the signers handled so far. */
  ghost predicate Accumulates(sign: bool, acc: int, D: int, N: int, r: int)
    requires r > 0
  {
    Cong(Sign(sign) * (acc * D), N, r)
  }

  /** Zr_lagrangeCoefficientAtZero */
  method LagrangeCoefficientAtZero(i: byte, signers: seq<byte>, r: int) returns (res: nat)
    requires IsPrime(r) && TWO_254 < r
    ensures Cong(res * Differences(signers, i, 0, |signers|), Numerators(signers, i, 0, |signers|), r)
    ensures 1 <= res <= r - 1
  {
    var acc, sign, j := 1, true, 0;
    while j < |signers|
      invariant 0 <= j <= |signers| && 0 < acc < r
      invariant Accumulates(sign, acc, Differences(signers, i, 0, j), Numerators(signers, i, 0, j), r)
    {
      var k := j;
      var base, numerator, sign' := 1, 1, sign;
      base, numerator, sign', j := Batch(i, signers, k, sign);
      assert Distinct(signers) ==> base < r && numerator < r;
      var inv := Inverse(base, r);
      acc := MultiplyBatch(i, signers, k, j, sign, sign', acc, base, inv, numerator, r);
      sign := sign';
    }
    res := if sign then acc else r - acc;
    FinalSign(sign, acc, Differences(signers, i, 0, j), Numerators(signers, i, 0, j), r);
  }

  /** The accumulator update after a batch, with its reduction. */
  method MultiplyBatch(
      ghost i: byte, ghost s: seq<byte>, ghost k: nat, ghost j: nat, ghost sign: bool, ghost sign': bool,
      acc: nat, ghost base: nat, inv: nat, numerator: nat, r: int)
      returns (acc': nat)
    requires IsPrime(r) && TWO_254 < r && 0 < acc < r && k < j <= |s|
    requires base == Distances(s, i, k, j) && numerator == Numerators(s, i, k, j) && inv == Inverse(base, r)
    requires Sign(sign') * base == Sign(sign) * Differences(s, i, k, j)
    requires Accumulates(sign, acc, Differences(s, i, 0, k), Numerators(s, i, 0, k), r)
    ensures 0 < acc' < r && Accumulates(sign', acc', Differences(s, i, 0, j), Numerators(s, i, 0, j), r)
  {
    acc' := ((acc * inv) * numerator) % r;
    NumeratorsAppend(s, i, k, j);
    DifferencesAppend(s, i, k, j);
    DistancesNonzero(s, i, k, j, r);
    NumeratorsNonzero(s, i, k, j, r);
    InverseCorrect(base, r);
    CongMod((acc * inv) * numerator, r);
    StillNonzero(acc, base, inv, numerator, r);
    BatchScalars(sign, sign', acc, acc', Differences(s, i, 0, k), Numerators(s, i, 0, k),
                 base, inv, Differences(s, i, k, j), numerator, r);
  }

  lemma StillNonzero(acc: nat, base: nat, inv: nat, numerator: nat, r: int)
    requires IsPrime(r) && 0 < acc < r && numerator % r != 0 && Cong(base * inv, 1, r)
    ensures ((acc * inv) * numerator) % r != 0
  {
    CongSmall(acc, r);
    CongSmall(1, r);
    if inv % r == 0 {
      CongSmall(0, r);
      CongMul(base, base, inv, 0, r);
      assert false;
    }
    ProductNotZero(acc, inv, r);
    ProductNotZero(acc * inv, numerator, r);
  }

  lemma BatchScalars(
      sign: bool, sign': bool, acc: int, acc': int, D: int, N: int, base: int, inv: int, d: int, n: int, r: int)
    requires r > 0 && Accumulates(sign, acc, D, N, r) && Sign(sign') * base == Sign(sign) * d
    requires Cong(base * inv, 1, r) && Cong(acc', (acc * inv) * n, r)
    ensures Accumulates(sign', acc', D * d, N * n, r)
  {
    var sg, sg' := Sign(sign), Sign(sign');
    CongMul(acc', (acc * inv) * n, D * d, D * d, r);
    CongMul(sg', sg', acc' * (D * d), ((acc * inv) * n) * (D * d), r);
    SignedProduct(sg, sg', acc, inv, n, D, d, base);
    CongMul(sg * (acc * D), N, n, n, r);
    CongMul((sg * (acc * D)) * n, N * n, base * inv, 1, r);
  }

  lemma SignedProduct(sg: int, sg': int, acc: int, inv: int, n: int, D: int, d: int, base: int)
    requires (sg == 1 || sg == -1) && (sg' == 1 || sg' == -1) && sg' * base == sg * d
    ensures sg' * (((acc * inv) * n) * (D * d)) == ((sg * (acc * D)) * n) * (base * inv)
  {
    if sg == sg' {
      assert d == base;
    } else {
      assert d == -base && sg' == -sg;
    }
    assert ((acc * inv) * n) * (D * base) == ((acc * D) * n) * (base * inv) by {
      Interchange(acc * inv, n, D, base);
      Interchange(acc, inv, D, n * base);
    }
  }

  lemma FinalSign(sign: bool, acc: int, D: int, N: int, r: int)
    requires r > 0 && Accumulates(sign, acc, D, N, r)
    ensures Cong((if sign then acc else r - acc) * D, N, r)
  {
    if !sign {
      assert (r - acc) * D == Sign(sign) * (acc * D) + D * r;
      CongByWitness((r - acc) * D, Sign(sign) * (acc * D), r, D);
    }
  }
}
