// Polynomial evaluation in Zr and in the exponent (crypto/dkg_core.c), and the
// vector sums of crypto/bls12381_utils.c.
module Polynomials {
  import opened ModArith
  import opened Groups
  import opened Bytes

  /** 2^254, 2^255 and 2^264: r has Fr_BITS = 255 bits and accumulators have nine more. */
  const TWO_254: nat := 0x40000000_00000000_00000000_00000000_00000000_00000000_00000000_00000000
  const TWO_255: nat := 0x80000000_00000000_00000000_00000000_00000000_00000000_00000000_00000000
  const TWO_264: nat := 0x100_00000000_00000000_00000000_00000000_00000000_00000000_00000000_00000000
  const SCALAR_LEN := 32
  const POINT_LEN := 96

  /** The curve group with its generator g of order r, and the point serialization. */
  datatype Suite<!T(==)> = Suite(
    G: Group<T>, g: T, r: nat,
    decodePoint: seq<byte> -> Option<T>, encodePoint: T -> seq<byte>)

  ghost predicate EncodesAt<T>(S: Suite<T>, P: T) {
    |S.encodePoint(P)| == POINT_LEN && S.decodePoint(S.encodePoint(P)) == Some(P)
  }

  ghost predicate ValidSuite<T(!new)>(S: Suite<T>) {
    && Abelian(S.G)
    && PrimeOrder(S.G, S.g, S.r)
    && TWO_254 < S.r < TWO_255
    && (forall P :: EncodesAt(S, P))
  }

  /** P(x) for P = a[0] + a[1] x + ... + a[t] x^t, not reduced. */
  function Eval(a: seq<nat>, x: nat): nat {
    if a == [] then 0 else a[0] + x * Eval(a[1..], x)
  }

  /** Q(x) for Q = A[0] + x A[1] + ... + x^t A[t] in the group. */
  function EvalPoint<T>(G: Group<T>, A: seq<T>, x: nat): T {
    if A == [] then G.zero else G.add(A[0], Times(G, x, EvalPoint(G, A[1..], x)))
  }

  function Commit<T>(S: Suite<T>, a: seq<nat>): (A: seq<T>)
    ensures |A| == |a|
  {
    if a == [] then [] else [Times(S.G, a[0], S.g)] + Commit(S, a[1..])
  }

  lemma {:induction false} CommitAt<T>(S: Suite<T>, a: seq<nat>, k: nat)
    requires k < |a|
    ensures Commit(S, a)[k] == Times(S.G, a[k], S.g)
  {
    if k > 0 {
      CommitAt(S, a[1..], k - 1);
    }
  }

  /** Evaluating the commitments is committing to the evaluation. */
  lemma {:induction false} CommitEval<T(!new)>(S: Suite<T>, a: seq<nat>, x: nat)
    requires Abelian(S.G)
    ensures EvalPoint(S.G, Commit(S, a), x) == Times(S.G, Eval(a, x), S.g)
  {
    if a != [] {
      var v := Eval(a[1..], x);
      CommitEval(S, a[1..], x);
      assert Commit(S, a)[1..] == Commit(S, a[1..]);
      TimesTimes(S.G, x, v, S.g);
      TimesAdd(S.G, a[0], x * v, S.g);
    }
  }

  /** Width of the accumulator: a value below 2r times a one-byte point fits Fr_BITS + 9 bits. */
  lemma AccumulatorFits(acc: nat, x: nat, r: nat)
    requires r < TWO_255 && acc < 2 * r && x < 256
    ensures acc * x < TWO_264
  {
    assert acc * x <= acc * 255 by { assert acc * (255 - x) >= 0; }
  }

  /** Zr_polynomialImage: Horner's rule with a reduction per step; the point uses the unreduced value. */
  method PolynomialImage<T(!new)>(S: Suite<T>, a: seq<nat>, x: nat) returns (image: nat, y: T)
    requires ValidSuite(S) && x < 256
    requires forall k :: 0 <= k < |a| ==> a[k] < S.r
    ensures image == Eval(a, x) % S.r
    ensures y == Times(S.G, Eval(a, x), S.g)
  {
    var acc: nat := 0;
    var i := |a|;
    assert a[i..] == [];
    while i > 0
      invariant 0 <= i <= |a|
      invariant acc < 2 * S.r
      invariant Cong(acc, Eval(a[i..], x), S.r)
    {
      i := i - 1;
      AccumulatorFits(acc, x, S.r);
      assert acc * x < TWO_264;
      var red := (acc * x) % S.r;
      HornerStep(acc, red, a, i, x, S.r);
      acc := red + a[i];
    }
    assert a[0..] == a;
    image := acc % S.r;
    y := Times(S.G, acc, S.g);
    TimesCong(S.G, acc, Eval(a, x), S.g, S.r);
  }

  lemma HornerStep(acc: nat, red: nat, a: seq<nat>, i: nat, x: nat, r: nat)
    requires r > 0 && i < |a| && Cong(acc, Eval(a[i + 1..], x), r) && red == (acc * x) % r
    ensures Cong(red + a[i], Eval(a[i..], x), r)
  {
    var v := Eval(a[i + 1..], x);
    assert a[i..][1..] == a[i + 1..];
    CongMod(acc * x, r);
    CongMul(acc, v, x, x, r);
    assert v * x == x * v;
    CongAdd(red, x * v, a[i], a[i], r);
  }

  /** G2_polynomialImage: Horner's rule in the group. */
  method PointImage<T(!new)>(G: Group<T>, A: seq<T>, x: nat) returns (y: T)
    requires Abelian(G) && x < 256
    ensures y == EvalPoint(G, A, x)
  {
    y := G.zero;
    var i := |A|;
    while i > 0
      invariant 0 <= i <= |A|
      invariant y == EvalPoint(G, A[i..], x)
    {
      i := i - 1;
      assert A[i..][1..] == A[i + 1..];
      assert LawsAt(G, Times(G, x, y), A[i], A[i]);
      y := G.add(Times(G, x, y), A[i]);
    }
    assert A[0..] == A;
  }

  /** The public key of every participant: participant i sits at point i + 1. */
  ghost predicate ArePublicKeys<T>(G: Group<T>, A: seq<T>, y: seq<T>, n: nat) {
    |y| == n && forall i :: 0 <= i < n ==> y[i] == EvalPoint(G, A, i + 1)
  }

  lemma PublicKeysSnoc<T>(G: Group<T>, A: seq<T>, y: seq<T>, p: T, n: nat)
    requires ArePublicKeys(G, A, y, n) && p == EvalPoint(G, A, n + 1)
    ensures ArePublicKeys(G, A, y + [p], n + 1)
  {
  }

  /** G2_polynomialImages. */
  method PointImages<T(!new)>(G: Group<T>, A: seq<T>, n: nat) returns (y: seq<T>)
    requires Abelian(G) && n < 255
    ensures ArePublicKeys(G, A, y, n)
  {
    y := [];
    for i := 0 to n
      invariant ArePublicKeys(G, A, y, i)
    {
      var p := PointImage(G, A, i + 1);
      PublicKeysSnoc(G, A, y, p, i);
      y := y + [p];
    }
  }

  /** verifyshare: x g == y. */
  predicate VerifyShare<T>(S: Suite<T>, x: nat, y: T) {
    Times(S.G, x, S.g) == y
  }

  // -------------------------------------------------------- vector addition

  function AddVectors<T>(G: Group<T>, A: seq<T>, B: seq<T>): (C: seq<T>)
    requires |A| == |B|
    ensures |C| == |A|
  {
    if A == [] then [] else [G.add(A[0], B[0])] + AddVectors(G, A[1..], B[1..])
  }

  function AddPolys(a: seq<nat>, b: seq<nat>, r: nat): (c: seq<nat>)
    requires |a| == |b| && r > 0
    ensures |c| == |a| && forall k :: 0 <= k < |c| ==> c[k] < r
  {
    if a == [] then [] else [(a[0] + b[0]) % r] + AddPolys(a[1..], b[1..], r)
  }

  lemma {:induction false} EvalPointAdd<T(!new)>(G: Group<T>, A: seq<T>, B: seq<T>, x: nat)
    requires Abelian(G) && |A| == |B|
    ensures EvalPoint(G, AddVectors(G, A, B), x) == G.add(EvalPoint(G, A, x), EvalPoint(G, B, x))
  {
    if A == [] {
      ZeroLeft(G, G.zero);
    } else {
      var u, v := EvalPoint(G, A[1..], x), EvalPoint(G, B[1..], x);
      EvalPointAdd(G, A[1..], B[1..], x);
      assert AddVectors(G, A, B)[1..] == AddVectors(G, A[1..], B[1..]);
      TimesSum(G, x, u, v);
      Shuffle(G, A[0], B[0], Times(G, x, u), Times(G, x, v));
    }
  }

  lemma {:induction false} CommitAdd<T(!new)>(S: Suite<T>, a: seq<nat>, b: seq<nat>)
    requires ValidSuite(S) && |a| == |b|
    ensures Commit(S, AddPolys(a, b, S.r)) == AddVectors(S.G, Commit(S, a), Commit(S, b))
  {
    if a != [] {
      CommitAdd(S, a[1..], b[1..]);
      var c := AddPolys(a, b, S.r);
      assert c[1..] == AddPolys(a[1..], b[1..], S.r);
      assert Commit(S, a)[1..] == Commit(S, a[1..]) && Commit(S, b)[1..] == Commit(S, b[1..]);
      TimesAdd(S.G, a[0], b[0], S.g);
      TimesMod(S.G, a[0] + b[0], S.g, S.r);
    }
  }

  // ------------------------------------------------------------ vector sums

  function SumScalars(x: seq<nat>): nat {
    if x == [] then 0 else SumScalars(x[..|x| - 1]) + x[|x| - 1]
  }

  /**
   Representative of a sum of residues that the loop below computes: r stands for a zero sum that is
   not all zeros.
   */
  ghost predicate IsLazySum(acc: nat, x: seq<nat>, r: nat)
    requires r > 0
  {
    && Cong(acc, SumScalars(x), r)
    && acc <= r
    && (acc == 0 <==> SumScalars(x) == 0)
  }

  lemma LazyStep(acc: nat, x: seq<nat>, i: nat, r: nat)
    requires r > 0 && i < |x| && x[i] < r && IsLazySum(acc, x[..i], r)
    ensures IsLazySum(if acc + x[i] > r then acc + x[i] - r else acc + x[i], x[..i + 1], r)
  {
    assert x[..i + 1][..i] == x[..i];
    CongAdd(acc, SumScalars(x[..i]), x[i], x[i], r);
    CongByWitness(acc + x[i] - r, acc + x[i], r, -1);
  }

  /** The representative r of zero is produced exactly by a nonzero vector that sums to zero. */
  lemma LazyZero(acc: nat, x: seq<nat>, r: nat)
    requires r > 0 && IsLazySum(acc, x, r)
    ensures acc == r <==> SumScalars(x) % r == 0 && exists i :: 0 <= i < |x| && x[i] != 0
  {
    SumZero(x);
    MultipleIsZero(1, r);
    if acc < r {
      CongSmall(acc, r);
    }
  }

  /** bn_sum_vector: the reduction is skipped when the partial sum equals r. */
  method SumVector(x: seq<nat>, r: nat) returns (acc: nat)
    requires r > 0 && forall i :: 0 <= i < |x| ==> x[i] < r
    ensures IsLazySum(acc, x, r)
    ensures acc == r <==> SumScalars(x) % r == 0 && exists i :: 0 <= i < |x| && x[i] != 0
  {
    acc := 0;
    for i := 0 to |x|
      invariant IsLazySum(acc, x[..i], r)
    {
      LazyStep(acc, x, i, r);
      acc := acc + x[i];
      if acc > r {
        acc := acc - r;
      }
    }
    assert x[..|x|] == x;
    LazyZero(acc, x, r);
  }

  lemma {:induction false} SumZero(x: seq<nat>)
    ensures SumScalars(x) == 0 <==> forall i :: 0 <= i < |x| ==> x[i] == 0
  {
    if x != [] {
      SumZero(x[..|x| - 1]);
    }
  }

  /** ep2_sum_vector, ep_sum_vector. */
  method SumPoints<T(!new)>(G: Group<T>, y: seq<T>) returns (acc: T)
    requires Abelian(G)
    ensures acc == Sum(G, y)
  {
    acc := G.zero;
    for i := 0 to |y|
      invariant acc == Sum(G, y[..i])
    {
      assert y[..i + 1] == y[..i] + [y[i]];
      SumSnoc(G, y[..i], y[i]);
      acc := G.add(acc, y[i]);
    }
    assert y[..|y|] == y;
  }

  /** ep2_subtract_vector: the difference with the sum of the vector. */
  method SubtractPoints<T(!new)>(G: Group<T>, x: T, y: seq<T>) returns (res: T)
    requires Abelian(G)
    ensures G.add(res, Sum(G, y)) == x
  {
    var sum := SumPoints(G, y);
    res := G.add(x, G.neg(sum));
    assert LawsAt(G, x, G.neg(sum), sum);
    assert LawsAt(G, sum, G.neg(sum), x);
    assert LawsAt(G, G.neg(sum), sum, x);
    ZeroLeft(G, x);
  }

  /** Removing keys undoes their aggregation. */
  lemma RemovalUndoesAggregation<T(!new)>(G: Group<T>, kept: seq<T>, removed: seq<T>, res: T)
    requires Abelian(G) && G.add(res, Sum(G, removed)) == Sum(G, kept + removed)
    ensures res == Sum(G, kept)
  {
    SumAppend(G, kept, removed);
    var sum := Sum(G, removed);
    assert LawsAt(G, res, sum, sum);
    assert LawsAt(G, Sum(G, kept), sum, sum);
    CancelLeft(G, sum, res, Sum(G, kept));
  }
}
