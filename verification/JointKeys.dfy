// The algebra of Joint Feldman (crypto/dkg_jointfeldman.go): the keys that participants
// sum up over the qualified dealers lie on one polynomial.
module JointKeys {
  import opened ModArith
  import opened Groups
  import opened Polynomials

  /** The key triple that End returns. */
  datatype JointOutput<!T> = JointOutput(sk: nat, group: T, keys: seq<T>)

  ghost predicate Lengths<T>(vs: seq<seq<T>>, n: nat) {
    forall d :: 0 <= d < |vs| ==> |vs[d]| == n
  }

  /** The vectors commit to polynomials of n coefficients. */
  ghost predicate Commits<T>(S: Suite<T>, vs: seq<seq<T>>, ps: seq<seq<nat>>, n: nat) {
    |vs| == |ps| && Lengths(ps, n) && forall d :: 0 <= d < |ps| ==> vs[d] == Commit(S, ps[d])
  }

  /** First entries of the vectors. */
  function FirstOf<T>(vs: seq<seq<T>>): seq<T>
    requires forall d :: 0 <= d < |vs| ==> |vs[d]| > 0
  {
    seq(|vs|, (d: nat) requires d < |vs| => vs[d][0])
  }

  /** The public keys of participant j under each vector. */
  function KeysAt<T>(G: Group<T>, vs: seq<seq<T>>, j: nat): seq<T> {
    seq(|vs|, (d: nat) requires d < |vs| => EvalPoint(G, vs[d], j + 1))
  }

  /**
   What a participant ends with: vs are the vectors of the qualified dealers, xs its shares
   from them, sk its joint private share, group and keys the joint public keys.
   */
  ghost predicate JointResult<T>(
      S: Suite<T>, t: nat, n: nat, vs: seq<seq<T>>, xs: seq<nat>, my: nat, out: JointOutput<T>)
    requires S.r > 0
  {
    && |xs| == |vs| && my < n && |out.keys| == n
    && Lengths(vs, t + 1)
    && (forall d :: 0 <= d < |vs| ==> xs[d] < S.r && Times(S.G, xs[d], S.g) == EvalPoint(S.G, vs[d], my + 1))
    && IsLazySum(out.sk, xs, S.r)
    && out.group == Sum(S.G, FirstOf(vs))
    && (forall j :: 0 <= j < n ==> out.keys[j] == Sum(S.G, KeysAt(S.G, vs, j)))
  }

  function ZeroVector<T>(G: Group<T>, n: nat): (A: seq<T>)
    ensures |A| == n
  {
    if n == 0 then [] else [G.zero] + ZeroVector(G, n - 1)
  }

  /** The joint verification vector: coefficient-wise sum. */
  function JointVector<T>(G: Group<T>, n: nat, vs: seq<seq<T>>): (A: seq<T>)
    requires Lengths(vs, n)
    ensures |A| == n
  {
    if vs == [] then ZeroVector(G, n) else AddVectors(G, vs[0], JointVector(G, n, vs[1..]))
  }

  function ZeroPoly(n: nat): (a: seq<nat>)
    ensures |a| == n && forall k :: 0 <= k < n ==> a[k] == 0
  {
    seq(n, _ => 0)
  }

  /** The joint polynomial: coefficient-wise sum modulo r. */
  function JointPoly(r: nat, n: nat, ps: seq<seq<nat>>): (a: seq<nat>)
    requires r > 0 && Lengths(ps, n)
    ensures |a| == n && forall k :: 0 <= k < n ==> a[k] < r
  {
    if ps == [] then ZeroPoly(n) else AddPolys(ps[0], JointPoly(r, n, ps[1..]), r)
  }

  lemma {:induction false} EvalZeroVector<T(!new)>(G: Group<T>, n: nat, x: nat)
    requires Abelian(G)
    ensures EvalPoint(G, ZeroVector(G, n), x) == G.zero
  {
    if n > 0 {
      EvalZeroVector(G, n - 1, x);
      assert ZeroVector(G, n)[1..] == ZeroVector(G, n - 1);
      TimesZero(G, x);
      ZeroLeft(G, G.zero);
    }
  }

  lemma {:induction false} CommitZeroPoly<T(!new)>(S: Suite<T>, n: nat)
    ensures Commit(S, ZeroPoly(n)) == ZeroVector(S.G, n)
  {
    if n > 0 {
      CommitZeroPoly(S, n - 1);
      assert ZeroPoly(n)[1..] == ZeroPoly(n - 1);
    }
  }

  /** The joint vector evaluates to the sum of the evaluations. */
  lemma {:induction false} EvalJoint<T(!new)>(G: Group<T>, n: nat, vs: seq<seq<T>>, j: nat)
    requires Abelian(G) && Lengths(vs, n)
    ensures EvalPoint(G, JointVector(G, n, vs), j + 1) == Sum(G, KeysAt(G, vs, j))
  {
    if vs == [] {
      EvalZeroVector(G, n, j + 1);
    } else {
      EvalJoint(G, n, vs[1..], j);
      EvalPointAdd(G, vs[0], JointVector(G, n, vs[1..]), j + 1);
      assert KeysAt(G, vs, j)[1..] == KeysAt(G, vs[1..], j);
    }
  }

  lemma {:induction false} FirstOfJoint<T(!new)>(G: Group<T>, n: nat, vs: seq<seq<T>>)
    requires Abelian(G) && n > 0 && Lengths(vs, n)
    ensures JointVector(G, n, vs)[0] == Sum(G, FirstOf(vs))
  {
    if vs != [] {
      FirstOfJoint(G, n, vs[1..]);
      assert FirstOf(vs)[1..] == FirstOf(vs[1..]);
    }
  }

  lemma {:induction false} CommitJoint<T(!new)>(S: Suite<T>, n: nat, vs: seq<seq<T>>, ps: seq<seq<nat>>)
    requires ValidSuite(S) && Commits(S, vs, ps, n)
    ensures Lengths(vs, n) && JointVector(S.G, n, vs) == Commit(S, JointPoly(S.r, n, ps))
  {
    if ps == [] {
      CommitZeroPoly(S, n);
    } else {
      CommitJoint(S, n, vs[1..], ps[1..]);
      CommitAdd(S, ps[0], JointPoly(S.r, n, ps[1..]));
    }
  }

  /** Adding shares adds their points. */
  lemma {:induction false} SumShares<T(!new)>(S: Suite<T>, vs: seq<seq<T>>, xs: seq<nat>, my: nat)
    requires ValidSuite(S) && |xs| == |vs|
    requires forall d :: 0 <= d < |vs| ==> Times(S.G, xs[d], S.g) == EvalPoint(S.G, vs[d], my + 1)
    ensures Times(S.G, SumScalars(xs), S.g) == Sum(S.G, KeysAt(S.G, vs, my))
  {
    if vs != [] {
      var n := |vs| - 1;
      SumShares(S, vs[..n], xs[..n], my);
      TimesAdd(S.G, SumScalars(xs[..n]), xs[n], S.g);
      var keys, init := KeysAt(S.G, vs, my), KeysAt(S.G, vs[..n], my);
      assert keys == init + [keys[n]];
      SumSnoc(S.G, init, keys[n]);
    }
  }

  /** The joint keys of participant `my` are evaluations of the vector A. */
  ghost predicate OnPoints<T>(S: Suite<T>, A: seq<T>, n: nat, my: nat, out: JointOutput<T>) {
    && A != [] && my < n
    && out.group == A[0]
    && ArePublicKeys(S.G, A, out.keys, n)
    && Times(S.G, out.sk, S.g) == out.keys[my]
  }

  /** Whatever points the dealers committed to, the joint keys are evaluations of the joint vector. */
  lemma JointKeysOnVector<T(!new)>(
      S: Suite<T>, t: nat, n: nat, vs: seq<seq<T>>, xs: seq<nat>, my: nat, out: JointOutput<T>)
    requires ValidSuite(S) && JointResult(S, t, n, vs, xs, my, out)
    ensures OnPoints(S, JointVector(S.G, t + 1, vs), n, my, out)
  {
    FirstOfJoint(S.G, t + 1, vs);
    forall j | 0 <= j < n
      ensures out.keys[j] == EvalPoint(S.G, JointVector(S.G, t + 1, vs), j + 1)
    {
      EvalJoint(S.G, t + 1, vs, j);
    }
    SumShares(S, vs, xs, my);
    TimesCong(S.G, out.sk, SumScalars(xs), S.g, S.r);
  }

  /** The joint keys of participant `my` lie on the polynomial p. */
  ghost predicate OnPolynomial<T>(S: Suite<T>, p: seq<nat>, n: nat, my: nat, out: JointOutput<T>)
    requires S.r > 0
  {
    && |p| > 0 && my < n && |out.keys| == n
    && Cong(out.sk, Eval(p, my + 1), S.r)
    && out.group == Times(S.G, Eval(p, 0), S.g)
    && (forall j :: 0 <= j < n ==> out.keys[j] == Times(S.G, Eval(p, j + 1), S.g))
  }

  /** On the commitment to a polynomial, both say the same. */
  lemma OnCommitment<T(!new)>(S: Suite<T>, p: seq<nat>, n: nat, my: nat, out: JointOutput<T>)
    requires ValidSuite(S) && OnPoints(S, Commit(S, p), n, my, out)
    ensures OnPolynomial(S, p, n, my, out)
  {
    CommitAt(S, p, 0);
    assert Eval(p, 0) == p[0];
    forall j | 0 <= j < n
      ensures out.keys[j] == Times(S.G, Eval(p, j + 1), S.g)
    {
      CommitEval(S, p, j + 1);
    }
    TimesInjective(S.G, out.sk, Eval(p, my + 1), S.g, S.r);
  }

  /**
   Every participant with the vectors vs ends with keys on the joint vector; when the vectors commit
   to polynomials, these are the values of the one joint polynomial of degree at most t.
   */
  lemma JointKeysOnPolynomial<T(!new)>(
      S: Suite<T>, t: nat, n: nat, vs: seq<seq<T>>, ps: seq<seq<nat>>, xs: seq<nat>, my: nat, out: JointOutput<T>)
    requires ValidSuite(S) && JointResult(S, t, n, vs, xs, my, out)
    ensures OnPoints(S, JointVector(S.G, t + 1, vs), n, my, out)
    ensures Commits(S, vs, ps, t + 1) ==> OnPolynomial(S, JointPoly(S.r, t + 1, ps), n, my, out)
  {
    JointKeysOnVector(S, t, n, vs, xs, my, out);
    if Commits(S, vs, ps, t + 1) {
      CommitJoint(S, t + 1, vs, ps);
      OnCommitment(S, JointPoly(S.r, t + 1, ps), n, my, out);
    }
  }
}
