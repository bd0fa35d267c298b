// Threshold signature reconstruction: interpolation in E1 of the shares of any
// t + 1 distinct signers (crypto/bls_thresholdsign_core.c), the stateless
// reconstruction and the key generation of crypto/bls_thresholdsign.go.
module ThresholdSignatures {
  import opened ModArith
  import opened Groups
  import opened Bytes
  import opened Polynomials
  import opened Lagrange
  import opened LagrangeCoefficient
  import opened Bls

  /** ThresholdSignMinSize, ThresholdSignMaxSize and MinimumThreshold */
  const MIN_SIZE := 2
  const MAX_SIZE := 254
  const MIN_THRESHOLD := 1

  // ------------------------------------------------ Interpolation of points

  /** The nodes of the first n signers. */
  ghost function AllNodes(s: seq<byte>, n: nat): (Z: set<nat>)
    requires n <= |s|
  {
    if n == 0 then {} else AllNodes(s, n - 1) + {Node(s[n - 1])}
  }

  lemma {:induction false} AllNodesHas(s: seq<byte>, n: nat, b: nat)
    requires n <= |s|
    ensures b in AllNodes(s, n) <==> exists j :: 0 <= j < n && b == Node(s[j])
  {
    if n > 0 {
      AllNodesHas(s, n - 1, b);
    }
  }

  lemma {:induction false} AllNodesSize(s: seq<byte>, n: nat)
    requires n <= |s| && Distinct(s)
    ensures |AllNodes(s, n)| == n
  {
    if n > 0 {
      AllNodesSize(s, n - 1);
      AllNodesHas(s, n - 1, Node(s[n - 1]));
    }
  }

  lemma AreNodes(s: seq<byte>, r: int)
    requires r > 256
    ensures Nodes(AllNodes(s, |s|), r)
  {
    forall b | b in AllNodes(s, |s|)
      ensures 0 < b < r
    {
      AllNodesHas(s, |s|, b);
    }
  }

  /** The quotient that the loop computes for signer i: each signer other than i contributes, once per occurrence. */
  ghost function CoefOf(s: seq<byte>, i: byte, r: int): (c: nat)
    requires r >= 2
    ensures c < r
  {
    var c := Numerators(s, i, 0, |s|) * Inverse(Differences(s, i, 0, |s|), r);
    CongMod(c, r);
    c % r
  }

  lemma CoefOfCorrect(s: seq<byte>, i: byte, r: int)
    requires IsPrime(r) && r > 256
    ensures Cong(CoefOf(s, i, r) * Differences(s, i, 0, |s|), Numerators(s, i, 0, |s|), r)
    ensures Differences(s, i, 0, |s|) % r != 0
  {
    var N, D := Numerators(s, i, 0, |s|), Differences(s, i, 0, |s|);
    DifferencesNonzero(s, i, 0, |s|, r);
    InverseCorrect(D, r);
    CongMod(N * Inverse(D, r), r);
    CongMul(CoefOf(s, i, r), N * Inverse(D, r), D, D, r);
    CongMul(N, N, D * Inverse(D, r), 1, r);
    Rotate(N, Inverse(D, r), D);
  }

  /** The other nodes, as a range of signers and as a set difference. */
  lemma OtherNodes(s: seq<byte>, i: byte)
    ensures NodeSet(s, i, 0, |s|) == AllNodes(s, |s|) - {Node(i)}
  {
    forall b
      ensures b in NodeSet(s, i, 0, |s|) <==> b in AllNodes(s, |s|) - {Node(i)}
    {
      NodeSetHas(s, i, 0, |s|, b);
      AllNodesHas(s, |s|, b);
    }
  }

  /** What the batched loop returns, for any signers: the one solution below r of its congruence. */
  lemma LoopGivesCoef(res: nat, s: seq<byte>, i: byte, r: int)
    requires IsPrime(r) && r > 256 && res < r
    requires Cong(res * Differences(s, i, 0, |s|), Numerators(s, i, 0, |s|), r)
    ensures res == CoefOf(s, i, r)
  {
    CoefOfCorrect(s, i, r);
    SameQuotient(res, CoefOf(s, i, r), Differences(s, i, 0, |s|), r);
  }

  /** Among distinct signers it is the Lagrange coefficient. */
  lemma CoefIsLagrange(s: seq<byte>, i: byte, r: int)
    requires IsPrime(r) && r > 256 && Distinct(s)
    ensures CoefOf(s, i, r) == Coef(AllNodes(s, |s|), Node(i), r)
  {
    CoefOfCorrect(s, i, r);
    OtherNodes(s, i);
    DifferencesAsSet(s, i, 0, |s|);
    NumeratorsAsSet(s, i, 0, |s|);
    AreNodes(s, r);
    CoefUnique(CoefOf(s, i, r), AllNodes(s, |s|), Node(i), r);
  }

  /** The weighted sum of the first n points. */
  ghost function WeightedPoints<A>(G: Group<A>, s: seq<byte>, Q: seq<A>, n: nat, r: int): A
    requires n <= |s| && n <= |Q| && r >= 2
  {
    if n == 0 then G.zero else G.add(WeightedPoints(G, s, Q, n - 1, r), Times(G, CoefOf(s, s[n - 1], r), Q[n - 1]))
  }

  /** Later points do not matter. */
  lemma {:induction false} WeightedPrefix<A>(G: Group<A>, s: seq<byte>, Q: seq<A>, x: A, n: nat, r: int)
    requires n <= |s| && n <= |Q| && r >= 2
    ensures WeightedPoints(G, s, Q + [x], n, r) == WeightedPoints(G, s, Q, n, r)
  {
    if n > 0 {
      WeightedPrefix(G, s, Q, x, n - 1, r);
    }
  }

  /** The interpolation at zero of the points Q of the signers s. */
  ghost function InterpolatePoints<A>(G: Group<A>, s: seq<byte>, Q: seq<A>, r: int): A
    requires |s| == |Q| && r >= 2
  {
    WeightedPoints(G, s, Q, |s|, r)
  }

  /** The weighted sum of the first n polynomial values. */
  ghost function WeightedValues(s: seq<byte>, p: seq<nat>, n: nat, r: int): nat
    requires n <= |s| && r >= 2
  {
    if n == 0 then 0 else WeightedValues(s, p, n - 1, r) + Term(s, p, s[n - 1], r)
  }

  lemma ProductIsNat(x: nat, y: nat)
    ensures x * y >= 0
  {
  }

  /** The weighted value of one signer. */
  ghost function Term(s: seq<byte>, p: seq<nat>, i: byte, r: int): (v: nat)
    requires r >= 2
  {
    ProductIsNat(CoefOf(s, i, r), Eval(p, Node(i)));
    CoefOf(s, i, r) * Eval(p, Node(i))
  }

  /** The sum of f over the nodes of the first n signers. */
  ghost function NodeSum(f: nat -> int, s: seq<byte>, n: nat): int
    requires n <= |s|
  {
    if n == 0 then 0 else NodeSum(f, s, n - 1) + f(Node(s[n - 1]))
  }

  lemma {:induction false} NodeSumAsSet(f: nat -> int, s: seq<byte>, n: nat)
    requires n <= |s| && Distinct(s)
    ensures NodeSum(f, s, n) == SetSum(f, AllNodes(s, n))
  {
    if n > 0 {
      NodeSumAsSet(f, s, n - 1);
      AllNodesHas(s, n - 1, Node(s[n - 1]));
      SetSumAdd(f, AllNodes(s, n - 1), Node(s[n - 1]));
    }
  }

  lemma {:induction false} WeightedValuesAsSum(s: seq<byte>, p: seq<nat>, n: nat, r: int)
    requires n <= |s| && IsPrime(r) && r > 256 && Distinct(s)
    ensures WeightedValues(s, p, n, r) == NodeSum(Weighted(Values(p), AllNodes(s, |s|), r), s, n)
  {
    if n > 0 {
      WeightedValuesAsSum(s, p, n - 1, r);
      CoefIsLagrange(s, s[n - 1], r);
    }
  }

  lemma WeightedValuesAsSet(s: seq<byte>, p: seq<nat>, r: int)
    requires IsPrime(r) && r > 256 && Distinct(s)
    ensures WeightedValues(s, p, |s|, r) == Interpolated(Values(p), AllNodes(s, |s|), r)
  {
    WeightedValuesAsSum(s, p, |s|, r);
    NodeSumAsSet(Weighted(Values(p), AllNodes(s, |s|), r), s, |s|);
  }

  lemma SetSumAdd(f: nat -> int, Z: set<nat>, a: nat)
    requires a !in Z
    ensures SetSum(f, Z + {a}) == SetSum(f, Z) + f(a)
  {
    SetSumRemove(f, Z + {a}, a);
    assert Z + {a} - {a} == Z;
  }

  /** Q[i] is the share of signer i: P(s[i] + 1) H. */
  ghost predicate SharesOf<A>(G: Group<A>, s: seq<byte>, Q: seq<A>, p: seq<nat>, H: A) {
    |Q| == |s| && forall i :: 0 <= i < |s| ==> ShareOfSigner(G, s[i], Q[i], p, H)
  }

  ghost predicate ShareOfSigner<A>(G: Group<A>, i: byte, Q: A, p: seq<nat>, H: A) {
    Q == Times(G, Eval(p, Node(i)), H)
  }

  lemma {:induction false} WeightedShares<A(!new)>(
      G: Group<A>, s: seq<byte>, Q: seq<A>, p: seq<nat>, H: A, n: nat, r: int)
    requires Abelian(G) && n <= |s| && r >= 2 && SharesOf(G, s, Q, p, H)
    ensures WeightedPoints(G, s, Q, n, r) == Times(G, WeightedValues(s, p, n, r), H)
  {
    if n > 0 {
      WeightedShares(G, s, Q, p, H, n - 1, r);
      assert ShareOfSigner(G, s[n - 1], Q[n - 1], p, H);
      TimesTimes(G, CoefOf(s, s[n - 1], r), Eval(p, Node(s[n - 1])), H);
      TimesAdd(G, WeightedValues(s, p, n - 1, r), Term(s, p, s[n - 1], r), H);
    }
  }

  /** Reconstruction: the shares of any t + 1 distinct signers interpolate to P(0) H. */
  lemma ReconstructionExact<A(!new)>(G: Group<A>, s: seq<byte>, Q: seq<A>, p: seq<nat>, H: A, r: nat)
    requires Abelian(G) && IsPrime(r) && r > 256 && Times(G, r, H) == G.zero
    requires Distinct(s) && 0 < |p| <= |s| && SharesOf(G, s, Q, p, H)
    ensures InterpolatePoints(G, s, Q, r) == Times(G, p[0], H)
  {
    WeightedShares(G, s, Q, p, H, |s|, r);
    WeightedValuesAsSet(s, p, r);
    AreNodes(s, r);
    AllNodesSize(s, |s|);
    var Z := AllNodes(s, |s|);
    assert Z != {};
    InterpolationAtZero(p, Z, r);
    assert Eval(p, 0) == p[0];
    TimesCong(G, WeightedValues(s, p, |s|, r), p[0], H, r);
  }

  /** So every set of signers, in every order, gives the same signature. */
  lemma SameSignature<A(!new)>(
      G: Group<A>, s: seq<byte>, Q: seq<A>, s': seq<byte>, Q': seq<A>, p: seq<nat>, H: A, r: nat)
    requires Abelian(G) && IsPrime(r) && r > 256 && Times(G, r, H) == G.zero
    requires Distinct(s) && 0 < |p| <= |s| && SharesOf(G, s, Q, p, H)
    requires Distinct(s') && |p| <= |s'| && SharesOf(G, s', Q', p, H)
    ensures InterpolatePoints(G, s, Q, r) == InterpolatePoints(G, s', Q', r)
  {
    ReconstructionExact(G, s, Q, p, H, r);
    ReconstructionExact(G, s', Q', p, H, r);
  }

  // --------------------------------------------------- The C entry point

  /** The i-th 48-byte share of a flat buffer. */
  function ShareSlice(flat: seq<byte>, i: nat): (s: seq<byte>)
    requires (i + 1) * SIGNATURE_LEN <= |flat|
    ensures |s| == SIGNATURE_LEN
  {
    flat[i * SIGNATURE_LEN..(i + 1) * SIGNATURE_LEN]
  }

  /** Q are the points of the first |Q| shares of the buffer. */
  ghost predicate Decoded<A, B, C>(S: Scheme<A, B, C>, flat: seq<byte>, Q: seq<A>) {
    |Q| * SIGNATURE_LEN <= |flat| && forall i :: 0 <= i < |Q| ==> S.decode(ShareSlice(flat, i)) == Some(Q[i])
  }

  /** Some share among the first n is not the encoding of a point. */
  ghost predicate BadShare<A, B, C>(S: Scheme<A, B, C>, flat: seq<byte>, n: nat)
    requires n * SIGNATURE_LEN <= |flat|
  {
    exists i :: 0 <= i < n && S.decode(ShareSlice(flat, i)) == None
  }

  method CoefficientOf(signers: seq<byte>, i: byte, r: int) returns (coef: nat)
    requires IsPrime(r) && TWO_254 < r
    ensures coef == CoefOf(signers, i, r)
  {
    coef := LagrangeCoefficientAtZero(i, signers, r);
    LoopGivesCoef(coef, signers, i, r);
  }

  /** One step of the interpolation loop. */
  method AddShare<A(!new)>(G: Group<A>, signers: seq<byte>, i: nat, acc: A, share: A, r: int, ghost Q: seq<A>)
      returns (acc': A)
    requires IsPrime(r) && TWO_254 < r && |Q| == i < |signers| && acc == WeightedPoints(G, signers, Q, i, r)
    ensures acc' == WeightedPoints(G, signers, Q + [share], i + 1, r)
  {
    var coef := CoefficientOf(signers, signers[i], r);
    WeightedPrefix(G, signers, Q, share, i, r);
    acc' := G.add(acc, Times(G, coef, share));
  }

  lemma DecodedSnoc<A, B, C>(S: Scheme<A, B, C>, flat: seq<byte>, Q: seq<A>, P: A)
    requires Decoded(S, flat, Q) && (|Q| + 1) * SIGNATURE_LEN <= |flat| && S.decode(ShareSlice(flat, |Q|)) == Some(P)
    ensures Decoded(S, flat, Q + [P])
  {
  }

  /** G1_lagrangeInterpolateAtZero */
  method LagrangeInterpolateAtZero<A(!new), B(!new), C(!new)>(S: Scheme<A, B, C>, flat: seq<byte>, signers: seq<byte>)
      returns (dest: Option<seq<byte>>, ghost Q: seq<A>)
    requires ValidScheme(S) && |signers| * SIGNATURE_LEN <= |flat|
    ensures dest == None <==> BadShare(S, flat, |signers|)
    ensures dest.Some? ==> |Q| == |signers| && Decoded(S, flat, Q)
    ensures dest.Some? ==> dest.value == S.encode(InterpolatePoints(S.G1, signers, Q, S.S2.r))
  {
    var acc := S.G1.zero;
    Q := [];
    for i := 0 to |signers|
      invariant |Q| == i && Decoded(S, flat, Q)
      invariant acc == WeightedPoints(S.G1, signers, Q, i, S.S2.r)
    {
      var share := S.decode(ShareSlice(flat, i));
      if share == None {
        return None, Q;
      }
      DecodedSnoc(S, flat, Q, share.value);
      acc := AddShare(S.G1, signers, i, acc, share.value, S.S2.r, Q);
      Q := Q + [share.value];
    }
    dest := Some(S.encode(acc));
  }

  // ---------------------------------------------- Stateless reconstruction

  datatype Outcome = InvalidInputs | DuplicatedSigner | NotEnoughShares | InvalidSignature | Signed(sig: seq<byte>)

  lemma {:induction false} FlattenSlice(shares: seq<seq<byte>>, memory: seq<byte>, n: nat, i: nat)
    requires i < n <= |shares| && forall j :: 0 <= j < n ==> |shares[j]| == SIGNATURE_LEN
    ensures n * SIGNATURE_LEN <= |Flatten(shares)|
    ensures ShareSlice(Flatten(shares) + memory, i) == shares[i]
    decreases |shares|
  {
    var init, last := shares[..|shares| - 1], shares[|shares| - 1];
    if n < |shares| {
      FlattenSlice(init, last + memory, n, i);
      assert Flatten(init) + (last + memory) == Flatten(shares) + memory;
    } else if i < n - 1 {
      FlattenSlice(init, last + memory, n - 1, i);
      assert Flatten(init) + (last + memory) == Flatten(shares) + memory;
    } else {
      FlattenLength(init);
    }
  }

  lemma {:induction false} FlattenLength(shares: seq<seq<byte>>)
    requires forall j :: 0 <= j < |shares| ==> |shares[j]| == SIGNATURE_LEN
    ensures |Flatten(shares)| == |shares| * SIGNATURE_LEN
  {
    if shares != [] {
      FlattenLength(shares[..|shares| - 1]);
    }
  }

  ghost predicate GoodParameters(size: int, threshold: int, shares: nat, signers: nat) {
    && MIN_SIZE <= size <= MAX_SIZE
    && MIN_THRESHOLD <= threshold < size
    && threshold < shares == signers
  }

  /** The signers before i are valid and distinct. */
  ghost predicate GoodBefore(size: int, signers: seq<int>, i: nat) {
    && i <= |signers|
    && (forall j :: 0 <= j < i ==> 0 <= signers[j] < size)
    && (forall j, k :: 0 <= j < k < i ==> signers[j] != signers[k])
  }

  /** Signer i repeats an earlier one. */
  ghost predicate Repeated(signers: seq<int>, i: nat)
    requires i < |signers|
  {
    exists j :: 0 <= j < i && signers[j] == signers[i]
  }

  /** What the index checks say: None when all signers are valid and distinct. */
  ghost predicate IndexVerdict(size: int, signers: seq<int>, verdict: Option<Outcome>) {
    match verdict
    case None => GoodBefore(size, signers, |signers|)
    case Some(o) =>
      exists i :: 0 <= i < |signers| && GoodBefore(size, signers, i)
                  && (if 0 <= signers[i] < size then Repeated(signers, i) && o == DuplicatedSigner
                    else o == InvalidInputs)
  }

  /** The loop over the signers: the first index out of range or seen before decides. */
  method CheckSigners(size: int, signers: seq<int>) returns (verdict: Option<Outcome>, indices: seq<byte>)
    requires size <= MAX_SIZE
    ensures IndexVerdict(size, signers, verdict)
    ensures verdict == None ==>
      |indices| == |signers| && Distinct(indices) && forall j :: 0 <= j < |signers| ==> indices[j] == signers[j]
  {
    var seen: set<byte> := {};
    indices := [];
    for i := 0 to |signers|
      invariant |indices| == i && GoodBefore(size, signers, i)
      invariant forall j :: 0 <= j < i ==> indices[j] == signers[j]
      invariant forall b :: b in seen <==> b in indices
    {
      if signers[i] >= size || signers[i] < 0 {
        return Some(InvalidInputs), indices;
      }
      if signers[i] in seen {
        assert signers[i] in indices;
        return Some(DuplicatedSigner), indices;
      }
      seen := seen + {signers[i]};
      indices := indices + [signers[i]];
    }
    verdict := None;
  }

  /**
   BLSReconstructThresholdSignature. The C layer reads (threshold + 1) 48-byte slices of the
   concatenated shares; `memory` is what follows the buffer when shares are too short.
   */
  method ReconstructThresholdSignature<A(!new), B(!new), C(!new)>(
      S: Scheme<A, B, C>, size: int, threshold: int, shares: seq<seq<byte>>, signers: seq<int>, memory: seq<byte>)
      returns (out: Outcome, indices: seq<byte>, ghost Q: seq<A>)
    requires ValidScheme(S) && |memory| >= (threshold + 1) * SIGNATURE_LEN
    ensures !GoodParameters(size, threshold, |shares|, |signers|) ==> out == InvalidInputs
    ensures GoodParameters(size, threshold, |shares|, |signers|) ==>
      if out == InvalidInputs || out == DuplicatedSigner then IndexVerdict(size, signers, Some(out))
      else IndexVerdict(size, signers, None) && IsReconstruction(S, threshold, shares, signers, memory, out, indices, Q)
  {
    Q, indices := [], [];
    if size < MIN_SIZE || size > MAX_SIZE || threshold >= size || threshold < MIN_THRESHOLD {
      return InvalidInputs, indices, Q;
    }
    if |shares| != |signers| || |shares| < threshold + 1 {
      return InvalidInputs, indices, Q;
    }
    var verdict;
    verdict, indices := CheckSigners(size, signers);
    if verdict.Some? {
      return verdict.value, indices, Q;
    }
    var flat := Flatten(shares) + memory;
    indices := indices[..threshold + 1];
    var dest;
    dest, Q := LagrangeInterpolateAtZero(S, flat, indices);
    out := if dest == None then InvalidSignature else Signed(dest.value);
  }

  /** The signature interpolated from the first threshold + 1 shares, or a share that is no point. */
  ghost predicate IsReconstruction<A, B, C>(
      S: Scheme<A, B, C>, threshold: nat, shares: seq<seq<byte>>, signers: seq<int>,
      memory: seq<byte>, out: Outcome, indices: seq<byte>, Q: seq<A>)
    requires S.S2.r >= 2 && |memory| >= (threshold + 1) * SIGNATURE_LEN
  {
    && |indices| == threshold + 1 <= |signers| && Distinct(indices)
    && (forall j :: 0 <= j <= threshold ==> indices[j] == signers[j])
    && match out
       case InvalidSignature => BadShare(S, Flatten(shares) + memory, threshold + 1)
       case Signed(sig) =>
         && |Q| == threshold + 1 && Decoded(S, Flatten(shares) + memory, Q)
         && sig == S.encode(InterpolatePoints(S.G1, indices, Q, S.S2.r))
       case _ => false
  }

  /** The share of signer i: the encoding of P(i + 1) H. */
  ghost predicate HonestShare<A, B, C>(S: Scheme<A, B, C>, share: seq<byte>, i: byte, p: seq<nat>, H: A) {
    |share| == SIGNATURE_LEN && S.decode(share) == Some(Times(S.G1, Eval(p, Node(i)), H))
  }

  /** From honest shares the stateless reconstruction returns the encoding of P(0) H. */
  lemma HonestReconstruction<A(!new), B(!new), C(!new)>(
      S: Scheme<A, B, C>, threshold: nat, shares: seq<seq<byte>>, signers: seq<int>, memory: seq<byte>,
      out: Outcome, indices: seq<byte>, Q: seq<A>, p: seq<nat>, H: A)
    requires ValidScheme(S) && Member(S, H) && |p| == threshold + 1 <= |shares|
    requires |memory| >= (threshold + 1) * SIGNATURE_LEN
    requires IsReconstruction(S, threshold, shares, signers, memory, out, indices, Q)
    requires forall i :: 0 <= i <= threshold ==> HonestShare(S, shares[i], indices[i], p, H)
    ensures out == Signed(S.encode(SignatureOf(S, p[0], H)))
  {
    forall i | 0 <= i <= threshold
      ensures ShareSlice(Flatten(shares) + memory, i) == shares[i]
    {
      assert forall j :: 0 <= j <= threshold ==> HonestShare(S, shares[j], indices[j], p, H);
      FlattenSlice(shares, memory, threshold + 1, i);
    }
    forall i | 0 <= i <= threshold
      ensures S.decode(ShareSlice(Flatten(shares) + memory, i)) == Some(Times(S.G1, Eval(p, Node(indices[i])), H))
    {
      assert HonestShare(S, shares[i], indices[i], p, H);
    }
    assert SharesOf(S.G1, indices, Q, p, H);
    ReconstructionExact(S.G1, indices, Q, p, H, S.S2.r);
  }

  // ------------------------------------------------------- Key generation

  datatype KeyShares<!B> = KeyShares(secrets: seq<nat>, publics: seq<B>, group: B)

  /** The sampled polynomial: degree exactly t, nonzero constant term. */
  ghost predicate Sampled(a: seq<nat>, threshold: nat, r: nat) {
    && |a| == threshold + 1 && a[0] != 0 && a[threshold] != 0
    && forall k :: 0 <= k < |a| ==> a[k] < r
  }

  ghost predicate AreKeyShares<B>(S2: Suite<B>, a: seq<nat>, size: nat, keys: KeyShares<B>)
    requires S2.r > 0
  {
    && |keys.secrets| == |keys.publics| == size
    && (forall i :: 0 <= i < size ==>
          keys.secrets[i] == Eval(a, i + 1) % S2.r && keys.publics[i] == Times(S2.G, Eval(a, i + 1), S2.g))
    && (a != [] ==> keys.group == Times(S2.G, a[0], S2.g))
  }

  /** BLSThresholdKeyGen, with the sampled polynomial as a parameter. */
  method ThresholdKeyGen<B(!new)>(S2: Suite<B>, size: int, threshold: int, a: seq<nat>)
      returns (keys: Option<KeyShares<B>>)
    requires ValidSuite(S2) && (threshold >= 0 ==> Sampled(a, threshold, S2.r))
    ensures keys == None <==> size < MIN_SIZE || size > MAX_SIZE || threshold >= size || threshold < MIN_THRESHOLD
    ensures keys.Some? ==> AreKeyShares(S2, a, size, keys.value)
  {
    if size < MIN_SIZE || size > MAX_SIZE || threshold >= size || threshold < MIN_THRESHOLD {
      return None;
    }
    var xs: seq<nat>, ys: seq<B> := [], [];
    for i := 1 to size + 1
      invariant |xs| == |ys| == i - 1
      invariant forall k :: 0 <= k < i - 1 ==>
        xs[k] == Eval(a, k + 1) % S2.r && ys[k] == Times(S2.G, Eval(a, k + 1), S2.g)
    {
      var x, y := PolynomialImage(S2, a, i);
      xs, ys := xs + [x], ys + [y];
    }
    keys := Some(KeyShares(xs, ys, Times(S2.G, a[0], S2.g)));
  }

  /** End to end: shares signed with generated keys reconstruct to a signature the group key accepts. */
  lemma GeneratedKeysReconstruct<A(!new), B(!new), C(!new)>(
      S: Scheme<A, B, C>, a: seq<nat>, size: nat, threshold: nat, keys: KeyShares<B>, signers: seq<byte>, Q: seq<A>,
      H: A)
    requires ValidScheme(S) && Member(S, H) && Sampled(a, threshold, S.S2.r) && AreKeyShares(S.S2, a, size, keys)
    requires Distinct(signers) && |signers| == threshold + 1 == |Q|
    requires forall i :: 0 <= i < |signers| ==> signers[i] < size && Q[i] == SignatureOf(S, keys.secrets[signers[i]], H)
    ensures Verifies(S, keys.group, S.encode(InterpolatePoints(S.G1, signers, Q, S.S2.r)), H)
  {
    forall i | 0 <= i < |signers|
      ensures ShareOfSigner(S.G1, signers[i], Q[i], a, H)
    {
      var v := Eval(a, Node(signers[i]));
      assert keys.secrets[signers[i]] == v % S.S2.r;
      TimesMod(S.G1, v, H, S.S2.r);
    }
    ReconstructionExact(S.G1, signers, Q, a, H, S.S2.r);
    SchemeLaws(S, SignatureOf(S, a[0], H));
    CongSmall(a[0], S.S2.r);
    VerifiesExactly(S, a[0], S.encode(SignatureOf(S, a[0], H)), H);
  }

  /** Under the generated public key of a participant exactly the signature of its private key verifies. */
  lemma GeneratedKeysMatch<A(!new), B(!new), C(!new)>(
      S: Scheme<A, B, C>, a: seq<nat>, size: nat, keys: KeyShares<B>, i: nat, sig: seq<byte>, H: A)
    requires ValidScheme(S) && Member(S, H) && AreKeyShares(S.S2, a, size, keys) && i < size
    ensures Verifies(S, keys.publics[i], sig, H) <==>
      |sig| == SIGNATURE_LEN && keys.secrets[i] != 0 && S.decode(sig) == Some(SignatureOf(S, keys.secrets[i], H))
  {
    var v := Eval(a, i + 1);
    TimesMod(S.G1, v, H, S.S2.r);
    VerifiesExactly(S, v, sig, H);
  }
}
