// The stateful share pool of crypto/bls_thresholdsign.go: shares of distinct
// signers collected up to the threshold, a reconstruction and its cache. Every
// operation holds the lock, so an interleaving is a sequence of operations.
module SharePool {
  import opened ModArith
  import opened Groups
  import opened Bytes
  import opened Polynomials
  import opened LagrangeCoefficient
  import opened Bls
  import opened ThresholdSignatures

  datatype Params<!A(==), !B(==), !C(==)> = Params(
    S: Scheme<A, B, C>, size: nat, threshold: nat, H: A, groupKey: B, keys: seq<B>)

  ghost predicate ValidParams<A(!new), B(!new), C(!new)>(P: Params<A, B, C>) {
    && ValidScheme(P.S) && Member(P.S, P.H)
    && MIN_SIZE <= P.size <= MAX_SIZE && |P.keys| == P.size
    && MIN_THRESHOLD <= P.threshold < P.size
  }

  /** Collected shares by signer, and the cached threshold signature. */
  datatype Pool = Pool(shares: map<byte, seq<byte>>, cached: Option<seq<byte>>)

  datatype AddStatus = Added | InvalidIndex | Duplicate

  /** An operation; a reconstruction visits the map in some order, and `memory` follows the flat buffer. */
  datatype Op =
    | TrustedAdd(orig: int, share: seq<byte>)
    | VerifyAndAdd(orig: int, share: seq<byte>)
    | Sign(order: seq<byte>, memory: seq<byte>)

  function Empty(): Pool {
    Pool(map[], None)
  }

  predicate EnoughIn<A, B, C>(P: Params<A, B, C>, m: Pool) {
    |m.shares| == P.threshold + 1
  }

  predicate ValidIndex<A, B, C>(P: Params<A, B, C>, orig: int) {
    0 <= orig < P.size
  }

  /** The share is kept unless the signer is known or the pool is full. */
  function AddTo<A, B, C>(P: Params<A, B, C>, m: Pool, orig: int, share: seq<byte>): Pool
    requires ValidIndex(P, orig) && P.size <= MAX_SIZE
  {
    if orig in m.shares || EnoughIn(P, m) then m else m.(shares := m.shares[orig := share])
  }

  /** `order` lists the signers of the pool. */
  ghost predicate Enumerates(order: seq<byte>, m: Pool) {
    Distinct(order) && (forall i :: i in order <==> i in m.shares)
  }

  function SharesIn(order: seq<byte>, m: Pool): (s: seq<seq<byte>>)
    requires forall i :: i in order ==> i in m.shares
    ensures |s| == |order| && forall i :: 0 <= i < |order| ==> s[i] == m.shares[order[i]]
  {
    seq(|order|, (i: nat) requires i < |order| => m.shares[order[i]])
  }

  ghost function PointsOf<A, B, C>(S: Scheme<A, B, C>, flat: seq<byte>, n: nat): (Q: seq<A>)
    requires n * SIGNATURE_LEN <= |flat| && !BadShare(S, flat, n)
    ensures |Q| == n && Decoded(S, flat, Q)
  {
    seq(n, (i: nat) requires i < n => S.decode(ShareSlice(flat, i)).value)
  }

  lemma PointsUnique<A, B, C>(S: Scheme<A, B, C>, flat: seq<byte>, Q: seq<A>)
    requires Decoded(S, flat, Q)
    ensures !BadShare(S, flat, |Q|) && Q == PointsOf(S, flat, |Q|)
  {
  }

  /** reconstructThresholdSignature */
  ghost function Reconstructed<A, B, C>(P: Params<A, B, C>, m: Pool, order: seq<byte>, memory: seq<byte>): Outcome
    requires Enumerates(order, m) && P.S.S2.r >= 2 && |memory| >= |order| * SIGNATURE_LEN
  {
    if !EnoughIn(P, m) then NotEnoughShares else
      var flat := Flatten(SharesIn(order, m)) + memory;
      if BadShare(P.S, flat, |order|) then InvalidSignature else
        var sig := P.S.encode(InterpolatePoints(P.S.G1, order, PointsOf(P.S, flat, |order|), P.S.S2.r));
        if Verifies(P.S, P.groupKey, sig, P.H) then Signed(sig) else InvalidInputs
  }

  ghost function SignOutcome<A, B, C>(P: Params<A, B, C>, m: Pool, order: seq<byte>, memory: seq<byte>): Outcome
    requires Enumerates(order, m) && P.S.S2.r >= 2 && |memory| >= |order| * SIGNATURE_LEN
  {
    if m.cached.Some? then Signed(m.cached.value) else Reconstructed(P, m, order, memory)
  }

  ghost predicate Legal(m: Pool, op: Op) {
    op.Sign? ==> Enumerates(op.order, m) && |op.memory| >= |op.order| * SIGNATURE_LEN
  }

  ghost function Step<A, B, C>(P: Params<A, B, C>, m: Pool, op: Op): Pool
    requires P.S.S2.r >= 2 && P.size <= MAX_SIZE && Legal(m, op)
  {
    match op
    case TrustedAdd(orig, share) =>
      if ValidIndex(P, orig) then AddTo(P, m, orig, share) else m
    case VerifyAndAdd(orig, share) =>
      if ValidIndex(P, orig) && |P.keys| == P.size && Verifies(P.S, P.keys[orig], share, P.H)
      then AddTo(P, m, orig, share) else m
    case Sign(order, memory) =>
      var o := SignOutcome(P, m, order, memory);
      if o.Signed? then m.(cached := Some(o.sig)) else m
  }

  // -------------------------------------------------------------- The class

  class Inspector<A(!new, ==), B(!new, ==), C(!new, ==)> {
    const P: Params<A, B, C>
    var shares: map<byte, seq<byte>>
    var thresholdSignature: Option<seq<byte>>

    ghost function Model(): Pool
      reads this
    {
      Pool(shares, thresholdSignature)
    }

    ghost predicate Valid()
      reads this
    {
      ValidParams(P) && PoolInv(P, Model())
    }

    constructor (P: Params<A, B, C>)
      requires ValidParams(P)
      ensures this.P == P && Valid() && Model() == Empty()
    {
      this.P := P;
      shares, thresholdSignature := map[], None;
    }

    /** NewBLSThresholdSignatureInspector */
    static method New(S: Scheme<A, B, C>, groupKey: B, keys: seq<B>, threshold: int, H: A)
        returns (s: Inspector?<A, B, C>)
      requires ValidScheme(S) && Member(S, H)
      ensures s == null <==> |keys| < MIN_SIZE || |keys| > MAX_SIZE || threshold >= |keys| || threshold < MIN_THRESHOLD
      ensures s != null ==>
        fresh(s) && s.Valid() && s.Model() == Empty() && s.P == Params(S, |keys|, threshold, H, groupKey, keys)
    {
      if |keys| < MIN_SIZE || |keys| > MAX_SIZE || threshold >= |keys| || threshold < MIN_THRESHOLD {
        return null;
      }
      s := new Inspector(Params(S, |keys|, threshold, H, groupKey, keys));
    }

    method EnoughShares() returns (enough: bool)
      requires Valid()
      ensures enough == EnoughIn(P, Model()) && (enough <==> |shares| > P.threshold)
    {
      enough := |shares| == P.threshold + 1;
    }

    method TrustedAdd(orig: int, share: seq<byte>) returns (status: AddStatus, enough: bool)
      requires Valid()
      modifies this
      ensures Valid() && Model() == Step(P, old(Model()), Op.TrustedAdd(orig, share))
      ensures status == InvalidIndex <==> orig < 0 || orig >= P.size
      ensures status == Duplicate <==> 0 <= orig < P.size && orig in old(shares)
      ensures shares ==
        if status == Added && |old(shares)| <= P.threshold then old(shares)[orig := share] else old(shares)
      ensures enough <==> status == Added && |shares| == P.threshold + 1
    {
      StepInv(P, Model(), Op.TrustedAdd(orig, share));
      if orig >= P.size || orig < 0 {
        return InvalidIndex, false;
      }
      if orig in shares {
        return Duplicate, false;
      }
      status, enough := Added, |shares| == P.threshold + 1;
      if !enough {
        shares := shares[orig := share];
        enough := |shares| == P.threshold + 1;
      }
    }

    method VerifyAndAdd(orig: int, share: seq<byte>) returns (status: AddStatus, verified: bool, enough: bool)
      requires Valid()
      modifies this
      ensures Valid() && Model() == Step(P, old(Model()), Op.VerifyAndAdd(orig, share))
      ensures status == InvalidIndex <==> orig < 0 || orig >= P.size
      ensures status == Duplicate <==> 0 <= orig < P.size && orig in old(shares)
      ensures verified <==> status == Added && Verifies(P.S, P.keys[orig], share, P.H)
      ensures shares == if verified && |old(shares)| <= P.threshold then old(shares)[orig := share] else old(shares)
      ensures enough <==> status == Added && |shares| == P.threshold + 1
    {
      StepInv(P, Model(), Op.VerifyAndAdd(orig, share));
      if orig >= P.size || orig < 0 {
        return InvalidIndex, false, false;
      }
      if orig in shares {
        return Duplicate, false, false;
      }
      status := Added;
      verified := Verify(P.S, P.keys[orig], share, P.H);
      if verified && |shares| != P.threshold + 1 {
        shares := shares[orig := share];
      }
      enough := |shares| == P.threshold + 1;
    }

    method ThresholdSignature(memory: seq<byte>) returns (out: Outcome, ghost order: seq<byte>)
      requires Valid() && |memory| >= (P.threshold + 1) * SIGNATURE_LEN
      modifies this
      ensures Legal(old(Model()), Sign(order, memory)) && Valid()
      ensures Model() == Step(P, old(Model()), Sign(order, memory))
      ensures out == SignOutcome(P, old(Model()), order, memory)
      ensures out == NotEnoughShares <==> old(thresholdSignature) == None && |old(shares)| <= P.threshold
      ensures out == InvalidSignature <==>
        && old(thresholdSignature) == None && |old(shares)| > P.threshold
        && BadShare(P.S, Flatten(SharesIn(order, old(Model()))) + memory, |order|)
      ensures out.Signed? ==> Verifies(P.S, P.groupKey, out.sig, P.H) && thresholdSignature == Some(out.sig)
    {
      var order', flat := ListShares();
      order := order';
      StepInv(P, Model(), Sign(order, memory));
      if thresholdSignature.Some? {
        return Signed(thresholdSignature.value), order;
      }
      out := Reconstruct(order', flat, memory);
      if out.Signed? {
        thresholdSignature := Some(out.sig);
      }
    }

    /** The loop over the map, in whichever order it yields the signers. */
    method ListShares() returns (order: seq<byte>, flat: seq<byte>)
      requires Valid()
      ensures Enumerates(order, Model()) && flat == Flatten(SharesIn(order, Model())) && |order| == |shares|
    {
      order, flat := [], [];
      var left := shares.Keys;
      while left != {}
        invariant left <= shares.Keys && Distinct(order)
        invariant forall i :: i in order <==> i in shares && i !in left
        invariant |order| + |left| == |shares|
        invariant flat == Flatten(SharesIn(order, Model()))
        decreases |left|
      {
        var i :| i in left;
        left := left - {i};
        ghost var before := order;
        order := order + [i];
        assert SharesIn(order, Model())[..|before|] == SharesIn(before, Model());
        flat := flat + shares[i];
      }
    }

    method Reconstruct(order: seq<byte>, flat: seq<byte>, memory: seq<byte>) returns (out: Outcome)
      requires Valid() && Enumerates(order, Model()) && flat == Flatten(SharesIn(order, Model()))
      requires |order| == |shares| && |memory| >= (P.threshold + 1) * SIGNATURE_LEN
      ensures out == Reconstructed(P, Model(), order, memory)
    {
      if |shares| != P.threshold + 1 {
        return NotEnoughShares;
      }
      var dest: Option<seq<byte>>;
      ghost var Q;
      dest, Q := LagrangeInterpolateAtZero(P.S, flat + memory, order);
      if dest == None {
        return InvalidSignature;
      }
      PointsUnique(P.S, flat + memory, Q);
      var verified := Verify(P.S, P.groupKey, dest.value, P.H);
      out := if verified then Signed(dest.value) else InvalidInputs;
    }
  }

  // ------------------------------------------------------------- Every run

  /** At most t + 1 shares of valid signers, and a cached signature that verifies. */
  ghost predicate PoolInv<A, B, C>(P: Params<A, B, C>, m: Pool) {
    && |m.shares| <= P.threshold + 1
    && (forall i :: i in m.shares ==> i < P.size)
    && (m.cached.Some? ==> EnoughIn(P, m) && Verifies(P.S, P.groupKey, m.cached.value, P.H))
  }

  /** Shares and the cached signature are never replaced or removed. */
  ghost predicate Extends(m: Pool, m': Pool) {
    && (forall i :: i in m.shares ==> i in m'.shares && m'.shares[i] == m.shares[i])
    && (m.cached.Some? ==> m'.cached == m.cached)
  }

  lemma StepInv<A(!new), B(!new), C(!new)>(P: Params<A, B, C>, m: Pool, op: Op)
    requires ValidParams(P) && PoolInv(P, m) && Legal(m, op)
    ensures PoolInv(P, Step(P, m, op)) && Extends(m, Step(P, m, op))
  {
  }

  ghost predicate LegalRun<A, B, C>(P: Params<A, B, C>, m: Pool, ops: seq<Op>)
    requires P.S.S2.r >= 2 && P.size <= MAX_SIZE
    decreases |ops|
  {
    ops != [] ==> Legal(m, ops[0]) && LegalRun(P, Step(P, m, ops[0]), ops[1..])
  }

  ghost function Run<A, B, C>(P: Params<A, B, C>, m: Pool, ops: seq<Op>): Pool
    requires P.S.S2.r >= 2 && P.size <= MAX_SIZE && LegalRun(P, m, ops)
    decreases |ops|
  {
    if ops == [] then m else Run(P, Step(P, m, ops[0]), ops[1..])
  }

  /** The pool invariant over every interleaving, and nothing collected is ever lost. */
  lemma {:induction false} RunInv<A(!new), B(!new), C(!new)>(P: Params<A, B, C>, m: Pool, ops: seq<Op>)
    requires ValidParams(P) && PoolInv(P, m) && LegalRun(P, m, ops)
    ensures PoolInv(P, Run(P, m, ops)) && Extends(m, Run(P, m, ops))
    decreases |ops|
  {
    if ops != [] {
      StepInv(P, m, ops[0]);
      RunInv(P, Step(P, m, ops[0]), ops[1..]);
    }
  }

  /** A call that brings a share of signer i: of a valid index, and verifying where the call verifies. */
  ghost predicate Offers<A, B, C>(P: Params<A, B, C>, op: Op, i: byte) {
    && (op.TrustedAdd? || (op.VerifyAndAdd? && i < |P.keys| && Verifies(P.S, P.keys[i], op.share, P.H)))
    && op.orig == i < P.size
  }

  ghost predicate Offered<A, B, C>(P: Params<A, B, C>, ops: seq<Op>, i: byte) {
    exists k :: 0 <= k < |ops| && Offers(P, ops[k], i)
  }

  lemma {:induction false} FullStays<A(!new), B(!new), C(!new)>(P: Params<A, B, C>, m: Pool, ops: seq<Op>)
    requires ValidParams(P) && PoolInv(P, m) && LegalRun(P, m, ops) && EnoughIn(P, m)
    ensures Run(P, m, ops).shares == m.shares
    decreases |ops|
  {
    if ops != [] {
      StepInv(P, m, ops[0]);
      FullStays(P, Step(P, m, ops[0]), ops[1..]);
    }
  }

  /** A signer whose share some call brings is in the pool at the end, unless t + 1 shares are. */
  lemma {:induction false} OfferedIsKept<A(!new), B(!new), C(!new)>(
      P: Params<A, B, C>, m: Pool, ops: seq<Op>, k: nat, i: byte)
    requires ValidParams(P) && PoolInv(P, m) && LegalRun(P, m, ops)
    requires k < |ops| && Offers(P, ops[k], i)
    ensures i in Run(P, m, ops).shares || EnoughIn(P, Run(P, m, ops))
    decreases k
  {
    var m' := Step(P, m, ops[0]);
    StepInv(P, m, ops[0]);
    RunInv(P, m', ops[1..]);
    if k > 0 {
      OfferedIsKept(P, m', ops[1..], k - 1, i);
    } else if i !in m'.shares {
      FullStays(P, m', ops[1..]);
    }
  }

  /** The call k is the first to bring a share of signer i. */
  ghost predicate FirstOffer<A, B, C>(P: Params<A, B, C>, ops: seq<Op>, k: int, i: byte) {
    0 <= k < |ops| && Offers(P, ops[k], i) && forall j :: 0 <= j < k ==> !Offers(P, ops[j], i)
  }

  /** What the pool holds for a signer is what the first call with a share of that signer brought. */
  lemma {:induction false} FirstIsKept<A(!new), B(!new), C(!new)>(
      P: Params<A, B, C>, m: Pool, ops: seq<Op>, i: byte) returns (k: nat)
    requires ValidParams(P) && PoolInv(P, m) && LegalRun(P, m, ops)
    requires i !in m.shares && i in Run(P, m, ops).shares
    ensures FirstOffer(P, ops, k, i) && Run(P, m, ops).shares[i] == ops[k].share
    decreases |ops|
  {
    var m' := Step(P, m, ops[0]);
    StepInv(P, m, ops[0]);
    RunInv(P, m', ops[1..]);
    if i in m'.shares {
      k := 0;
    } else {
      if Offers(P, ops[0], i) {
        FullStays(P, m', ops[1..]);
      }
      k := FirstIsKept(P, m', ops[1..], i);
      k := k + 1;
    }
  }

  /** Shares of t + 1 distinct signers fill the pool, in whatever order the calls come. */
  lemma ManyOffersFill<A(!new), B(!new), C(!new)>(P: Params<A, B, C>, ops: seq<Op>, signers: set<byte>)
    requires ValidParams(P) && LegalRun(P, Empty(), ops)
    requires |signers| > P.threshold && forall i :: i in signers ==> Offered(P, ops, i)
    ensures EnoughIn(P, Run(P, Empty(), ops))
  {
    var m := Run(P, Empty(), ops);
    RunInv(P, Empty(), ops);
    if !EnoughIn(P, m) {
      forall i | i in signers
        ensures i in m.shares.Keys
      {
        var k :| 0 <= k < |ops| && Offers(P, ops[k], i);
        OfferedIsKept(P, Empty(), ops, k, i);
      }
      SubsetSize(signers, m.shares.Keys);
    }
  }

  /** Once a signature has been returned, every later call returns it, whatever happens in between. */
  lemma SignedForever<A(!new), B(!new), C(!new)>(
      P: Params<A, B, C>, m: Pool, order: seq<byte>, memory: seq<byte>, ops: seq<Op>, order': seq<byte>,
      memory': seq<byte>)
    requires ValidParams(P) && PoolInv(P, m) && Legal(m, Sign(order, memory))
    requires SignOutcome(P, m, order, memory).Signed? && LegalRun(P, Step(P, m, Sign(order, memory)), ops)
    requires Legal(Run(P, Step(P, m, Sign(order, memory)), ops), Sign(order', memory'))
    ensures SignOutcome(P, Run(P, Step(P, m, Sign(order, memory)), ops), order', memory') ==
      SignOutcome(P, m, order, memory)
  {
    StepInv(P, m, Sign(order, memory));
    RunInv(P, Step(P, m, Sign(order, memory)), ops);
  }

  /** The public keys come from one polynomial p of degree t. */
  ghost predicate KeysFrom<A, B, C>(P: Params<A, B, C>, p: seq<nat>) {
    && |p| == P.threshold + 1 && P.groupKey == KeyOf(P.S, p[0])
    && |P.keys| == P.size <= MAX_SIZE && forall i :: 0 <= i < P.size ==> P.keys[i] == KeyOf(P.S, Eval(p, Node(i)))
  }

  ghost predicate AllHonest<A, B, C>(P: Params<A, B, C>, m: Pool, p: seq<nat>) {
    forall i :: i in m.shares ==> HonestShare(P.S, m.shares[i], i, p, P.H)
  }

  lemma StepHonest<A(!new), B(!new), C(!new)>(P: Params<A, B, C>, m: Pool, op: Op, p: seq<nat>)
    requires ValidParams(P) && KeysFrom(P, p) && AllHonest(P, m, p) && Legal(m, op) && !op.TrustedAdd?
    ensures AllHonest(P, Step(P, m, op), p)
  {
    if op.VerifyAndAdd? && ValidIndex(P, op.orig) {
      VerifiesExactly(P.S, Eval(p, Node(op.orig)), op.share, P.H);
    }
  }

  lemma {:induction false} RunHonest<A(!new), B(!new), C(!new)>(P: Params<A, B, C>, m: Pool, ops: seq<Op>, p: seq<nat>)
    requires ValidParams(P) && KeysFrom(P, p) && AllHonest(P, m, p) && LegalRun(P, m, ops)
    requires forall k :: 0 <= k < |ops| ==> !ops[k].TrustedAdd?
    ensures AllHonest(P, Run(P, m, ops), p)
    decreases |ops|
  {
    if ops != [] {
      StepHonest(P, m, ops[0], p);
      RunHonest(P, Step(P, m, ops[0]), ops[1..], p);
    }
  }

  /** In every map order, a full pool of verified shares reconstructs to the encoding of P(0) H, unless P(0) is zero. */
  lemma HonestPoolSigns<A(!new), B(!new), C(!new)>(
      P: Params<A, B, C>, m: Pool, p: seq<nat>, order: seq<byte>, memory: seq<byte>)
    requires ValidParams(P) && KeysFrom(P, p) && AllHonest(P, m, p)
    requires EnoughIn(P, m) && Enumerates(order, m) && |memory| >= |order| * SIGNATURE_LEN
    ensures Reconstructed(P, m, order, memory) ==
      if p[0] % P.S.S2.r == 0 then InvalidInputs else Signed(P.S.encode(SignatureOf(P.S, p[0], P.H)))
  {
    EnumerationSize(order, m);
    var shares := SharesIn(order, m);
    var flat := Flatten(shares) + memory;
    SlicesAreShares(P, m, p, order, memory);
    var Q := PointsOf(P.S, flat, |order|);
    assert SharesOf(P.S.G1, order, Q, p, P.H);
    ReconstructionExact(P.S.G1, order, Q, p, P.H, P.S.S2.r);
    var sig := P.S.encode(SignatureOf(P.S, p[0], P.H));
    SchemeLaws(P.S, SignatureOf(P.S, p[0], P.H));
    VerifiesExactly(P.S, p[0], sig, P.H);
  }

  lemma SlicesAreShares<A(!new), B(!new), C(!new)>(
      P: Params<A, B, C>, m: Pool, p: seq<nat>, order: seq<byte>, memory: seq<byte>)
    requires ValidParams(P) && AllHonest(P, m, p) && Enumerates(order, m) && |memory| >= |order| * SIGNATURE_LEN
    ensures var flat := Flatten(SharesIn(order, m)) + memory;
      forall i :: 0 <= i < |order| ==>
        P.S.decode(ShareSlice(flat, i)) == Some(Times(P.S.G1, Eval(p, Node(order[i])), P.H))
  {
    var shares := SharesIn(order, m);
    forall j | 0 <= j < |order|
      ensures HonestShare(P.S, shares[j], order[j], p, P.H)
    {
      assert order[j] in m.shares;
    }
    forall i | 0 <= i < |order|
      ensures P.S.decode(ShareSlice(Flatten(shares) + memory, i)) == Some(Times(P.S.G1, Eval(p, Node(order[i])), P.H))
    {
      FlattenSlice(shares, memory, |order|, i);
      assert HonestShare(P.S, shares[i], order[i], p, P.H);
    }
  }

  lemma EnumerationSize(order: seq<byte>, m: Pool)
    requires Enumerates(order, m)
    ensures |order| == |m.shares|
  {
    DistinctSize(order, |order|);
    forall b: byte
      ensures b in m.shares.Keys <==> b in Members(order, |order|)
    {
      MembersHas(order, |order|, b);
    }
    assert m.shares.Keys == Members(order, |order|);
  }

  ghost function Members(s: seq<byte>, n: nat): set<byte>
    requires n <= |s|
  {
    if n == 0 then {} else Members(s, n - 1) + {s[n - 1]}
  }

  lemma {:induction false} MembersHas(s: seq<byte>, n: nat, b: byte)
    requires n <= |s|
    ensures b in Members(s, n) <==> exists j :: 0 <= j < n && b == s[j]
  {
    if n > 0 {
      MembersHas(s, n - 1, b);
    }
  }

  lemma {:induction false} DistinctSize(s: seq<byte>, n: nat)
    requires n <= |s| && Distinct(s)
    ensures |Members(s, n)| == n
  {
    if n > 0 {
      DistinctSize(s, n - 1);
      MembersHas(s, n - 1, s[n - 1]);
    }
  }

  /**
   * Once VerifyAndAdd alone has seen verifying shares of t + 1 signers, whatever else it saw, the pool
   * always reconstructs the group signature.
   */
  lemma VerifiedPoolAlwaysSigns<A(!new), B(!new), C(!new)>(
      P: Params<A, B, C>, ops: seq<Op>, p: seq<nat>, signers: set<byte>, order: seq<byte>, memory: seq<byte>)
    requires ValidParams(P) && KeysFrom(P, p) && p[0] % P.S.S2.r != 0 && LegalRun(P, Empty(), ops)
    requires forall k :: 0 <= k < |ops| ==> !ops[k].TrustedAdd?
    requires |signers| > P.threshold && forall i :: i in signers ==> Offered(P, ops, i)
    requires Legal(Run(P, Empty(), ops), Sign(order, memory))
    ensures SignOutcome(P, Run(P, Empty(), ops), order, memory).Signed?
    ensures P.S.decode(SignOutcome(P, Run(P, Empty(), ops), order, memory).sig) == Some(SignatureOf(P.S, p[0], P.H))
  {
    var m := Run(P, Empty(), ops);
    RunInv(P, Empty(), ops);
    RunHonest(P, Empty(), ops, p);
    ManyOffersFill(P, ops, signers);
    HonestPoolSigns(P, m, p, order, memory);
    SchemeLaws(P.S, SignatureOf(P.S, p[0], P.H));
    if m.cached.Some? {
      VerifiesExactly(P.S, p[0], m.cached.value, P.H);
    }
  }
}
