// The BLS signature scheme over an abstract pairing: signatures are points of
// E1, public keys are points of the prime-order group G2, and verification is
// the pairing equation behind a subgroup check (crypto/bls.go, crypto/bls_core.c).
module Bls {
  import opened Groups
  import opened Bytes
  import opened Polynomials

  const SIGNATURE_LEN := 48

  /** E1, the target group, the pairing, G2 with its generator, and the signature encoding. */
  datatype Scheme<!A(==), !B(==), !C(==)> = Scheme(
    G1: Group<A>, GT: Group<C>, e: (A, B) -> C, S2: Suite<B>,
    decode: seq<byte> -> Option<A>, encode: A -> seq<byte>)

  ghost predicate SignatureEncodes<A, B, C>(S: Scheme<A, B, C>, P: A) {
    |S.encode(P)| == SIGNATURE_LEN && S.decode(S.encode(P)) == Some(P)
  }

  /** check_membership_G1: the points killed by the group order. */
  predicate Member<A, B, C>(S: Scheme<A, B, C>, P: A) {
    Times(S.G1, S.S2.r, P) == S.G1.zero
  }

  /** The pairing with the generator separates the points of the subgroup. */
  ghost predicate SeparatesAt<A, B, C>(S: Scheme<A, B, C>, P: A) {
    Member(S, P) && S.e(P, S.S2.g) == S.GT.zero ==> P == S.G1.zero
  }

  ghost predicate ValidScheme<A(!new), B(!new), C(!new)>(S: Scheme<A, B, C>) {
    && Abelian(S.G1) && Abelian(S.GT) && ValidSuite(S.S2)
    && Bilinear(S.G1, S.S2.G, S.GT, S.e)
    && (forall P :: SignatureEncodes(S, P))
    && (forall P :: SeparatesAt(S, P))
  }

  /** The signature of the hashed message H under the secret key x. */
  function SignatureOf<A, B, C>(S: Scheme<A, B, C>, x: nat, H: A): A {
    Times(S.G1, x, H)
  }

  function KeyOf<A, B, C>(S: Scheme<A, B, C>, x: nat): B {
    Times(S.S2.G, x, S.S2.g)
  }

  /** The double pairing: e(s, -g2) e(H, pk) is one. */
  predicate DoublePairing<A, B, C>(S: Scheme<A, B, C>, pk: B, s: A, H: A) {
    S.GT.add(S.e(s, S.S2.G.neg(S.S2.g)), S.e(H, pk)) == S.GT.zero
  }

  predicate PairingEquation<A, B, C>(S: Scheme<A, B, C>, pk: B, s: A, H: A) {
    S.e(s, S.S2.g) == S.e(H, pk)
  }

  /** pubKeyBLSBLS12381.Verify */
  predicate Verifies<A, B, C>(S: Scheme<A, B, C>, pk: B, sig: seq<byte>, H: A) {
    && |sig| == SIGNATURE_LEN
    && pk != S.S2.G.zero
    && S.decode(sig).Some?
    && Member(S, S.decode(sig).value)
    && PairingEquation(S, pk, S.decode(sig).value, H)
  }

  lemma SchemeLaws<A(!new), B(!new), C(!new)>(S: Scheme<A, B, C>, P: A)
    requires ValidScheme(S)
    ensures SignatureEncodes(S, P) && SeparatesAt(S, P)
  {
  }

  /** Moving a scalar through the pairing. */
  lemma PairScalar<A(!new), B(!new), C(!new)>(S: Scheme<A, B, C>, x: nat, H: A)
    requires ValidScheme(S)
    ensures S.e(SignatureOf(S, x, H), S.S2.g) == S.e(H, KeyOf(S, x))
  {
    BilinearTimes(S.G1, S.S2.G, S.GT, S.e, x, H, S.S2.g);
  }

  lemma PairNegative<A(!new), B(!new), C(!new)>(S: Scheme<A, B, C>, P: A, b: B)
    requires ValidScheme(S)
    ensures S.GT.add(S.e(P, b), S.e(S.G1.neg(P), b)) == S.GT.zero
    ensures S.GT.add(S.e(P, b), S.e(P, S.S2.G.neg(b))) == S.GT.zero
  {
    assert LawsAt(S.G1, P, P, P);
    assert LawsAt(S.S2.G, b, b, b);
    assert BilinearAt(S.G1, S.S2.G, S.GT, S.e, P, S.G1.neg(P), b, S.S2.G.neg(b));
    BilinearZero(S.G1, S.S2.G, S.GT, S.e, P, b);
  }

  lemma MemberTimes<A(!new), B(!new), C(!new)>(S: Scheme<A, B, C>, x: nat, H: A)
    requires ValidScheme(S) && Member(S, H)
    ensures Member(S, SignatureOf(S, x, H))
  {
    TimesTimes(S.G1, S.S2.r, x, H);
    TimesTimes(S.G1, x, S.S2.r, H);
    TimesZero(S.G1, x);
    assert S.S2.r * x == x * S.S2.r;
  }

  lemma MemberSum<A(!new), B(!new), C(!new)>(S: Scheme<A, B, C>, P: A, Q: A)
    requires ValidScheme(S) && Member(S, P) && Member(S, Q)
    ensures Member(S, S.G1.add(P, Q))
  {
    TimesSum(S.G1, S.S2.r, P, Q);
    ZeroLeft(S.G1, S.G1.zero);
  }

  lemma MemberNegative<A(!new), B(!new), C(!new)>(S: Scheme<A, B, C>, P: A)
    requires ValidScheme(S) && Member(S, P)
    ensures Member(S, S.G1.neg(P))
  {
    var r := S.S2.r;
    assert LawsAt(S.G1, P, P, P);
    TimesSum(S.G1, r, P, S.G1.neg(P));
    TimesZero(S.G1, r);
    ZeroLeft(S.G1, Times(S.G1, r, S.G1.neg(P)));
  }

  /** Two points of the subgroup that pair alike with the generator are equal. */
  lemma PairingSeparates<A(!new), B(!new), C(!new)>(S: Scheme<A, B, C>, P: A, Q: A)
    requires ValidScheme(S) && Member(S, P) && Member(S, Q) && S.e(P, S.S2.g) == S.e(Q, S.S2.g)
    ensures P == Q
  {
    var D := S.G1.add(P, S.G1.neg(Q));
    MemberNegative(S, Q);
    MemberSum(S, P, S.G1.neg(Q));
    assert BilinearAt(S.G1, S.S2.G, S.GT, S.e, P, S.G1.neg(Q), S.S2.g, S.S2.g);
    PairNegative(S, Q, S.S2.g);
    SchemeLaws(S, D);
    DifferenceZero(S.G1, P, Q);
  }

  lemma DifferenceZero<A(!new)>(G: Group<A>, P: A, Q: A)
    requires Abelian(G) && G.add(P, G.neg(Q)) == G.zero
    ensures P == Q
  {
    assert LawsAt(G, P, G.neg(Q), Q);
    assert LawsAt(G, Q, G.neg(Q), P);
    assert LawsAt(G, G.neg(Q), Q, P);
    ZeroLeft(G, P);
    ZeroLeft(G, Q);
  }

  /** The double pairing decides the pairing equation. */
  lemma DoublePairingExact<A(!new), B(!new), C(!new)>(S: Scheme<A, B, C>, pk: B, s: A, H: A)
    requires ValidScheme(S)
    ensures DoublePairing(S, pk, s, H) <==> PairingEquation(S, pk, s, H)
  {
    var u, v, w := S.e(s, S.S2.g), S.e(s, S.S2.G.neg(S.S2.g)), S.e(H, pk);
    PairNegative(S, s, S.S2.g);
    assert LawsAt(S.GT, u, v, w);
    assert LawsAt(S.GT, v, u, w);
    if S.GT.add(v, w) == S.GT.zero {
      CancelLeft(S.GT, v, u, w);
    }
  }

  /** Verification accepts exactly the signature of the key's secret, and nothing for the identity key. */
  lemma VerifiesExactly<A(!new), B(!new), C(!new)>(S: Scheme<A, B, C>, x: nat, sig: seq<byte>, H: A)
    requires ValidScheme(S) && Member(S, H)
    ensures Verifies(S, KeyOf(S, x), sig, H) <==>
      |sig| == SIGNATURE_LEN && x % S.S2.r != 0 && S.decode(sig) == Some(SignatureOf(S, x, H))
  {
    TimesIsZero(S.S2.G, x, S.S2.g, S.S2.r);
    PairScalar(S, x, H);
    MemberTimes(S, x, H);
    if Verifies(S, KeyOf(S, x), sig, H) {
      PairingSeparates(S, S.decode(sig).value, SignatureOf(S, x, H));
    }
  }

  /** bls_verify: deserialization, subgroup check, then the double pairing with its two shortcuts. */
  method Verify<A(!new), B(!new), C(!new)>(S: Scheme<A, B, C>, pk: B, sig: seq<byte>, H: A) returns (ok: bool)
    requires ValidScheme(S)
    ensures ok == Verifies(S, pk, sig, H)
  {
    if |sig| != SIGNATURE_LEN || pk == S.S2.G.zero {
      return false;
    }
    var p := S.decode(sig);
    if p == None || !Member(S, p.value) {
      return false;
    }
    ok := VerifyPoint(S, pk, p.value, H);
  }

  /** bls_verify_ep */
  method VerifyPoint<A(!new), B(!new), C(!new)>(S: Scheme<A, B, C>, pk: B, s: A, H: A) returns (ok: bool)
    requires ValidScheme(S)
    ensures ok == PairingEquation(S, pk, s, H)
  {
    DoublePairingExact(S, pk, s, H);
    if s == H && pk == S.S2.g {
      return true;
    }
    if pk == S.S2.G.neg(S.S2.g) && S.G1.add(s, H) == S.G1.zero {
      ShortcutExact(S, s, H);
      return true;
    }
    ok := DoublePairing(S, pk, s, H);
  }

  /** Under the key -g2 the signature -H is valid. */
  lemma ShortcutExact<A(!new), B(!new), C(!new)>(S: Scheme<A, B, C>, s: A, H: A)
    requires ValidScheme(S) && S.G1.add(s, H) == S.G1.zero
    ensures DoublePairing(S, S.S2.G.neg(S.S2.g), s, H)
  {
    var b := S.S2.G.neg(S.S2.g);
    assert BilinearAt(S.G1, S.S2.G, S.GT, S.e, s, H, b, b);
    BilinearZero(S.G1, S.S2.G, S.GT, S.e, s, b);
  }
}
