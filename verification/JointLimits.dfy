// Where the zero check of Joint Feldman stops (crypto/dkg_jointfeldman.go): it compares a
// representative of the joint share with 0, and the loop that sums the shares can leave r.
module JointLimits {
  import opened ModArith
  import opened Groups
  import opened Polynomials
  import opened FeldmanSpec
  import opened HonestDealer
  import opened FeldmanLimits
  import opened JointKeys
  import opened JointFeldman

  /**
   End returns keys of which this participant's public key is the identity, exactly when enough
   dealers are qualified, the group key is not the identity, and the shares add up to zero modulo
   r without all being zero.
   */
  lemma ZeroShareEscapes<T(!new)>(S: Suite<T>, c: Config, insts: seq<State<T>>, status: Status, out: JointOutput<T>)
    requires ValidSuite(S) && EndOutcome(S, c, insts, status, out)
    ensures var q := QualifiedDealers(insts);
      var vs, xs := Vectors(insts, q), Secrets(insts, q);
      status == Ok && out.keys[c.my] == S.G.zero <==>
        && Enough(c, |q|) && Sum(S.G, FirstOf(vs)) != S.G.zero
        && SumScalars(xs) % S.r == 0 && exists i :: 0 <= i < |xs| && xs[i] != 0
    ensures status == Ok && out.keys[c.my] == S.G.zero ==> out.sk == S.r
  {
    var q := QualifiedDealers(insts);
    var vs, xs := Vectors(insts, q), Secrets(insts, q);
    SumZero(xs);
    if status == Ok {
      JointKeysOnVector(S, c.threshold, c.size, vs, xs, c.my, out);
      TimesIsZero(S.G, out.sk, S.g, S.r);
      LazyZero(out.sk, xs, S.r);
    }
  }

  // ------------------------------------------------------ a run that reaches it

  /** Participant 0 of two deals 2 - X, and participant 1 deals 1 - 2X: the shares of 0 are 1 and r - 1. */
  const PAIR := Config(2, 1, 0, 0)

  function OwnPoly(r: nat): seq<nat>
    requires r > 2
  {
    [2, r - 1]
  }

  function PeerPoly(r: nat): seq<nat>
    requires r > 2
  {
    [1, r - 2]
  }

  lemma PairShares(r: nat)
    requires r > 3
    ensures ValidPoly(OwnPoly(r), PAIR, r) && ValidPoly(PeerPoly(r), Inst(PAIR, 1), r)
    ensures Eval(OwnPoly(r), 1) % r == 1 && Eval(PeerPoly(r), 1) % r == r - 1
  {
    var a, b := OwnPoly(r), PeerPoly(r);
    var a', b': seq<nat> := [r - 1], [r - 2];
    assert a[1..] == a' && b[1..] == b' && a'[1..] == [] && b'[1..] == [];
    assert Eval(a', 1) == r - 1 && Eval(b', 1) == r - 2;
    DivModUnique(Eval(a, 1), r, 1, 1);
    DivModUnique(Eval(b, 1), r, 0, r - 1);
  }

  /** What the other dealer sends changes nothing in the instance that this participant deals. */
  lemma OwnInstance<T(!new)>(S: Suite<T>) returns (es: seq<Event>)
    requires ValidSuite(S)
    ensures es == GoodEvents(S, Inst(PAIR, 1), PeerPoly(S.r))
    ensures var a := OwnPoly(S.r);
      Run(S, PAIR, Fresh(S, PAIR, a), es) == Fresh(S, PAIR, a).(phase := Phase(true, true, true))
  {
    var a, peer := OwnPoly(S.r), Inst(PAIR, 1);
    var s0 := Fresh(S, PAIR, a);
    var vec, share := Bcast(1, TheVector(S, PeerPoly(S.r))), Private(1, ShareMsg(ShareAt(S, PeerPoly(S.r), 0)));
    es := GoodEvents(S, peer, PeerPoly(S.r));
    assert Step(S, PAIR, s0, vec) == s0 && Step(S, PAIR, s0, share) == s0;
    TwoTimeouts(S, PAIR, s0);
    RunFour(S, PAIR, s0, vec, share, Timeout, Timeout);
  }

  lemma RunSnoc<T>(S: Suite<T>, c: Config, s: State<T>, es: seq<Event>, e: Event)
    requires ValidConfig(c) && S.r > 0
    ensures Run(S, c, s, es + [e]) == Step(S, c, Run(S, c, s, es), e)
  {
    assert (es + [e])[..|es|] == es;
  }

  lemma RunFour<T(!new)>(S: Suite<T>, c: Config, s: State<T>, e0: Event, e1: Event, e2: Event, e3: Event)
    requires ValidConfig(c) && S.r > 0
    ensures Run(S, c, s, [e0] + [e1] + [e2] + [e3]) ==
      Step(S, c, Step(S, c, Step(S, c, Step(S, c, s, e0), e1), e2), e3)
  {
    assert [] + [e0] == [e0];
    RunSnoc(S, c, s, [], e0);
    RunSnoc(S, c, s, [e0], e1);
    RunSnoc(S, c, s, [e0] + [e1], e2);
    RunSnoc(S, c, s, [e0] + [e1] + [e2], e3);
  }

  /** The joint state of participant 0: two qualified dealers, with shares 1 and r - 1. */
  ghost predicate PairState<T>(S: Suite<T>, insts: seq<State<T>>)
    requires S.r > 2
  {
    && |insts| == 2 && !EndVerdict(insts[0]) && !EndVerdict(insts[1])
    && insts[0].share.x == 1 && insts[1].share.x == S.r - 1
    && insts[0].keys.vA == Commit(S, OwnPoly(S.r)) && insts[1].keys.vA == Commit(S, PeerPoly(S.r))
  }

  lemma PairRun<T(!new)>(S: Suite<T>) returns (es: seq<Event>)
    requires ValidSuite(S)
    ensures var insts := JointRun(S, PAIR, OwnPoly(S.r), es);
      && (forall d :: 0 <= d < 2 ==> insts[d].phase == Phase(true, true, true))
      && PairState(S, insts)
  {
    PairShares(S.r);
    es := GoodRun(S, Inst(PAIR, 1), PeerPoly(S.r));
    var own := OwnInstance(S);
    assert Inst(PAIR, 0) == PAIR;
    assert Fresh(S, Inst(PAIR, 1), OwnPoly(S.r)) == Fresh(S, Inst(PAIR, 1), PeerPoly(S.r));
  }

  lemma PairQualified<T(!new)>(S: Suite<T>, insts: seq<State<T>>)
    requires |insts| == 2 && !EndVerdict(insts[0]) && !EndVerdict(insts[1])
    ensures QualifiedDealers(insts) == [0, 1]
    ensures Secrets(insts, [0, 1]) == [insts[0].share.x, insts[1].share.x]
    ensures Vectors(insts, [0, 1]) == [insts[0].keys.vA, insts[1].keys.vA]
  {
    QualifiedStep(insts, 0);
    QualifiedStep(insts, 1);
    assert insts[..0] == [] && insts[..2] == insts;
  }

  lemma PairSums<T(!new)>(S: Suite<T>)
    requires ValidSuite(S)
    ensures SumScalars([1, S.r - 1]) == S.r
    ensures Sum(S.G, FirstOf([Commit(S, OwnPoly(S.r)), Commit(S, PeerPoly(S.r))])) != S.G.zero
  {
    var xs: seq<nat> := [1, S.r - 1];
    assert xs[..1] == [1] && [1][..0] == [];
    assert SumScalars([1]) == 1;
    var A, B := Commit(S, OwnPoly(S.r)), Commit(S, PeerPoly(S.r));
    CommitAt(S, OwnPoly(S.r), 0);
    CommitAt(S, PeerPoly(S.r), 0);
    var firsts := FirstOf([A, B]);
    assert firsts == [Times(S.G, 2, S.g), Times(S.G, 1, S.g)];
    assert firsts[1..] == [Times(S.G, 1, S.g)] && firsts[1..][1..] == [];
    ZeroLeft(S.G, Times(S.G, 1, S.g));
    TimesAdd(S.G, 2, 1, S.g);
    assert Sum(S.G, firsts[1..]) == Times(S.G, 1, S.g);
    assert Sum(S.G, firsts) == Times(S.G, 3, S.g);
    TimesIsZero(S.G, 3, S.g, S.r);
    CongSmall(3, S.r);
  }

  lemma PairEscapes<T(!new)>(S: Suite<T>, insts: seq<State<T>>, status: Status, out: JointOutput<T>)
    requires ValidSuite(S) && PairState(S, insts) && EndOutcome(S, PAIR, insts, status, out)
    ensures status == Ok && out.sk == S.r && out.keys[PAIR.my] == S.G.zero
  {
    PairQualified(S, insts);
    PairSums(S);
    MultipleIsZero(1, S.r);
    assert Secrets(insts, [0, 1])[0] != 0;
    ZeroShareEscapes(S, PAIR, insts, status, out);
  }

  /** It does happen: after this run, whatever End returns is a success with an identity public key share. */
  lemma ZeroShareExample<T(!new)>(S: Suite<T>) returns (es: seq<Event>)
    requires ValidSuite(S)
    ensures var insts := JointRun(S, PAIR, OwnPoly(S.r), es);
      && (forall d :: 0 <= d < 2 ==> insts[d].phase == Phase(true, true, true))
      && (forall status, out :: EndOutcome(S, PAIR, insts, status, out) ==>
            status == Ok && out.sk == S.r && out.keys[PAIR.my] == S.G.zero)
  {
    es := PairRun(S);
    var insts := JointRun(S, PAIR, OwnPoly(S.r), es);
    forall status, out | EndOutcome(S, PAIR, insts, status, out)
      ensures status == Ok && out.sk == S.r && out.keys[PAIR.my] == S.G.zero
    {
      PairEscapes(S, insts, status, out);
    }
  }
}
