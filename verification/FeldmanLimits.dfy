// Where agreement stops (crypto/dkg_feldmanvssq.go): an answer that comes before the complaint
// divides honest participants, and the identity checks of End are local to a participant.
module FeldmanLimits {
  import opened ModArith
  import opened Groups
  import opened Bytes
  import opened Polynomials
  import opened FeldmanSpec
  import opened FeldmanSafety
  import opened FeldmanObserver
  import opened FeldmanAgreement
  import opened HonestDealer

  /** When End returns keys: the dealer is qualified and neither key is the identity. */
  lemma EndIff<T(!new)>(S: Suite<T>, c: Config, s: State<T>)
    requires ValidSuite(S) && Inv(S, c, s) && s.phase == Phase(true, true, true)
    ensures EndSucceeds(S, s) <==>
      Qualified(s) && s.keys.vA != [] && s.keys.vA[0] != S.G.zero && EvalPoint(S.G, s.keys.vA, c.my + 1) != S.G.zero
  {
    if Qualified(s) {
      QualifiedShare(S, c, s);
      TimesIsZero(S.G, s.share.x, S.g, S.r);
      CongSmall(s.share.x, S.r);
    }
  }

  /** A participant that does not deal has no polynomial of its own: the invariant holds whatever a is. */
  lemma ListenerInv<T(!new)>(S: Suite<T>, c: Config, a: seq<nat>, es: seq<Event>)
    requires ValidSuite(S) && ValidConfig(c) && c.my != c.dealer
    ensures Inv(S, c, At(S, c, a, es))
  {
    var ones: seq<nat> := seq(c.threshold + 1, _ => 1);
    assert Fresh(S, c, a) == Fresh(S, c, ones);
    RunInv(S, c, ones, es);
  }

  /**
   Two honest participants with the same log get the same answer from End if and only if
   the identity check strikes both or neither: a dealer whose polynomial vanishes at the
   point of one participant only is accepted by the other.
   */
  lemma EndAgreement<T(!new)>(
      S: Suite<T>, c: Config, c': Config, a: seq<nat>, a': seq<nat>, es: seq<Event>, es': seq<Event>)
    requires ValidSuite(S) && ValidConfig(c) && ValidConfig(c')
    requires c' == c.(my := c'.my) && c.my != c.dealer && c'.my != c.dealer
    requires HonestRun(S, c, a, es) && HonestRun(S, c', a', es')
    requires Public(es) == Public(es')
    requires At(S, c, a, es).phase == Phase(true, true, true)
    ensures var s, s' := At(S, c, a, es), At(S, c', a', es');
      && s'.phase == Phase(true, true, true)
      && (EndSucceeds(S, s) == EndSucceeds(S, s') <==>
            (Qualified(s) && s.keys.vA != [] && s.keys.vA[0] != S.G.zero ==>
              (EvalPoint(S.G, s.keys.vA, c.my + 1) == S.G.zero <==> EvalPoint(S.G, s.keys.vA, c'.my + 1) == S.G.zero)))
  {
    Agreement(S, c, c', a, a', es, es');
    ListenerInv(S, c, a, es);
    ListenerInv(S, c', a', es');
    EndIff(S, c, At(S, c, a, es));
    EndIff(S, c', At(S, c', a', es'));
  }

  /** One more event that the channel carries faithfully. */
  lemma Extend<T(!new)>(S: Suite<T>, c: Config, a: seq<nat>, es: seq<Event>, e: Event) returns (es': seq<Event>)
    requires S.r > 0 && ValidConfig(c) && CarriedRun(S, c, a, es) && CarriedAt(S, c, a, es, e)
    ensures es' == es + [e] && CarriedRun(S, c, a, es')
    ensures At(S, c, a, es') == Step(S, c, At(S, c, a, es), e)
    ensures Public(es') == if e.Private? then Public(es) else Public(es) + [e]
    ensures Delivered(c, es') <==> Delivered(c, es) || IsMyComplaint(c, e)
    ensures !IsAnswerToMe(c, e) ==> Early(S, c, a, es') == Early(S, c, a, es)
  {
    es' := es + [e];
    assert es'[..|es|] == es;
    forall k | 0 <= k < |es'|
      ensures CarriedAt(S, c, a, es'[..k], es'[k])
    {
      assert es'[..k] == es[..k];
      assert k < |es| ==> CarriedAt(S, c, a, es[..k], es[k]);
    }
    DeliveredNext(c, es');
  }

  /** Nothing has happened yet. */
  lemma Start<T(!new)>(S: Suite<T>, c: Config, a: seq<nat>)
    requires S.r > 0 && ValidConfig(c)
    ensures CarriedRun(S, c, a, []) && At(S, c, a, []) == Fresh(S, c, a) && Public([]) == []
    ensures !Delivered(c, []) && Early(S, c, a, []) == None
  {
  }

  ghost function VectorHeardState<T>(S: Suite<T>, c: Config, a: seq<nat>): State<T>
    requires S.r > 0 && ValidConfig(c)
  {
    var A := Commit(S, a);
    Fresh(S, c, a).(keys := Keys([], A, PublicKeys(S.G, A, c.size), true))
  }

  lemma AfterVector<T(!new)>(S: Suite<T>, c: Config, a: seq<nat>) returns (es: seq<Event>)
    requires ValidSuite(S) && ValidConfig(c) && ValidPoly(a, c, S.r) && c.my != c.dealer
    ensures es == [Bcast(c.dealer, TheVector(S, a))] && CarriedRun(S, c, a, es) && Public(es) == es
    ensures At(S, c, a, es) == VectorHeardState(S, c, a) && !Delivered(c, es) && Early(S, c, a, es) == None
  {
    Start(S, c, a);
    var s := HearVectorAt(S, c, a, Fresh(S, c, a));
    es := Extend(S, c, a, [], Bcast(c.dealer, TheVector(S, a)));
  }

  lemma AfterShare<T(!new)>(S: Suite<T>, c: Config, a: seq<nat>) returns (es: seq<Event>)
    requires ValidSuite(S) && ValidConfig(c) && ValidPoly(a, c, S.r) && c.my != c.dealer
    ensures es == [Bcast(c.dealer, TheVector(S, a))] + [Private(c.dealer, ShareMsg(ShareAt(S, a, c.my)))]
    ensures CarriedRun(S, c, a, es) && Public(es) == [Bcast(c.dealer, TheVector(S, a))]
    ensures At(S, c, a, es) == VectorHeardState(S, c, a).(share := Share(ShareAt(S, a, c.my), true))
    ensures !Delivered(c, es) && Early(S, c, a, es) == None
  {
    es := AfterVector(S, c, a);
    var s := HearShareAt(S, c, a, VectorHeardState(S, c, a));
    es := Extend(S, c, a, es, Private(c.dealer, ShareMsg(ShareAt(S, a, c.my))));
  }

  /** Ready for both timeouts. */
  ghost predicate Complete<T>(c: Config, s: State<T>) {
    && s.phase == Phase(true, false, false) && !s.disqualified
    && s.keys.received && s.share.received && |s.complaints| <= c.threshold
  }

  lemma FirstTimeout<T(!new)>(S: Suite<T>, c: Config, a: seq<nat>, es: seq<Event>) returns (es': seq<Event>)
    requires S.r > 0 && ValidConfig(c) && CarriedRun(S, c, a, es) && Complete(c, At(S, c, a, es))
    ensures CarriedRun(S, c, a, es') && At(S, c, a, es') == At(S, c, a, es).(phase := Phase(true, true, false))
    ensures es' == es + [Timeout] && Public(es') == Public(es) + [Timeout]
    ensures Early(S, c, a, es') == Early(S, c, a, es) && Delivered(c, es') == Delivered(c, es)
  {
    es' := Extend(S, c, a, es, Timeout);
  }

  lemma Finish<T(!new)>(S: Suite<T>, c: Config, a: seq<nat>, es: seq<Event>) returns (es': seq<Event>)
    requires S.r > 0 && ValidConfig(c) && CarriedRun(S, c, a, es) && Complete(c, At(S, c, a, es))
    requires Spoke(c, At(S, c, a, es)) ==> Delivered(c, es)
    ensures CarriedRun(S, c, a, es') && At(S, c, a, es') == At(S, c, a, es).(phase := Phase(true, true, true))
    ensures es' == es + [Timeout] + [Timeout] && Public(es') == Public(es) + [Timeout] + [Timeout]
    ensures Early(S, c, a, es') == Early(S, c, a, es)
  {
    var es1 := FirstTimeout(S, c, a, es);
    es' := Extend(S, c, a, es1, Timeout);
  }

  // ------------------------------------------------------ an early answer

  /** The log of the counterexample: three participants, dealer 0, threshold 1. */
  ghost function EarlyAnswerLog<T>(S: Suite<T>, a: seq<nat>): seq<Event>
    requires S.r > 0
  {
    [Bcast(0, TheVector(S, a))] + [Bcast(0, TheAnswer(S, a, 1))] + [Bcast(1, ComplaintMsg(0))] + [Timeout] + [Timeout]
  }

  /** An empty share discards the answer that came before it. */
  lemma EmptyShareAt<T(!new)>(S: Suite<T>, c: Config, s: State<T>) returns (s': State<T>)
    requires S.r > 0 && c == Config(3, 1, 1, 0)
    requires s.phase == Phase(true, false, false) && !s.disqualified && !s.share.received
    requires s.out == [] && s.complaints.Keys == {1}
    ensures s' == Step(S, c, s, Private(0, []))
    ensures s' == State(s.phase, s.keys, Share(s.share.x, true), map[1 := Complaint(true, false, 0)], false,
                        [Broadcast(ComplaintMsg(0)), Flag(0)])
    ensures AnyUnanswered(s'.complaints)
  {
    s' := Step(S, c, s, Private(0, []));
    assert s'.complaints == map[1 := Complaint(true, false, 0)];
    assert Unanswered(s'.complaints, 1);
  }

  lemma ComplainerPrefix<T(!new)>(S: Suite<T>, a: seq<nat>) returns (es: seq<Event>)
    requires ValidSuite(S) && ValidPoly(a, Config(3, 1, 1, 0), S.r)
    ensures Public(es) == [Bcast(0, TheVector(S, a))] + [Bcast(0, TheAnswer(S, a, 1))]
    ensures CarriedRun(S, Config(3, 1, 1, 0), a, es)
    ensures var s := At(S, Config(3, 1, 1, 0), a, es);
      && s.phase == Phase(true, false, false) && !s.disqualified && !s.share.received && s.out == []
      && s.keys.received && s.complaints.Keys == {1}
  {
    var c := Config(3, 1, 1, 0);
    es := AfterVector(S, c, a);
    var s := HearAnswerAt(S, c, a, VectorHeardState(S, c, a));
    es := Extend(S, c, a, es, Bcast(0, TheAnswer(S, a, 1)));
  }

  /** Participant 1 gets the answer first and an empty share afterwards: its late complaint discards the answer. */
  lemma EarlyAnswerAtComplainer<T(!new)>(S: Suite<T>, a: seq<nat>) returns (es: seq<Event>)
    requires ValidSuite(S) && ValidPoly(a, Config(3, 1, 1, 0), S.r)
    ensures Public(es) == EarlyAnswerLog(S, a) && CarriedRun(S, Config(3, 1, 1, 0), a, es)
    ensures var s := At(S, Config(3, 1, 1, 0), a, es); s.phase == Phase(true, true, true) && EndVerdict(s)
  {
    var c := Config(3, 1, 1, 0);
    es := ComplainerPrefix(S, a);
    var s3 := EmptyShareAt(S, c, At(S, c, a, es));
    es := Extend(S, c, a, es, Private(0, []));
    es := Extend(S, c, a, es, Bcast(1, ComplaintMsg(0)));
    es := Finish(S, c, a, es);
  }

  lemma WitnessPrefix<T(!new)>(S: Suite<T>, a: seq<nat>) returns (es: seq<Event>)
    requires ValidSuite(S) && ValidPoly(a, Config(3, 1, 2, 0), S.r)
    ensures Public(es) == [Bcast(0, TheVector(S, a))] + [Bcast(0, TheAnswer(S, a, 1))]
    ensures CarriedRun(S, Config(3, 1, 2, 0), a, es)
    ensures var s := At(S, Config(3, 1, 2, 0), a, es);
      && s.phase == Phase(true, false, false) && !s.disqualified && s.share.received && s.out == []
      && s.keys.received && s.keys.y == PublicKeys(S.G, Commit(S, a), 3)
      && s.complaints == map[1 := Complaint(false, true, ShareAt(S, a, 1))]
  {
    var c := Config(3, 1, 2, 0);
    es := AfterShare(S, c, a);
    var s := HearAnswerAt(S, c, a, At(S, c, a, es));
    es := Extend(S, c, a, es, Bcast(0, TheAnswer(S, a, 1)));
  }

  /** Participant 2, with a good share, hears the same log and keeps the dealer. */
  lemma EarlyAnswerAtWitness<T(!new)>(S: Suite<T>, a: seq<nat>) returns (es: seq<Event>)
    requires ValidSuite(S) && ValidPoly(a, Config(3, 1, 2, 0), S.r)
    ensures Public(es) == EarlyAnswerLog(S, a) && CarriedRun(S, Config(3, 1, 2, 0), a, es)
    ensures var s := At(S, Config(3, 1, 2, 0), a, es); s.phase == Phase(true, true, true) && !EndVerdict(s)
  {
    var c := Config(3, 1, 2, 0);
    es := WitnessPrefix(S, a);
    var s4 := HearComplaintAt(S, c, a, At(S, c, a, es));
    es := Extend(S, c, a, es, Bcast(1, ComplaintMsg(0)));
    es := Finish(S, c, a, es);
  }

  // --------------------------------------------------- the identity checks

  /** The vector, the private share and the two timeouts. */
  ghost function GoodEvents<T>(S: Suite<T>, c: Config, a: seq<nat>): seq<Event>
    requires S.r > 0
  {
    [Bcast(c.dealer, TheVector(S, a))] + [Private(c.dealer, ShareMsg(ShareAt(S, a, c.my)))] + [Timeout] + [Timeout]
  }

  /** A participant that hears the vector and gets its share: End fails exactly when the share is zero. */
  lemma GoodRun<T(!new)>(S: Suite<T>, c: Config, a: seq<nat>) returns (es: seq<Event>)
    requires ValidSuite(S) && ValidConfig(c) && ValidPoly(a, c, S.r) && c.my != c.dealer
    ensures es == GoodEvents(S, c, a) && HonestRun(S, c, a, es)
    ensures Public(es) == [Bcast(c.dealer, TheVector(S, a))] + [Timeout] + [Timeout]
    ensures var s := At(S, c, a, es);
      && s.phase == Phase(true, true, true) && Qualified(s)
      && s.share.x == ShareAt(S, a, c.my) && s.keys.vA == Commit(S, a)
      && (EndSucceeds(S, s) <==> ShareAt(S, a, c.my) != 0)
  {
    es := AfterShare(S, c, a);
    es := Finish(S, c, a, es);
    CommitAt(S, a, 0);
    TimesIsZero(S.G, a[0], S.g, S.r);
    CongSmall(a[0], S.r);
  }

  /** 2 - X vanishes at the point of participant 1 and not at the point of participant 2. */
  lemma Vanishing(r: nat) returns (a: seq<nat>)
    requires r > 2
    ensures ValidPoly(a, Config(3, 1, 1, 0), r) && Eval(a, 2) % r == 0 && Eval(a, 3) % r != 0
  {
    a := [2, r - 1];
    var tail: seq<nat> := [r - 1];
    assert a[1..] == tail && tail[1..] == [];
    assert Eval(tail, 2) == r - 1 && Eval(tail, 3) == r - 1;
    assert Eval(a, 2) == 2 * r && Eval(a, 3) == 2 * r + (r - 1);
    DivModUnique(2 * r, r, 2, 0);
    DivModUnique(2 * r + (r - 1), r, 2, r - 1);
  }

  /**
   Two honest participants hear the same log of a qualified dealer: End returns keys to one and
   fails at the other.
   */
  lemma EndDiffers<T(!new)>(S: Suite<T>) returns (a: seq<nat>, es: seq<Event>, es': seq<Event>)
    requires ValidSuite(S)
    ensures var c, c' := Config(3, 1, 1, 0), Config(3, 1, 2, 0);
      && ValidPoly(a, c, S.r) && HonestRun(S, c, a, es) && HonestRun(S, c', a, es') && Public(es) == Public(es')
      && Qualified(At(S, c, a, es)) && Qualified(At(S, c', a, es'))
      && !EndSucceeds(S, At(S, c, a, es)) && EndSucceeds(S, At(S, c', a, es'))
  {
    a := Vanishing(S.r);
    es := GoodRun(S, Config(3, 1, 1, 0), a);
    es' := GoodRun(S, Config(3, 1, 2, 0), a);
  }

  // ------------------------------------------------------------ single steps

  lemma HearComplaintAt<T(!new)>(S: Suite<T>, c: Config, a: seq<nat>, s: State<T>) returns (s': State<T>)
    requires ValidSuite(S) && ValidConfig(c) && c.my == 2 && c.dealer == 0
    requires s.phase == Phase(true, false, false) && !s.disqualified
    requires s.keys.received && s.keys.y == PublicKeys(S.G, Commit(S, a), c.size)
    requires s.complaints == map[1 := Complaint(false, true, ShareAt(S, a, 1))]
    ensures s' == Step(S, c, s, Bcast(1, ComplaintMsg(0)))
    ensures s' == s.(complaints := map[1 := Complaint(true, true, ShareAt(S, a, 1))])
    ensures |s'.complaints| == 1 && !AnyUnanswered(s'.complaints)
  {
    var m := map[1 := Complaint(true, true, ShareAt(S, a, 1))];
    s' := Step(S, c, s, Bcast(1, ComplaintMsg(0)));
    assert ComplaintMsg(0)[1..] == [0];
    assert s.complaints[1 := s.complaints[1].(received := true)] == m;
    ShareAtVerifies(S, a, 1);
    assert s.keys.y[1] == EvalPoint(S.G, Commit(S, a), 2);
    assert !WrongAnswer(S, s.keys.y, m, 1);
  }

  lemma TwoTimeouts<T(!new)>(S: Suite<T>, c: Config, s: State<T>)
    requires S.r > 0 && ValidConfig(c) && s.phase == Phase(true, false, false) && !s.disqualified
    requires s.keys.received && s.share.received && |s.complaints| <= c.threshold
    ensures Step(S, c, Step(S, c, s, Timeout), Timeout) == s.(phase := Phase(true, true, true))
  {
  }

  lemma HearVectorAt<T(!new)>(S: Suite<T>, c: Config, a: seq<nat>, s: State<T>) returns (s': State<T>)
    requires ValidSuite(S) && ValidConfig(c) && ValidPoly(a, c, S.r) && c.my != c.dealer && s == Fresh(S, c, a)
    ensures s' == Step(S, c, s, Bcast(c.dealer, TheVector(S, a)))
    ensures s' == s.(keys := Keys([], Commit(S, a), PublicKeys(S.G, Commit(S, a), c.size), true))
  {
    var m := TheVector(S, a);
    s' := Step(S, c, s, Bcast(c.dealer, m));
    ReadEncodedVector(S, Commit(S, a));
    assert m[1..] == EncodeVector(S, Commit(S, a));
    assert !AnyWrongAnswer(S, PublicKeys(S.G, Commit(S, a), c.size), map[]);
  }

  lemma HearAnswerAt<T(!new)>(S: Suite<T>, c: Config, a: seq<nat>, s: State<T>) returns (s': State<T>)
    requires ValidSuite(S) && ValidConfig(c) && c.size > 1 && c.my != c.dealer
    requires s.phase.running && !s.disqualified && 1 !in s.complaints
    ensures s' == Step(S, c, s, Bcast(c.dealer, TheAnswer(S, a, 1)))
    ensures s' == s.(complaints := s.complaints[1 := Complaint(false, true, ShareAt(S, a, 1))])
  {
    var m := TheAnswer(S, a, 1);
    s' := Step(S, c, s, Bcast(c.dealer, m));
    assert m[1..][1..] == ToBytes(ShareAt(S, a, 1), SCALAR_LEN);
    ScalarFits(ShareAt(S, a, 1));
    assert s' == ApplyAnswer(S, c, s, 1, ShareAt(S, a, 1));
  }

  lemma HearShareAt<T(!new)>(S: Suite<T>, c: Config, a: seq<nat>, s: State<T>) returns (s': State<T>)
    requires ValidSuite(S) && ValidConfig(c) && c.my != c.dealer
    requires s.phase == Phase(true, false, false) && !s.disqualified
    requires !s.share.received && s.keys.received && s.keys.y == PublicKeys(S.G, Commit(S, a), c.size)
    ensures s' == Step(S, c, s, Private(c.dealer, ShareMsg(ShareAt(S, a, c.my))))
    ensures s' == s.(share := Share(ShareAt(S, a, c.my), true))
  {
    var x := ShareAt(S, a, c.my);
    var m := ShareMsg(x);
    s' := Step(S, c, s, Private(c.dealer, m));
    assert m[1..] == ToBytes(x, SCALAR_LEN);
    ScalarFits(x);
    ShareAtVerifies(S, a, c.my);
    assert s.keys.y[c.my] == EvalPoint(S.G, Commit(S, a), c.my + 1);
  }
}
