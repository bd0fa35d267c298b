// A dealer that runs the code is never disqualified (crypto/dkg_feldmanvss.go,
// crypto/dkg_feldmanvssq.go): the dealer and the observer of the log move together.
module HonestDealer {
  import opened ModArith
  import opened Groups
  import opened Bytes
  import opened Polynomials
  import opened FeldmanSpec
  import opened FeldmanSafety
  import opened FeldmanObserver
  import opened FeldmanAgreement

  // ------------------------------------------------------ message round trips

  lemma {:induction false} EncodeVectorLength<T(!new)>(S: Suite<T>, A: seq<T>)
    requires forall P :: EncodesAt(S, P)
    ensures |EncodeVector(S, A)| == POINT_LEN * |A|
  {
    if A != [] {
      assert EncodesAt(S, A[0]);
      EncodeVectorLength(S, A[1..]);
    }
  }

  lemma {:induction false} ReadEncodedVector<T(!new)>(S: Suite<T>, A: seq<T>)
    requires forall P :: EncodesAt(S, P)
    ensures |EncodeVector(S, A)| == POINT_LEN * |A| && ReadVector(S, EncodeVector(S, A), |A|) == Some(A)
  {
    EncodeVectorLength(S, A);
    if A != [] {
      assert EncodesAt(S, A[0]);
      EncodeVectorLength(S, A[1..]);
      ReadEncodedVector(S, A[1..]);
      var data := EncodeVector(S, A);
      assert data[..POINT_LEN] == S.encodePoint(A[0]);
      assert data[POINT_LEN..] == EncodeVector(S, A[1..]);
      assert [A[0]] + A[1..] == A;
    }
  }

  lemma ScalarFits(n: nat)
    requires n < TWO_255
    ensures FromBytes(ToBytes(n, SCALAR_LEN)) == n
  {
    var w := Pow(256, 4);
    assert w == 0x1_0000_0000;
    PowAdd(256, 4, 4);
    PowAdd(256, 8, 8);
    PowAdd(256, 16, 16);
    assert TWO_255 < Pow(256, SCALAR_LEN);
    FromToSmall(n, SCALAR_LEN);
  }

  function ShareAt<T>(S: Suite<T>, a: seq<nat>, k: nat): (x: nat)
    requires S.r > 0
    ensures x < S.r
  {
    Eval(a, k + 1) % S.r
  }

  /** The share of k verifies against the public key of k. */
  lemma ShareAtVerifies<T(!new)>(S: Suite<T>, a: seq<nat>, k: nat)
    requires ValidSuite(S)
    ensures VerifyShare(S, ShareAt(S, a, k), EvalPoint(S.G, Commit(S, a), k + 1))
  {
    CommitEval(S, a, k + 1);
    TimesMod(S.G, Eval(a, k + 1), S.g, S.r);
  }

  // --------------------------------------------------------- the dealer's log

  ghost function TheVector<T>(S: Suite<T>, a: seq<nat>): seq<byte> {
    VectorMsg(S, Commit(S, a))
  }

  function TheAnswer<T>(S: Suite<T>, a: seq<nat>, k: nat): seq<byte>
    requires S.r > 0 && k < 256
  {
    AnswerMsg(k, ShareAt(S, a, k))
  }

  /** What the parallel instances make the dealer say about other dealers. */
  predicate ForeignComplaint(c: Config, m: seq<byte>) {
    |m| == 2 && m[0] == TAG_COMPLAINT && m[1] < c.size
  }

  ghost predicate Complained(c: Config, es: seq<Event>, k: nat)
    requires ValidConfig(c)
  {
    Bcast(k, ComplaintMsg(c.dealer)) in es
  }

  /** The other participants whose complaint against the dealer appears in the log. */
  ghost function Complainers(c: Config, es: seq<Event>): set<nat>
    requires ValidConfig(c)
  {
    set k: nat | 0 <= k < c.size && k != c.dealer && Complained(c, es, k)
  }

  ghost predicate DealerAt<T>(S: Suite<T>, c: Config, a: seq<nat>, es: seq<Event>, e: Event)
    requires ValidConfig(c) && S.r > 0
  {
    && (e.Bcast? && e.orig == c.dealer ==>
          Broadcast(e.msg) in Run(S, c, Fresh(S, c, a), es).out || ForeignComplaint(c, e.msg))
    && (e == Timeout ==> StartHeard(S, c, a, es))
  }

  /** What the dealer broadcasts on starting has been heard. */
  ghost predicate StartHeard<T>(S: Suite<T>, c: Config, a: seq<nat>, es: seq<Event>)
    requires ValidConfig(c) && S.r > 0
  {
    forall m :: Broadcast(m) in Fresh(S, c, a).out ==> Bcast(c.dealer, m) in es
  }

  /** On starting, the dealer broadcasts the commitment to its polynomial and nothing else. */
  lemma VectorSent<T(!new)>(S: Suite<T>, c: Config, a: seq<nat>, m: seq<byte>)
    requires ValidConfig(c) && S.r > 0
    ensures Broadcast(m) in Fresh(S, c, a).out <==> c.my == c.dealer && m == TheVector(S, a)
  {
    if c.my == c.dealer {
      var sends := ShareSends(Shares(a, c.size, S.r), c.my);
      OnlyShares(Shares(a, c.size, S.r), c.my, Broadcast(m));
      assert Fresh(S, c, a).out == sends + [Broadcast(TheVector(S, a))];
    }
  }

  /** The dealer (c.my == c.dealer) is heard faithfully, its vector before the first timeout. */
  ghost predicate DealerRun<T>(S: Suite<T>, c: Config, a: seq<nat>, es: seq<Event>)
    requires ValidConfig(c) && S.r > 0
  {
    forall k :: 0 <= k < |es| ==> DealerAt(S, c, a, es[..k], es[k])
  }

  // ---------------------------------------------------------------- invariant

  /** The observer's entry for complainer k: heard, and answered only with the right share. */
  ghost predicate GoodEntry<T>(S: Suite<T>, a: seq<nat>, m: map<nat, Complaint>, k: nat)
    requires S.r > 0
  {
    k in m ==> m[k].received && (m[k].answerReceived ==> m[k].answer == ShareAt(S, a, k))
  }

  /** Every complaint that the dealer knows is answered, in its map and on the air. */
  ghost predicate Answered<T>(S: Suite<T>, c: Config, a: seq<nat>, d: State<T>, k: nat)
    requires S.r > 0
  {
    k in d.complaints ==>
      && k < c.size && k != c.dealer
      && d.complaints[k].received && d.complaints[k].answerReceived
      && (k < 256 ==> Broadcast(TheAnswer(S, a, k)) in d.out)
  }

  /** Everything the dealer has broadcast. */
  ghost predicate Said<T>(S: Suite<T>, c: Config, a: seq<nat>, d: State<T>, o: Output)
    requires S.r > 0 && ValidConfig(c)
  {
    o in d.out && o.Broadcast? ==>
      o.data == TheVector(S, a) || exists k: nat :: k < c.size && k in d.complaints && o.data == TheAnswer(S, a, k)
  }

  ghost predicate Lockstep<T>(S: Suite<T>, c: Config, a: seq<nat>, d: State<T>, v: View<T>)
    requires S.r > 0 && ValidConfig(c)
  {
    && d.phase.running && !d.disqualified && !v.disqualified
    && d.phase.sharesTimeout == v.sharesTimeout && d.phase.complaintsTimeout == v.complaintsTimeout
    && d.keys.a == a && d.keys.received && d.share.received
    && (v.received ==> v.vA == Commit(S, a) && v.y == PublicKeys(S.G, Commit(S, a), c.size))
    && (v.sharesTimeout ==> v.received)
    && d.complaints.Keys == v.complaints.Keys
    && (forall k :: k in d.complaints ==> Answered(S, c, a, d, k))
    && (forall k :: k in v.complaints ==> GoodEntry(S, a, v.complaints, k))
    && (forall o :: o in d.out ==> Said(S, c, a, d, o))
  }

  ghost predicate Setting<T(!new)>(S: Suite<T>, c: Config, a: seq<nat>) {
    ValidSuite(S) && ValidConfig(c) && ValidPoly(a, c, S.r) && c.my == c.dealer
  }

  lemma NoWrong<T(!new)>(S: Suite<T>, c: Config, a: seq<nat>, m: map<nat, Complaint>)
    requires ValidSuite(S) && forall k :: k in m ==> GoodEntry(S, a, m, k)
    ensures !AnyWrongAnswer(S, PublicKeys(S.G, Commit(S, a), c.size), m)
  {
    var y := PublicKeys(S.G, Commit(S, a), c.size);
    forall k | k in m
      ensures !WrongAnswer(S, y, m, k)
    {
      assert GoodEntry(S, a, m, k);
      ShareAtVerifies(S, a, k);
    }
  }

  lemma HearTheVector<T(!new)>(S: Suite<T>, c: Config, a: seq<nat>, d: State<T>, v: View<T>)
    requires Setting(S, c, a) && Lockstep(S, c, a, d, v)
    ensures Lockstep(S, c, a, d, HearDealer(S, c, v, TheVector(S, a)))
    ensures HearDealer(S, c, v, TheVector(S, a)).received || v.sharesTimeout
  {
    var m, A := TheVector(S, a), Commit(S, a);
    ReadEncodedVector(S, A);
    assert m[1..] == EncodeVector(S, A);
    NoWrong(S, c, a, v.complaints);
  }

  lemma HearTheAnswer<T(!new)>(S: Suite<T>, c: Config, a: seq<nat>, d: State<T>, v: View<T>, k: nat)
    requires Setting(S, c, a) && Lockstep(S, c, a, d, v) && k < c.size && k in d.complaints
    ensures var v' := HearDealer(S, c, v, TheAnswer(S, a, k));
      && Lockstep(S, c, a, d, v')
      && v'.complaints[k].answerReceived
  {
    var m, share := TheAnswer(S, a, k), ShareAt(S, a, k);
    assert m[2..] == ToBytes(share, SCALAR_LEN);
    ScalarFits(share);
    assert HearDealer(S, c, v, m) == HearAnswer(S, v, k, share);
    HearShare(S, c, a, d, v, k, share);
  }

  lemma HearShare<T(!new)>(S: Suite<T>, c: Config, a: seq<nat>, d: State<T>, v: View<T>, k: nat, share: nat)
    requires Setting(S, c, a) && Lockstep(S, c, a, d, v) && k < c.size && k in d.complaints && share == ShareAt(S, a, k)
    ensures var v' := HearAnswer(S, v, k, share); Lockstep(S, c, a, d, v') && v'.complaints[k].answerReceived
  {
    assert GoodEntry(S, a, v.complaints, k);
    var v' := HearAnswer(S, v, k, share);
    forall j | j in v'.complaints
      ensures GoodEntry(S, a, v'.complaints, j)
    {
      assert GoodEntry(S, a, v.complaints, j);
    }
    assert v'.complaints.Keys == v.complaints.Keys;
    ShareAtVerifies(S, a, k);
  }

  lemma DealerHeard<T(!new)>(S: Suite<T>, c: Config, a: seq<nat>, d: State<T>, v: View<T>, m: seq<byte>)
    requires Setting(S, c, a) && Lockstep(S, c, a, d, v)
    requires Broadcast(m) in d.out || ForeignComplaint(c, m)
    ensures Lockstep(S, c, a, d, HearDealer(S, c, v, m))
  {
    if Broadcast(m) in d.out {
      assert Said(S, c, a, d, Broadcast(m));
      if m == TheVector(S, a) {
        HearTheVector(S, c, a, d, v);
      } else {
        var k: nat :| k < c.size && k in d.complaints && m == TheAnswer(S, a, k);
        HearTheAnswer(S, c, a, d, v, k);
      }
    }
  }

  /** A complaint reaches the dealer and the observer, and the dealer answers it. */
  lemma ComplaintHeard<T(!new)>(S: Suite<T>, c: Config, a: seq<nat>, d: State<T>, v: View<T>, orig: nat, msg: seq<byte>)
    requires Setting(S, c, a) && Lockstep(S, c, a, d, v) && orig < c.size && orig != c.dealer
    ensures Lockstep(S, c, a, OnBroadcast(S, c, d, orig, msg), HearOther(S, c, v, orig, msg))
  {
    var d' := OnBroadcast(S, c, d, orig, msg);
    if msg == ComplaintMsg(c.dealer) && !d.phase.complaintsTimeout {
      assert msg[1..] == [c.dealer];
      if orig !in d.complaints {
        NewComplaint(S, c, a, d, v, orig);
      } else {
        assert Answered(S, c, a, d, orig) && GoodEntry(S, a, v.complaints, orig);
        MoreOutput(S, c, a, d, d');
      }
    } else {
      Ignored(S, c, d, orig, msg);
      MoreOutput(S, c, a, d, d');
    }
  }

  /** Outputs that are not broadcasts change nothing. */
  lemma MoreOutput<T(!new)>(S: Suite<T>, c: Config, a: seq<nat>, d: State<T>, d': State<T>)
    requires S.r > 0 && ValidConfig(c)
    requires d' == d || exists o: Output :: !o.Broadcast? && d' == Emit(d, o)
    requires forall k :: k in d.complaints ==> Answered(S, c, a, d, k)
    requires forall o :: o in d.out ==> Said(S, c, a, d, o)
    ensures forall k :: k in d'.complaints ==> Answered(S, c, a, d', k)
    ensures forall o :: o in d'.out ==> Said(S, c, a, d', o)
  {
    forall k | k in d'.complaints
      ensures Answered(S, c, a, d', k)
    {
      assert Answered(S, c, a, d, k);
    }
    forall o | o in d'.out
      ensures Said(S, c, a, d', o)
    {
      assert o in d.out ==> Said(S, c, a, d, o);
    }
  }

  lemma NewComplaint<T(!new)>(S: Suite<T>, c: Config, a: seq<nat>, d: State<T>, v: View<T>, orig: nat)
    requires Setting(S, c, a) && Lockstep(S, c, a, d, v) && orig < c.size && orig != c.dealer && orig !in d.complaints
    ensures var entry := Complaint(true, false, 0);
      Lockstep(S, c, a, Answer(S, d.(complaints := d.complaints[orig := entry]), orig),
               v.(complaints := v.complaints[orig := entry]))
  {
    var entry := Complaint(true, false, 0);
    var d' := Answer(S, d.(complaints := d.complaints[orig := entry]), orig);
    var v' := v.(complaints := v.complaints[orig := entry]);
    assert d'.out == d.out + [Broadcast(TheAnswer(S, a, orig))];
    forall k | k in d'.complaints
      ensures Answered(S, c, a, d', k)
    {
      assert Answered(S, c, a, d, k);
    }
    forall k | k in v'.complaints
      ensures GoodEntry(S, a, v'.complaints, k)
    {
      assert GoodEntry(S, a, v.complaints, k);
    }
    forall o | o in d'.out
      ensures Said(S, c, a, d', o)
    {
      assert o in d.out ==> Said(S, c, a, d, o);
    }
    assert d'.complaints.Keys == d.complaints.Keys + {orig} == v'.complaints.Keys;
  }

  lemma TimeoutHeard<T(!new)>(S: Suite<T>, c: Config, a: seq<nat>, d: State<T>, v: View<T>)
    requires Setting(S, c, a) && Lockstep(S, c, a, d, v) && v.received && !d.phase.complaintsTimeout
    requires v.sharesTimeout ==> |v.complaints| <= c.threshold
    ensures Lockstep(S, c, a, OnTimeout(c, d), HearTimeout(c, v))
  {
    assert |d.complaints.Keys| == |v.complaints.Keys|;
    var d' := OnTimeout(c, d);
    assert d' == d.(phase := d'.phase);
    forall k | k in d'.complaints
      ensures Answered(S, c, a, d', k)
    {
      assert Answered(S, c, a, d, k);
    }
    forall o | o in d'.out
      ensures Said(S, c, a, d', o)
    {
      assert Said(S, c, a, d, o);
    }
  }

  lemma StepLockstep<T(!new)>(S: Suite<T>, c: Config, a: seq<nat>, d: State<T>, v: View<T>, e: Event)
    requires Setting(S, c, a) && Lockstep(S, c, a, d, v)
    requires e.Bcast? && e.orig == c.dealer ==> Broadcast(e.msg) in d.out || ForeignComplaint(c, e.msg)
    requires e == Timeout ==> v.received && (v.sharesTimeout && !v.complaintsTimeout ==> |v.complaints| <= c.threshold)
    requires e != Force(c.dealer)
    ensures Lockstep(S, c, a, Step(S, c, d, e), Watch(S, c, v, e))
  {
    match e
    case Bcast(o, msg) =>
      if o == c.dealer {
        DealerHeard(S, c, a, d, v, msg);
      } else if 0 <= o < c.size {
        ComplaintHeard(S, c, a, d, v, o, msg);
      }
    case Private(o, msg) =>
    case Timeout => if !d.phase.complaintsTimeout { TimeoutHeard(S, c, a, d, v); }
    case Force(_) =>
  }

  // ------------------------------------------------------------- whole runs

  ghost predicate AnswerHeard<T>(S: Suite<T>, c: Config, a: seq<nat>, es: seq<Event>, v: View<T>, k: nat)
    requires S.r > 0 && ValidConfig(c)
  {
    k < c.size && Bcast(c.dealer, TheAnswer(S, a, k)) in es ==> k in v.complaints && v.complaints[k].answerReceived
  }

  /** What the observer has learnt from the log so far. */
  ghost predicate Learnt<T>(S: Suite<T>, c: Config, a: seq<nat>, es: seq<Event>, v: View<T>)
    requires S.r > 0 && ValidConfig(c)
  {
    && (Bcast(c.dealer, TheVector(S, a)) in es ==> v.received || v.sharesTimeout)
    && (forall k :: k in v.complaints ==> k < c.size && k != c.dealer && Complained(c, es, k))
    && (forall k :: AnswerHeard(S, c, a, es, v, k))
  }

  lemma WatchKeepsAnswers<T(!new)>(S: Suite<T>, c: Config, v: View<T>, e: Event, k: nat)
    requires ValidConfig(c) && k in v.complaints && v.complaints[k].answerReceived
    ensures var v' := Watch(S, c, v, e); k in v'.complaints && v'.complaints[k].answerReceived
  {
  }

  lemma HeardEntry<T(!new)>(S: Suite<T>, c: Config, a: seq<nat>, d: State<T>, v: View<T>, e: Event, k: nat)
    requires Setting(S, c, a) && Lockstep(S, c, a, d, v) && k in Watch(S, c, v, e).complaints && k !in v.complaints
    requires e.Bcast? && e.orig == c.dealer ==> Broadcast(e.msg) in d.out || ForeignComplaint(c, e.msg)
    ensures k < c.size && k != c.dealer && e == Bcast(k, ComplaintMsg(c.dealer))
  {
    if e.Bcast? && e.orig == c.dealer {
      DealerHeard(S, c, a, d, v, e.msg);
      assert false;
    }
  }

  lemma HeardAnswer<T(!new)>(S: Suite<T>, c: Config, a: seq<nat>, d: State<T>, v: View<T>, k: nat)
    requires Setting(S, c, a) && Lockstep(S, c, a, d, v) && k < c.size
    requires Broadcast(TheAnswer(S, a, k)) in d.out
    ensures var v' := HearDealer(S, c, v, TheAnswer(S, a, k)); k in v'.complaints && v'.complaints[k].answerReceived
  {
    var m := TheAnswer(S, a, k);
    assert Said(S, c, a, d, Broadcast(m));
    assert m[0] == TAG_ANSWER && m[1] == k && TheVector(S, a)[0] == TAG_VECTOR;
    var j: nat :| j < c.size && j in d.complaints && m == TheAnswer(S, a, j);
    assert TheAnswer(S, a, j)[1] == j;
    HearTheAnswer(S, c, a, d, v, k);
  }

  lemma StepLearnt<T(!new)>(S: Suite<T>, c: Config, a: seq<nat>, es: seq<Event>, d: State<T>, v: View<T>, e: Event)
    requires Setting(S, c, a) && Lockstep(S, c, a, d, v) && Learnt(S, c, a, es, v)
    requires e.Bcast? && e.orig == c.dealer ==> Broadcast(e.msg) in d.out || ForeignComplaint(c, e.msg)
    ensures Learnt(S, c, a, es + [e], Watch(S, c, v, e))
  {
    var v', es' := Watch(S, c, v, e), es + [e];
    if e == Bcast(c.dealer, TheVector(S, a)) {
      HearTheVector(S, c, a, d, v);
    }
    forall k | k in v'.complaints
      ensures k < c.size && k != c.dealer && Complained(c, es', k)
    {
      if k in v.complaints {
        assert Complained(c, es, k);
      } else {
        HeardEntry(S, c, a, d, v, e, k);
      }
    }
    AnswersLearnt(S, c, a, es, d, v, e);
  }

  lemma AnswersLearnt<T(!new)>(S: Suite<T>, c: Config, a: seq<nat>, es: seq<Event>, d: State<T>, v: View<T>, e: Event)
    requires Setting(S, c, a) && Lockstep(S, c, a, d, v) && Learnt(S, c, a, es, v)
    requires e.Bcast? && e.orig == c.dealer ==> Broadcast(e.msg) in d.out || ForeignComplaint(c, e.msg)
    ensures forall k :: AnswerHeard(S, c, a, es + [e], Watch(S, c, v, e), k)
  {
    var v', es' := Watch(S, c, v, e), es + [e];
    forall k: nat
      ensures AnswerHeard(S, c, a, es', v', k)
    {
      assert AnswerHeard(S, c, a, es, v, k);
      if k < c.size && Bcast(c.dealer, TheAnswer(S, a, k)) in es' {
        if Bcast(c.dealer, TheAnswer(S, a, k)) in es {
          WatchKeepsAnswers(S, c, v, e, k);
        } else {
          HeardAnswer(S, c, a, d, v, k);
        }
      }
    }
  }

  lemma FreshLockstep<T(!new)>(S: Suite<T>, c: Config, a: seq<nat>)
    requires Setting(S, c, a)
    ensures Lockstep(S, c, a, Fresh(S, c, a), NoView())
  {
    var d := Fresh(S, c, a);
    forall o | o in d.out
      ensures Said(S, c, a, d, o)
    {
      OnlyShares(Shares(a, c.size, S.r), c.my, o);
    }
  }

  lemma {:induction false} OnlyShares(shares: seq<nat>, my: nat, o: Output)
    ensures o in ShareSends(shares, my) ==> o.PrivateSend?
  {
    if shares != [] {
      OnlyShares(shares[..|shares| - 1], my, o);
    }
  }

  lemma FewComplaints<T(!new)>(S: Suite<T>, c: Config, a: seq<nat>, es: seq<Event>, all: seq<Event>, v: View<T>)
    requires S.r > 0 && ValidConfig(c) && Learnt(S, c, a, es, v) && |Complainers(c, all)| <= c.threshold
    requires es <= all
    ensures |v.complaints| <= c.threshold
  {
    forall k | k in v.complaints
      ensures k in Complainers(c, all)
    {
      assert Complained(c, es, k);
    }
    SubsetSize(v.complaints.Keys, Complainers(c, all));
  }

  lemma DealerPrefix<T(!new)>(S: Suite<T>, c: Config, a: seq<nat>, es: seq<Event>, e: Event)
    requires S.r > 0 && ValidConfig(c) && DealerRun(S, c, a, es + [e])
    ensures DealerRun(S, c, a, es) && DealerAt(S, c, a, es, e)
  {
    var all := es + [e];
    assert all[..|es|] == es && all[|es|] == e;
    forall k | 0 <= k < |es|
      ensures DealerAt(S, c, a, es[..k], es[k])
    {
      assert all[..k] == es[..k];
      assert DealerAt(S, c, a, all[..k], all[k]);
    }
  }

  /** The dealer and the observer after the run es. */
  ghost predicate InLockstep<T>(S: Suite<T>, c: Config, a: seq<nat>, es: seq<Event>)
    requires S.r > 0 && ValidConfig(c)
  {
    && Lockstep(S, c, a, Run(S, c, Fresh(S, c, a), es), Observe(S, c, es))
    && Learnt(S, c, a, es, Observe(S, c, es))
  }

  lemma NextLockstep<T(!new)>(S: Suite<T>, c: Config, a: seq<nat>, es: seq<Event>, e: Event)
    requires Setting(S, c, a) && DealerAt(S, c, a, es, e) && InLockstep(S, c, a, es) && e != Force(c.dealer)
    requires var v := Observe(S, c, es);
      e == Timeout && v.sharesTimeout && !v.complaintsTimeout ==> |v.complaints| <= c.threshold
    ensures InLockstep(S, c, a, es + [e])
  {
    assert (es + [e])[..|es|] == es;
    var d, v := Run(S, c, Fresh(S, c, a), es), Observe(S, c, es);
    VectorSent(S, c, a, TheVector(S, a));
    StepLockstep(S, c, a, d, v, e);
    StepLearnt(S, c, a, es, d, v, e);
  }

  lemma {:induction false} RunLockstep<T(!new)>(S: Suite<T>, c: Config, a: seq<nat>, es: seq<Event>, all: seq<Event>)
    requires Setting(S, c, a) && DealerRun(S, c, a, es)
    requires es <= all && |Complainers(c, all)| <= c.threshold && Force(c.dealer) !in all
    ensures InLockstep(S, c, a, es)
  {
    if es == [] {
      FreshLockstep(S, c, a);
    } else {
      var n := |es| - 1;
      var es', e := es[..n], es[n];
      assert es' + [e] == es;
      DealerPrefix(S, c, a, es', e);
      RunLockstep(S, c, a, es', all);
      FewComplaints(S, c, a, es', all, Observe(S, c, es'));
      NextLockstep(S, c, a, es', e);
    }
  }

  /** The dealer's vector, once its answers have all been heard. */
  ghost predicate AllHeard<T>(S: Suite<T>, c: Config, a: seq<nat>, es: seq<Event>)
    requires S.r > 0 && ValidConfig(c)
  {
    forall m :: Broadcast(m) in Run(S, c, Fresh(S, c, a), es).out ==> Bcast(c.dealer, m) in es
  }

  lemma NothingUnanswered<T(!new)>(S: Suite<T>, c: Config, a: seq<nat>, es: seq<Event>)
    requires S.r > 0 && ValidConfig(c) && InLockstep(S, c, a, es)
    ensures !AnyUnanswered(Run(S, c, Fresh(S, c, a), es).complaints)
    ensures AllHeard(S, c, a, es) ==> !AnyUnanswered(Observe(S, c, es).complaints)
  {
    var d, v := Run(S, c, Fresh(S, c, a), es), Observe(S, c, es);
    forall k | k in d.complaints
      ensures !Unanswered(d.complaints, k)
    {
      assert Answered(S, c, a, d, k);
    }
    if AllHeard(S, c, a, es) {
      forall k | k in v.complaints
        ensures !Unanswered(v.complaints, k)
      {
        assert Answered(S, c, a, d, k);
        assert AnswerHeard(S, c, a, es, v, k);
      }
    }
  }

  // ------------------------------------------------ the order of the answers

  /** Every answer to k in the log comes after a complaint of k. */
  ghost predicate InOrder(c: Config, k: nat, es: seq<Event>)
    requires ValidConfig(c)
  {
    es == [] ||
    var n := |es| - 1;
    InOrder(c, k, es[..n]) && (IsAnswerToMe(c.(my := k), es[n]) ==> Complained(c, es[..n], k))
  }

  lemma {:induction false} ComplainedPublic(c: Config, k: nat, es: seq<Event>)
    requires ValidConfig(c)
    ensures Complained(c, es, k) <==> Complained(c, Public(es), k)
  {
    if es != [] {
      var n := |es| - 1;
      ComplainedPublic(c, k, es[..n]);
      assert es == es[..n] + [es[n]];
    }
  }

  lemma {:induction false} InOrderPublic(c: Config, k: nat, es: seq<Event>)
    requires ValidConfig(c)
    ensures InOrder(c, k, es) <==> InOrder(c, k, Public(es))
  {
    if es != [] {
      var n := |es| - 1;
      InOrderPublic(c, k, es[..n]);
      ComplainedPublic(c, k, es[..n]);
      if !es[n].Private? {
        var p := Public(es[..n]);
        assert (p + [es[n]])[..|p|] == p;
      }
    }
  }

  /** The dealer broadcasts an answer to k only on hearing the complaint of k. */
  lemma AnswersOnRequest<T(!new)>(S: Suite<T>, c: Config, d: State<T>, e: Event, k: nat, m: seq<byte>)
    requires S.r > 0 && ValidConfig(c) && c.my == c.dealer && IsAnswerToMe(c.(my := k), Bcast(c.dealer, m))
    requires Broadcast(m) in Step(S, c, d, e).out && Broadcast(m) !in d.out
    ensures e == Bcast(k, ComplaintMsg(c.dealer))
  {
    match e
    case Bcast(o, msg) =>
      if msg != [] {
        assert msg == [msg[0]] + msg[1..];
      }
    case Private(_, _) =>
    case Timeout =>
    case Force(_) =>
  }

  ghost predicate OnRequest<T>(c: Config, d: State<T>, es: seq<Event>, k: nat)
    requires ValidConfig(c)
  {
    forall m :: Broadcast(m) in d.out && IsAnswerToMe(c.(my := k), Bcast(c.dealer, m)) ==> Complained(c, es, k)
  }

  lemma {:induction false} RunOnRequest<T(!new)>(S: Suite<T>, c: Config, a: seq<nat>, es: seq<Event>, k: nat)
    requires Setting(S, c, a)
    ensures OnRequest(c, Run(S, c, Fresh(S, c, a), es), es, k)
  {
    var d := Run(S, c, Fresh(S, c, a), es);
    if es == [] {
      forall m | Broadcast(m) in d.out
        ensures m == TheVector(S, a)
      {
        OnlyShares(Shares(a, c.size, S.r), c.my, Broadcast(m));
      }
    } else {
      var n := |es| - 1;
      RunOnRequest(S, c, a, es[..n], k);
      assert es == es[..n] + [es[n]];
      forall m | Broadcast(m) in d.out && IsAnswerToMe(c.(my := k), Bcast(c.dealer, m))
        ensures Complained(c, es, k)
      {
        if Broadcast(m) !in Run(S, c, Fresh(S, c, a), es[..n]).out {
          AnswersOnRequest(S, c, Run(S, c, Fresh(S, c, a), es[..n]), es[n], k, m);
        }
      }
    }
  }

  lemma {:induction false} DealerInOrder<T(!new)>(S: Suite<T>, c: Config, a: seq<nat>, es: seq<Event>, k: nat)
    requires Setting(S, c, a) && DealerRun(S, c, a, es)
    ensures InOrder(c, k, es)
  {
    if es != [] {
      var n := |es| - 1;
      assert es[..n] + [es[n]] == es;
      DealerPrefix(S, c, a, es[..n], es[n]);
      DealerInOrder(S, c, a, es[..n], k);
      RunOnRequest(S, c, a, es[..n], k);
    }
  }

  lemma {:induction false} InOrderNotEarly<T(!new)>(S: Suite<T>, c: Config, a: seq<nat>, es: seq<Event>)
    requires S.r > 0 && ValidConfig(c) && c.my != c.dealer && CarriedRun(S, c, a, es) && InOrder(c, c.my, es)
    ensures Early(S, c, a, es) == None
  {
    if es != [] {
      var n := |es| - 1;
      CarriedPrefix(S, c, a, es);
      InOrderNotEarly(S, c, a, es[..n]);
      RunFollows(S, c, a, es[..n]);
      assert c.(my := c.my) == c;
      if IsAnswerToMe(c, es[n]) {
        var j :| 0 <= j < n && es[..n][j] == Bcast(c.my, ComplaintMsg(c.dealer));
        assert IsMyComplaint(c, es[..n][j]);
      }
    }
  }

  /** An honest dealer answers in order, so whoever hears its log is an honest run. */
  lemma DealerMakesHonest<T(!new)>(
      S: Suite<T>, c0: Config, c: Config, a: seq<nat>, a': seq<nat>, ds: seq<Event>, es: seq<Event>)
    requires Setting(S, c0, a) && DealerRun(S, c0, a, ds)
    requires ValidConfig(c) && c == c0.(my := c.my) && c.my != c.dealer
    requires CarriedRun(S, c, a', es) && Public(es) == Public(ds)
    ensures HonestRun(S, c, a', es)
  {
    DealerInOrder(S, c0, a, ds, c.my);
    InOrderPublic(c0, c.my, ds);
    InOrderPublic(c0, c.my, es);
    SameOrder(c0, c, c.my, es);
    InOrderNotEarly(S, c, a', es);
  }

  lemma {:induction false} SameOrder(c: Config, c': Config, k: nat, es: seq<Event>)
    requires ValidConfig(c) && ValidConfig(c') && c' == c.(my := c'.my)
    ensures InOrder(c, k, es) == InOrder(c', k, es)
  {
    if es != [] {
      SameOrder(c, c', k, es[..|es| - 1]);
    }
  }

  /**
   An honest dealer keeps its place. The dealer runs the code as c0 and sees the run ds; its
   vector is heard before the first timeout, at most t participants complain, and nobody
   forces a disqualification. Then no participant that sees the same log, its own complaint
   carried, ever disqualifies it, and none does at the end if the dealer's answers were heard by then.
   */
  lemma HonestDealerQualifies<T(!new)>(
      S: Suite<T>, c0: Config, c: Config, a: seq<nat>, a': seq<nat>, ds: seq<Event>, es: seq<Event>)
    requires Setting(S, c0, a) && DealerRun(S, c0, a, ds)
    requires |Complainers(c0, ds)| <= c0.threshold && Force(c0.dealer) !in ds
    requires ValidConfig(c) && c == c0.(my := c.my) && c.my != c.dealer
    requires CarriedRun(S, c, a', es) && Public(es) == Public(ds)
    ensures !At(S, c, a', es).disqualified
    ensures At(S, c, a', es).phase.complaintsTimeout && AllHeard(S, c0, a, ds) ==> !EndVerdict(At(S, c, a', es))
  {
    RunLockstep(S, c0, a, ds, ds);
    NothingUnanswered(S, c0, a, ds);
    SameObserved(S, c0, c, ds, es);
    DealerMakesHonest(S, c0, c, a, a', ds, es);
    VerdictIsPublic(S, c, a', es);
    var v := Observe(S, c, es);
    assert c.my in v.complaints ==> GoodEntry(S, a, v.complaints, c.my);
    NeverDropped(S, c, a', es);
  }

  /** The dealer stays when the log keeps it and has heard the complaint before the answer. */
  lemma NeverDropped<T(!new)>(S: Suite<T>, c: Config, a: seq<nat>, es: seq<Event>)
    requires S.r > 0 && ValidConfig(c) && c.my != c.dealer && HonestRun(S, c, a, es)
    requires var v := Observe(S, c, es); !v.disqualified && (c.my in v.complaints ==> v.complaints[c.my].received)
    ensures !At(S, c, a, es).disqualified
  {
    RunFollows(S, c, a, es);
    ObserveSplit(S, c, es);
    FirstIs(S, c, a, es);
  }

  // --------------------------------------------- agreement with the dealer

  /** Either both go on together, or both have dropped the dealer. */
  ghost predicate Together<T>(S: Suite<T>, c: Config, a: seq<nat>, es: seq<Event>)
    requires S.r > 0 && ValidConfig(c)
  {
    var d, v := Run(S, c, Fresh(S, c, a), es), Observe(S, c, es);
    InLockstep(S, c, a, es) ||
    (d.disqualified && v.disqualified && d.phase == Phase(true, v.sharesTimeout, v.complaintsTimeout))
  }

  /** The events that make both drop the dealer. */
  predicate Drops<T>(c: Config, v: View<T>, e: Event) {
    v.disqualified || e == Force(c.dealer) ||
    (e == Timeout && v.sharesTimeout && !v.complaintsTimeout && |v.complaints| > c.threshold)
  }

  lemma DropTogether<T(!new)>(S: Suite<T>, c: Config, d: State<T>, v: View<T>, e: Event)
    requires S.r > 0 && ValidConfig(c) && d.phase == Phase(true, v.sharesTimeout, v.complaintsTimeout)
    requires d.disqualified == v.disqualified && Drops(c, v, e)
    requires !d.disqualified ==> |d.complaints| == |v.complaints|
    ensures var d', v' := Step(S, c, d, e), Watch(S, c, v, e);
      d'.disqualified && v'.disqualified && d'.phase == Phase(true, v'.sharesTimeout, v'.complaintsTimeout)
  {
  }

  lemma NextTogether<T(!new)>(S: Suite<T>, c: Config, a: seq<nat>, es: seq<Event>, e: Event)
    requires Setting(S, c, a) && DealerAt(S, c, a, es, e) && Together(S, c, a, es)
    ensures Together(S, c, a, es + [e])
  {
    var v := Observe(S, c, es);
    if Drops(c, v, e) {
      assert (es + [e])[..|es|] == es;
      var d := Run(S, c, Fresh(S, c, a), es);
      if !v.disqualified {
        assert |d.complaints.Keys| == |v.complaints.Keys|;
      }
      DropTogether(S, c, d, v, e);
    } else {
      NextLockstep(S, c, a, es, e);
    }
  }

  lemma {:induction false} RunTogether<T(!new)>(S: Suite<T>, c: Config, a: seq<nat>, es: seq<Event>)
    requires Setting(S, c, a) && DealerRun(S, c, a, es)
    ensures Together(S, c, a, es)
  {
    if es == [] {
      FreshLockstep(S, c, a);
    } else {
      var es', e := es[..|es| - 1], es[|es| - 1];
      assert es' + [e] == es;
      DealerPrefix(S, c, a, es', e);
      RunTogether(S, c, a, es');
      NextTogether(S, c, a, es', e);
    }
  }

  lemma {:induction false} DealerVector<T(!new)>(S: Suite<T>, c: Config, a: seq<nat>, es: seq<Event>)
    requires Setting(S, c, a)
    ensures Run(S, c, Fresh(S, c, a), es).keys == Fresh(S, c, a).keys
  {
    if es != [] {
      var es' := es[..|es| - 1];
      DealerVector(S, c, a, es');
      RunInv(S, c, a, es');
      DealerKeeps(S, c, Run(S, c, Fresh(S, c, a), es'), es[|es| - 1]);
    }
  }

  /** An honest dealer and every honest participant reach the same verdict on it. */
  lemma DealerAgreement<T(!new)>(
      S: Suite<T>, c0: Config, c: Config, a: seq<nat>, a': seq<nat>, ds: seq<Event>, es: seq<Event>)
    requires Setting(S, c0, a) && DealerRun(S, c0, a, ds) && AllHeard(S, c0, a, ds)
    requires ValidConfig(c) && c == c0.(my := c.my) && c.my != c.dealer
    requires CarriedRun(S, c, a', es) && Public(es) == Public(ds)
    ensures var d, s := Run(S, c0, Fresh(S, c0, a), ds), At(S, c, a', es);
      && d.phase == s.phase
      && (s.phase.complaintsTimeout ==> EndVerdict(d) == EndVerdict(s))
      && (Qualified(s) ==> Qualified(d) && d.keys.vA == s.keys.vA)
  {
    RunTogether(S, c0, a, ds);
    if InLockstep(S, c0, a, ds) {
      NothingUnanswered(S, c0, a, ds);
    }
    SameObserved(S, c0, c, ds, es);
    DealerMakesHonest(S, c0, c, a, a', ds, es);
    VerdictIsPublic(S, c, a', es);
    VectorHeard(S, c, a', es);
    DealerVector(S, c0, a, ds);
  }

  lemma VectorHeard<T(!new)>(S: Suite<T>, c: Config, a: seq<nat>, es: seq<Event>)
    requires S.r > 0 && ValidConfig(c) && c.my != c.dealer && CarriedRun(S, c, a, es)
    ensures var s, v := At(S, c, a, es), Observe(S, c, es);
      s.phase.sharesTimeout && !s.disqualified && !v.disqualified ==> v.received
  {
    RunFollows(S, c, a, es);
    ObserveSplit(S, c, es);
  }
}
