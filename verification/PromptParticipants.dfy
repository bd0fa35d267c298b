// Who complains about an honest dealer (crypto/dkg_feldmanvss.go, crypto/dkg_feldmanvssq.go): nobody
// that runs the code and gets its share before the first timeout. So an honest dealer keeps its
// place as long as at most t participants are faulty or late.
module PromptParticipants {
  import opened ModArith
  import opened Bytes
  import opened Polynomials
  import opened FeldmanSpec
  import opened FeldmanSafety
  import opened FeldmanObserver
  import opened FeldmanAgreement
  import opened HonestDealer

  // --------------------------------------------------------- the vector

  /** The dealer's vector is the only one in the log. */
  ghost predicate OneVector<T>(S: Suite<T>, c: Config, a: seq<nat>, es: seq<Event>) {
    forall m :: Bcast(c.dealer, m) in es && m != [] && m[0] == TAG_VECTOR ==> m == TheVector(S, a)
  }

  /** No step makes a participant broadcast a vector. */
  lemma NoNewVector<T(!new)>(S: Suite<T>, c: Config, d: State<T>, e: Event, m: seq<byte>)
    requires S.r > 0 && ValidConfig(c) && m != [] && m[0] == TAG_VECTOR && Broadcast(m) in Step(S, c, d, e).out
    ensures Broadcast(m) in d.out
  {
    match e
    case Bcast(o, msg) => if 0 <= o < c.size { NoNewVectorHeard(S, c, d, o, msg, m); }
    case Private(_, _) =>
    case Timeout =>
    case Force(_) =>
  }

  lemma NoNewVectorHeard<T(!new)>(S: Suite<T>, c: Config, d: State<T>, orig: nat, msg: seq<byte>, m: seq<byte>)
    requires S.r > 0 && ValidConfig(c) && orig < c.size && m != [] && m[0] == TAG_VECTOR
    requires Broadcast(m) in OnBroadcast(S, c, d, orig, msg).out
    ensures Broadcast(m) in d.out
  {
  }

  lemma {:induction false} OneVectorOut<T(!new)>(S: Suite<T>, c: Config, a: seq<nat>, es: seq<Event>, m: seq<byte>)
    requires Setting(S, c, a) && m != [] && m[0] == TAG_VECTOR && Broadcast(m) in Run(S, c, Fresh(S, c, a), es).out
    ensures m == TheVector(S, a)
  {
    if es == [] {
      VectorSent(S, c, a, m);
    } else {
      var n := |es| - 1;
      NoNewVector(S, c, Run(S, c, Fresh(S, c, a), es[..n]), es[n], m);
      OneVectorOut(S, c, a, es[..n], m);
    }
  }

  lemma DealerOneVector<T(!new)>(S: Suite<T>, c: Config, a: seq<nat>, es: seq<Event>)
    requires Setting(S, c, a) && DealerRun(S, c, a, es)
    ensures OneVector(S, c, a, es)
  {
    forall m | Bcast(c.dealer, m) in es && m != [] && m[0] == TAG_VECTOR
      ensures m == TheVector(S, a)
    {
      var k :| 0 <= k < |es| && es[k] == Bcast(c.dealer, m);
      assert DealerAt(S, c, a, es[..k], es[k]);
      OneVectorOut(S, c, a, es[..k], m);
    }
  }

  lemma {:induction false} PublicHas(es: seq<Event>, e: Event)
    requires !e.Private?
    ensures e in es <==> e in Public(es)
  {
    if es != [] {
      var n := |es| - 1;
      PublicHas(es[..n], e);
      assert es == es[..n] + [es[n]];
    }
  }

  lemma SameOneVector<T(!new)>(S: Suite<T>, c: Config, a: seq<nat>, ds: seq<Event>, es: seq<Event>)
    requires OneVector(S, c, a, ds) && Public(ds) == Public(es)
    ensures OneVector(S, c, a, es)
  {
    forall m | Bcast(c.dealer, m) in es && m != [] && m[0] == TAG_VECTOR
      ensures m == TheVector(S, a)
    {
      PublicHas(es, Bcast(c.dealer, m));
      PublicHas(ds, Bcast(c.dealer, m));
    }
  }

  // --------------------------------------------------------- the shares

  lemma {:induction false} ShareSendsHas(shares: seq<nat>, my: nat, k: nat, m: seq<byte>)
    ensures PrivateSend(k, m) in ShareSends(shares, my) <==> k < |shares| && k != my && m == ShareMsg(shares[k])
  {
    if shares != [] {
      ShareSendsHas(shares[..|shares| - 1], my, k, m);
    }
  }

  /**
   On starting, the dealer sends participant k the share tag and the 32 bytes of P(k + 1) mod r;
   others send nothing.
   */
  lemma SharesSent<T(!new)>(S: Suite<T>, c: Config, a: seq<nat>, k: nat, m: seq<byte>)
    requires S.r > 0 && ValidConfig(c)
    ensures PrivateSend(k, m) in Fresh(S, c, a).out <==>
      && c.my == c.dealer && k < c.size && k != c.my
      && m == [TAG_SHARE] + ToBytes(Eval(a, k + 1) % S.r, SCALAR_LEN)
  {
    ShareSendsHas(Shares(a, c.size, S.r), c.my, k, m);
  }

  /** No step sends anything privately. */
  lemma NoNewSend<T(!new)>(S: Suite<T>, c: Config, d: State<T>, e: Event, k: nat, m: seq<byte>)
    requires S.r > 0 && ValidConfig(c) && PrivateSend(k, m) in Step(S, c, d, e).out
    ensures PrivateSend(k, m) in d.out
  {
    match e
    case Bcast(o, msg) => if 0 <= o < c.size { NoNewSendHeard(S, c, d, o, msg, k, m); }
    case Private(_, _) =>
    case Timeout =>
    case Force(_) =>
  }

  lemma NoNewSendHeard<T(!new)>(S: Suite<T>, c: Config, d: State<T>, orig: nat, msg: seq<byte>, k: nat, m: seq<byte>)
    requires S.r > 0 && ValidConfig(c) && orig < c.size && PrivateSend(k, m) in OnBroadcast(S, c, d, orig, msg).out
    ensures PrivateSend(k, m) in d.out
  {
  }

  lemma {:induction false} RunSends<T(!new)>(S: Suite<T>, c: Config, a: seq<nat>, es: seq<Event>, k: nat, m: seq<byte>)
    requires S.r > 0 && ValidConfig(c) && PrivateSend(k, m) in At(S, c, a, es).out
    ensures PrivateSend(k, m) in Fresh(S, c, a).out
  {
    if es != [] {
      var n := |es| - 1;
      NoNewSend(S, c, At(S, c, a, es[..n]), es[n], k, m);
      RunSends(S, c, a, es[..n], k, m);
    }
  }

  function TheShare<T>(S: Suite<T>, a: seq<nat>, k: nat): seq<byte>
    requires S.r > 0
  {
    ShareMsg(ShareAt(S, a, k))
  }

  /** e is the share of this participant if it comes privately from the dealer, and the share precedes a timeout. */
  ghost predicate ServedAt<T>(S: Suite<T>, c: Config, a: seq<nat>, es: seq<Event>, e: Event)
    requires S.r > 0
  {
    && (e.Private? && e.orig == c.dealer ==> e.msg == TheShare(S, a, c.my))
    && (e == Timeout ==> Private(c.dealer, TheShare(S, a, c.my)) in es)
  }

  ghost predicate Served<T>(S: Suite<T>, c: Config, a: seq<nat>, es: seq<Event>)
    requires S.r > 0
  {
    forall k :: 0 <= k < |es| ==> ServedAt(S, c, a, es[..k], es[k])
  }

  /**
   The private channel from the dealer, which deals as c0 and sees ds, carries only what the dealer sent
   to this participant, and carries it before the first timeout.
   */
  ghost predicate PromptAt<T>(
      S: Suite<T>, c0: Config, a: seq<nat>, ds: seq<Event>, c: Config, es: seq<Event>, e: Event)
    requires S.r > 0 && ValidConfig(c0)
  {
    && (e.Private? && e.orig == c.dealer ==> PrivateSend(c.my, e.msg) in At(S, c0, a, ds).out)
    && (e == Timeout ==> exists m :: Private(c.dealer, m) in es)
  }

  ghost predicate Prompt<T>(S: Suite<T>, c0: Config, a: seq<nat>, ds: seq<Event>, c: Config, es: seq<Event>)
    requires S.r > 0 && ValidConfig(c0)
  {
    forall k :: 0 <= k < |es| ==> PromptAt(S, c0, a, ds, c, es[..k], es[k])
  }

  /** What the dealer sent is the share. */
  lemma SentIsShare<T(!new)>(S: Suite<T>, c0: Config, a: seq<nat>, ds: seq<Event>, k: nat, m: seq<byte>)
    requires S.r > 0 && ValidConfig(c0) && PrivateSend(k, m) in At(S, c0, a, ds).out
    ensures m == TheShare(S, a, k)
  {
    RunSends(S, c0, a, ds, k, m);
    SharesSent(S, c0, a, k, m);
  }

  lemma PromptIsServed<T(!new)>(S: Suite<T>, c0: Config, a: seq<nat>, ds: seq<Event>, c: Config, es: seq<Event>)
    requires S.r > 0 && ValidConfig(c0) && Prompt(S, c0, a, ds, c, es)
    ensures Served(S, c, a, es)
  {
    forall k | 0 <= k < |es|
      ensures ServedAt(S, c, a, es[..k], es[k])
    {
      assert PromptAt(S, c0, a, ds, c, es[..k], es[k]);
      if es[k].Private? && es[k].orig == c.dealer {
        SentIsShare(S, c0, a, ds, c.my, es[k].msg);
      }
      if es[k] == Timeout {
        var m :| Private(c.dealer, m) in es[..k];
        var j :| 0 <= j < k && es[j] == Private(c.dealer, m);
        assert PromptAt(S, c0, a, ds, c, es[..j], es[j]);
        SentIsShare(S, c0, a, ds, c.my, m);
      }
    }
  }

  // ------------------------------------------------- no reason to complain

  /** A participant with no reason to complain. */
  ghost predicate Content<T>(S: Suite<T>, c: Config, a: seq<nat>, s: State<T>)
    requires S.r > 0 && ValidConfig(c)
  {
    && !Spoke(c, s) && s.phase.running
    && (!s.disqualified ==>
          && (s.share.received ==> s.share.x == ShareAt(S, a, c.my))
          && (s.keys.received ==> s.keys.y == PublicKeys(S.G, Commit(S, a), c.size))
          && (c.my in s.complaints ==> !s.complaints[c.my].received))
  }

  ghost predicate Pleased<T(!new)>(S: Suite<T>, c: Config, a: seq<nat>, s: State<T>) {
    && ValidSuite(S) && ValidConfig(c) && c.my != c.dealer && |a| == c.threshold + 1
    && Content(S, c, a, s) && !s.disqualified
  }

  lemma ContentShare<T(!new)>(S: Suite<T>, c: Config, a: seq<nat>, s: State<T>, orig: nat, msg: seq<byte>)
    requires Pleased(S, c, a, s) && (orig == c.dealer ==> msg == TheShare(S, a, c.my))
    ensures var s' := OnShare(S, c, s, orig, msg);
      Content(S, c, a, s') && (orig == c.dealer ==> s'.share.received || s.phase.sharesTimeout)
  {
    SpokeEmit(c, s, Flag(orig));
    if orig == c.dealer {
      var x := ShareAt(S, a, c.my);
      assert msg[1..] == ToBytes(x, SCALAR_LEN);
      ScalarFits(x);
      ShareAtVerifies(S, a, c.my);
    }
  }

  lemma ContentVector<T(!new)>(S: Suite<T>, c: Config, a: seq<nat>, s: State<T>, msg: seq<byte>)
    requires Pleased(S, c, a, s) && msg == TheVector(S, a)
    ensures Content(S, c, a, OnVector(S, c, s, c.dealer, msg[1..]))
  {
    ReadEncodedVector(S, Commit(S, a));
    assert msg[1..] == EncodeVector(S, Commit(S, a));
    ShareAtVerifies(S, a, c.my);
    SpokeEmit(c, s, Flag(c.dealer));
    SpokeEmit(c, s, Disqualify(c.dealer));
  }

  lemma ContentAnswer<T(!new)>(S: Suite<T>, c: Config, a: seq<nat>, s: State<T>, k: nat, x: nat)
    requires Pleased(S, c, a, s)
    ensures Content(S, c, a, ApplyAnswer(S, c, s, k, x))
  {
    SpokeEmit(c, s, Flag(c.dealer));
    SpokeEmit(c, s, Disqualify(c.dealer));
  }

  lemma ContentDealer<T(!new)>(S: Suite<T>, c: Config, a: seq<nat>, s: State<T>, msg: seq<byte>)
    requires Pleased(S, c, a, s) && (msg != [] && msg[0] == TAG_VECTOR ==> msg == TheVector(S, a))
    ensures Content(S, c, a, OnBroadcast(S, c, s, c.dealer, msg))
  {
    SpokeEmit(c, s, Flag(c.dealer));
    SpokeEmit(c, s, Disqualify(c.dealer));
    if msg != [] {
      var data := msg[1..];
      if msg[0] == TAG_VECTOR {
        ContentVector(S, c, a, s, msg);
      } else if msg[0] == TAG_ANSWER && |data| == 1 + SCALAR_LEN && data[0] < c.size {
        ContentAnswer(S, c, a, s, data[0], FromBytes(data[1..]));
      }
    }
  }

  lemma ContentOther<T(!new)>(S: Suite<T>, c: Config, a: seq<nat>, s: State<T>, orig: nat, msg: seq<byte>)
    requires Pleased(S, c, a, s) && orig < c.size && orig != c.dealer && orig != c.my
    ensures Content(S, c, a, OnBroadcast(S, c, s, orig, msg))
  {
    SpokeEmit(c, s, Flag(orig));
    SpokeEmit(c, s, Disqualify(orig));
    SpokeEmit(c, s, Disqualify(c.dealer));
    if msg != ComplaintMsg(c.dealer) || s.phase.complaintsTimeout {
      Ignored(S, c, s, orig, msg);
    } else {
      assert msg[1..] == [c.dealer];
    }
  }

  lemma ContentTimeout<T(!new)>(S: Suite<T>, c: Config, a: seq<nat>, s: State<T>)
    requires Pleased(S, c, a, s) && (s.share.received || s.phase.sharesTimeout)
    ensures Content(S, c, a, OnTimeout(c, s))
  {
    SpokeEmit(c, s, Disqualify(c.dealer));
  }

  lemma ContentStep<T(!new)>(S: Suite<T>, c: Config, a: seq<nat>, s: State<T>, e: Event)
    requires ValidSuite(S) && ValidConfig(c) && c.my != c.dealer && |a| == c.threshold + 1 && Content(S, c, a, s)
    requires e.Private? && e.orig == c.dealer ==> e.msg == TheShare(S, a, c.my)
    requires e.Bcast? && e.orig == c.dealer && e.msg != [] && e.msg[0] == TAG_VECTOR ==> e.msg == TheVector(S, a)
    requires e == Timeout && !s.disqualified ==> s.share.received || s.phase.sharesTimeout
    ensures Content(S, c, a, Step(S, c, s, e))
  {
    if !s.disqualified && StatusOf(c, s, e) == Ok {
      match e
      case Bcast(o, msg) =>
        if o == c.dealer {
          ContentDealer(S, c, a, s, msg);
        } else if o != c.my {
          ContentOther(S, c, a, s, o, msg);
        }
      case Private(o, msg) => if o != c.my { ContentShare(S, c, a, s, o, msg); }
      case Timeout => ContentTimeout(S, c, a, s);
      case Force(_) =>
    }
  }

  // --------------------------------------------------------- whole runs

  /** The share has arrived, unless the dealer is lost or the time for shares is over. */
  ghost predicate GotShare<T>(S: Suite<T>, c: Config, a: seq<nat>, es: seq<Event>, s: State<T>)
    requires S.r > 0
  {
    Private(c.dealer, TheShare(S, a, c.my)) in es ==> s.disqualified || s.share.received || s.phase.sharesTimeout
  }

  lemma GotShareStep<T(!new)>(S: Suite<T>, c: Config, a: seq<nat>, es: seq<Event>, s: State<T>, e: Event)
    requires ValidSuite(S) && ValidConfig(c) && c.my != c.dealer && |a| == c.threshold + 1 && Content(S, c, a, s)
    requires GotShare(S, c, a, es, s)
    ensures GotShare(S, c, a, es + [e], Step(S, c, s, e))
  {
    if e == Private(c.dealer, TheShare(S, a, c.my)) {
      if !s.disqualified {
        ContentShare(S, c, a, s, c.dealer, e.msg);
      }
    } else {
      SharesStay(S, c, s, e);
    }
  }

  lemma SharesStay<T(!new)>(S: Suite<T>, c: Config, s: State<T>, e: Event)
    requires S.r > 0 && ValidConfig(c)
    ensures var s' := Step(S, c, s, e);
      && (s.disqualified ==> s'.disqualified) && (s.share.received ==> s'.share.received)
      && (s.phase.sharesTimeout ==> s'.phase.sharesTimeout)
  {
    DisqualifiedForever(S, c, s, e);
  }

  lemma ServedPrefix<T(!new)>(S: Suite<T>, c: Config, a: seq<nat>, es: seq<Event>)
    requires S.r > 0 && Served(S, c, a, es) && OneVector(S, c, a, es) && es != []
    ensures var n := |es| - 1;
      Served(S, c, a, es[..n]) && OneVector(S, c, a, es[..n]) && ServedAt(S, c, a, es[..n], es[n])
  {
    var n := |es| - 1;
    forall k | 0 <= k < n
      ensures ServedAt(S, c, a, es[..n][..k], es[..n][k])
    {
      assert es[..n][..k] == es[..k];
      assert ServedAt(S, c, a, es[..k], es[k]);
    }
    forall m | Bcast(c.dealer, m) in es[..n] && m != [] && m[0] == TAG_VECTOR
      ensures m == TheVector(S, a)
    {
      assert Bcast(c.dealer, m) in es;
    }
  }

  lemma {:induction false} RunContent<T(!new)>(S: Suite<T>, c: Config, a: seq<nat>, a': seq<nat>, es: seq<Event>)
    requires ValidSuite(S) && ValidConfig(c) && c.my != c.dealer && |a| == c.threshold + 1
    requires Served(S, c, a, es) && OneVector(S, c, a, es)
    ensures Content(S, c, a, At(S, c, a', es)) && GotShare(S, c, a, es, At(S, c, a', es))
  {
    if es != [] {
      var n := |es| - 1;
      var s := At(S, c, a', es[..n]);
      ServedPrefix(S, c, a, es);
      RunContent(S, c, a, a', es[..n]);
      assert es == es[..n] + [es[n]];
      ContentStep(S, c, a, s, es[n]);
      GotShareStep(S, c, a, es[..n], s, es[n]);
    }
  }

  /**
   A participant that runs the code and gets its share from an honest dealer before the first timeout
   never broadcasts a complaint against that dealer.
   */
  lemma NeverComplains<T(!new)>(
      S: Suite<T>, c0: Config, c: Config, a: seq<nat>, a': seq<nat>, ds: seq<Event>, es: seq<Event>)
    requires Setting(S, c0, a) && DealerRun(S, c0, a, ds)
    requires ValidConfig(c) && c == c0.(my := c.my) && c.my != c.dealer
    requires Public(es) == Public(ds) && Prompt(S, c0, a, ds, c, es)
    ensures !Spoke(c, At(S, c, a', es))
  {
    DealerOneVector(S, c0, a, ds);
    SameOneVector(S, c0, a, ds, es);
    PromptIsServed(S, c0, a, ds, c, es);
    RunContent(S, c, a, a', es);
  }

  /** Then the log has no complaint of that participant either. */
  lemma NoComplaintHeard<T(!new)>(
      S: Suite<T>, c0: Config, c: Config, a: seq<nat>, a': seq<nat>, ds: seq<Event>, es: seq<Event>)
    requires Setting(S, c0, a) && DealerRun(S, c0, a, ds)
    requires ValidConfig(c) && c == c0.(my := c.my) && c.my != c.dealer
    requires Public(es) == Public(ds) && Prompt(S, c0, a, ds, c, es) && CarriedRun(S, c, a', es)
    ensures !Complained(c0, ds, c.my)
  {
    NeverComplains(S, c0, c, a, a', ds, es);
    RunFollows(S, c, a', es);
    var e := Bcast(c.my, ComplaintMsg(c.dealer));
    PublicHas(ds, e);
    PublicHas(es, e);
  }

  /** Participant k runs the code on the log of ds, its complaint carried, and its share comes in time. */
  ghost predicate IsPrompt<T>(
      S: Suite<T>, c0: Config, a: seq<nat>, ds: seq<Event>, k: nat, a': seq<nat>, es: seq<Event>)
    requires S.r > 0 && ValidConfig(c0)
  {
    k < c0.size &&
    var c := c0.(my := k);
    Public(es) == Public(ds) && Prompt(S, c0, a, ds, c, es) && CarriedRun(S, c, a', es)
  }

  lemma FewComplainers<T(!new)>(
      S: Suite<T>, c0: Config, a: seq<nat>, ds: seq<Event>, late: set<nat>, polys: map<nat, seq<nat>>,
      runs: map<nat, seq<Event>>)
    requires Setting(S, c0, a) && DealerRun(S, c0, a, ds)
    requires forall k :: 0 <= k < c0.size && k != c0.dealer && k !in late ==>
      k in polys && k in runs && IsPrompt(S, c0, a, ds, k, polys[k], runs[k])
    ensures |Complainers(c0, ds)| <= |late|
  {
    forall k | k in Complainers(c0, ds)
      ensures k in late
    {
      if k !in late {
        NoComplaintHeard(S, c0, c0.(my := k), a, polys[k], ds, runs[k]);
      }
    }
    SubsetSize(Complainers(c0, ds), late);
  }

  /**
   An honest dealer keeps its place: if all but t participants run the code and get their shares before
   the first timeout, then no participant that sees the same log, its own complaint carried, ever
   disqualifies the dealer, and none does at the end if the dealer's answers were heard by then.
   */
  lemma HonestDealerStays<T(!new)>(
      S: Suite<T>, c0: Config, a: seq<nat>, ds: seq<Event>, late: set<nat>, polys: map<nat, seq<nat>>,
      runs: map<nat, seq<Event>>, c: Config, a': seq<nat>, es: seq<Event>)
    requires Setting(S, c0, a) && DealerRun(S, c0, a, ds) && Force(c0.dealer) !in ds && |late| <= c0.threshold
    requires forall k :: 0 <= k < c0.size && k != c0.dealer && k !in late ==>
      k in polys && k in runs && IsPrompt(S, c0, a, ds, k, polys[k], runs[k])
    requires ValidConfig(c) && c == c0.(my := c.my) && c.my != c.dealer
    requires CarriedRun(S, c, a', es) && Public(es) == Public(ds)
    ensures !At(S, c, a', es).disqualified
    ensures At(S, c, a', es).phase.complaintsTimeout && AllHeard(S, c0, a, ds) ==> !EndVerdict(At(S, c, a', es))
  {
    FewComplainers(S, c0, a, ds, late, polys, runs);
    HonestDealerQualifies(S, c0, c, a, a', ds, es);
  }
}
