// What a participant of Feldman VSS with complaints sends and reports
// (crypto/dkg_feldmanvssq.go), in terms of the events it has received.
module FeldmanReports {
  import opened Bytes
  import opened Polynomials
  import opened FeldmanSpec
  import opened FeldmanSafety
  import opened FeldmanAgreement
  import opened HonestDealer

  /** Before it is started, a participant does nothing. */
  lemma {:induction false} NothingBeforeStart<T(!new)>(S: Suite<T>, c: Config, es: seq<Event>)
    requires S.r > 0 && ValidConfig(c)
    ensures Run(S, c, Init(), es) == Init()
  {
    if es != [] {
      NothingBeforeStart(S, c, es[..|es| - 1]);
    }
  }

  // ---------------------------------------------------------- disqualification

  lemma StepReports<T(!new)>(S: Suite<T>, c: Config, s: State<T>, e: Event)
    requires S.r > 0 && ValidConfig(c) && s.phase.running
    ensures var s' := Step(S, c, s, e);
      && (Disqualify(c.dealer) in s.out ==> Disqualify(c.dealer) in s'.out)
      && (Disqualify(c.dealer) in s'.out ==> Disqualify(c.dealer) in s.out || s'.disqualified)
      && (e == Force(c.dealer) ==> s'.disqualified)
      && (s'.disqualified && !s.disqualified ==> e == Force(c.dealer) || Disqualify(c.dealer) in s'.out)
  {
    match e
    case Bcast(o, msg) => if 0 <= o < c.size { HeardReports(S, c, s, o, msg); }
    case Private(_, _) =>
    case Timeout =>
    case Force(_) =>
  }

  lemma HeardReports<T(!new)>(S: Suite<T>, c: Config, s: State<T>, orig: nat, msg: seq<byte>)
    requires S.r > 0 && ValidConfig(c) && orig < c.size
    ensures var s' := OnBroadcast(S, c, s, orig, msg);
      && (Disqualify(c.dealer) in s.out ==> Disqualify(c.dealer) in s'.out)
      && (Disqualify(c.dealer) in s'.out ==> Disqualify(c.dealer) in s.out || s'.disqualified)
      && (s'.disqualified && !s.disqualified ==> Disqualify(c.dealer) in s'.out)
  {
  }

  /** Over every run, the dealer is disqualified exactly when that was reported or asked for from outside. */
  lemma {:induction false} DisqualifiedIsReported<T(!new)>(S: Suite<T>, c: Config, a: seq<nat>, es: seq<Event>)
    requires S.r > 0 && ValidConfig(c)
    ensures At(S, c, a, es).phase.running
    ensures At(S, c, a, es).disqualified <==> Disqualify(c.dealer) in At(S, c, a, es).out || Force(c.dealer) in es
  {
    if es == [] {
      OnlyShares(Shares(a, c.size, S.r), c.my, Disqualify(c.dealer));
    } else {
      var n := |es| - 1;
      DisqualifiedIsReported(S, c, a, es[..n]);
      StepReports(S, c, At(S, c, a, es[..n]), es[n]);
      DisqualifiedForever(S, c, At(S, c, a, es[..n]), es[n]);
      assert es == es[..n] + [es[n]];
    }
  }

  // ------------------------------------------------------------------- history

  function Timeouts(es: seq<Event>): nat {
    if es == [] then 0 else Timeouts(es[..|es| - 1]) + (if es[|es| - 1] == Timeout then 1 else 0)
  }

  ghost predicate ShareSeen(c: Config, es: seq<Event>) {
    exists m :: Private(c.dealer, m) in es
  }

  ghost predicate VectorSeen(c: Config, es: seq<Event>) {
    exists m :: Bcast(c.dealer, m) in es && m != [] && m[0] == TAG_VECTOR
  }

  ghost predicate ComplaintSeen(c: Config, es: seq<Event>, o: nat)
    requires ValidConfig(c)
  {
    Bcast(o, ComplaintMsg(c.dealer)) in es
  }

  ghost predicate ComplaintKnown<T>(s: State<T>, o: nat) {
    o in s.complaints && s.complaints[o].received
  }

  lemma NextPhase<T(!new)>(S: Suite<T>, c: Config, s: State<T>, e: Event)
    requires S.r > 0 && ValidConfig(c) && s.phase.running
    ensures Step(S, c, s, e).phase ==
      if e != Timeout || s.phase.complaintsTimeout then s.phase
      else if s.phase.sharesTimeout then s.phase.(complaintsTimeout := true)
      else s.phase.(sharesTimeout := true)
  {
  }

  lemma {:induction false} PhaseByTimeouts<T(!new)>(S: Suite<T>, c: Config, a: seq<nat>, es: seq<Event>)
    requires S.r > 0 && ValidConfig(c)
    ensures At(S, c, a, es).phase == Phase(true, Timeouts(es) >= 1, Timeouts(es) >= 2)
  {
    if es != [] {
      var n := |es| - 1;
      PhaseByTimeouts(S, c, a, es[..n]);
      NextPhase(S, c, At(S, c, a, es[..n]), es[n]);
    }
  }

  /** What a participant knows of the messages it was sent, as long as they are in time. */
  ghost predicate Knows<T>(c: Config, es: seq<Event>, s: State<T>)
    requires ValidConfig(c)
  {
    && (Timeouts(es) == 0 ==> (s.share.received <==> ShareSeen(c, es)) && (s.keys.received <==> VectorSeen(c, es)))
    && (Timeouts(es) <= 1 ==> forall o: nat :: KnowsOf(c, es, s, o))
  }

  ghost predicate KnowsOf<T>(c: Config, es: seq<Event>, s: State<T>, o: nat)
    requires ValidConfig(c)
  {
    o < c.size && o != c.my && o != c.dealer ==> (ComplaintKnown(s, o) <==> ComplaintSeen(c, es, o))
  }

  lemma SeenMore(c: Config, es: seq<Event>, e: Event, o: nat)
    requires ValidConfig(c)
    ensures ShareSeen(c, es + [e]) <==> ShareSeen(c, es) || (e.Private? && e.orig == c.dealer)
    ensures VectorSeen(c, es + [e]) <==>
      VectorSeen(c, es) || (e.Bcast? && e.orig == c.dealer && e.msg != [] && e.msg[0] == TAG_VECTOR)
    ensures ComplaintSeen(c, es + [e], o) <==> ComplaintSeen(c, es, o) || e == Bcast(o, ComplaintMsg(c.dealer))
    ensures Timeouts(es + [e]) == Timeouts(es) + if e == Timeout then 1 else 0
  {
    assert (es + [e])[..|es|] == es;
    if e.Private? && e.orig == c.dealer {
      assert Private(c.dealer, e.msg) in es + [e];
    }
    if e.Bcast? && e.orig == c.dealer && e.msg != [] && e.msg[0] == TAG_VECTOR {
      assert Bcast(c.dealer, e.msg) in es + [e];
    }
    if ShareSeen(c, es) {
      var m :| Private(c.dealer, m) in es;
      assert Private(c.dealer, m) in es + [e];
    }
    if VectorSeen(c, es) {
      var m :| Bcast(c.dealer, m) in es && m != [] && m[0] == TAG_VECTOR;
      assert Bcast(c.dealer, m) in es + [e];
    }
  }

  lemma StepReceives<T(!new)>(S: Suite<T>, c: Config, s: State<T>, e: Event)
    requires S.r > 0 && ValidConfig(c) && c.my != c.dealer && s.phase.running && !s.phase.sharesTimeout
    requires !s.disqualified && e != Timeout
    ensures var s' := Step(S, c, s, e);
      && (s'.share.received <==> s.share.received || (e.Private? && e.orig == c.dealer))
      && (s'.keys.received <==>
            s.keys.received || (e.Bcast? && e.orig == c.dealer && e.msg != [] && e.msg[0] == TAG_VECTOR))
  {
    match e
    case Bcast(o, msg) => if 0 <= o < c.size { HeardVector(S, c, s, o, msg); }
    case Private(_, _) =>
    case Force(_) =>
  }

  lemma HeardVector<T(!new)>(S: Suite<T>, c: Config, s: State<T>, orig: nat, msg: seq<byte>)
    requires S.r > 0 && ValidConfig(c) && orig < c.size && !s.phase.sharesTimeout
    ensures var s' := OnBroadcast(S, c, s, orig, msg);
      && s'.share.received == s.share.received
      && (s'.keys.received <==> s.keys.received || (orig == c.dealer && msg != [] && msg[0] == TAG_VECTOR))
  {
  }

  lemma StepComplaint<T(!new)>(S: Suite<T>, c: Config, s: State<T>, e: Event, o: nat)
    requires S.r > 0 && ValidConfig(c) && s.phase.running && !s.phase.complaintsTimeout && !s.disqualified
    requires o < c.size && o != c.my && o != c.dealer
    ensures ComplaintKnown(Step(S, c, s, e), o) <==> ComplaintKnown(s, o) || e == Bcast(o, ComplaintMsg(c.dealer))
  {
    match e
    case Bcast(orig, msg) => if 0 <= orig < c.size { HeardComplaint(S, c, s, orig, msg, o); }
    case Private(_, _) =>
    case Timeout =>
    case Force(_) =>
  }

  lemma HeardComplaint<T(!new)>(S: Suite<T>, c: Config, s: State<T>, orig: nat, msg: seq<byte>, o: nat)
    requires S.r > 0 && ValidConfig(c) && !s.phase.complaintsTimeout && orig < c.size
    requires o < c.size && o != c.my && o != c.dealer
    ensures ComplaintKnown(OnBroadcast(S, c, s, orig, msg), o) <==>
      ComplaintKnown(s, o) || (orig == o && msg == ComplaintMsg(c.dealer))
  {
    if msg != [] && msg[0] == TAG_COMPLAINT && |msg| == 2 {
      assert msg == [msg[0], msg[1]];
    }
  }

  lemma {:induction false} RunKnows<T(!new)>(S: Suite<T>, c: Config, a: seq<nat>, es: seq<Event>)
    requires S.r > 0 && ValidConfig(c) && c.my != c.dealer && !At(S, c, a, es).disqualified
    ensures Knows(c, es, At(S, c, a, es))
  {
    if es != [] {
      var n := |es| - 1;
      var es', e := es[..n], es[n];
      var s := At(S, c, a, es');
      DisqualifiedForever(S, c, s, e);
      PhaseByTimeouts(S, c, a, es');
      RunKnows(S, c, a, es');
      assert es == es' + [e];
      SeenMore(c, es', e, 0);
      if Timeouts(es) == 0 {
        StepReceives(S, c, s, e);
      }
      if Timeouts(es) <= 1 {
        forall o: nat
          ensures KnowsOf(c, es, Step(S, c, s, e), o)
        {
          assert KnowsOf(c, es', s, o);
          SeenMore(c, es', e, o);
          if o < c.size && o != c.my && o != c.dealer {
            StepComplaint(S, c, s, e, o);
          }
        }
      }
    }
  }

  // -------------------------------------------------------------------- replies

  /** What handling e adds to the outputs after the run es. */
  ghost predicate Replies<T>(S: Suite<T>, c: Config, a: seq<nat>, es: seq<Event>, e: Event, more: seq<Output>)
    requires S.r > 0 && ValidConfig(c)
  {
    Step(S, c, At(S, c, a, es), e).out == At(S, c, a, es).out + more
  }

  ghost predicate IsShare<T>(S: Suite<T>, msg: seq<byte>, x: nat) {
    x < S.r && msg == ShareMsg(x)
  }

  lemma ShareIn<T(!new)>(S: Suite<T>, msg: seq<byte>, x: nat)
    requires ValidSuite(S)
    ensures IsShare(S, msg, x) <==>
      |msg| == 1 + SCALAR_LEN && msg[0] == TAG_SHARE && x == FromBytes(msg[1..]) < S.r
  {
    if IsShare(S, msg, x) {
      ScalarFits(x);
      assert msg[1..] == ToBytes(x, SCALAR_LEN);
    }
    if |msg| == 1 + SCALAR_LEN {
      ToFromBytes(msg[1..]);
      assert msg == [msg[0]] + msg[1..];
    }
  }

  /**
   The reply to a private message of the dealer: a flag if it is late or not the first one, a complaint
   and a flag if it is no share at all, and a complaint if it is a share that the vector refutes.
   */
  lemma ShareReply<T(!new)>(S: Suite<T>, c: Config, a: seq<nat>, es: seq<Event>, msg: seq<byte>, x: nat)
    requires ValidSuite(S) && ValidConfig(c) && c.my != c.dealer && !At(S, c, a, es).disqualified
    ensures var e, complaint := Private(c.dealer, msg), Broadcast(ComplaintMsg(c.dealer));
      && (Timeouts(es) > 0 || ShareSeen(c, es) ==> Replies(S, c, a, es, e, [Flag(c.dealer)]))
      && (Timeouts(es) == 0 && !ShareSeen(c, es) && (forall y :: !IsShare(S, msg, y)) ==>
            Replies(S, c, a, es, e, [complaint, Flag(c.dealer)]))
      && (Timeouts(es) == 0 && !ShareSeen(c, es) && IsShare(S, msg, x) ==>
            var y := At(S, c, a, es).keys.y;
            var refuted := VectorSeen(c, es) && !(c.my < |y| && VerifyShare(S, x, y[c.my]));
            Replies(S, c, a, es, e, if refuted then [complaint] else []))
  {
    RunKnows(S, c, a, es);
    PhaseByTimeouts(S, c, a, es);
    ShareIn(S, msg, x);
    ShareIn(S, msg, if msg == [] then 0 else FromBytes(msg[1..]));
  }

  /** Handling e after the run es only reports that p misbehaves. */
  ghost predicate Flagged<T>(S: Suite<T>, c: Config, a: seq<nat>, es: seq<Event>, e: Event, p: nat)
    requires S.r > 0 && ValidConfig(c)
  {
    var s := At(S, c, a, es);
    var out := Step(S, c, s, e).out;
    |out| == |s.out| + 1 && out[|s.out|] == Flag(p) && Step(S, c, s, e) == s.(out := out)
  }

  /** A vector of the dealer is flagged exactly when it is late or not the first one. */
  lemma VectorFlag<T(!new)>(S: Suite<T>, c: Config, a: seq<nat>, es: seq<Event>, data: seq<byte>)
    requires S.r > 0 && ValidConfig(c) && c.my != c.dealer && !At(S, c, a, es).disqualified
    ensures Flagged(S, c, a, es, Bcast(c.dealer, [TAG_VECTOR] + data), c.dealer) <==>
      Timeouts(es) > 0 || VectorSeen(c, es)
  {
    RunKnows(S, c, a, es);
    PhaseByTimeouts(S, c, a, es);
  }

  /** A complaint against the dealer is flagged exactly when it is late or not the first one of its sender. */
  lemma ComplaintFlag<T(!new)>(S: Suite<T>, c: Config, a: seq<nat>, es: seq<Event>, o: nat)
    requires S.r > 0 && ValidConfig(c) && c.my != c.dealer && !At(S, c, a, es).disqualified
    requires o < c.size && o != c.my && o != c.dealer
    ensures Flagged(S, c, a, es, Bcast(o, ComplaintMsg(c.dealer)), o) <==>
      Timeouts(es) > 1 || ComplaintSeen(c, es, o)
  {
    RunKnows(S, c, a, es);
    PhaseByTimeouts(S, c, a, es);
    assert Timeouts(es) <= 1 ==> KnowsOf(c, es, At(S, c, a, es), o);
  }
}
