// Agreement on the dealer: the verdict of an honest participant against the one that the broadcast
// log implies (crypto/dkg_feldmanvssq.go). A participant that never complained follows the log
// exactly; one that did follows the log from its complaint on, and forgets an answer that came before.
module FeldmanAgreement {
  import opened Bytes
  import opened Polynomials
  import opened FeldmanSpec
  import opened FeldmanSafety
  import opened FeldmanObserver

  // ------------------------------------------------------- honest behaviour

  predicate IsMyComplaint(c: Config, e: Event)
    requires ValidConfig(c)
  {
    e == Bcast(c.my, ComplaintMsg(c.dealer))
  }

  predicate Spoke<T>(c: Config, s: State<T>)
    requires ValidConfig(c)
  {
    Broadcast(ComplaintMsg(c.dealer)) in s.out
  }

  ghost predicate Delivered(c: Config, es: seq<Event>)
    requires ValidConfig(c)
  {
    exists k :: 0 <= k < |es| && IsMyComplaint(c, es[k])
  }

  ghost function At<T>(S: Suite<T>, c: Config, a: seq<nat>, es: seq<Event>): State<T>
    requires ValidConfig(c) && S.r > 0
  {
    Run(S, c, Fresh(S, c, a), es)
  }

  /**
   The broadcast channel carries this participant's complaint: at e it appears only after it was
   sent and before the complaints timeout, and the complaints timeout waits for it.
   */
  ghost predicate CarriedAt<T>(S: Suite<T>, c: Config, a: seq<nat>, es: seq<Event>, e: Event)
    requires ValidConfig(c) && S.r > 0
  {
    var s := At(S, c, a, es);
    && (IsMyComplaint(c, e) ==> Spoke(c, s) && !s.phase.complaintsTimeout)
    && (e == Timeout && s.phase.sharesTimeout && Spoke(c, s) ==> Delivered(c, es))
  }

  ghost predicate CarriedRun<T>(S: Suite<T>, c: Config, a: seq<nat>, es: seq<Event>)
    requires ValidConfig(c) && S.r > 0
  {
    forall k :: 0 <= k < |es| ==> CarriedAt(S, c, a, es[..k], es[k])
  }

  /** The first answer that reaches this participant before it complains. */
  ghost function Early<T>(S: Suite<T>, c: Config, a: seq<nat>, es: seq<Event>): Option<nat>
    requires ValidConfig(c) && S.r > 0
  {
    if es == [] then None
    else
      var es', e := es[..|es| - 1], es[|es| - 1];
      var before := Early(S, c, a, es');
      if before == None && IsAnswerToMe(c, e) && !Spoke(c, At(S, c, a, es')) then Some(AnswerIn(c, e)) else before
  }

  /** The first answer that reaches it after it has complained. */
  ghost function Late<T>(S: Suite<T>, c: Config, a: seq<nat>, es: seq<Event>): Option<nat>
    requires ValidConfig(c) && S.r > 0
  {
    if es == [] then None
    else
      var es', e := es[..|es| - 1], es[|es| - 1];
      var before := Late(S, c, a, es');
      if before == None && IsAnswerToMe(c, e) && Spoke(c, At(S, c, a, es')) then Some(AnswerIn(c, e)) else before
  }

  /** No complaint of this participant was answered before it was made. */
  ghost predicate NotAnticipated<T>(S: Suite<T>, c: Config, a: seq<nat>, es: seq<Event>)
    requires ValidConfig(c) && S.r > 0
  {
    Spoke(c, At(S, c, a, es)) ==> Early(S, c, a, es) == None
  }

  ghost predicate HonestRun<T>(S: Suite<T>, c: Config, a: seq<nat>, es: seq<Event>)
    requires ValidConfig(c) && S.r > 0
  {
    CarriedRun(S, c, a, es) && NotAnticipated(S, c, a, es)
  }

  // ------------------------------------------------------------ what was said

  lemma SpokeEmit<T>(c: Config, s: State<T>, o: Output)
    requires ValidConfig(c)
    ensures Spoke(c, Emit(s, o)) <==> Spoke(c, s) || o == Broadcast(ComplaintMsg(c.dealer))
  {
  }

  lemma SpokeStays<T(!new)>(S: Suite<T>, c: Config, s: State<T>, e: Event)
    requires ValidConfig(c) && S.r > 0 && Spoke(c, s)
    ensures Spoke(c, Step(S, c, s, e))
  {
    assert s.out <= Step(S, c, s, e).out;
  }

  lemma {:induction false} FirstIs<T(!new)>(S: Suite<T>, c: Config, a: seq<nat>, es: seq<Event>)
    requires ValidConfig(c) && S.r > 0
    ensures Late(S, c, a, es).Some? ==> Spoke(c, At(S, c, a, es))
    ensures First(c, es) == (if Early(S, c, a, es).Some? then Early(S, c, a, es) else Late(S, c, a, es))
  {
    if es != [] {
      var es', e := es[..|es| - 1], es[|es| - 1];
      FirstIs(S, c, a, es');
      if Spoke(c, At(S, c, a, es')) {
        SpokeStays(S, c, At(S, c, a, es'), e);
      }
    }
  }

  lemma CarriedPrefix<T(!new)>(S: Suite<T>, c: Config, a: seq<nat>, es: seq<Event>)
    requires S.r > 0 && ValidConfig(c) && CarriedRun(S, c, a, es) && es != []
    ensures var n := |es| - 1; CarriedRun(S, c, a, es[..n]) && CarriedAt(S, c, a, es[..n], es[n])
  {
    var n := |es| - 1;
    forall k | 0 <= k < n
      ensures CarriedAt(S, c, a, es[..n][..k], es[..n][k])
    {
      assert es[..n][..k] == es[..k];
      assert CarriedAt(S, c, a, es[..k], es[k]);
    }
  }

  lemma DeliveredNext(c: Config, es: seq<Event>)
    requires ValidConfig(c) && es != []
    ensures var n := |es| - 1; Delivered(c, es) <==> Delivered(c, es[..n]) || IsMyComplaint(c, es[n])
  {
    var n := |es| - 1;
    if Delivered(c, es[..n]) {
      var k :| 0 <= k < n && IsMyComplaint(c, es[..n][k]);
      assert IsMyComplaint(c, es[k]);
    }
    if Delivered(c, es) {
      var k :| 0 <= k <= n && IsMyComplaint(c, es[k]);
      assert k < n ==> es[..n][k] == es[k];
    }
  }

  /** Anything but a timely complaint against the dealer only causes a report. */
  lemma Ignored<T(!new)>(S: Suite<T>, c: Config, s: State<T>, orig: nat, msg: seq<byte>)
    requires S.r > 0 && ValidConfig(c) && orig < c.size && orig != c.dealer
    requires msg != ComplaintMsg(c.dealer) || s.phase.complaintsTimeout
    ensures var s' := OnBroadcast(S, c, s, orig, msg);
      s' == s || s' == Emit(s, Flag(orig)) || s' == Emit(s, Disqualify(orig))
  {
    if msg != [] && msg[0] == TAG_COMPLAINT {
      assert msg == [msg[0]] + msg[1..];
    }
  }

  // ------------------------------------------------- before the complaint

  ghost predicate SamePhase<T>(s: State<T>, v: View<T>) {
    && s.phase == Phase(true, v.sharesTimeout, v.complaintsTimeout)
    && (v.complaintsTimeout ==> v.sharesTimeout)
  }

  /** A participant that has not complained knows what the observer knows. */
  ghost predicate Twin<T>(c: Config, s: State<T>, v: View<T>) {
    && SamePhase(s, v) && s.disqualified == v.disqualified
    && (!s.disqualified ==>
          && s.keys.received == v.received && s.keys.vA == v.vA && s.keys.y == v.y
          && s.complaints == v.complaints
          && (c.my in s.complaints ==> !s.complaints[c.my].received))
  }

  ghost predicate Silent<T>(S: Suite<T>, c: Config, s: State<T>, v: View<T>) {
    S.r > 0 && ValidConfig(c) && c.my != c.dealer && Twin(c, s, v) && !s.disqualified && !Spoke(c, s)
  }

  lemma TwinVector<T(!new)>(S: Suite<T>, c: Config, s: State<T>, v: View<T>, data: seq<byte>)
    requires Silent(S, c, s, v) && !Spoke(c, OnVector(S, c, s, c.dealer, data))
    ensures Twin(c, OnVector(S, c, s, c.dealer, data), HearVector(S, c, v, data))
  {
    var s' := OnVector(S, c, s, c.dealer, data);
    if s'.keys != s.keys && |data| == POINT_LEN * (c.threshold + 1) && ReadVector(S, data, c.threshold + 1).Some? {
      var s1 := s.(keys := s'.keys);
      assert s' == CheckVector(S, c, s1);
      SpokeEmit(c, s1.(complaints := s1.complaints[c.my := Complaint(true, false, 0)]),
                Broadcast(ComplaintMsg(c.dealer)));
    }
  }

  lemma TwinAnswer<T(!new)>(S: Suite<T>, c: Config, s: State<T>, v: View<T>, k: nat, x: nat)
    requires Silent(S, c, s, v)
    ensures Twin(c, ApplyAnswer(S, c, s, k, x), HearAnswer(S, v, k, x))
  {
  }

  lemma TwinDealer<T(!new)>(S: Suite<T>, c: Config, s: State<T>, v: View<T>, msg: seq<byte>)
    requires Silent(S, c, s, v) && !Spoke(c, OnBroadcast(S, c, s, c.dealer, msg))
    ensures Twin(c, OnBroadcast(S, c, s, c.dealer, msg), HearDealer(S, c, v, msg))
  {
    if msg != [] {
      var data := msg[1..];
      if msg[0] == TAG_VECTOR {
        TwinVector(S, c, s, v, data);
      } else if msg[0] == TAG_ANSWER && |data| == 1 + SCALAR_LEN && data[0] < c.size {
        assert data[1..] == msg[2..];
        TwinAnswer(S, c, s, v, data[0], FromBytes(data[1..]));
      }
    }
  }

  lemma TwinOther<T(!new)>(S: Suite<T>, c: Config, s: State<T>, v: View<T>, orig: nat, msg: seq<byte>)
    requires Silent(S, c, s, v) && orig < c.size && orig != c.dealer && orig != c.my
    ensures Twin(c, OnBroadcast(S, c, s, orig, msg), HearOther(S, c, v, orig, msg))
  {
    if msg == ComplaintMsg(c.dealer) && !s.phase.complaintsTimeout {
      assert msg[1..] == [c.dealer];
    } else {
      Ignored(S, c, s, orig, msg);
    }
  }

  lemma TwinPrivate<T(!new)>(S: Suite<T>, c: Config, s: State<T>, v: View<T>, orig: nat, msg: seq<byte>)
    requires Silent(S, c, s, v) && !Spoke(c, OnShare(S, c, s, orig, msg))
    ensures Twin(c, OnShare(S, c, s, orig, msg), v)
  {
    SpokeEmit(c, s, Broadcast(ComplaintMsg(c.dealer)));
    SpokeEmit(c, Complain(c, s), Flag(orig));
  }

  lemma TwinTimeout<T(!new)>(S: Suite<T>, c: Config, s: State<T>, v: View<T>)
    requires Silent(S, c, s, v) && !s.phase.complaintsTimeout && !Spoke(c, OnTimeout(c, s))
    ensures Twin(c, OnTimeout(c, s), HearTimeout(c, v))
  {
    if !s.phase.sharesTimeout && s.keys.received {
      SpokeEmit(c, s, Broadcast(ComplaintMsg(c.dealer)));
    }
  }

  lemma TwinStep<T(!new)>(S: Suite<T>, c: Config, s: State<T>, v: View<T>, e: Event)
    requires S.r > 0 && ValidConfig(c) && c.my != c.dealer && Twin(c, s, v) && !Spoke(c, s)
    requires !Spoke(c, Step(S, c, s, e)) && !IsMyComplaint(c, e)
    ensures Twin(c, Step(S, c, s, e), Watch(S, c, v, e))
  {
    if !s.disqualified && StatusOf(c, s, e) == Ok {
      match e
      case Bcast(o, msg) =>
        if o == c.dealer {
          TwinDealer(S, c, s, v, msg);
        } else if o != c.my {
          TwinOther(S, c, s, v, o, msg);
        }
      case Private(o, msg) => if o != c.my { TwinPrivate(S, c, s, v, o, msg); }
      case Timeout => TwinTimeout(S, c, s, v);
      case Force(_) =>
    }
  }

  // -------------------------------------------------- after the complaint

  ghost predicate SameAs<T>(c: Config, s: State<T>, o: View<T>) {
    && s.keys.received == o.received && s.keys.vA == o.vA && s.keys.y == o.y
    && OthersAgree(c.my, s.complaints, o.complaints)
  }

  /** This participant's complaint, and the answer b it has kept. */
  ghost predicate OwnComplaint<T>(c: Config, s: State<T>, b: Option<nat>) {
    && c.my in s.complaints
    && s.complaints[c.my] == Complaint(true, b.Some?, if b.Some? then b.value else 0)
    && (b.Some? ==> s.share.x == b.value)
    && (s.share.received || s.phase.sharesTimeout)
  }

  /** A participant that has complained knows the log without the answers to it, and one answer b. */
  ghost predicate Spoken<T>(S: Suite<T>, c: Config, s: State<T>, o: View<T>, b: Option<nat>) {
    && SamePhase(s, o) && Shaped(c, o)
    && (o.disqualified ==> s.disqualified)
    && (!o.disqualified ==>
          && OwnHeard(c.my, o.complaints)
          && (s.disqualified <==> b.Some? && Wrong(S, c, o, b.value)))
    && (!s.disqualified ==> SameAs(c, s, o) && OwnComplaint(c, s, b))
  }

  ghost predicate Vocal<T>(S: Suite<T>, c: Config, s: State<T>, o: View<T>, b: Option<nat>) {
    S.r > 0 && ValidConfig(c) && c.my != c.dealer && Spoken(S, c, s, o, b) && !s.disqualified
  }

  lemma WrongSpoken<T(!new)>(S: Suite<T>, c: Config, s: State<T>, o: View<T>, b: Option<nat>, y: seq<T>)
    requires Vocal(S, c, s, o, b) && |y| == c.size
    ensures AnyWrongAnswer(S, y, s.complaints) <==>
      AnyWrongAnswer(S, y, o.complaints) || (b.Some? && !VerifyShare(S, b.value, y[c.my]))
  {
    forall k | k != c.my
      ensures WrongAnswer(S, y, s.complaints, k) <==> WrongAnswer(S, y, o.complaints, k)
    {
      assert SameEntry(s.complaints, o.complaints, k);
    }
    assert !WrongAnswer(S, y, o.complaints, c.my);
    assert WrongAnswer(S, y, s.complaints, c.my) <==> b.Some? && !VerifyShare(S, b.value, y[c.my]);
  }

  lemma SpokenVector<T(!new)>(S: Suite<T>, c: Config, s: State<T>, o: View<T>, b: Option<nat>, data: seq<byte>)
    requires Vocal(S, c, s, o, b)
    ensures Spoken(S, c, OnVector(S, c, s, c.dealer, data), HearVector(S, c, o, data), b)
  {
    var s' := OnVector(S, c, s, c.dealer, data);
    if s'.keys != s.keys && |data| == POINT_LEN * (c.threshold + 1) && ReadVector(S, data, c.threshold + 1).Some? {
      var s1 := s.(keys := s'.keys);
      assert s' == CheckVector(S, c, s1);
      WrongSpoken(S, c, s, o, b, s1.keys.y);
      OthersUpdate(c.my, s.complaints, o.complaints, c.my, Complaint(true, false, 0));
    }
  }

  lemma SpokenAnswer<T(!new)>(S: Suite<T>, c: Config, s: State<T>, o: View<T>, b: Option<nat>, k: nat, x: nat)
    requires Vocal(S, c, s, o, b) && k != c.my
    ensures Spoken(S, c, ApplyAnswer(S, c, s, k, x), HearAnswer(S, o, k, x), b)
  {
    assert SameEntry(s.complaints, o.complaints, k);
    OthersUpdate(c.my, s.complaints, o.complaints, k, Complaint(false, true, x));
    OthersUpdate(c.my, s.complaints, o.complaints, k, Complaint(true, true, x));
    if k in s.complaints {
      OthersUpdate(c.my, s.complaints, o.complaints, k, s.complaints[k].(answerReceived := true));
    }
  }

  lemma SpokenMine<T(!new)>(S: Suite<T>, c: Config, s: State<T>, o: View<T>, b: Option<nat>, x: nat)
    requires Vocal(S, c, s, o, b)
    ensures Spoken(S, c, ApplyAnswer(S, c, s, c.my, x), o, if b == None then Some(x) else b)
  {
    OthersUpdate(c.my, s.complaints, o.complaints, c.my, Complaint(true, true, x));
  }

  lemma SpokenDealer<T(!new)>(S: Suite<T>, c: Config, s: State<T>, o: View<T>, b: Option<nat>, msg: seq<byte>)
    requires Vocal(S, c, s, o, b)
    ensures var e := Bcast(c.dealer, msg);
      Spoken(S, c, OnBroadcast(S, c, s, c.dealer, msg), WatchOthers(S, c, o, e),
             if b == None && IsAnswerToMe(c, e) then Some(AnswerIn(c, e)) else b)
  {
    var e := Bcast(c.dealer, msg);
    if msg != [] {
      var data := msg[1..];
      if msg[0] == TAG_VECTOR {
        SpokenVector(S, c, s, o, b, data);
      } else if msg[0] == TAG_ANSWER && |data| == 1 + SCALAR_LEN && data[0] < c.size {
        assert data[1..] == msg[2..];
        if data[0] == c.my {
          SpokenMine(S, c, s, o, b, AnswerIn(c, e));
        } else {
          SpokenAnswer(S, c, s, o, b, data[0], FromBytes(data[1..]));
        }
      }
    }
  }

  lemma SpokenOther<T(!new)>(S: Suite<T>, c: Config, s: State<T>, o: View<T>, b: Option<nat>, orig: nat, msg: seq<byte>)
    requires Vocal(S, c, s, o, b) && orig < c.size && orig != c.dealer && orig != c.my
    ensures Spoken(S, c, OnBroadcast(S, c, s, orig, msg), HearOther(S, c, o, orig, msg), b)
  {
    if msg == ComplaintMsg(c.dealer) && !s.phase.complaintsTimeout {
      assert msg[1..] == [c.dealer];
      assert SameEntry(s.complaints, o.complaints, orig);
      OthersUpdate(c.my, s.complaints, o.complaints, orig, Complaint(true, false, 0));
      if orig in s.complaints {
        OthersUpdate(c.my, s.complaints, o.complaints, orig, s.complaints[orig].(received := true));
      }
    } else {
      Ignored(S, c, s, orig, msg);
    }
  }

  lemma SpokenOwn<T(!new)>(S: Suite<T>, c: Config, s: State<T>, o: View<T>, b: Option<nat>, msg: seq<byte>)
    requires Vocal(S, c, s, o, b)
    ensures Spoken(S, c, s, HearOther(S, c, o, c.my, msg), b)
  {
    OthersUpdate(c.my, s.complaints, o.complaints, c.my, Complaint(true, false, 0));
  }

  lemma SpokenTimeout<T(!new)>(S: Suite<T>, c: Config, s: State<T>, o: View<T>, b: Option<nat>)
    requires Vocal(S, c, s, o, b) && !s.phase.complaintsTimeout
    requires s.phase.sharesTimeout ==> c.my in o.complaints
    ensures Spoken(S, c, OnTimeout(c, s), HearTimeout(c, o), b)
  {
    if s.phase.sharesTimeout {
      forall k
        ensures k in s.complaints.Keys <==> k in o.complaints.Keys
      {
        assert k == c.my || SameEntry(s.complaints, o.complaints, k);
      }
      assert s.complaints.Keys == o.complaints.Keys;
      assert |s.complaints| == |s.complaints.Keys| && |o.complaints| == |o.complaints.Keys|;
    }
  }

  lemma SpokenStep<T(!new)>(S: Suite<T>, c: Config, s: State<T>, o: View<T>, b: Option<nat>, e: Event)
    requires S.r > 0 && ValidConfig(c) && c.my != c.dealer && Spoken(S, c, s, o, b)
    requires e == Timeout && s.phase.sharesTimeout && !o.disqualified ==> c.my in o.complaints
    ensures Spoken(S, c, Step(S, c, s, e), WatchOthers(S, c, o, e),
                   if b == None && IsAnswerToMe(c, e) then Some(AnswerIn(c, e)) else b)
  {
    if s.disqualified {
      ShapedStep(S, c, o, e);
      if !o.disqualified {
        GroundStays(S, c, o, e, b.value);
      }
    } else if StatusOf(c, s, e) == Ok {
      match e
      case Bcast(k, msg) =>
        if k == c.dealer {
          SpokenDealer(S, c, s, o, b, msg);
        } else if k != c.my {
          SpokenOther(S, c, s, o, b, k, msg);
        } else {
          SpokenOwn(S, c, s, o, b, msg);
        }
      case Private(_, _) =>
      case Timeout => SpokenTimeout(S, c, s, o, b);
      case Force(_) =>
    }
  }

  // -------------------------------------------------------- the complaint

  ghost predicate Quiet<T>(S: Suite<T>, c: Config, s: State<T>, v: View<T>, o: View<T>, f: Option<nat>) {
    Silent(S, c, s, v) && Split(S, c, v, o, f)
  }

  lemma WrongQuiet<T(!new)>(S: Suite<T>, c: Config, s: State<T>, v: View<T>, o: View<T>, f: Option<nat>, y: seq<T>)
    requires Quiet(S, c, s, v, o, f) && |y| == c.size && !AnyWrongAnswer(S, y, s.complaints)
    ensures !AnyWrongAnswer(S, y, o.complaints)
  {
    WrongSplit(S, c, v, o, f, y);
  }

  lemma SpeakVector<T(!new)>(
      S: Suite<T>, c: Config, s: State<T>, v: View<T>, o: View<T>, f: Option<nat>, data: seq<byte>)
    requires Quiet(S, c, s, v, o, f) && Spoke(c, OnVector(S, c, s, c.dealer, data))
    ensures Spoken(S, c, OnVector(S, c, s, c.dealer, data), HearVector(S, c, o, data), None)
  {
    var s' := OnVector(S, c, s, c.dealer, data);
    SpokeEmit(c, s, Flag(c.dealer));
    SpokeEmit(c, s, Disqualify(c.dealer));
    var s1 := s.(keys := s'.keys);
    assert s' == CheckVector(S, c, s1);
    WrongQuiet(S, c, s, v, o, f, s1.keys.y);
    OthersUpdate(c.my, s.complaints, o.complaints, c.my, Complaint(true, false, 0));
  }

  lemma SpeakPrivate<T(!new)>(
      S: Suite<T>, c: Config, s: State<T>, v: View<T>, o: View<T>, f: Option<nat>, orig: nat, msg: seq<byte>)
    requires Quiet(S, c, s, v, o, f) && Spoke(c, OnShare(S, c, s, orig, msg))
    ensures Spoken(S, c, OnShare(S, c, s, orig, msg), o, None)
  {
    SpokeEmit(c, s, Flag(orig));
    OthersUpdate(c.my, s.complaints, o.complaints, c.my, Complaint(true, false, 0));
  }

  lemma SpeakTimeout<T(!new)>(S: Suite<T>, c: Config, s: State<T>, v: View<T>, o: View<T>, f: Option<nat>)
    requires Quiet(S, c, s, v, o, f) && !s.phase.complaintsTimeout && Spoke(c, OnTimeout(c, s))
    ensures !s.phase.sharesTimeout && Spoken(S, c, OnTimeout(c, s), HearTimeout(c, o), None)
  {
    SpokeEmit(c, s, Disqualify(c.dealer));
    OthersUpdate(c.my, s.complaints, o.complaints, c.my, Complaint(true, false, 0));
  }

  /** Nothing but a share, a vector or the first timeout makes a participant complain. */
  lemma OnlySpeaks<T(!new)>(S: Suite<T>, c: Config, s: State<T>, e: Event)
    requires S.r > 0 && ValidConfig(c) && c.my != c.dealer && !Spoke(c, s) && Spoke(c, Step(S, c, s, e))
    ensures !s.disqualified && !s.phase.sharesTimeout && StatusOf(c, s, e) == Ok
    ensures e.Private? || e == Timeout || (e.Bcast? && e.orig == c.dealer && e.msg != [] && e.msg[0] == TAG_VECTOR)
  {
  }

  lemma Speaks<T(!new)>(S: Suite<T>, c: Config, s: State<T>, v: View<T>, o: View<T>, f: Option<nat>, e: Event)
    requires S.r > 0 && ValidConfig(c) && c.my != c.dealer && Twin(c, s, v) && Split(S, c, v, o, f)
    requires !Spoke(c, s) && Spoke(c, Step(S, c, s, e))
    ensures Spoken(S, c, Step(S, c, s, e), WatchOthers(S, c, o, e), None)
    ensures !IsAnswerToMe(c, e) && !s.phase.sharesTimeout
  {
    OnlySpeaks(S, c, s, e);
    match e
    case Bcast(_, msg) => SpeakVector(S, c, s, v, o, f, msg[1..]);
    case Private(k, msg) => SpeakPrivate(S, c, s, v, o, f, k, msg);
    case Timeout => SpeakTimeout(S, c, s, v, o, f);
  }

  // ------------------------------------------------------------ whole runs

  /** What a participant knows, against the two observers. */
  ghost predicate Knows<T>(S: Suite<T>, c: Config, s: State<T>, v: View<T>, o: View<T>, b: Option<nat>)
    requires ValidConfig(c)
  {
    if Spoke(c, s) then Spoken(S, c, s, o, b) else Twin(c, s, v)
  }

  lemma KnowsNext<T(!new)>(
      S: Suite<T>, c: Config, s: State<T>, v: View<T>, o: View<T>, f: Option<nat>, b: Option<nat>, e: Event)
    requires S.r > 0 && ValidConfig(c) && c.my != c.dealer && Split(S, c, v, o, f)
    requires Knows(S, c, s, v, o, b) && (b.Some? ==> Spoke(c, s))
    requires IsMyComplaint(c, e) ==> Spoke(c, s)
    requires e == Timeout && s.phase.sharesTimeout && Spoke(c, s) && !o.disqualified ==> c.my in o.complaints
    ensures var b' := if b == None && IsAnswerToMe(c, e) && Spoke(c, s) then Some(AnswerIn(c, e)) else b;
      Knows(S, c, Step(S, c, s, e), Watch(S, c, v, e), WatchOthers(S, c, o, e), b')
    ensures Spoke(c, Step(S, c, s, e)) ==> Spoke(c, s) || !s.phase.sharesTimeout
    ensures Spoke(c, s) ==> Spoke(c, Step(S, c, s, e))
  {
    if Spoke(c, s) {
      SpokeStays(S, c, s, e);
      SpokenStep(S, c, s, o, b, e);
    } else if Spoke(c, Step(S, c, s, e)) {
      Speaks(S, c, s, v, o, f, e);
    } else {
      TwinStep(S, c, s, v, e);
    }
  }

  /** This participant's complaint on its way: sent before it is heard, and heard by the complaints timeout. */
  ghost predicate Conveyed<T>(c: Config, s: State<T>, o: View<T>, delivered: bool)
    requires ValidConfig(c)
  {
    && (delivered ==> Spoke(c, s))
    && (!o.disqualified ==> (c.my in o.complaints <==> delivered))
    && (s.phase.complaintsTimeout && Spoke(c, s) ==> delivered)
  }

  lemma HeardNext<T(!new)>(S: Suite<T>, c: Config, o: View<T>, e: Event)
    requires ValidConfig(c) && c.my != c.dealer && Shaped(c, o) && (!o.disqualified ==> OwnHeard(c.my, o.complaints))
    requires IsMyComplaint(c, e) ==> !o.complaintsTimeout
    ensures var o' := WatchOthers(S, c, o, e);
      !o'.disqualified ==>
        !o.disqualified && (c.my in o'.complaints <==> c.my in o.complaints || IsMyComplaint(c, e))
  {
    if !o.disqualified {
      GroundStays(S, c, o, e, 0);
    }
  }

  lemma PhaseNext<T(!new)>(S: Suite<T>, c: Config, s: State<T>, e: Event)
    requires S.r > 0 && ValidConfig(c)
    ensures Step(S, c, s, e).phase.complaintsTimeout && !s.phase.complaintsTimeout ==>
      e == Timeout && s.phase.sharesTimeout
  {
  }

  ghost predicate Follows<T>(S: Suite<T>, c: Config, a: seq<nat>, es: seq<Event>)
    requires S.r > 0 && ValidConfig(c)
  {
    var s, v, o := At(S, c, a, es), Observe(S, c, es), ObserveOthers(S, c, es);
    && SamePhase(s, v) && Knows(S, c, s, v, o, Late(S, c, a, es))
    && Conveyed(c, s, o, Delivered(c, es))
  }

  lemma FollowsNext<T(!new)>(S: Suite<T>, c: Config, a: seq<nat>, es: seq<Event>)
    requires S.r > 0 && ValidConfig(c) && c.my != c.dealer && es != []
    requires var n := |es| - 1; Follows(S, c, a, es[..n]) && CarriedAt(S, c, a, es[..n], es[n])
    ensures Follows(S, c, a, es)
  {
    var n := |es| - 1;
    var es', e := es[..n], es[n];
    var s, v, o := At(S, c, a, es'), Observe(S, c, es'), ObserveOthers(S, c, es');
    ObserveSplit(S, c, es');
    ObserveSplit(S, c, es);
    FirstIs(S, c, a, es');
    DeliveredNext(c, es);
    HeardNext(S, c, o, e);
    PhaseNext(S, c, s, e);
    KnowsNext(S, c, s, v, o, First(c, es'), Late(S, c, a, es'), e);
  }

  lemma {:induction false} RunFollows<T(!new)>(S: Suite<T>, c: Config, a: seq<nat>, es: seq<Event>)
    requires S.r > 0 && ValidConfig(c) && c.my != c.dealer && CarriedRun(S, c, a, es)
    ensures Follows(S, c, a, es)
  {
    if es != [] {
      CarriedPrefix(S, c, a, es);
      RunFollows(S, c, a, es[..|es| - 1]);
      FollowsNext(S, c, a, es);
    }
  }

  // --------------------------------------------------------------- verdicts

  /** The dealer is lost whatever it answered to this participant. */
  ghost predicate OtherGround<T>(c: Config, o: View<T>) {
    o.disqualified || exists k :: k in o.complaints && k != c.my && Unanswered(o.complaints, k)
  }

  /** The answer is this participant's share. */
  predicate Correct<T>(S: Suite<T>, c: Config, o: View<T>, x: nat) {
    x < S.r && c.my < |o.y| && VerifyShare(S, x, o.y[c.my])
  }

  ghost predicate Closed<T>(c: Config, o: View<T>) {
    Shaped(c, o) && o.complaintsTimeout && (!o.disqualified ==> c.my in o.complaints)
  }

  lemma SpokenVerdict<T(!new)>(S: Suite<T>, c: Config, s: State<T>, o: View<T>, b: Option<nat>)
    requires ValidConfig(c) && Spoken(S, c, s, o, b) && Closed(c, o)
    ensures EndVerdict(s) <==> OtherGround(c, o) || !(b.Some? && Correct(S, c, o, b.value))
  {
    if !s.disqualified {
      forall k | k != c.my
        ensures Unanswered(s.complaints, k) <==> Unanswered(o.complaints, k)
      {
        assert SameEntry(s.complaints, o.complaints, k);
      }
      assert Unanswered(s.complaints, c.my) <==> b == None;
    }
  }

  lemma SplitVerdict<T(!new)>(S: Suite<T>, c: Config, v: View<T>, o: View<T>, f: Option<nat>)
    requires ValidConfig(c) && Split(S, c, v, o, f) && Closed(c, o)
    ensures Verdict(v) <==> OtherGround(c, o) || !(f.Some? && Correct(S, c, o, f.value))
  {
    if !v.disqualified {
      forall k | k != c.my
        ensures Unanswered(v.complaints, k) <==> Unanswered(o.complaints, k)
      {
        assert SameEntry(v.complaints, o.complaints, k);
      }
      assert Unanswered(v.complaints, c.my) <==> f == None;
    }
  }

  /**
   When the verdict of this participant is the one of the log: something else already decides it,
   it never complained, no answer came before its complaint, or the first answer before and the
   first answer after the complaint are equally good.
   */
  ghost predicate Faithful<T>(S: Suite<T>, c: Config, a: seq<nat>, es: seq<Event>)
    requires S.r > 0 && ValidConfig(c)
  {
    var s, o := At(S, c, a, es), ObserveOthers(S, c, es);
    var early, late := Early(S, c, a, es), Late(S, c, a, es);
    OtherGround(c, o) || !Spoke(c, s) || early == None ||
    (Correct(S, c, o, early.value) <==> late.Some? && Correct(S, c, o, late.value))
  }

  /** Exactly when the verdict of an honest participant is the verdict implied by the log. */
  lemma VerdictIsPublicIff<T(!new)>(S: Suite<T>, c: Config, a: seq<nat>, es: seq<Event>)
    requires S.r > 0 && ValidConfig(c) && c.my != c.dealer && CarriedRun(S, c, a, es)
    requires At(S, c, a, es).phase.complaintsTimeout
    ensures EndVerdict(At(S, c, a, es)) == Verdict(Observe(S, c, es)) <==> Faithful(S, c, a, es)
  {
    var s, v, o := At(S, c, a, es), Observe(S, c, es), ObserveOthers(S, c, es);
    RunFollows(S, c, a, es);
    ObserveSplit(S, c, es);
    FirstIs(S, c, a, es);
    if Spoke(c, s) {
      SpokenVerdict(S, c, s, o, Late(S, c, a, es));
      SplitVerdict(S, c, v, o, First(c, es));
    }
  }

  /** No answer to this participant's complaint has overtaken the complaint. */
  ghost predicate Settled<T>(S: Suite<T>, c: Config, a: seq<nat>, es: seq<Event>)
    requires S.r > 0 && ValidConfig(c)
  {
    Late(S, c, a, es).Some? ==> Delivered(c, es)
  }

  /** Refinement: the verdict of an honest participant is the verdict implied by the log. */
  lemma VerdictIsPublic<T(!new)>(S: Suite<T>, c: Config, a: seq<nat>, es: seq<Event>)
    requires S.r > 0 && ValidConfig(c) && c.my != c.dealer && HonestRun(S, c, a, es)
    ensures var s, v := At(S, c, a, es), Observe(S, c, es);
      && SamePhase(s, v)
      && (s.phase.complaintsTimeout ==> Settled(S, c, a, es) && EndVerdict(s) == Verdict(v))
      && (Settled(S, c, a, es) ==> s.disqualified == v.disqualified)
      && (!s.disqualified && !v.disqualified ==> s.keys.vA == v.vA)
  {
    RunFollows(S, c, a, es);
    ObserveSplit(S, c, es);
    FirstIs(S, c, a, es);
    if At(S, c, a, es).phase.complaintsTimeout {
      VerdictIsPublicIff(S, c, a, es);
    }
  }

  /**
   Agreement. Two honest participants that see the same broadcasts and timeouts in the same
   order reach the same verdict on the dealer, whatever private messages each of them gets;
   and if they qualify it, they hold the same vector.
   */
  lemma Agreement<T(!new)>(
      S: Suite<T>, c: Config, c': Config, a: seq<nat>, a': seq<nat>, es: seq<Event>, es': seq<Event>)
    requires S.r > 0 && ValidConfig(c) && ValidConfig(c')
    requires c' == c.(my := c'.my) && c.my != c.dealer && c'.my != c.dealer
    requires HonestRun(S, c, a, es) && HonestRun(S, c', a', es')
    requires Public(es) == Public(es')
    ensures var s, s' := At(S, c, a, es), At(S, c', a', es');
      && s.phase == s'.phase
      && (Settled(S, c, a, es) && Settled(S, c', a', es') ==> s.disqualified == s'.disqualified)
      && (s.phase.complaintsTimeout ==>
            s.disqualified == s'.disqualified && EndVerdict(s) == EndVerdict(s'))
      && (Qualified(s) ==> Qualified(s') && s.keys.vA == s'.keys.vA)
  {
    VerdictIsPublic(S, c, a, es);
    VerdictIsPublic(S, c', a', es');
    SameObserved(S, c, c', es, es');
  }

  /** Without a promise on the order of answers, they agree if and only if both or neither follow the log. */
  lemma AgreementIff<T(!new)>(
      S: Suite<T>, c: Config, c': Config, a: seq<nat>, a': seq<nat>, es: seq<Event>, es': seq<Event>)
    requires S.r > 0 && ValidConfig(c) && ValidConfig(c')
    requires c' == c.(my := c'.my) && c.my != c.dealer && c'.my != c.dealer
    requires CarriedRun(S, c, a, es) && CarriedRun(S, c', a', es')
    requires Public(es) == Public(es') && At(S, c, a, es).phase.complaintsTimeout
    ensures At(S, c', a', es').phase == At(S, c, a, es).phase
    ensures EndVerdict(At(S, c, a, es)) == EndVerdict(At(S, c', a', es')) <==>
      (Faithful(S, c, a, es) <==> Faithful(S, c', a', es'))
  {
    RunFollows(S, c, a, es);
    RunFollows(S, c', a', es');
    SameObserved(S, c, c', es, es');
    VerdictIsPublicIff(S, c, a, es);
    VerdictIsPublicIff(S, c', a', es');
  }
}
