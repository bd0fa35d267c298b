// What the broadcast log alone says about a dealer (crypto/dkg_feldmanvssq.go): an observer that
// belongs to nobody and sees only broadcasts, timeouts and forced disqualifications, and a second
// one that is deaf to the dealer's answers to one participant.
module FeldmanObserver {
  import opened ModArith
  import opened Bytes
  import opened Polynomials
  import opened FeldmanSpec

  datatype View<!T> = View(
    received: bool, vA: seq<T>, y: seq<T>,
    complaints: map<nat, Complaint>, disqualified: bool,
    sharesTimeout: bool, complaintsTimeout: bool)

  function NoView<T>(): View<T> {
    View(false, [], [], map[], false, false, false)
  }

  /** A participant other than the dealer can only speak a complaint against it. */
  function HearOther<T>(S: Suite<T>, c: Config, v: View<T>, orig: nat, msg: seq<byte>): View<T>
    requires ValidConfig(c)
  {
    if msg != ComplaintMsg(c.dealer) || v.complaintsTimeout then v
    else if orig !in v.complaints then v.(complaints := v.complaints[orig := Complaint(true, false, 0)])
    else if v.complaints[orig].received then v
    else
      var m := v.complaints[orig := v.complaints[orig].(received := true)];
      v.(complaints := m, disqualified := v.received && WrongAnswer(S, v.y, m, orig))
  }

  function HearVector<T>(S: Suite<T>, c: Config, v: View<T>, data: seq<byte>): View<T>
    requires ValidConfig(c)
  {
    if v.sharesTimeout || v.received then v
    else if |data| != POINT_LEN * (c.threshold + 1) then v.(received := true, disqualified := true)
    else
      match ReadVector(S, data, c.threshold + 1)
      case None => v.(received := true, disqualified := true)
      case Some(A) =>
        var y := PublicKeys(S.G, A, c.size);
        v.(received := true, vA := A, y := y, disqualified := AnyWrongAnswer(S, y, v.complaints))
  }

  function HearAnswer<T>(S: Suite<T>, v: View<T>, k: nat, answer: nat): View<T> {
    if k !in v.complaints then
      v.(complaints := v.complaints[k := Complaint(false, true, answer)], disqualified := answer >= S.r)
    else if v.complaints[k].answerReceived then v
    else if !v.complaints[k].received then
      v.(complaints := v.complaints[k := v.complaints[k].(answerReceived := true)])
    else
      var m := v.complaints[k := Complaint(true, true, answer)];
      v.(complaints := m, disqualified := answer >= S.r || (v.received && WrongAnswer(S, v.y, m, k)))
  }

  function HearDealer<T>(S: Suite<T>, c: Config, v: View<T>, msg: seq<byte>): View<T>
    requires ValidConfig(c)
  {
    if msg == [] then v.(disqualified := true)
    else if msg[0] == TAG_VECTOR then HearVector(S, c, v, msg[1..])
    else if msg[0] == TAG_COMPLAINT then
      if v.complaintsTimeout || (|msg| == 2 && msg[1] < c.size) then v else v.(disqualified := true)
    else if msg[0] == TAG_ANSWER && |msg| == 2 + SCALAR_LEN && msg[1] < c.size then
      HearAnswer(S, v, msg[1], FromBytes(msg[2..]))
    else v.(disqualified := true)
  }

  function HearTimeout<T>(c: Config, v: View<T>): View<T> {
    if v.complaintsTimeout then v
    else if !v.sharesTimeout then v.(sharesTimeout := true, disqualified := v.disqualified || !v.received)
    else v.(complaintsTimeout := true, disqualified := v.disqualified || |v.complaints| > c.threshold)
  }

  function Watch<T>(S: Suite<T>, c: Config, v: View<T>, e: Event): View<T>
    requires ValidConfig(c)
  {
    match e
    case Private(_, _) => v
    case Timeout => HearTimeout(c, v)
    case Force(p) => if p == c.dealer then v.(disqualified := true) else v
    case Bcast(o, msg) =>
      if v.disqualified || o < 0 || o >= c.size then v
      else if o == c.dealer then HearDealer(S, c, v, msg)
      else HearOther(S, c, v, o, msg)
  }

  ghost function Observe<T>(S: Suite<T>, c: Config, es: seq<Event>): View<T>
    requires ValidConfig(c)
  {
    if es == [] then NoView() else Watch(S, c, Observe(S, c, es[..|es| - 1]), es[|es| - 1])
  }

  /** The verdict that the broadcast log implies. */
  predicate Verdict<T>(v: View<T>) {
    v.disqualified || AnyUnanswered(v.complaints)
  }

  /** The events that everyone sees, in order. */
  function Public(es: seq<Event>): seq<Event> {
    if es == [] then []
    else
      var rest, e := Public(es[..|es| - 1]), es[|es| - 1];
      if e.Private? then rest else rest + [e]
  }

  lemma {:induction false} ObservePublic<T(!new)>(S: Suite<T>, c: Config, es: seq<Event>)
    requires ValidConfig(c)
    ensures Observe(S, c, es) == Observe(S, c, Public(es))
  {
    if es != [] {
      var es', e := es[..|es| - 1], es[|es| - 1];
      ObservePublic(S, c, es');
      if !e.Private? {
        assert (Public(es') + [e])[..|Public(es')|] == Public(es');
      }
    }
  }

  lemma {:induction false} ObserveAnyone<T(!new)>(S: Suite<T>, c: Config, c': Config, es: seq<Event>)
    requires ValidConfig(c) && ValidConfig(c') && c' == c.(my := c'.my)
    ensures Observe(S, c, es) == Observe(S, c', es)
  {
    if es != [] {
      ObserveAnyone(S, c, c', es[..|es| - 1]);
    }
  }

  /** Whoever hears the same broadcasts and timeouts observes the same. */
  lemma SameObserved<T(!new)>(S: Suite<T>, c: Config, c': Config, es: seq<Event>, es': seq<Event>)
    requires ValidConfig(c) && ValidConfig(c') && c' == c.(my := c'.my) && Public(es) == Public(es')
    ensures Observe(S, c, es) == Observe(S, c', es')
  {
    ObservePublic(S, c, es);
    ObservePublic(S, c', es');
    ObserveAnyone(S, c, c', Public(es));
  }

  // ------------------------------------------------------------ complaint maps

  ghost predicate SameEntry(m: map<nat, Complaint>, n: map<nat, Complaint>, k: nat) {
    (k in m <==> k in n) && (k in m ==> m[k] == n[k])
  }

  ghost predicate OthersAgree(my: nat, m: map<nat, Complaint>, n: map<nat, Complaint>) {
    forall k :: k != my ==> SameEntry(m, n, k)
  }

  lemma OthersUpdate(my: nat, m: map<nat, Complaint>, n: map<nat, Complaint>, k: nat, x: Complaint)
    requires OthersAgree(my, m, n)
    ensures OthersAgree(my, m[k := x], n[k := x])
    ensures OthersAgree(my, m[my := x], n) && OthersAgree(my, m, n[my := x])
  {
    var m', n', own, heard := m[k := x], n[k := x], m[my := x], n[my := x];
    forall j | j != my
      ensures SameEntry(m', n', j)
    {
      assert SameEntry(m, n, j);
    }
    forall j | j != my
      ensures SameEntry(own, n, j)
    {
      assert SameEntry(m, n, j);
    }
    forall j | j != my
      ensures SameEntry(m, heard, j)
    {
      assert SameEntry(m, n, j);
    }
  }

  // ------------------------------------------- without the answers to one participant

  /** A well-formed answer of the dealer to this participant. */
  predicate IsAnswerToMe(c: Config, e: Event) {
    e.Bcast? && e.orig == c.dealer && |e.msg| == 2 + SCALAR_LEN && e.msg[0] == TAG_ANSWER && e.msg[1] == c.my
  }

  function AnswerIn(c: Config, e: Event): nat
    requires IsAnswerToMe(c, e)
  {
    FromBytes(e.msg[2..])
  }

  /** The observer that does not hear the answers to this participant. */
  function WatchOthers<T>(S: Suite<T>, c: Config, o: View<T>, e: Event): View<T>
    requires ValidConfig(c)
  {
    if IsAnswerToMe(c, e) then o else Watch(S, c, o, e)
  }

  ghost function ObserveOthers<T>(S: Suite<T>, c: Config, es: seq<Event>): View<T>
    requires ValidConfig(c)
  {
    if es == [] then NoView() else WatchOthers(S, c, ObserveOthers(S, c, es[..|es| - 1]), es[|es| - 1])
  }

  /** The first answer to this participant in the log. */
  ghost function First(c: Config, es: seq<Event>): Option<nat> {
    if es == [] then None
    else
      var before, e := First(c, es[..|es| - 1]), es[|es| - 1];
      if before == None && IsAnswerToMe(c, e) then Some(AnswerIn(c, e)) else before
  }

  /** An answer that disqualifies the dealer as soon as it is compared with the vector. */
  predicate Wrong<T>(S: Suite<T>, c: Config, o: View<T>, x: nat) {
    x >= S.r || (o.received && c.my < |o.y| && !VerifyShare(S, x, o.y[c.my]))
  }

  ghost predicate SameKeys<T>(v: View<T>, o: View<T>) {
    v.received == o.received && v.vA == o.vA && v.y == o.y
  }

  /** Shape of every observation that has not dropped the dealer. */
  ghost predicate Shaped<T>(c: Config, o: View<T>) {
    && (o.complaintsTimeout ==> o.sharesTimeout)
    && (!o.disqualified && o.received ==> |o.y| == c.size)
    && (!o.disqualified && o.sharesTimeout ==> o.received)
  }

  /** Deaf to the answers, the observer knows at most the complaint itself. */
  ghost predicate OwnHeard(my: nat, m: map<nat, Complaint>) {
    my in m ==> m[my] == Complaint(true, false, 0)
  }

  /** The entry of this participant when f is the first answer to it. */
  ghost predicate OwnView<T>(S: Suite<T>, c: Config, v: View<T>, o: View<T>, f: Option<nat>) {
    match f
    case None => SameEntry(v.complaints, o.complaints, c.my)
    case Some(x) =>
      && c.my in v.complaints && v.complaints[c.my] == Complaint(c.my in o.complaints, true, x)
      && x < S.r && (c.my in o.complaints ==> !Wrong(S, c, o, x))
  }

  /** Why the answers to this participant alone make the observer drop the dealer. */
  predicate OwnGround<T>(S: Suite<T>, c: Config, o: View<T>, f: Option<nat>) {
    f.Some? && (f.value >= S.r || (if c.my in o.complaints then Wrong(S, c, o, f.value) else o.complaintsTimeout))
  }

  /** What hearing the answers to this participant changes. */
  ghost predicate Split<T>(S: Suite<T>, c: Config, v: View<T>, o: View<T>, f: Option<nat>) {
    && v.sharesTimeout == o.sharesTimeout && v.complaintsTimeout == o.complaintsTimeout
    && Shaped(c, o) && (o.disqualified ==> v.disqualified)
    && (!o.disqualified ==> OwnHeard(c.my, o.complaints))
    && (!v.disqualified ==> SameKeys(v, o) && OthersAgree(c.my, v.complaints, o.complaints) && OwnView(S, c, v, o, f))
    && (v.disqualified && !o.disqualified ==> OwnGround(S, c, o, f))
  }

  lemma ShapedStep<T(!new)>(S: Suite<T>, c: Config, o: View<T>, e: Event)
    requires ValidConfig(c) && Shaped(c, o)
    ensures Shaped(c, WatchOthers(S, c, o, e))
  {
  }

  /** A ground stays a ground. */
  lemma GroundStays<T(!new)>(S: Suite<T>, c: Config, o: View<T>, e: Event, x: nat)
    requires ValidConfig(c) && c.my != c.dealer && Shaped(c, o) && !o.disqualified && OwnHeard(c.my, o.complaints)
    ensures var o' := WatchOthers(S, c, o, e);
      !o'.disqualified ==>
        && OwnHeard(c.my, o'.complaints)
        && (c.my in o.complaints ==> c.my in o'.complaints)
        && (c.my in o'.complaints && c.my !in o.complaints ==>
              e == Bcast(c.my, ComplaintMsg(c.dealer)) && !o.complaintsTimeout)
        && (o.complaintsTimeout ==> o'.complaintsTimeout)
        && (Wrong(S, c, o, x) ==> Wrong(S, c, o', x))
  {
  }

  /** Both observers have kept the dealer. */
  ghost predicate Both<T>(S: Suite<T>, c: Config, v: View<T>, o: View<T>, f: Option<nat>) {
    ValidConfig(c) && c.my != c.dealer && Split(S, c, v, o, f) && !v.disqualified
  }

  lemma WrongSplit<T(!new)>(S: Suite<T>, c: Config, v: View<T>, o: View<T>, f: Option<nat>, y: seq<T>)
    requires Both(S, c, v, o, f) && |y| == c.size
    ensures AnyWrongAnswer(S, y, v.complaints) <==>
      AnyWrongAnswer(S, y, o.complaints) || (f.Some? && c.my in o.complaints && !VerifyShare(S, f.value, y[c.my]))
  {
    forall k | k != c.my
      ensures WrongAnswer(S, y, v.complaints, k) <==> WrongAnswer(S, y, o.complaints, k)
    {
      assert SameEntry(v.complaints, o.complaints, k);
    }
    assert !WrongAnswer(S, y, o.complaints, c.my);
    assert WrongAnswer(S, y, v.complaints, c.my) <==>
           f.Some? && c.my in o.complaints && !VerifyShare(S, f.value, y[c.my]);
  }

  lemma SplitOther<T(!new)>(S: Suite<T>, c: Config, v: View<T>, o: View<T>, f: Option<nat>, k: nat, msg: seq<byte>)
    requires Both(S, c, v, o, f)
    ensures Split(S, c, HearOther(S, c, v, k, msg), HearOther(S, c, o, k, msg), f)
  {
    if msg == ComplaintMsg(c.dealer) && !v.complaintsTimeout {
      assert k != c.my ==> SameEntry(v.complaints, o.complaints, k);
      OthersUpdate(c.my, v.complaints, o.complaints, k, Complaint(true, false, 0));
      if k in v.complaints {
        OthersUpdate(c.my, v.complaints, o.complaints, k, v.complaints[k].(received := true));
        if k == c.my && k !in o.complaints {
          OthersUpdate(c.my, v.complaints[k := v.complaints[k].(received := true)], o.complaints, k,
                       Complaint(true, false, 0));
        }
      }
    }
  }

  lemma SplitVector<T(!new)>(S: Suite<T>, c: Config, v: View<T>, o: View<T>, f: Option<nat>, data: seq<byte>)
    requires Both(S, c, v, o, f)
    ensures Split(S, c, HearVector(S, c, v, data), HearVector(S, c, o, data), f)
  {
    if !o.received && !o.sharesTimeout && |data| == POINT_LEN * (c.threshold + 1) {
      match ReadVector(S, data, c.threshold + 1)
      case None =>
      case Some(A) => WrongSplit(S, c, v, o, f, PublicKeys(S.G, A, c.size));
    }
  }

  lemma SplitAnswer<T(!new)>(S: Suite<T>, c: Config, v: View<T>, o: View<T>, f: Option<nat>, k: nat, x: nat)
    requires Both(S, c, v, o, f) && k != c.my
    ensures Split(S, c, HearAnswer(S, v, k, x), HearAnswer(S, o, k, x), f)
  {
    assert SameEntry(v.complaints, o.complaints, k);
    OthersUpdate(c.my, v.complaints, o.complaints, k, Complaint(false, true, x));
    OthersUpdate(c.my, v.complaints, o.complaints, k, Complaint(true, true, x));
    if k in v.complaints {
      OthersUpdate(c.my, v.complaints, o.complaints, k, v.complaints[k].(answerReceived := true));
    }
  }

  lemma SplitMine<T(!new)>(S: Suite<T>, c: Config, v: View<T>, o: View<T>, f: Option<nat>, x: nat)
    requires Both(S, c, v, o, f)
    ensures Split(S, c, HearAnswer(S, v, c.my, x), o, if f == None then Some(x) else f)
  {
    OthersUpdate(c.my, v.complaints, o.complaints, c.my, Complaint(false, true, x));
    OthersUpdate(c.my, v.complaints, o.complaints, c.my, Complaint(true, true, x));
  }

  lemma SplitDealer<T(!new)>(S: Suite<T>, c: Config, v: View<T>, o: View<T>, f: Option<nat>, msg: seq<byte>)
    requires Both(S, c, v, o, f)
    ensures var e := Bcast(c.dealer, msg);
      Split(S, c, HearDealer(S, c, v, msg), WatchOthers(S, c, o, e),
            if f == None && IsAnswerToMe(c, e) then Some(AnswerIn(c, e)) else f)
  {
    var e := Bcast(c.dealer, msg);
    if IsAnswerToMe(c, e) {
      SplitMine(S, c, v, o, f, AnswerIn(c, e));
    } else if msg != [] {
      if msg[0] == TAG_VECTOR {
        SplitVector(S, c, v, o, f, msg[1..]);
      } else if msg[0] == TAG_ANSWER && |msg| == 2 + SCALAR_LEN && msg[1] < c.size {
        SplitAnswer(S, c, v, o, f, msg[1], FromBytes(msg[2..]));
      }
    }
  }

  lemma SplitTimeout<T(!new)>(S: Suite<T>, c: Config, v: View<T>, o: View<T>, f: Option<nat>)
    requires Both(S, c, v, o, f)
    ensures Split(S, c, HearTimeout(c, v), HearTimeout(c, o), f)
  {
    forall k | k in o.complaints
      ensures k in v.complaints
    {
      assert SameEntry(v.complaints, o.complaints, k) || k == c.my;
    }
    SubsetSize(o.complaints.Keys, v.complaints.Keys);
    if f == None || c.my in o.complaints {
      forall k | k in v.complaints
        ensures k in o.complaints
      {
        assert SameEntry(v.complaints, o.complaints, k) || k == c.my;
      }
      SubsetSize(v.complaints.Keys, o.complaints.Keys);
    }
    assert |v.complaints| == |v.complaints.Keys| && |o.complaints| == |o.complaints.Keys|;
  }

  lemma SplitStep<T(!new)>(S: Suite<T>, c: Config, v: View<T>, o: View<T>, f: Option<nat>, e: Event)
    requires ValidConfig(c) && c.my != c.dealer && Split(S, c, v, o, f)
    ensures Split(S, c, Watch(S, c, v, e), WatchOthers(S, c, o, e),
                  if f == None && IsAnswerToMe(c, e) then Some(AnswerIn(c, e)) else f)
  {
    if v.disqualified {
      ShapedStep(S, c, o, e);
      if !o.disqualified {
        GroundStays(S, c, o, e, f.value);
      }
    } else {
      match e
      case Private(_, _) =>
      case Timeout => SplitTimeout(S, c, v, o, f);
      case Force(_) =>
      case Bcast(k, msg) =>
        if k == c.dealer {
          SplitDealer(S, c, v, o, f, msg);
        } else if 0 <= k < c.size {
          SplitOther(S, c, v, o, f, k, msg);
        }
    }
  }

  /** On every log, the answers to one participant change only its own entry and the grounds drawn from it. */
  lemma {:induction false} ObserveSplit<T(!new)>(S: Suite<T>, c: Config, es: seq<Event>)
    requires ValidConfig(c) && c.my != c.dealer
    ensures Split(S, c, Observe(S, c, es), ObserveOthers(S, c, es), First(c, es))
  {
    if es != [] {
      var es', e := es[..|es| - 1], es[|es| - 1];
      ObserveSplit(S, c, es');
      SplitStep(S, c, Observe(S, c, es'), ObserveOthers(S, c, es'), First(c, es'), e);
    }
  }
}
