// What every run of a Feldman VSS participant keeps, whatever the dealer and the
// other participants send (crypto/dkg_feldmanvssq.go).
module FeldmanSafety {
  import opened Groups
  import opened Bytes
  import opened Polynomials
  import opened FeldmanSpec

  lemma StartedWF<T(!new)>(S: Suite<T>, c: Config, s: State<T>, a: seq<nat>)
    requires S.r > 0 && WF(S, c, s) && ValidPoly(a, c, S.r)
    ensures WF(S, c, Started(S, c, s, a))
  {
  }

  lemma VectorWF<T(!new)>(S: Suite<T>, c: Config, s: State<T>, orig: nat, data: seq<byte>)
    requires WF(S, c, s) && !s.disqualified
    ensures WF(S, c, OnVector(S, c, s, orig, data))
  {
  }

  lemma ComplaintWF<T(!new)>(S: Suite<T>, c: Config, s: State<T>, orig: nat, data: seq<byte>)
    requires S.r > 0 && WF(S, c, s) && !s.disqualified && orig < c.size
    ensures WF(S, c, OnComplaint(S, c, s, orig, data))
  {
  }

  lemma ApplyAnswerWF<T(!new)>(S: Suite<T>, c: Config, s: State<T>, k: nat, answer: nat)
    requires WF(S, c, s) && !s.disqualified && k < c.size
    ensures WF(S, c, ApplyAnswer(S, c, s, k, answer))
  {
  }

  lemma AnswerWF<T(!new)>(S: Suite<T>, c: Config, s: State<T>, orig: nat, data: seq<byte>)
    requires WF(S, c, s) && !s.disqualified
    ensures WF(S, c, OnAnswer(S, c, s, orig, data))
  {
    if |data| == 1 + SCALAR_LEN && data[0] < c.size {
      ApplyAnswerWF(S, c, s, data[0], FromBytes(data[1..]));
    }
  }

  lemma BroadcastWF<T(!new)>(S: Suite<T>, c: Config, s: State<T>, orig: nat, msg: seq<byte>)
    requires S.r > 0 && WF(S, c, s) && !s.disqualified && orig < c.size
    ensures WF(S, c, OnBroadcast(S, c, s, orig, msg))
  {
    if msg != [] {
      VectorWF(S, c, s, orig, msg[1..]);
      ComplaintWF(S, c, s, orig, msg[1..]);
      AnswerWF(S, c, s, orig, msg[1..]);
    }
  }

  lemma ShareWF<T(!new)>(S: Suite<T>, c: Config, s: State<T>, orig: nat, msg: seq<byte>)
    requires WF(S, c, s) && !s.disqualified
    ensures WF(S, c, OnShare(S, c, s, orig, msg))
  {
  }

  lemma StepWF<T(!new)>(S: Suite<T>, c: Config, s: State<T>, e: Event)
    requires S.r > 0 && WF(S, c, s)
    ensures WF(S, c, Step(S, c, s, e))
  {
    if StatusOf(c, s, e) == Ok && !s.disqualified {
      match e
      case Bcast(o, msg) => BroadcastWF(S, c, s, o, msg);
      case Private(o, msg) => ShareWF(S, c, s, o, msg);
      case Timeout =>
      case Force(_) =>
    }
  }

  // -------------------------------------------------- validity of the share

  /** This participant's own complaint still waits for its answer. */
  predicate Pending<T>(c: Config, s: State<T>) {
    Unanswered(s.complaints, c.my)
  }

  ghost predicate Entry(S: Suite, m: map<nat, Complaint>, k: nat) {
    k in m ==> (m[k].received || m[k].answerReceived) && (m[k].answerReceived ==> m[k].answer < S.r)
  }

  /** What a participant other than the dealer knows while it has not disqualified the dealer. */
  ghost predicate Sound<T>(S: Suite<T>, c: Config, s: State<T>) {
    && (forall k :: k in s.complaints ==> Entry(S, s.complaints, k))
    && (c.my in s.complaints && s.complaints[c.my].received ==>
          && (s.share.received || s.phase.sharesTimeout)
          && (Pending(c, s) || s.complaints[c.my].answer == s.share.x))
    && (s.share.x < S.r || Pending(c, s))
    && (s.keys.received ==> !AnyWrongAnswer(S, s.keys.y, s.complaints))
    && (s.keys.received ==>
          ShareVerifies(S, c, s) || Pending(c, s) || (!s.share.received && !s.phase.sharesTimeout))
  }

  ghost predicate Inv<T>(S: Suite<T>, c: Config, s: State<T>) {
    && WF(S, c, s)
    && (c.my != c.dealer && !s.disqualified ==> Sound(S, c, s))
    && (c.my == c.dealer && s.phase.running ==>
          s.keys.received && s.share.received && ShareVerifies(S, c, s) && s.share.x < S.r)
  }

  lemma VectorSound<T(!new)>(S: Suite<T>, c: Config, s: State<T>, orig: nat, data: seq<byte>)
    requires WF(S, c, s) && !s.disqualified && c.my != c.dealer && Sound(S, c, s)
    ensures var s' := OnVector(S, c, s, orig, data); !s'.disqualified ==> Sound(S, c, s')
  {
    var s' := OnVector(S, c, s, orig, data);
    if !s'.disqualified && s'.keys != s.keys {
      var s1 := s.(keys := s'.keys);
      assert s' == CheckVector(S, c, s1);
      if c.my in s.complaints && s.complaints[c.my].received && s.complaints[c.my].answerReceived {
        assert !WrongAnswer(S, s1.keys.y, s1.complaints, c.my);
      }
    }
  }

  lemma ShareSound<T(!new)>(S: Suite<T>, c: Config, s: State<T>, orig: nat, msg: seq<byte>)
    requires WF(S, c, s) && !s.disqualified && c.my != c.dealer && Sound(S, c, s)
    ensures var s' := OnShare(S, c, s, orig, msg); !s'.disqualified && Sound(S, c, s')
  {
    var s' := OnShare(S, c, s, orig, msg);
    assert forall k :: k in s'.complaints ==> Entry(S, s'.complaints, k);
    assert s'.keys.received ==> !AnyWrongAnswer(S, s'.keys.y, s'.complaints);
  }

  lemma ComplaintSound<T(!new)>(S: Suite<T>, c: Config, s: State<T>, orig: nat, data: seq<byte>)
    requires S.r > 0 && WF(S, c, s) && !s.disqualified && c.my != c.dealer && Sound(S, c, s)
    requires orig < c.size && orig != c.my
    ensures var s' := OnComplaint(S, c, s, orig, data); !s'.disqualified ==> Sound(S, c, s')
  {
    var s' := OnComplaint(S, c, s, orig, data);
    if !s'.disqualified && s'.complaints != s.complaints {
      assert s' == s.(complaints := s'.complaints);
      assert forall k :: k in s'.complaints && k != orig ==> k in s.complaints && s'.complaints[k] == s.complaints[k];
      forall k | k in s'.complaints
        ensures Entry(S, s'.complaints, k)
        ensures s.keys.received ==> !WrongAnswer(S, s.keys.y, s'.complaints, k)
      {
        if k in s.complaints {
          assert Entry(S, s.complaints, k);
          assert s.keys.received && k != orig ==> !WrongAnswer(S, s.keys.y, s.complaints, k);
        }
      }
    }
  }

  lemma AnswerSound<T(!new)>(S: Suite<T>, c: Config, s: State<T>, k: nat, answer: nat)
    requires WF(S, c, s) && !s.disqualified && c.my != c.dealer && Sound(S, c, s) && k < c.size
    ensures var s' := ApplyAnswer(S, c, s, k, answer); !s'.disqualified ==> Sound(S, c, s')
  {
    var s' := ApplyAnswer(S, c, s, k, answer);
    if !s'.disqualified && s'.complaints != s.complaints {
      assert s'.keys == s.keys && s'.phase == s.phase;
      assert k in s.complaints ==> Entry(S, s.complaints, k);
      forall j | j in s'.complaints
        ensures Entry(S, s'.complaints, j)
        ensures s.keys.received ==> !WrongAnswer(S, s.keys.y, s'.complaints, j)
      {
        if j != k {
          assert Entry(S, s.complaints, j);
          assert s.keys.received ==> !WrongAnswer(S, s.keys.y, s.complaints, j);
        }
      }
    }
  }

  lemma TimeoutSound<T(!new)>(S: Suite<T>, c: Config, s: State<T>)
    requires WF(S, c, s) && !s.disqualified && c.my != c.dealer && Sound(S, c, s)
    ensures var s' := OnTimeout(c, s); !s'.disqualified ==> Sound(S, c, s')
  {
    var s' := OnTimeout(c, s);
    forall k | k in s'.complaints
      ensures Entry(S, s'.complaints, k)
      ensures s.keys.received ==> !WrongAnswer(S, s.keys.y, s'.complaints, k)
    {
      if k in s.complaints {
        assert Entry(S, s.complaints, k);
        assert s.keys.received ==> !WrongAnswer(S, s.keys.y, s.complaints, k);
      }
    }
  }

  lemma BroadcastSound<T(!new)>(S: Suite<T>, c: Config, s: State<T>, orig: nat, msg: seq<byte>)
    requires S.r > 0 && WF(S, c, s) && !s.disqualified && c.my != c.dealer && Sound(S, c, s)
    requires orig < c.size && orig != c.my
    ensures var s' := OnBroadcast(S, c, s, orig, msg); !s'.disqualified ==> Sound(S, c, s')
  {
    if msg != [] {
      var data := msg[1..];
      if msg[0] == TAG_VECTOR {
        VectorSound(S, c, s, orig, data);
      } else if msg[0] == TAG_COMPLAINT {
        ComplaintSound(S, c, s, orig, data);
      } else if msg[0] == TAG_ANSWER && |data| == 1 + SCALAR_LEN && data[0] < c.size {
        AnswerSound(S, c, s, data[0], FromBytes(data[1..]));
      }
    }
  }

  lemma StepSound<T(!new)>(S: Suite<T>, c: Config, s: State<T>, e: Event)
    requires S.r > 0 && WF(S, c, s) && !s.disqualified && c.my != c.dealer && Sound(S, c, s)
    ensures var s' := Step(S, c, s, e); !s'.disqualified ==> Sound(S, c, s')
  {
    if StatusOf(c, s, e) == Ok {
      match e
      case Bcast(o, msg) => if o != c.my { BroadcastSound(S, c, s, o, msg); }
      case Private(o, msg) => ShareSound(S, c, s, o, msg);
      case Timeout => TimeoutSound(S, c, s);
      case Force(_) =>
    }
  }

  /** The dealer's own keys and share never change once it has started. */
  lemma DealerKeeps<T(!new)>(S: Suite<T>, c: Config, s: State<T>, e: Event)
    requires S.r > 0 && WF(S, c, s) && c.my == c.dealer && s.keys.received && s.share.received
    ensures var s' := Step(S, c, s, e); s'.keys == s.keys && s'.share == s.share
  {
  }

  /** Once set, disqualified is never cleared; and the running flag only changes at Start and End. */
  lemma DisqualifiedForever<T(!new)>(S: Suite<T>, c: Config, s: State<T>, e: Event)
    requires S.r > 0 && ValidConfig(c)
    ensures var s' := Step(S, c, s, e);
      (s.disqualified ==> s'.disqualified) && s'.phase.running == s.phase.running
  {
  }

  lemma StepInv<T(!new)>(S: Suite<T>, c: Config, s: State<T>, e: Event)
    requires S.r > 0 && Inv(S, c, s)
    ensures Inv(S, c, Step(S, c, s, e))
  {
    StepWF(S, c, s, e);
    DisqualifiedForever(S, c, s, e);
    if c.my == c.dealer && s.phase.running {
      DealerKeeps(S, c, s, e);
    } else if c.my != c.dealer && !s.disqualified {
      StepSound(S, c, s, e);
    }
  }

  lemma StartedInv<T(!new)>(S: Suite<T>, c: Config, s: State<T>, a: seq<nat>)
    requires ValidSuite(S) && Inv(S, c, s) && ValidPoly(a, c, S.r)
    ensures Inv(S, c, Started(S, c, s, a)) && Started(S, c, s, a).phase.running
  {
    StartedWF(S, c, s, a);
    var s' := Started(S, c, s, a);
    if c.my == c.dealer {
      CommitEval(S, a, c.my + 1);
      TimesMod(S.G, Eval(a, c.my + 1), S.g, S.r);
      assert s'.keys.y[c.my] == EvalPoint(S.G, Commit(S, a), c.my + 1);
      assert s'.share.x == Eval(a, c.my + 1) % S.r;
    }
  }

  lemma {:induction false} RunInv<T(!new)>(S: Suite<T>, c: Config, a: seq<nat>, es: seq<Event>)
    requires ValidSuite(S) && ValidConfig(c) && ValidPoly(a, c, S.r)
    ensures var s := Run(S, c, Fresh(S, c, a), es); Inv(S, c, s) && s.phase.running
  {
    if es == [] {
      StartedInv(S, c, Init(), a);
    } else {
      var s := Run(S, c, Fresh(S, c, a), es[..|es| - 1]);
      RunInv(S, c, a, es[..|es| - 1]);
      StepInv(S, c, s, es[|es| - 1]);
      DisqualifiedForever(S, c, s, es[|es| - 1]);
    }
  }

  /** The dealer of a finished instance is qualified: both timeouts passed and no ground for disqualification. */
  predicate Qualified<T>(s: State<T>) {
    s.phase.sharesTimeout && s.phase.complaintsTimeout && !EndVerdict(s)
  }

  /** A qualified dealer has given this participant its vector and a valid share. */
  lemma QualifiedShare<T(!new)>(S: Suite<T>, c: Config, s: State<T>)
    requires ValidSuite(S) && Inv(S, c, s) && s.phase.running && Qualified(s)
    ensures |s.keys.vA| == c.threshold + 1
    ensures ArePublicKeys(S.G, s.keys.vA, s.keys.y, c.size)
    ensures s.share.x < S.r && Times(S.G, s.share.x, S.g) == s.keys.y[c.my]
  {
    PublicKeysUnique(S.G, s.keys.vA, s.keys.y, c.size);
    assert !Pending(c, s);
  }

  /**
   Share validity. After any sequence of messages and timeouts, a participant that does not
   disqualify the dealer holds the vector, everyone's public keys and its own valid share.
   */
  lemma ShareValidity<T(!new)>(S: Suite<T>, c: Config, a: seq<nat>, es: seq<Event>)
    requires ValidSuite(S) && ValidConfig(c) && ValidPoly(a, c, S.r)
    ensures var s := Run(S, c, Fresh(S, c, a), es);
      Qualified(s) ==>
        && |s.keys.vA| == c.threshold + 1
        && ArePublicKeys(S.G, s.keys.vA, s.keys.y, c.size)
        && s.share.x < S.r
        && Times(S.G, s.share.x, S.g) == s.keys.y[c.my]
  {
    var s := Run(S, c, Fresh(S, c, a), es);
    RunInv(S, c, a, es);
    if Qualified(s) {
      QualifiedShare(S, c, s);
    }
  }
}
