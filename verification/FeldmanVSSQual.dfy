// The mutable participant of Feldman VSS with complaints: feldmanVSSstate and
// feldmanVSSQualState of crypto/dkg_feldmanvss.go and crypto/dkg_feldmanvssq.go.
// Every method is proved against the transition system of FeldmanSpec.
module FeldmanVSSQual {
  import opened Groups
  import opened Bytes
  import opened Polynomials
  import opened FeldmanSpec
  import opened FeldmanSafety

  class Participant<T(==, !new)> {
    const S: Suite<T>
    const c: Config

    var phase: Phase
    var keys: Keys<T>
    var share: Share
    var complaints: map<nat, Complaint>
    var disqualified: bool
    var out: seq<Output>

    ghost function Model(): State<T>
      reads this
    {
      State(phase, keys, share, complaints, disqualified, out)
    }

    ghost predicate Valid()
      reads this
    {
      ValidSuite(S) && Inv(S, c, Model())
    }

    /** NewFeldmanVSSQual, for parameters that newDKGCommon accepts. */
    constructor (S: Suite<T>, c: Config)
      requires ValidSuite(S) && ValidConfig(c)
      ensures Valid() && Model() == Init() && this.S == S && this.c == c
    {
      this.S, this.c := S, c;
      phase, keys, share := Phase(false, false, false), Keys([], [], [], false), Share(0, false);
      complaints, disqualified, out := map[], false, [];
    }

    /** Start: poly is the polynomial the dealer samples from its seed. */
    method Start(poly: seq<nat>) returns (status: Status)
      requires Valid() && ValidPoly(poly, c, S.r)
      modifies this
      ensures Valid()
      ensures status == if old(phase.running) then InvalidTransition else Ok
      ensures Model() == if old(phase.running) then old(Model()) else Started(S, c, old(Model()), poly)
    {
      if phase.running {
        return InvalidTransition;
      }
      StartedInv(S, c, Model(), poly);
      phase := phase.(running := true);
      if c.dealer == c.my {
        GenerateShares(poly);
      }
      status := Ok;
    }

    /** generateShares */
    method GenerateShares(poly: seq<nat>)
      requires ValidSuite(S) && ValidConfig(c) && ValidPoly(poly, c, S.r) && phase.running && c.my == c.dealer
      modifies this
      ensures Model() == Started(S, c, old(Model()), poly)
    {
      var vA := CommitCoefficients(poly);
      var shares, y := ComputeShares(poly, vA);
      SendShares(shares);
      out := out + [Broadcast(VectorMsg(S, vA))];
      keys := Keys(poly, vA, y, true);
      share := Share(shares[c.my], true);
    }

    method CommitCoefficients(a: seq<nat>) returns (A: seq<T>)
      ensures A == Commit(S, a)
    {
      A := [];
      for k := 0 to |a|
        invariant A == Commit(S, a)[..k]
      {
        CommitAt(S, a, k);
        A := A + [Times(S.G, a[k], S.g)];
      }
    }

    method ComputeShares(a: seq<nat>, ghost vA: seq<T>) returns (shares: seq<nat>, y: seq<T>)
      requires ValidSuite(S) && ValidConfig(c) && ValidPoly(a, c, S.r) && vA == Commit(S, a)
      ensures shares == Shares(a, c.size, S.r) && y == PublicKeys(S.G, vA, c.size)
    {
      ghost var images, points := Shares(a, c.size, S.r), PublicKeys(S.G, vA, c.size);
      shares, y := [], [];
      for i := 0 to c.size
        invariant shares == images[..i] && y == points[..i]
      {
        var image, point := ShareOf(a, i, vA, images, points);
        shares, y := shares + [image], y + [point];
      }
    }

    method SendShares(shares: seq<nat>)
      modifies this`out
      ensures out == old(out) + ShareSends(shares, c.my)
    {
      for i := 0 to |shares|
        invariant out == old(out) + ShareSends(shares[..i], c.my)
      {
        ShareSendsStep(shares, i, c.my);
        if i != c.my {
          out := out + [PrivateSend(i, ShareMsg(shares[i]))];
        }
      }
      assert shares[..|shares|] == shares;
    }

    method ShareOf(a: seq<nat>, i: nat, ghost vA: seq<T>, ghost shares: seq<nat>, ghost points: seq<T>)
      returns (image: nat, point: T)
      requires ValidSuite(S) && ValidConfig(c) && ValidPoly(a, c, S.r) && vA == Commit(S, a) && i < c.size
      requires shares == Shares(a, c.size, S.r) && points == PublicKeys(S.G, vA, c.size)
      ensures image == shares[i] && point == points[i]
    {
      image, point := PolynomialImage(S, a, i + 1);
      CommitEval(S, a, i + 1);
    }

    /** NextTimeout */
    method NextTimeout() returns (status: Status)
      requires Valid()
      modifies this
      ensures Valid() && status == StatusOf(c, old(Model()), Timeout)
      ensures Model() == Step(S, c, old(Model()), Timeout)
    {
      StepInv(S, c, Model(), Timeout);
      if !phase.running || phase.complaintsTimeout {
        return InvalidTransition;
      }
      if disqualified {
        if !phase.sharesTimeout {
          phase := phase.(sharesTimeout := true);
        } else {
          phase := phase.(complaintsTimeout := true);
        }
      } else if !phase.sharesTimeout {
        phase := phase.(sharesTimeout := true);
        if !keys.received {
          DisqualifyTheDealer();
        } else if !share.received {
          BuildAndBroadcastComplaint();
        }
      } else {
        phase := phase.(complaintsTimeout := true);
        if |complaints| > c.threshold {
          DisqualifyTheDealer();
        }
      }
      status := Ok;
    }

    method DisqualifyTheDealer()
      modifies this
      ensures Model() == DisqualifyDealer(c, old(Model()))
    {
      disqualified := true;
      out := out + [Disqualify(c.dealer)];
    }

    method BuildAndBroadcastComplaint()
      requires ValidConfig(c)
      modifies this
      ensures Model() == Complain(c, old(Model()))
    {
      complaints := complaints[c.my := Complaint(true, false, 0)];
      out := out + [Broadcast(ComplaintMsg(c.dealer))];
    }

    method FlagMisbehavior(orig: nat)
      modifies this`out
      ensures Model() == Emit(old(Model()), Flag(orig))
    {
      out := out + [Flag(orig)];
    }

    /** HandleBroadcastMsg */
    method HandleBroadcastMsg(orig: int, msg: seq<byte>) returns (status: Status)
      requires Valid()
      modifies this
      ensures Valid() && status == StatusOf(c, old(Model()), Bcast(orig, msg))
      ensures Model() == Step(S, c, old(Model()), Bcast(orig, msg))
    {
      StepInv(S, c, Model(), Bcast(orig, msg));
      if !phase.running {
        return InvalidTransition;
      }
      if orig >= c.size || orig < 0 {
        return InvalidInput;
      }
      status := Ok;
      if orig == c.my || disqualified {
        return;
      }
      if |msg| == 0 {
        if orig == c.dealer {
          disqualified := true;
        }
        out := out + [Disqualify(orig)];
      } else if msg[0] == TAG_VECTOR {
        ReceiveVerifVector(orig, msg[1..]);
      } else if msg[0] == TAG_COMPLAINT {
        ReceiveComplaint(orig, msg[1..]);
      } else if msg[0] == TAG_ANSWER {
        ReceiveComplaintAnswer(orig, msg[1..]);
      } else {
        if orig == c.dealer {
          disqualified := true;
        }
        out := out + [Disqualify(orig)];
      }
    }

    /** HandlePrivateMsg */
    method HandlePrivateMsg(orig: int, msg: seq<byte>) returns (status: Status)
      requires Valid()
      modifies this
      ensures Valid() && status == StatusOf(c, old(Model()), Private(orig, msg))
      ensures Model() == Step(S, c, old(Model()), Private(orig, msg))
    {
      StepInv(S, c, Model(), Private(orig, msg));
      if !phase.running {
        return InvalidTransition;
      }
      if orig >= c.size || orig < 0 {
        return InvalidInput;
      }
      status := Ok;
      if orig == c.my || disqualified {
        return;
      }
      ReceiveShare(orig, msg);
    }

    /** ForceDisqualify */
    method ForceDisqualify(participant: int) returns (status: Status)
      requires Valid()
      modifies this
      ensures Valid() && status == StatusOf(c, old(Model()), Force(participant))
      ensures Model() == Step(S, c, old(Model()), Force(participant))
    {
      StepInv(S, c, Model(), Force(participant));
      if !phase.running {
        return InvalidTransition;
      }
      if participant >= c.size || participant < 0 {
        return InvalidInput;
      }
      if participant == c.dealer {
        disqualified := true;
      }
      status := Ok;
    }

    /** receiveShare */
    method ReceiveShare(orig: nat, msg: seq<byte>)
      requires WF(S, c, Model()) && !disqualified
      modifies this
      ensures Model() == OnShare(S, c, old(Model()), orig, msg)
    {
      if orig != c.dealer {
        return;
      }
      if phase.sharesTimeout || share.received {
        FlagMisbehavior(orig);
        return;
      }
      share := share.(received := true);
      if |msg| == 0 || msg[0] != TAG_SHARE {
        BuildAndBroadcastComplaint();
        FlagMisbehavior(orig);
        return;
      }
      var data := msg[1..];
      if |data| != SCALAR_LEN {
        BuildAndBroadcastComplaint();
        FlagMisbehavior(orig);
        return;
      }
      share := share.(x := FromBytes(data));
      if share.x >= S.r {
        BuildAndBroadcastComplaint();
        FlagMisbehavior(orig);
        return;
      }
      if keys.received && !VerifyShare(S, share.x, keys.y[c.my]) {
        BuildAndBroadcastComplaint();
      }
    }

    /** receiveVerifVector: answers already received are checked in any order. */
    method ReceiveVerifVector(orig: nat, data: seq<byte>)
      requires Abelian(S.G) && ValidConfig(c) && !disqualified
      requires forall k :: k in complaints ==> k < c.size
      modifies this
      ensures Model() == OnVector(S, c, old(Model()), orig, data)
    {
      if orig != c.dealer {
        return;
      }
      if phase.sharesTimeout || keys.received {
        FlagMisbehavior(orig);
        return;
      }
      keys := keys.(received := true);
      if |data| != POINT_LEN * (c.threshold + 1) {
        DisqualifyTheDealer();
        return;
      }
      var read := ReadVerifVector(data, c.threshold + 1);
      if read.None? {
        DisqualifyTheDealer();
        return;
      }
      keys := keys.(vA := read.value);
      CheckAgainstVector();
    }

    method CheckAgainstVector()
      requires Abelian(S.G) && ValidConfig(c) && forall k :: k in complaints ==> k < c.size
      modifies this
      ensures var s := old(Model());
        Model() == CheckVector(S, c, s.(keys := s.keys.(y := PublicKeys(S.G, s.keys.vA, c.size))))
    {
      var y := PointImages(S.G, keys.vA, c.size);
      keys := keys.(y := y);
      PublicKeysUnique(S.G, keys.vA, keys.y, c.size);
      var wrong := FindWrongAnswer();
      if wrong {
        DisqualifyTheDealer();
        return;
      }
      if share.received && !VerifyShare(S, share.x, keys.y[c.my]) {
        BuildAndBroadcastComplaint();
      }
    }

    /** The loop over the complaint map, whose iteration order is unspecified. */
    method FindWrongAnswer() returns (wrong: bool)
      requires |keys.y| == c.size && forall k :: k in complaints ==> k < c.size
      ensures wrong <==> AnyWrongAnswer(S, keys.y, complaints)
    {
      var todo := complaints.Keys;
      while todo != {}
        invariant todo <= complaints.Keys
        invariant forall k :: k in complaints && WrongAnswer(S, keys.y, complaints, k) ==> k in todo
        decreases |todo|
      {
        var complainer: nat :| complainer in todo;
        var entry := complaints[complainer];
        if entry.received && entry.answerReceived && !VerifyShare(S, entry.answer, keys.y[complainer]) {
          assert WrongAnswer(S, keys.y, complaints, complainer);
          return true;
        }
        todo := todo - {complainer};
      }
      wrong := false;
    }

    /** readVerifVector */
    method ReadVerifVector(data: seq<byte>, n: nat) returns (A: Option<seq<T>>)
      requires |data| == POINT_LEN * n
      ensures A == ReadVector(S, data, n)
    {
      var points: seq<T> := [];
      var rest := data;
      PrependEmpty(ReadVector(S, data, n));
      for i := 0 to n
        invariant |rest| == POINT_LEN * (n - i)
        invariant ReadVector(S, data, n) == Prepend(points, ReadVector(S, rest, n - i))
      {
        var p := S.decodePoint(rest[..POINT_LEN]);
        if p.None? {
          return None;
        }
        PrependStep(points, p.value, ReadVector(S, rest[POINT_LEN..], n - i - 1));
        points := points + [p.value];
        rest := rest[POINT_LEN..];
      }
      A := Some(points);
      assert points + [] == points;
    }

    static ghost function Prepend(points: seq<T>, tail: Option<seq<T>>): Option<seq<T>> {
      if tail.None? then None else Some(points + tail.value)
    }

    static lemma PrependEmpty(tail: Option<seq<T>>)
      ensures Prepend([], tail) == tail
    {
      if tail.Some? {
        assert [] + tail.value == tail.value;
      }
    }

    static lemma PrependStep(points: seq<T>, p: T, tail: Option<seq<T>>)
      ensures Prepend(points, Prepend([p], tail)) == Prepend(points + [p], tail)
    {
      if tail.Some? {
        assert points + ([p] + tail.value) == points + [p] + tail.value;
      }
    }

    /** receiveComplaint */
    method ReceiveComplaint(orig: nat, data: seq<byte>)
      requires ValidSuite(S) && WF(S, c, Model()) && !disqualified && phase.running && orig < c.size
      modifies this
      ensures Model() == OnComplaint(S, c, old(Model()), orig, data)
    {
      if phase.complaintsTimeout {
        FlagMisbehavior(orig);
        return;
      }
      if |data| != 1 || data[0] >= c.size {
        if orig == c.dealer {
          DisqualifyTheDealer();
        }
        return;
      }
      if orig == c.dealer || data[0] != c.dealer {
        return;
      }
      if orig !in complaints {
        complaints := complaints[orig := Complaint(true, false, 0)];
        if c.my == c.dealer {
          BuildAndBroadcastComplaintAnswer(orig);
        }
        return;
      }
      if complaints[orig].received {
        FlagMisbehavior(orig);
        return;
      }
      complaints := complaints[orig := complaints[orig].(received := true)];
      if keys.received && complaints[orig].answerReceived && c.my != c.dealer {
        disqualified := !VerifyShare(S, complaints[orig].answer, keys.y[orig]);
        if disqualified {
          out := out + [Disqualify(c.dealer)];
        }
      }
    }

    method BuildAndBroadcastComplaintAnswer(complainer: nat)
      requires ValidSuite(S) && ValidConfig(c) && complainer in complaints && complainer < c.size
      requires ValidPoly(keys.a, c, S.r)
      modifies this
      ensures Model() == Answer(S, old(Model()), complainer)
    {
      var image, point := PolynomialImage(S, keys.a, complainer + 1);
      complaints := complaints[complainer := complaints[complainer].(answerReceived := true)];
      out := out + [Broadcast(AnswerMsg(complainer, image))];
    }

    /** receiveComplaintAnswer */
    method ReceiveComplaintAnswer(orig: nat, data: seq<byte>)
      requires WF(S, c, Model()) && !disqualified
      modifies this
      ensures Model() == OnAnswer(S, c, old(Model()), orig, data)
    {
      if orig != c.dealer {
        return;
      }
      if |data| != 1 + SCALAR_LEN || data[0] >= c.size {
        DisqualifyTheDealer();
        return;
      }
      ReadAnswer(data[0], FromBytes(data[1..]));
    }

    method ReadAnswer(complainer: nat, answer: nat)
      requires !disqualified && complainer < c.size && (keys.received ==> |keys.y| == c.size)
      modifies this
      ensures Model() == ApplyAnswer(S, c, old(Model()), complainer, answer)
    {
      if complainer !in complaints {
        complaints := complaints[complainer := Complaint(false, true, answer)];
        if answer >= S.r {
          DisqualifyTheDealer();
        }
        return;
      }
      var entry := complaints[complainer];
      if entry.answerReceived {
        FlagMisbehavior(c.dealer);
        return;
      }
      complaints := complaints[complainer := entry.(answerReceived := true)];
      if entry.received {
        complaints := complaints[complainer := complaints[complainer].(answer := answer)];
        if answer >= S.r {
          DisqualifyTheDealer();
          return;
        }
        if keys.received {
          disqualified := !VerifyShare(S, answer, keys.y[complainer]);
          if disqualified {
            out := out + [Disqualify(c.dealer)];
          }
        }
        if !disqualified && complainer == c.my {
          share := share.(x := answer);
        }
      }
    }

    /** End: the keys are (private share, group key, all public shares). */
    method End() returns (status: Status, sk: nat, group: T, shares: seq<T>)
      requires Valid()
      modifies this
      ensures Valid()
      ensures old(phase != Phase(true, true, true)) ==> status == InvalidTransition && Model() == old(Model())
      ensures old(phase == Phase(true, true, true)) ==>
        && phase == Phase(false, true, true)
        && (status == Ok <==> EndSucceeds(S, old(Model())))
        && (status != Ok ==> status == DkgFailure && disqualified)
        && (status == Ok ==>
              && Model() == old(Model()).(phase := phase)
              && sk == share.x && keys.vA != [] && group == keys.vA[0] && shares == keys.y)
    {
      sk, group, shares := 0, S.G.zero, [];
      if !phase.running || !phase.sharesTimeout || !phase.complaintsTimeout {
        return InvalidTransition, sk, group, shares;
      }
      phase := phase.(running := false);
      if !disqualified {
        var unanswered := FindUnanswered();
        if unanswered {
          DisqualifyTheDealer();
        }
      }
      if disqualified {
        return DkgFailure, sk, group, shares;
      }
      if share.x == 0 || keys.vA[0] == S.G.zero {
        disqualified := true;
        return DkgFailure, sk, group, shares;
      }
      return Ok, share.x, keys.vA[0], keys.y;
    }

    method FindUnanswered() returns (found: bool)
      ensures found <==> AnyUnanswered(complaints)
    {
      var todo := complaints.Keys;
      while todo != {}
        invariant todo <= complaints.Keys
        invariant forall k :: k in complaints && Unanswered(complaints, k) ==> k in todo
        decreases |todo|
      {
        var complainer: nat :| complainer in todo;
        var entry := complaints[complainer];
        if entry.received && !entry.answerReceived {
          assert Unanswered(complaints, complainer);
          return true;
        }
        todo := todo - {complainer};
      }
      found := false;
    }
  }
}
