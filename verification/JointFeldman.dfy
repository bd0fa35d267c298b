// Joint Feldman: n parallel instances of Feldman VSS with complaints, one per dealer, and
// the sum of the qualified keys (crypto/dkg_jointfeldman.go).
module JointFeldman {
  import opened Groups
  import opened Bytes
  import opened Polynomials
  import opened FeldmanSpec
  import opened FeldmanSafety
  import opened FeldmanObserver
  import opened FeldmanAgreement
  import opened HonestDealer
  import opened FeldmanVSSQual
  import opened JointKeys

  /** The instance in which participant d deals. */
  function Inst(c: Config, d: nat): Config {
    c.(dealer := d)
  }

  /** The dealers that end up qualified, in index order. */
  function QualifiedDealers<T>(insts: seq<State<T>>): (q: seq<nat>)
    ensures |q| <= |insts| && forall i :: 0 <= i < |q| ==> q[i] < |insts| && !EndVerdict(insts[q[i]])
  {
    if insts == [] then [] else
      var n := |insts| - 1;
      QualifiedDealers(insts[..n]) + (if EndVerdict(insts[n]) then [] else [n])
  }

  lemma QualifiedStep<T>(insts: seq<State<T>>, i: nat)
    requires i < |insts|
    ensures QualifiedDealers(insts[..i + 1]) ==
      QualifiedDealers(insts[..i]) + (if EndVerdict(insts[i]) then [] else [i])
  {
    assert insts[..i + 1][..i] == insts[..i];
  }

  ghost predicate Within<T>(insts: seq<State<T>>, q: seq<nat>) {
    forall i :: 0 <= i < |q| ==> q[i] < |insts|
  }

  function Vectors<T>(insts: seq<State<T>>, q: seq<nat>): (vs: seq<seq<T>>)
    requires Within(insts, q)
    ensures |vs| == |q| && forall i :: 0 <= i < |q| ==> vs[i] == insts[q[i]].keys.vA
  {
    seq(|q|, (i: nat) requires i < |q| => insts[q[i]].keys.vA)
  }

  function Secrets<T>(insts: seq<State<T>>, q: seq<nat>): (xs: seq<nat>)
    requires Within(insts, q)
    ensures |xs| == |q| && forall i :: 0 <= i < |q| ==> xs[i] == insts[q[i]].share.x
  {
    seq(|q|, (i: nat) requires i < |q| => insts[q[i]].share.x)
  }

  /** Enough dealers remain: at most t are lost and more than t are left. */
  predicate Enough(c: Config, qualified: nat) {
    c.size <= qualified + c.threshold && qualified > c.threshold
  }

  /** Every instance is sound and the instances share their phase. */
  ghost predicate JointInv<T>(S: Suite<T>, c: Config, insts: seq<State<T>>) {
    && |insts| == c.size > 0
    && (forall d :: 0 <= d < c.size ==> Inv(S, Inst(c, d), insts[d]))
    && (forall d :: 0 <= d < c.size ==> insts[d].phase == insts[0].phase)
  }

  /** What a qualified dealer leaves: a vector v, public keys y and a valid share x. */
  ghost predicate GoodDealer<T>(S: Suite<T>, c: Config, x: nat, v: seq<T>, y: seq<T>) {
    && x < S.r
    && |v| == c.threshold + 1
    && ArePublicKeys(S.G, v, y, c.size)
    && Times(S.G, x, S.g) == EvalPoint(S.G, v, c.my + 1)
  }

  ghost predicate GoodDealers<T>(S: Suite<T>, c: Config, xs: seq<nat>, vs: seq<seq<T>>, ys: seq<seq<T>>) {
    |xs| == |vs| == |ys| && forall i :: 0 <= i < |xs| ==> GoodDealer(S, c, xs[i], vs[i], ys[i])
  }

  function PublicShares<T>(insts: seq<State<T>>, q: seq<nat>): (ys: seq<seq<T>>)
    requires Within(insts, q)
    ensures |ys| == |q| && forall i :: 0 <= i < |q| ==> ys[i] == insts[q[i]].keys.y
  {
    seq(|q|, (i: nat) requires i < |q| => insts[q[i]].keys.y)
  }

  lemma QualifiedGiveKeys<T(!new)>(S: Suite<T>, c: Config, insts: seq<State<T>>, q: seq<nat>)
    requires ValidSuite(S) && ValidConfig(c) && JointInv(S, c, insts) && insts[0].phase == Phase(true, true, true)
    requires forall i :: 0 <= i < |q| ==> q[i] < |insts| && !EndVerdict(insts[q[i]])
    ensures GoodDealers(S, c, Secrets(insts, q), Vectors(insts, q), PublicShares(insts, q))
    ensures Lengths(Vectors(insts, q), c.threshold + 1)
  {
    var xs, vs, ys := Secrets(insts, q), Vectors(insts, q), PublicShares(insts, q);
    forall i | 0 <= i < |q|
      ensures GoodDealer(S, c, xs[i], vs[i], ys[i])
    {
      QualifiedShare(S, Inst(c, q[i]), insts[q[i]]);
    }
  }

  /** The keys of participant c.my over the qualified dealers of insts. */
  ghost predicate EndKeys<T>(S: Suite<T>, c: Config, insts: seq<State<T>>, out: JointOutput<T>)
    requires S.r > 0
  {
    var q := QualifiedDealers(insts);
    JointResult(S, c.threshold, c.size, Vectors(insts, q), Secrets(insts, q), c.my, out)
  }

  ghost predicate EndOutcome<T>(S: Suite<T>, c: Config, insts: seq<State<T>>, status: Status, out: JointOutput<T>)
    requires S.r > 0
  {
    var q := QualifiedDealers(insts);
    var vs, xs := Vectors(insts, q), Secrets(insts, q);
    && Lengths(vs, c.threshold + 1)
    && (status == Ok <==> Enough(c, |q|) && SumScalars(xs) != 0 && Sum(S.G, FirstOf(vs)) != S.G.zero)
    && (status != Ok ==> status == DkgFailure)
    && (status == Ok ==> EndKeys(S, c, insts, out))
  }

  /** The phase after an event depends on the phase alone. */
  function NextPhase(p: Phase, e: Event): Phase {
    if !p.running || e != Timeout || p.complaintsTimeout then p
    else if !p.sharesTimeout then p.(sharesTimeout := true)
    else p.(complaintsTimeout := true)
  }

  lemma StepPhase<T(!new)>(S: Suite<T>, c: Config, s: State<T>, e: Event)
    requires S.r > 0 && ValidConfig(c)
    ensures Step(S, c, s, e).phase == NextPhase(s.phase, e)
  {
  }

  lemma SameStatus<T(!new)>(c: Config, d: nat, s: State<T>, s': State<T>, e: Event)
    requires s.phase == s'.phase
    ensures StatusOf(c, s, e) == StatusOf(Inst(c, d), s', e)
  {
  }

  ghost predicate StepAt<T>(S: Suite<T>, c: Config, insts: seq<State<T>>, insts': seq<State<T>>, d: nat, e: Event)
    requires S.r > 0 && ValidConfig(c) && |insts| == |insts'| == c.size
  {
    d < c.size ==> insts'[d] == Step(S, Inst(c, d), insts[d], e)
  }

  /** Every instance takes the step e. */
  ghost predicate Stepped<T>(S: Suite<T>, c: Config, insts: seq<State<T>>, insts': seq<State<T>>, e: Event)
    requires S.r > 0 && ValidConfig(c)
  {
    |insts| == |insts'| == c.size && forall d :: StepAt(S, c, insts, insts', d, e)
  }

  ghost function AllStep<T>(S: Suite<T>, c: Config, insts: seq<State<T>>, e: Event): (insts': seq<State<T>>)
    requires S.r > 0 && ValidConfig(c) && |insts| == c.size
    ensures Stepped(S, c, insts, insts', e)
  {
    seq(c.size, (d: nat) requires d < c.size => Step(S, Inst(c, d), insts[d], e))
  }

  lemma JointStepInv<T(!new)>(S: Suite<T>, c: Config, insts: seq<State<T>>, insts': seq<State<T>>, e: Event)
    requires S.r > 0 && ValidConfig(c) && JointInv(S, c, insts) && Stepped(S, c, insts, insts', e)
    ensures JointInv(S, c, insts') && insts'[0].phase.running == insts[0].phase.running
  {
    forall d | 0 <= d < c.size
      ensures Inv(S, Inst(c, d), insts'[d]) && insts'[d].phase == NextPhase(insts[0].phase, e)
    {
      assert StepAt(S, c, insts, insts', d, e);
      StepInv(S, Inst(c, d), insts[d], e);
      StepPhase(S, Inst(c, d), insts[d], e);
    }
  }

  /** How a call ends: with a status, or in a run-time panic that leaves the instances as they were. */
  datatype Forced = Panics | Returns(status: Status)

  class Joint<T(==, !new)> {
    const S: Suite<T>
    const c: Config
    const fvss: seq<Participant<T>>
    var jointRunning: bool

    ghost function Models(): (insts: seq<State<T>>)
      reads this, fvss
      ensures |insts| == |fvss| && forall d :: 0 <= d < |fvss| ==> insts[d] == fvss[d].Model()
    {
      seq(|fvss|, (d: nat) requires d < |fvss| reads this, fvss => fvss[d].Model())
    }

    ghost predicate Shape() {
      && ValidSuite(S) && ValidConfig(c) && |fvss| == c.size
      && (forall d :: 0 <= d < |fvss| ==> fvss[d].S == S && fvss[d].c == Inst(c, d))
      && (forall d, d' :: 0 <= d < d' < |fvss| ==> fvss[d] != fvss[d'])
    }

    ghost predicate Valid()
      reads this, fvss
    {
      && Shape()
      && JointInv(S, c, Models())
      && (jointRunning ==> fvss[0].phase.running)
    }

    /** NewJointFeldman */
    constructor (S: Suite<T>, c: Config)
      requires ValidSuite(S) && ValidConfig(c)
      ensures Valid() && this.S == S && this.c == c && !jointRunning && fresh(fvss)
      ensures forall d :: 0 <= d < c.size ==> Models()[d] == Init()
    {
      var instances: seq<Participant<T>> := [];
      for i := 0 to c.size
        invariant |instances| == i
        invariant forall d :: 0 <= d < i ==> fresh(instances[d]) && allocated(instances[d])
        invariant forall d :: 0 <= d < i ==> instances[d].S == S && instances[d].c == Inst(c, d)
        invariant forall d :: 0 <= d < i ==> instances[d].Valid() && instances[d].Model() == Init()
        invariant forall d, d' :: 0 <= d < d' < i ==> instances[d] != instances[d']
      {
        var p := new Participant<T>(S, Inst(c, i));
        instances := instances + [p];
      }
      this.S, this.c, fvss, jointRunning := S, c, instances, false;
    }

    /** Passes one event to every instance: the loop of each message handler. */
    method Dispatch(e: Event) returns (status: Status)
      requires Valid() && !e.Force?
      modifies fvss
      ensures Valid() && fvss[0].phase.running == old(fvss[0].phase.running)
      ensures status == StatusOf(c, old(Models())[0], e)
      ensures Stepped(S, c, old(Models()), Models(), e)
    {
      ghost var before := Models();
      ghost var after := AllStep(S, c, before, e);
      JointStepInv(S, c, before, after, e);
      status := PassAll(e, before, after);
      assert Models() == after;
    }

    method PassAll(e: Event, ghost before: seq<State<T>>, ghost after: seq<State<T>>) returns (status: Status)
      requires Shape() && !e.Force?
      requires JointInv(S, c, before) && Stepped(S, c, before, after, e)
      requires forall d :: 0 <= d < c.size ==> fvss[d].Model() == before[d]
      modifies fvss
      ensures forall d :: 0 <= d < c.size ==> fvss[d].Model() == after[d]
      ensures status == StatusOf(c, before[0], e)
    {
      status := Ok;
      for i := 0 to c.size
        invariant forall d :: 0 <= d < i ==> fvss[d].Model() == after[d]
        invariant forall d :: i <= d < c.size ==> fvss[d].Model() == before[d]
        invariant status == Ok && (i > 0 ==> StatusOf(c, before[0], e) == Ok)
      {
        status := Pass(i, e, before, after);
        if status != Ok {
          NothingSteps(S, c, before, after, e);
          break;
        }
      }
    }

    method Pass(i: nat, e: Event, ghost before: seq<State<T>>, ghost after: seq<State<T>>) returns (status: Status)
      requires Shape() && i < c.size && !e.Force?
      requires JointInv(S, c, before) && Stepped(S, c, before, after, e) && fvss[i].Model() == before[i]
      modifies fvss[i]
      ensures fvss[i].Model() == after[i] && status == StatusOf(c, before[0], e)
    {
      assert StepAt(S, c, before, after, i, e);
      SameStatus(c, i, before[0], before[i], e);
      match e
      case Bcast(o, msg) => status := fvss[i].HandleBroadcastMsg(o, msg);
      case Private(o, msg) => status := fvss[i].HandlePrivateMsg(o, msg);
      case Timeout => status := fvss[i].NextTimeout();
    }

    /** Start: the seed's polynomial is used by the instance in which this participant deals. */
    method Start(poly: seq<nat>) returns (status: Status)
      requires Valid() && ValidPoly(poly, c, S.r)
      modifies this, fvss
      ensures Valid() && jointRunning
      ensures status == if old(jointRunning) then InvalidTransition else Ok
      ensures old(jointRunning) ==> Models() == old(Models())
      ensures !old(jointRunning) ==> JointStarted(S, c, old(Models()), Models(), poly)
    {
      if jointRunning {
        return InvalidTransition;
      }
      ghost var before := Models();
      StartAll(poly, before);
      jointRunning := true;
      status := Ok;
      JointStartedInv(S, c, before, Models(), poly);
    }

    method StartAll(poly: seq<nat>, ghost before: seq<State<T>>)
      requires Shape() && ValidPoly(poly, c, S.r) && JointInv(S, c, before)
      requires forall d :: 0 <= d < c.size ==> fvss[d].Model() == before[d]
      modifies fvss
      ensures forall d :: 0 <= d < c.size ==> StartedAt(S, c, before, fvss[d].Model(), d, poly)
    {
      for i := 0 to c.size
        invariant forall d :: 0 <= d < i ==> StartedAt(S, c, before, fvss[d].Model(), d, poly)
        invariant forall d :: i <= d < c.size ==> fvss[d].Model() == before[d]
      {
        StartOne(i, poly, before);
      }
    }

    method StartOne(i: nat, poly: seq<nat>, ghost before: seq<State<T>>)
      requires Shape() && i < c.size && ValidPoly(poly, c, S.r)
      requires JointInv(S, c, before) && fvss[i].Model() == before[i]
      modifies fvss[i]
      ensures StartedAt(S, c, before, fvss[i].Model(), i, poly)
    {
      fvss[i].phase := fvss[i].phase.(running := false);
      var status := fvss[i].Start(poly);
    }

    /** NextTimeout */
    method NextTimeout() returns (status: Status)
      requires Valid()
      modifies fvss
      ensures Valid()
      ensures !jointRunning ==> status == InvalidTransition && Models() == old(Models())
      ensures jointRunning ==>
        status == StatusOf(c, old(Models())[0], Timeout) && Stepped(S, c, old(Models()), Models(), Timeout)
    {
      if !jointRunning {
        return InvalidTransition;
      }
      status := Dispatch(Timeout);
    }

    /** HandleBroadcastMsg */
    method HandleBroadcastMsg(orig: int, msg: seq<byte>) returns (status: Status)
      requires Valid()
      modifies fvss
      ensures Valid()
      ensures !jointRunning ==> status == InvalidTransition && Models() == old(Models())
      ensures jointRunning ==>
        status == StatusOf(c, old(Models())[0], Bcast(orig, msg)) &&
        Stepped(S, c, old(Models()), Models(), Bcast(orig, msg))
    {
      if !jointRunning {
        return InvalidTransition;
      }
      status := Dispatch(Bcast(orig, msg));
    }

    /** HandlePrivateMsg */
    method HandlePrivateMsg(orig: int, msg: seq<byte>) returns (status: Status)
      requires Valid()
      modifies fvss
      ensures Valid()
      ensures !jointRunning ==> status == InvalidTransition && Models() == old(Models())
      ensures jointRunning ==>
        status == StatusOf(c, old(Models())[0], Private(orig, msg)) &&
        Stepped(S, c, old(Models()), Models(), Private(orig, msg))
    {
      if !jointRunning {
        return InvalidTransition;
      }
      status := Dispatch(Private(orig, msg));
    }

    /**
     ForceDisqualify: only the instance of the given dealer is told, which is the same as telling all.
     The dealer selects the instance before anything checks it, so where a single instance refuses the
     input this call panics, and the error it promises never comes.
     */
    method ForceDisqualify(participant: int) returns (r: Forced)
      requires Valid()
      modifies fvss
      ensures Valid()
      ensures r == Panics <==> jointRunning && !(0 <= participant < c.size)
      ensures jointRunning ==> (r == Panics <==> StatusOf(c, old(Models())[0], Force(participant)) == InvalidInput)
      ensures r != Returns(InvalidInput)
      ensures !jointRunning ==> r == Returns(InvalidTransition)
      ensures r != Returns(Ok) ==> Models() == old(Models())
      ensures jointRunning && 0 <= participant < c.size ==>
        r == Returns(Ok) && Stepped(S, c, old(Models()), Models(), Force(participant))
    {
      if !jointRunning {
        return Returns(InvalidTransition);
      }
      if participant < 0 || participant >= |fvss| {
        return Panics;
      }
      ghost var before := Models();
      var status := ForceOne(participant, before);
      r := Returns(status);
      assert forall d :: StepAt(S, c, before, Models(), d, Force(participant));
      JointStepInv(S, c, before, Models(), Force(participant));
    }

    method ForceOne(participant: nat, ghost before: seq<State<T>>) returns (status: Status)
      requires Shape() && participant < c.size && JointInv(S, c, before) && before[0].phase.running
      requires fvss[participant].Model() == before[participant]
      modifies fvss[participant]
      ensures status == Ok
      ensures fvss[participant].Model() == Step(S, Inst(c, participant), before[participant], Force(participant))
    {
      status := fvss[participant].ForceDisqualify(participant);
    }

    /** End: the joint keys, when enough dealers are qualified and neither joint key is zero as computed. */
    method End() returns (status: Status, out: JointOutput<T>)
      requires Valid()
      modifies this, fvss
      ensures Valid()
      ensures !old(jointRunning) || old(fvss[0].phase) != Phase(true, true, true) ==>
        status == InvalidTransition && Models() == old(Models()) && jointRunning == old(jointRunning)
      ensures old(jointRunning) && old(fvss[0].phase) == Phase(true, true, true) ==>
        && !jointRunning
        && (forall d :: 0 <= d < c.size ==> fvss[d].disqualified == EndVerdict(old(Models())[d]))
        && EndOutcome(S, c, old(Models()), status, out)
    {
      if !jointRunning || !fvss[0].phase.sharesTimeout || !fvss[0].phase.complaintsTimeout {
        return InvalidTransition, JointOutput(0, S.G.zero, []);
      }
      ghost var insts := Models();
      status, out := Conclude(insts);
      jointRunning := false;
      MarkedInv(S, c, insts, Models());
    }

    method Conclude(ghost insts: seq<State<T>>) returns (status: Status, out: JointOutput<T>)
      requires Shape() && JointInv(S, c, insts) && insts[0].phase == Phase(true, true, true)
      requires forall d :: 0 <= d < c.size ==> fvss[d].Model() == insts[d]
      modifies fvss
      ensures forall d :: 0 <= d < c.size ==> Marked(insts[d], fvss[d].Model())
      ensures EndOutcome(S, c, insts, status, out)
    {
      ghost var q := QualifiedDealers(insts);
      QualifiedGiveKeys(S, c, insts, q);
      var qualified := MarkUnanswered(insts);
      if c.size - qualified > c.threshold || qualified <= c.threshold {
        return DkgFailure, JointOutput(0, S.G.zero, []);
      }
      var xs, vs, ys := GetQualifiedKeys(insts, q);
      out := SumUpQualifiedKeys(xs, vs, ys);
      status := if out.sk == 0 || out.group == S.G.zero then DkgFailure else Ok;
    }

    /** Disqualifies the dealers with an unanswered complaint and counts the others. */
    method MarkUnanswered(ghost insts: seq<State<T>>) returns (qualified: nat)
      requires Shape() && |insts| == c.size && forall d :: 0 <= d < c.size ==> fvss[d].Model() == insts[d]
      modifies fvss
      ensures qualified == |QualifiedDealers(insts)|
      ensures forall d :: 0 <= d < c.size ==> Marked(insts[d], fvss[d].Model())
    {
      qualified := 0;
      for i := 0 to c.size
        invariant qualified == |QualifiedDealers(insts[..i])|
        invariant forall d :: 0 <= d < i ==> Marked(insts[d], fvss[d].Model())
        invariant forall d :: i <= d < c.size ==> fvss[d].Model() == insts[d]
      {
        QualifiedStep(insts, i);
        var lost := MarkOne(fvss[i]);
        if !lost {
          qualified := qualified + 1;
        }
      }
      assert insts[..c.size] == insts;
    }

    static method MarkOne(p: Participant<T>) returns (lost: bool)
      modifies p
      ensures lost == EndVerdict(old(p.Model())) && Marked(old(p.Model()), p.Model())
    {
      lost := p.disqualified;
      if !lost {
        lost := p.FindUnanswered();
        if lost {
          p.DisqualifyTheDealer();
        }
      }
    }

    /** sumUpQualifiedKeys */
    method SumUpQualifiedKeys(xs: seq<nat>, vs: seq<seq<T>>, ys: seq<seq<T>>) returns (out: JointOutput<T>)
      requires ValidSuite(S) && ValidConfig(c) && GoodDealers(S, c, xs, vs, ys)
      ensures JointResult(S, c.threshold, c.size, vs, xs, c.my, out)
    {
      assert forall i :: 0 <= i < |xs| ==> GoodDealer(S, c, xs[i], vs[i], ys[i]);
      var sk := SumVector(xs, S.r);
      var group := SumPoints(S.G, FirstOf(vs));
      var keys := SumColumns(vs, ys);
      out := JointOutput(sk, group, keys);
    }

    /** getQualifiedKeys */
    method GetQualifiedKeys(ghost insts: seq<State<T>>, ghost q: seq<nat>)
        returns (xs: seq<nat>, vs: seq<seq<T>>, ys: seq<seq<T>>)
      requires |fvss| == |insts| == c.size && q == QualifiedDealers(insts)
      requires forall d :: 0 <= d < c.size ==> Marked(insts[d], fvss[d].Model())
      ensures xs == Secrets(insts, q) && vs == Vectors(insts, q) && ys == PublicShares(insts, q)
    {
      ghost var seen: seq<nat> := [];
      xs, vs, ys := [], [], [];
      for i := 0 to c.size
        invariant seen == QualifiedDealers(insts[..i])
        invariant Collected(insts, seen, xs, vs, ys)
      {
        QualifiedStep(insts, i);
        assert Marked(insts[i], fvss[i].Model());
        if !fvss[i].disqualified {
          CollectOne(insts, seen, xs, vs, ys, i);
          xs, vs, ys := xs + [fvss[i].share.x], vs + [fvss[i].keys.vA], ys + [fvss[i].keys.y];
          seen := seen + [i];
        }
      }
      assert insts[..c.size] == insts;
    }

    /** The joint public key of every participant. */
    method SumColumns(ghost vs: seq<seq<T>>, ys: seq<seq<T>>) returns (keys: seq<T>)
      requires ValidSuite(S) && ValidConfig(c) && exists xs :: GoodDealers(S, c, xs, vs, ys)
      ensures |keys| == c.size && forall j :: 0 <= j < c.size ==> keys[j] == Sum(S.G, KeysAt(S.G, vs, j))
    {
      keys := [];
      for j := 0 to c.size
        invariant |keys| == j && forall k :: 0 <= k < j ==> keys[k] == Sum(S.G, KeysAt(S.G, vs, k))
      {
        ColumnsDefined(S, c, vs, ys, j);
        var column := seq(|ys|, (i: nat) requires i < |ys| && j < |ys[i]| => ys[i][j]);
        assert column == KeysAt(S.G, vs, j);
        var key := SumPoints(S.G, column);
        keys := keys + [key];
      }
    }
  }

  /** The shares, vectors and public keys of the dealers q, in the order of q. */
  ghost predicate Collected<T>(insts: seq<State<T>>, q: seq<nat>, xs: seq<nat>, vs: seq<seq<T>>, ys: seq<seq<T>>) {
    Within(insts, q) && xs == Secrets(insts, q) && vs == Vectors(insts, q) && ys == PublicShares(insts, q)
  }

  lemma CollectOne<T>(insts: seq<State<T>>, q: seq<nat>, xs: seq<nat>, vs: seq<seq<T>>, ys: seq<seq<T>>, d: nat)
    requires Collected(insts, q, xs, vs, ys) && d < |insts|
    ensures var s := insts[d];
      Collected(insts, q + [d], xs + [s.share.x], vs + [s.keys.vA], ys + [s.keys.y])
  {
  }

  lemma ColumnsDefined<T(!new)>(S: Suite<T>, c: Config, vs: seq<seq<T>>, ys: seq<seq<T>>, j: nat)
    requires j < c.size && exists xs :: GoodDealers(S, c, xs, vs, ys)
    ensures |vs| == |ys| && forall i :: 0 <= i < |ys| ==> j < |ys[i]| && ys[i][j] == EvalPoint(S.G, vs[i], j + 1)
  {
    var xs :| GoodDealers(S, c, xs, vs, ys);
    forall i | 0 <= i < |ys|
      ensures j < |ys[i]| && ys[i][j] == EvalPoint(S.G, vs[i], j + 1)
    {
      assert GoodDealer(S, c, xs[i], vs[i], ys[i]);
    }
  }

  /** What End does to one instance: an unanswered complaint disqualifies, nothing else changes. */
  ghost predicate Marked<T>(s: State<T>, s': State<T>) {
    && s'.disqualified == EndVerdict(s)
    && s'.phase == s.phase && s'.keys == s.keys && s'.share == s.share && s'.complaints == s.complaints
  }

  lemma MarkedInv<T(!new)>(S: Suite<T>, c: Config, insts: seq<State<T>>, insts': seq<State<T>>)
    requires S.r > 0 && ValidConfig(c) && JointInv(S, c, insts) && |insts'| == c.size
    requires forall d :: 0 <= d < c.size ==> Marked(insts[d], insts'[d])
    ensures JointInv(S, c, insts')
  {
    forall d | 0 <= d < c.size
      ensures Inv(S, Inst(c, d), insts'[d]) && insts'[d].phase == insts'[0].phase
    {
      assert Marked(insts[d], insts'[d]);
      MarkedOne(S, Inst(c, d), insts[d], insts'[d]);
    }
  }

  lemma MarkedOne<T(!new)>(S: Suite<T>, c: Config, s: State<T>, s': State<T>)
    requires Inv(S, c, s) && Marked(s, s')
    ensures Inv(S, c, s')
  {
  }

  ghost predicate StartedAt<T>(S: Suite<T>, c: Config, insts: seq<State<T>>, s: State<T>, d: nat, poly: seq<nat>)
    requires S.r > 0 && ValidConfig(c) && |insts| == c.size
  {
    d < c.size ==> s == Started(S, Inst(c, d), insts[d], poly)
  }

  ghost predicate JointStarted<T>(S: Suite<T>, c: Config, insts: seq<State<T>>, insts': seq<State<T>>, poly: seq<nat>)
    requires S.r > 0 && ValidConfig(c)
  {
    |insts| == |insts'| == c.size && forall d :: 0 <= d < c.size ==> StartedAt(S, c, insts, insts'[d], d, poly)
  }

  lemma JointStartedInv<T(!new)>(S: Suite<T>, c: Config, insts: seq<State<T>>, insts': seq<State<T>>, poly: seq<nat>)
    requires ValidSuite(S) && ValidConfig(c) && JointInv(S, c, insts) && JointStarted(S, c, insts, insts', poly)
    requires ValidPoly(poly, c, S.r)
    ensures JointInv(S, c, insts') && insts'[0].phase.running
  {
    forall d | 0 <= d < c.size
      ensures Inv(S, Inst(c, d), insts'[d]) && insts'[d].phase == insts[0].phase.(running := true)
    {
      assert StartedAt(S, c, insts, insts'[d], d, poly);
      StartedInv(S, Inst(c, d), insts[d], poly);
    }
  }

  /** A call that is refused changes no instance. */
  lemma NothingSteps<T(!new)>(S: Suite<T>, c: Config, insts: seq<State<T>>, insts': seq<State<T>>, e: Event)
    requires S.r > 0 && ValidConfig(c) && JointInv(S, c, insts) && Stepped(S, c, insts, insts', e)
    requires StatusOf(c, insts[0], e) != Ok
    ensures insts' == insts
  {
    forall d | 0 <= d < c.size
      ensures insts'[d] == insts[d]
    {
      assert StepAt(S, c, insts, insts', d, e);
      SameStatus(c, d, insts[0], insts[d], e);
    }
  }

  // ------------------------------------------------------------- whole runs

  /** Participant c.my after the run es, with a as its own polynomial: one state per dealer. */
  ghost function JointRun<T>(S: Suite<T>, c: Config, a: seq<nat>, es: seq<Event>): (insts: seq<State<T>>)
    requires ValidConfig(c) && S.r > 0
    ensures |insts| == c.size
    ensures forall d :: 0 <= d < c.size ==> insts[d] == Run(S, Inst(c, d), Fresh(S, Inst(c, d), a), es)
  {
    seq(c.size, (d: nat) requires d < c.size => Run(S, Inst(c, d), Fresh(S, Inst(c, d), a), es))
  }

  ghost predicate CarriedIn<T>(S: Suite<T>, c: Config, a: seq<nat>, es: seq<Event>, d: nat)
    requires ValidConfig(c) && S.r > 0
  {
    d < c.size ==>
      if d == c.my then DealerRun(S, Inst(c, d), a, es) && AllHeard(S, Inst(c, d), a, es)
      else CarriedRun(S, Inst(c, d), a, es)
  }

  /** The channel serves this participant faithfully in every instance, its own included. */
  ghost predicate HonestJoint<T(!new)>(S: Suite<T>, c: Config, a: seq<nat>, es: seq<Event>) {
    && ValidSuite(S) && ValidConfig(c) && ValidPoly(a, c, S.r)
    && forall d :: CarriedIn(S, c, a, es, d)
  }

  /** A dealer that is neither of the two does not answer a complaint of this one before it is made. */
  ghost predicate OrderlyIn<T>(S: Suite<T>, c: Config, other: nat, a: seq<nat>, es: seq<Event>, d: nat)
    requires ValidConfig(c) && S.r > 0
  {
    d < c.size && d != c.my && d != other ==> NotAnticipated(S, Inst(c, d), a, es)
  }

  ghost predicate Orderly<T>(S: Suite<T>, c: Config, other: nat, a: seq<nat>, es: seq<Event>)
    requires ValidConfig(c) && S.r > 0
  {
    forall d :: OrderlyIn(S, c, other, a, es, d)
  }

  ghost predicate SameVerdict<T>(insts: seq<State<T>>, insts': seq<State<T>>, d: nat)
    requires |insts| == |insts'|
  {
    d < |insts| ==>
      && EndVerdict(insts[d]) == EndVerdict(insts'[d])
      && (!EndVerdict(insts[d]) ==> insts[d].keys.vA == insts'[d].keys.vA)
  }

  /** Any two honest participants agree on every dealer, be it one of them or a third party. */
  lemma JointAgreementAt<T(!new)>(
      S: Suite<T>, c: Config, c': Config, a: seq<nat>, a': seq<nat>, es: seq<Event>, es': seq<Event>, d: nat)
    requires HonestJoint(S, c, a, es) && HonestJoint(S, c', a', es')
    requires c' == c.(my := c'.my) && c.my != c'.my && Public(es) == Public(es') && d < c.size
    requires OrderlyIn(S, c, c'.my, a, es, d) && OrderlyIn(S, c', c.my, a', es', d)
    requires JointRun(S, c, a, es)[d].phase == Phase(true, true, true)
    ensures JointRun(S, c', a', es')[d].phase == Phase(true, true, true)
    ensures SameVerdict(JointRun(S, c, a, es), JointRun(S, c', a', es'), d)
  {
    assert CarriedIn(S, c, a, es, d) && CarriedIn(S, c', a', es', d);
    if d == c.my {
      DealerAgreement(S, Inst(c, d), Inst(c', d), a, a', es, es');
    } else if d == c'.my {
      DealerAgreement(S, Inst(c', d), Inst(c, d), a', a, es', es);
    } else {
      Agreement(S, Inst(c, d), Inst(c', d), a, a', es, es');
    }
  }

  /** Both or neither follow the log on a dealer that is neither of them. */
  ghost predicate AlikeOn<T>(
      S: Suite<T>, c: Config, c': Config, a: seq<nat>, a': seq<nat>, es: seq<Event>, es': seq<Event>, d: nat)
    requires ValidConfig(c) && ValidConfig(c') && c' == c.(my := c'.my) && S.r > 0
  {
    d < c.size && d != c.my && d != c'.my ==>
      (Faithful(S, Inst(c, d), a, es) <==> Faithful(S, Inst(c', d), a', es'))
  }

  lemma JointVerdictIff<T(!new)>(
      S: Suite<T>, c: Config, c': Config, a: seq<nat>, a': seq<nat>, es: seq<Event>, es': seq<Event>, d: nat)
    requires HonestJoint(S, c, a, es) && HonestJoint(S, c', a', es')
    requires c' == c.(my := c'.my) && c.my != c'.my && Public(es) == Public(es') && d < c.size
    requires JointRun(S, c, a, es)[d].phase == Phase(true, true, true)
    ensures EndVerdict(JointRun(S, c, a, es)[d]) == EndVerdict(JointRun(S, c', a', es')[d]) <==>
      AlikeOn(S, c, c', a, a', es, es', d)
  {
    assert CarriedIn(S, c, a, es, d) && CarriedIn(S, c', a', es', d);
    if d == c.my {
      DealerAgreement(S, Inst(c, d), Inst(c', d), a, a', es, es');
    } else if d == c'.my {
      DealerAgreement(S, Inst(c', d), Inst(c, d), a', a, es', es);
    } else {
      AgreementIff(S, Inst(c, d), Inst(c', d), a, a', es, es');
    }
  }

  lemma {:induction false} QualifiedMember<T>(insts: seq<State<T>>, d: nat)
    ensures d in QualifiedDealers(insts) <==> d < |insts| && !EndVerdict(insts[d])
  {
    if insts != [] {
      QualifiedMember(insts[..|insts| - 1], d);
    }
  }

  /**
   With no promise on the order of the answers of a third party, two honest participants end with
   the same qualified dealers if and only if on every third party both or neither follow the log.
   */
  lemma JointAgreementIff<T(!new)>(
      S: Suite<T>, c: Config, c': Config, a: seq<nat>, a': seq<nat>, es: seq<Event>, es': seq<Event>)
    requires HonestJoint(S, c, a, es) && HonestJoint(S, c', a', es')
    requires c' == c.(my := c'.my) && c.my != c'.my && Public(es) == Public(es')
    requires forall d :: 0 <= d < c.size ==> JointRun(S, c, a, es)[d].phase == Phase(true, true, true)
    ensures QualifiedDealers(JointRun(S, c, a, es)) == QualifiedDealers(JointRun(S, c', a', es')) <==>
      forall d :: AlikeOn(S, c, c', a, a', es, es', d)
  {
    var insts, insts' := JointRun(S, c, a, es), JointRun(S, c', a', es');
    forall d: nat
      ensures d < c.size ==> (EndVerdict(insts[d]) == EndVerdict(insts'[d]) <==> AlikeOn(S, c, c', a, a', es, es', d))
      ensures d in QualifiedDealers(insts) <==> d < c.size && !EndVerdict(insts[d])
      ensures d in QualifiedDealers(insts') <==> d < c.size && !EndVerdict(insts'[d])
    {
      QualifiedMember(insts, d);
      QualifiedMember(insts', d);
      if d < c.size {
        JointVerdictIff(S, c, c', a, a', es, es', d);
      }
    }
    if forall d :: AlikeOn(S, c, c', a, a', es, es', d) {
      SameQualified(insts, insts');
    }
  }

  lemma {:induction false} SameQualified<T(!new)>(insts: seq<State<T>>, insts': seq<State<T>>)
    requires |insts| == |insts'|
    requires forall d :: 0 <= d < |insts| ==> EndVerdict(insts[d]) == EndVerdict(insts'[d])
    ensures QualifiedDealers(insts) == QualifiedDealers(insts')
  {
    if insts != [] {
      var n := |insts| - 1;
      var i, i' := insts[..n], insts'[..n];
      forall d | 0 <= d < n
        ensures EndVerdict(i[d]) == EndVerdict(i'[d])
      {
        assert EndVerdict(insts[d]) == EndVerdict(insts'[d]);
      }
      SameQualified(i, i');
      assert EndVerdict(insts[n]) == EndVerdict(insts'[n]);
    }
  }

  /** Two honest participants end with the same qualified dealers and the same vectors for them. */
  lemma JointAgreement<T(!new)>(
      S: Suite<T>, c: Config, c': Config, a: seq<nat>, a': seq<nat>, es: seq<Event>, es': seq<Event>)
    requires HonestJoint(S, c, a, es) && HonestJoint(S, c', a', es')
    requires c' == c.(my := c'.my) && c.my != c'.my && Public(es) == Public(es')
    requires Orderly(S, c, c'.my, a, es) && Orderly(S, c', c.my, a', es')
    requires forall d :: 0 <= d < c.size ==> JointRun(S, c, a, es)[d].phase == Phase(true, true, true)
    ensures var insts, insts' := JointRun(S, c, a, es), JointRun(S, c', a', es');
      var q := QualifiedDealers(insts);
      QualifiedDealers(insts') == q && Vectors(insts', q) == Vectors(insts, q)
  {
    var insts, insts' := JointRun(S, c, a, es), JointRun(S, c', a', es');
    forall d: nat | d < c.size
      ensures SameVerdict(insts, insts', d)
    {
      assert OrderlyIn(S, c, c'.my, a, es, d) && OrderlyIn(S, c', c.my, a', es', d);
      JointAgreementAt(S, c, c', a, a', es, es', d);
    }
    forall d | 0 <= d < c.size
      ensures EndVerdict(insts[d]) == EndVerdict(insts'[d])
    {
      assert SameVerdict(insts, insts', d);
    }
    SameQualified(insts, insts');
    var q := QualifiedDealers(insts);
    forall i | 0 <= i < |q|
      ensures Vectors(insts', q)[i] == Vectors(insts, q)[i]
    {
      assert SameVerdict(insts, insts', q[i]);
    }
  }

  /**
   Joint Feldman, end to end. Two honest participants that see the same log and whose End returns
   keys hold shares and public keys of one and the same vector of t + 1 points; and of one and the
   same polynomial of degree at most t when the points of the qualified vectors are multiples of
   the generator, which the code does not check.
   */
  lemma JointEndToEnd<T(!new)>(
      S: Suite<T>, c: Config, c': Config, a: seq<nat>, a': seq<nat>, es: seq<Event>, es': seq<Event>,
      ps: seq<seq<nat>>, out: JointOutput<T>, out': JointOutput<T>)
    requires HonestJoint(S, c, a, es) && HonestJoint(S, c', a', es')
    requires c' == c.(my := c'.my) && c.my != c'.my && Public(es) == Public(es')
    requires Orderly(S, c, c'.my, a, es) && Orderly(S, c', c.my, a', es')
    requires forall d :: 0 <= d < c.size ==> JointRun(S, c, a, es)[d].phase == Phase(true, true, true)
    requires EndKeys(S, c, JointRun(S, c, a, es), out) && EndKeys(S, c', JointRun(S, c', a', es'), out')
    ensures var insts := JointRun(S, c, a, es);
      CommonKeys(S, c, c'.my, Vectors(insts, QualifiedDealers(insts)), ps, out, out')
  {
    JointAgreement(S, c, c', a, a', es, es');
    ghost var insts, insts' := JointRun(S, c, a, es), JointRun(S, c', a', es');
    ghost var q := QualifiedDealers(insts);
    SameVectorsCommonKeys(S, c, c'.my, Vectors(insts, q), Secrets(insts, q), Secrets(insts', q), ps, out, out');
  }

  /** The keys of c.my and my' are values of the joint vector of vs, and of its polynomial when ps are behind vs. */
  ghost predicate CommonKeys<T>(
      S: Suite<T>, c: Config, my': nat, vs: seq<seq<T>>, ps: seq<seq<nat>>, out: JointOutput<T>, out': JointOutput<T>)
    requires S.r > 0
  {
    var n := c.threshold + 1;
    && Lengths(vs, n)
    && OnPoints(S, JointVector(S.G, n, vs), c.size, c.my, out)
    && OnPoints(S, JointVector(S.G, n, vs), c.size, my', out')
    && (Commits(S, vs, ps, n) ==>
          && OnPolynomial(S, JointPoly(S.r, n, ps), c.size, c.my, out)
          && OnPolynomial(S, JointPoly(S.r, n, ps), c.size, my', out'))
  }

  lemma SameVectorsCommonKeys<T(!new)>(
      S: Suite<T>, c: Config, my': nat, vs: seq<seq<T>>, xs: seq<nat>, xs': seq<nat>,
      ps: seq<seq<nat>>, out: JointOutput<T>, out': JointOutput<T>)
    requires ValidSuite(S)
    requires JointResult(S, c.threshold, c.size, vs, xs, c.my, out)
    requires JointResult(S, c.threshold, c.size, vs, xs', my', out')
    ensures CommonKeys(S, c, my', vs, ps, out, out')
  {
    JointKeysOnPolynomial(S, c.threshold, c.size, vs, ps, xs, c.my, out);
    JointKeysOnPolynomial(S, c.threshold, c.size, vs, ps, xs', my', out');
  }
}
