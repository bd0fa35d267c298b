// When Joint Feldman delivers keys (crypto/dkg_jointfeldman.go): how many dealers End may lose, and
// that it loses no honest one as long as at most t participants are faulty or late.
module JointLiveness {
  import opened ModArith
  import opened Groups
  import opened Polynomials
  import opened FeldmanSpec
  import opened FeldmanAgreement
  import opened HonestDealer
  import opened PromptParticipants
  import opened JointKeys
  import opened JointFeldman

  /** The dealers that End disqualifies or finds disqualified. */
  ghost function Lost<T>(insts: seq<State<T>>): set<nat> {
    set d: nat | d < |insts| && EndVerdict(insts[d])
  }

  lemma {:induction false} LostAndQualified<T>(insts: seq<State<T>>)
    ensures |QualifiedDealers(insts)| + |Lost(insts)| == |insts|
  {
    if insts != [] {
      var n := |insts| - 1;
      LostAndQualified(insts[..n]);
      if EndVerdict(insts[n]) {
        assert Lost(insts) == Lost(insts[..n]) + {n};
      } else {
        assert Lost(insts) == Lost(insts[..n]);
      }
    }
  }

  /** End goes on to the keys exactly when at most t dealers are lost and more than t are left. */
  lemma EnoughIff<T>(c: Config, insts: seq<State<T>>)
    requires |insts| == c.size
    ensures Enough(c, |QualifiedDealers(insts)|) <==>
      |Lost(insts)| <= c.threshold && c.size - |Lost(insts)| > c.threshold
  {
    LostAndQualified(insts);
  }

  /** Participant d deals honestly in its own instance: it is heard, and nobody is told to drop it. */
  ghost predicate DealsWell<T(!new)>(S: Suite<T>, c: Config, a: seq<nat>, es: seq<Event>, d: nat) {
    && S.r > 0 && d < c.size && ValidConfig(c)
    && var c0 := Inst(c, d).(my := d);
    Setting(S, c0, a) && DealerRun(S, c0, a, es) && AllHeard(S, c0, a, es) && Force(d) !in es
  }

  /** In the instance of dealer d, participant k runs the code and gets its share in time. */
  ghost predicate PromptIn<T>(S: Suite<T>, c: Config, polys: seq<seq<nat>>, runs: seq<seq<Event>>, d: nat, k: nat)
    requires S.r > 0 && ValidConfig(c) && |polys| == |runs| == c.size
  {
    d < c.size && k < c.size && d != k ==>
      IsPrompt(S, Inst(c, d).(my := d), polys[d], runs[d], k, polys[k], runs[k])
  }

  /** Everyone outside `faulty` deals well and is prompt towards everyone else outside it. */
  ghost predicate MostlyHonest<T(!new)>(
      S: Suite<T>, c: Config, polys: seq<seq<nat>>, runs: seq<seq<Event>>, faulty: set<nat>) {
    && S.r > 0 && ValidConfig(c) && |polys| == |runs| == c.size
    && (forall d :: 0 <= d < c.size && d !in faulty ==> DealsWell(S, c, polys[d], runs[d], d))
    && (forall d: nat, k: nat :: d < c.size && d !in faulty && k !in faulty ==> PromptIn(S, c, polys, runs, d, k))
  }

  /** An honest dealer is kept by every other honest participant. */
  lemma KeptByOthers<T(!new)>(
      S: Suite<T>, c: Config, polys: seq<seq<nat>>, runs: seq<seq<Event>>, faulty: set<nat>, d: nat, k: nat)
    requires MostlyHonest(S, c, polys, runs, faulty) && |faulty| <= c.threshold
    requires d < c.size && k < c.size && d != k && d !in faulty && k !in faulty
    requires At(S, Inst(c, d).(my := k), polys[k], runs[k]).phase.complaintsTimeout
    ensures !EndVerdict(At(S, Inst(c, d).(my := k), polys[k], runs[k]))
  {
    var c0 := Inst(c, d).(my := d);
    var p := map i: nat | i < c.size :: polys[i];
    var r := map i: nat | i < c.size :: runs[i];
    forall i: nat | i < c.size && i != d && i !in faulty
      ensures IsPrompt(S, c0, polys[d], runs[d], i, p[i], r[i])
    {
      assert PromptIn(S, c, polys, runs, d, i);
    }
    HonestDealerStays(S, c0, polys[d], runs[d], faulty, p, r, c0.(my := k), polys[k], runs[k]);
  }

  /** An honest dealer keeps itself. */
  lemma KeptByItself<T(!new)>(
      S: Suite<T>, c: Config, polys: seq<seq<nat>>, runs: seq<seq<Event>>, faulty: set<nat>, d: nat, k: nat)
    requires MostlyHonest(S, c, polys, runs, faulty) && |faulty| <= c.threshold
    requires d < c.size && k < c.size && d != k && d !in faulty && k !in faulty
    requires At(S, Inst(c, d).(my := d), polys[d], runs[d]).phase.complaintsTimeout
    ensures !EndVerdict(At(S, Inst(c, d).(my := d), polys[d], runs[d]))
  {
    var c0 := Inst(c, d).(my := d);
    assert PromptIn(S, c, polys, runs, d, k);
    DealerAgreement(S, c0, c0.(my := k), polys[d], polys[k], runs[d], runs[k]);
    KeptByOthers(S, c, polys, runs, faulty, d, k);
  }

  ghost function Below(n: nat): (s: set<nat>)
    ensures |s| == n && forall i: nat :: i in s <==> i < n
  {
    if n == 0 then {} else Below(n - 1) + {n - 1}
  }

  lemma AnotherHonest(n: nat, faulty: set<nat>, k: nat) returns (d: nat)
    requires |faulty| + 2 <= n && k !in faulty
    ensures d < n && d != k && d !in faulty
  {
    if Below(n) <= faulty + {k} {
      SubsetSize(Below(n), faulty + {k});
    }
    d :| d in Below(n) && d !in faulty + {k};
  }

  /**
   If at most t participants are faulty or late and fewer than half are allowed to be, then at every
   other participant only faulty dealers are lost, so End fails for no other reason than a joint key
   that is zero.
   */
  lemma HonestMajorityEnds<T(!new)>(
      S: Suite<T>, c: Config, polys: seq<seq<nat>>, runs: seq<seq<Event>>, faulty: set<nat>,
      status: Status, out: JointOutput<T>)
    requires MostlyHonest(S, c, polys, runs, faulty) && c.my !in faulty
    requires |faulty| <= c.threshold && 2 * c.threshold < c.size
    requires var insts := JointRun(S, c, polys[c.my], runs[c.my]);
      && (forall d :: 0 <= d < c.size ==> insts[d].phase == Phase(true, true, true))
      && EndOutcome(S, c, insts, status, out)
    ensures var insts := JointRun(S, c, polys[c.my], runs[c.my]);
      var q := QualifiedDealers(insts);
      && Lost(insts) <= faulty
      && (status == Ok <==>
            SumScalars(Secrets(insts, q)) != 0 && Sum(S.G, FirstOf(Vectors(insts, q))) != S.G.zero)
  {
    var insts := JointRun(S, c, polys[c.my], runs[c.my]);
    forall d | d in Lost(insts)
      ensures d in faulty
    {
      assert insts[d] == At(S, Inst(c, d), polys[c.my], runs[c.my]);
      if d !in faulty {
        if d == c.my {
          var k := AnotherHonest(c.size, faulty, c.my);
          KeptByItself(S, c, polys, runs, faulty, d, k);
        } else {
          KeptByOthers(S, c, polys, runs, faulty, d, c.my);
        }
      }
    }
    SubsetSize(Lost(insts), faulty);
    EnoughIff(c, insts);
  }
}
