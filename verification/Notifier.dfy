// The notifier of engine/notifier.go, a channel of capacity one, between the
// producers of engine/enqueue.go that store and then notify, and consumers that
// receive and then poll their stores in turn until all are empty: no wakeup is
// ever lost, over all interleavings.
module Notifier {
  import opened Bytes

  /** A producer is idle, or has stored a message and not yet notified. */
  datatype Producer = Idle | Stored

  /** A consumer is blocked on the channel, or awake and about to poll the store next. */
  datatype Consumer = Waiting | Awake(next: nat)

  /** The message stores, the token in the channel, and the threads. */
  datatype State<M> = State(stores: seq<seq<M>>, token: bool, producers: seq<Producer>, consumers: seq<Consumer>)

  /** The atomic steps; a store may refuse a message, and may drop one later. */
  datatype Event<M> =
    | Put(p: nat, k: nat, m: M)
    | Refused(p: nat)
    | Notify(p: nat)
    | Receive(c: nat)
    | Get(c: nat)
    | Drop(k: nat, i: nat)

  predicate Enabled<M>(s: State<M>, e: Event<M>) {
    match e
    case Put(p, k, _) => p < |s.producers| && s.producers[p] == Idle && k < |s.stores|
    case Refused(p) => p < |s.producers| && s.producers[p] == Idle
    case Notify(p) => p < |s.producers| && s.producers[p] == Stored
    case Receive(c) => c < |s.consumers| && s.consumers[c] == Waiting && s.token
    case Get(c) => c < |s.consumers| && s.consumers[c].Awake?
    case Drop(k, i) => k < |s.stores| && i < |s.stores[k]|
  }

  /**
   Notify is a send that gives up when the channel is full. Get polls one store: a message sends the
   consumer back to the first store, an empty store on to the next, and past the last one it waits.
   */
  function Step<M>(s: State<M>, e: Event<M>): State<M>
    requires Enabled(s, e)
  {
    match e
    case Put(p, k, m) => s.(stores := s.stores[k := s.stores[k] + [m]], producers := s.producers[p := Stored])
    case Refused(p) => s
    case Notify(p) => s.(token := true, producers := s.producers[p := Idle])
    case Receive(c) => s.(token := false, consumers := s.consumers[c := Awake(0)])
    case Get(c) =>
      var k := s.consumers[c].next;
      if k >= |s.stores| then s.(consumers := s.consumers[c := Waiting])
      else if s.stores[k] == [] then s.(consumers := s.consumers[c := Awake(k + 1)])
      else s.(stores := s.stores[k := s.stores[k][1..]], consumers := s.consumers[c := Awake(0)])
    case Drop(k, i) => s.(stores := s.stores[k := s.stores[k][..i] + s.stores[k][i + 1..]])
  }

  /** Consumer c is awake and has yet to poll store k. */
  predicate WillPoll<M>(s: State<M>, c: nat, k: nat) {
    c < |s.consumers| && s.consumers[c].Awake? && s.consumers[c].next <= k
  }

  /** A message in store k implies a pending token, a consumer that will poll k or a producer about to notify. */
  ghost predicate Attended<M>(s: State<M>, k: nat) {
    k < |s.stores| && s.stores[k] != [] ==>
      || s.token
      || (exists c: nat :: WillPoll(s, c, k))
      || (exists p :: 0 <= p < |s.producers| && s.producers[p] == Stored)
  }

  ghost predicate NoLostWakeup<M>(s: State<M>) {
    forall k :: Attended(s, k)
  }

  lemma StepAttends<M>(s: State<M>, e: Event<M>, k: nat)
    requires Attended(s, k) && Enabled(s, e)
    ensures Attended(Step(s, e), k)
  {
    var s' := Step(s, e);
    if k < |s.stores| && s'.stores[k] != [] && !s'.token {
      match e
      case Put(p, _, _) => assert s'.producers[p] == Stored;
      case Receive(c) => assert WillPoll(s', c, k);
      case Get(c) => PollAttends(s, c, k);
      case Refused(_) =>
      case Notify(_) =>
      case Drop(_, _) =>
        if c: nat :| WillPoll(s, c, k) {
          assert WillPoll(s', c, k);
        }
    }
  }

  lemma PollAttends<M>(s: State<M>, c: nat, k: nat)
    requires Attended(s, k) && Enabled(s, Get(c))
    ensures Attended(Step(s, Get(c)), k)
  {
    var s' := Step(s, Get(c));
    if c': nat :| WillPoll(s, c', k) {
      if k < |s.stores| && s'.stores[k] != [] {
        assert WillPoll(s', c', k);
      }
    }
  }

  lemma StepKeeps<M>(s: State<M>, e: Event<M>)
    requires NoLostWakeup(s) && Enabled(s, e)
    ensures NoLostWakeup(Step(s, e))
  {
    forall k: nat
      ensures Attended(Step(s, e), k)
    {
      StepAttends(s, e, k);
    }
  }

  function Init<M>(stores: nat, producers: nat, consumers: nat): State<M> {
    State(seq(stores, i => []), false, seq(producers, i => Idle), seq(consumers, i => Waiting))
  }

  ghost predicate Legal<M>(s: State<M>, es: seq<Event<M>>)
    decreases |es|
  {
    es != [] ==> Enabled(s, es[0]) && Legal(Step(s, es[0]), es[1..])
  }

  ghost function Run<M>(s: State<M>, es: seq<Event<M>>): State<M>
    requires Legal(s, es)
    decreases |es|
  {
    if es == [] then s else Run(Step(s, es[0]), es[1..])
  }

  lemma {:induction false} RunKeeps<M>(s: State<M>, es: seq<Event<M>>)
    requires NoLostWakeup(s) && Legal(s, es)
    ensures NoLostWakeup(Run(s, es)) && |Run(s, es).consumers| == |s.consumers|
    decreases |es|
  {
    if es != [] {
      StepKeeps(s, es[0]);
      RunKeeps(Step(s, es[0]), es[1..]);
    }
  }

  /**
   Over every interleaving: when all producers are done and store k holds a message, some consumer
   that will poll store k can move, or can be woken to do so; or all are busy and the token stays
   for the first that goes back to wait.
   */
  lemma MessagesGetServed<M>(stores: nat, producers: nat, consumers: nat, es: seq<Event<M>>, k: nat)
      returns (e: Event<M>)
    requires Legal(Init(stores, producers, consumers), es) && consumers > 0
    requires var s := Run(Init(stores, producers, consumers), es);
      && k < |s.stores| && s.stores[k] != []
      && forall p :: 0 <= p < |s.producers| ==> s.producers[p] == Idle
    ensures var s := Run(Init(stores, producers, consumers), es);
      && Enabled(s, e) && (e.Receive? || e.Get?)
      && (WillPoll(if e.Receive? then Step(s, e) else s, e.c, k) || (s.token && Step(s, e).token))
  {
    var s0 := Init(stores, producers, consumers);
    assert NoLostWakeup(s0);
    RunKeeps(s0, es);
    var s := Run(s0, es);
    assert Attended(s, k);
    if c: nat :| WillPoll(s, c, k) {
      e := Get(c);
    } else if c: nat :| c < |s.consumers| && s.consumers[c] == Waiting {
      e := Receive(c);
    } else {
      e := Get(0);
    }
  }

  /** n polls in a row by consumer c. */
  function Polls<M>(c: nat, n: nat): (es: seq<Event<M>>)
    ensures |es| == n
  {
    seq(n, i => Get(c))
  }

  /** All messages of all stores. */
  function Total<M>(stores: seq<seq<M>>): nat {
    if stores == [] then 0 else Total(stores[..|stores| - 1]) + |stores[|stores| - 1]|
  }

  lemma {:induction false} TotalUpdate<M>(stores: seq<seq<M>>, k: nat, q: seq<M>)
    requires k < |stores|
    ensures Total(stores[k := q]) + |stores[k]| == Total(stores) + |q|
  {
    var n := |stores| - 1;
    if k < n {
      TotalUpdate(stores[..n], k, q);
      assert stores[k := q][..n] == stores[..n][k := q];
    } else {
      assert stores[k := q][..n] == stores[..n];
    }
  }

  /**
   A consumer that will poll store k takes a message, from it or an earlier store, after at most
   k - next + 1 polls.
   */
  lemma {:induction false} PollsTake<M>(s: State<M>, c: nat, k: nat) returns (n: nat)
    requires WillPoll(s, c, k) && k < |s.stores| && s.stores[k] != []
    ensures 1 <= n <= k - s.consumers[c].next + 1 && Legal(s, Polls(c, n))
    ensures Total(Run(s, Polls(c, n)).stores) == Total(s.stores) - 1
    decreases k - s.consumers[c].next
  {
    var i, s' := s.consumers[c].next, Step(s, Get(c));
    if s.stores[i] == [] {
      var m := PollsTake(s', c, k);
      n := m + 1;
      assert Polls<M>(c, n)[1..] == Polls<M>(c, m);
    } else {
      n := 1;
      assert Polls<M>(c, 1)[1..] == [];
      TotalUpdate(s.stores, i, s.stores[i][1..]);
    }
  }

  // ------------------------------------------------------------- The drain

  predicate ConsumerStep<M>(e: Event<M>) {
    e.Receive? || e.Get?
  }

  /** The polls a consumer makes before it waits again, if it finds nothing. */
  function PollsLeft(n: nat, c: Consumer): nat {
    if c.Waiting? then 0 else if c.next >= n then 1 else n - c.next + 1
  }

  function AllPollsLeft(n: nat, cs: seq<Consumer>): nat {
    if cs == [] then 0 else AllPollsLeft(n, cs[..|cs| - 1]) + PollsLeft(n, cs[|cs| - 1])
  }

  lemma {:induction false} PollsUpdate(n: nat, cs: seq<Consumer>, c: nat, x: Consumer)
    requires c < |cs|
    ensures AllPollsLeft(n, cs[c := x]) + PollsLeft(n, cs[c]) == AllPollsLeft(n, cs) + PollsLeft(n, x)
  {
    var k := |cs| - 1;
    if c < k {
      PollsUpdate(n, cs[..k], c, x);
      assert cs[c := x][..k] == cs[..k][c := x];
    } else {
      assert cs[c := x][..k] == cs[..k];
    }
  }

  /** Each message costs a round of n + 1 polls, the token one more step, and then come the polls under way. */
  function Work<M>(s: State<M>): nat {
    var n := |s.stores|;
    Rounds(Total(s.stores), n + 1) + (if s.token then n + 2 else 0) + AllPollsLeft(n, s.consumers)
  }

  function Rounds(messages: nat, cost: nat): nat {
    if messages == 0 then 0 else Rounds(messages - 1, cost) + cost
  }

  lemma ConsumerStepWorks<M>(s: State<M>, e: Event<M>)
    requires Enabled(s, e) && ConsumerStep(e)
    ensures Work(Step(s, e)) < Work(s)
    ensures Step(s, e).producers == s.producers && |Step(s, e).stores| == |s.stores|
  {
    var n := |s.stores|;
    match e
    case Receive(c) => PollsUpdate(n, s.consumers, c, Awake(0));
    case Get(c) =>
      var k := s.consumers[c].next;
      PollsUpdate(n, s.consumers, c, Step(s, e).consumers[c]);
      if k < n && s.stores[k] != [] {
        TotalUpdate(s.stores, k, s.stores[k][1..]);
        assert Rounds(Total(s.stores), n + 1) == Rounds(Total(s.stores) - 1, n + 1) + (n + 1);
      }
  }

  ghost predicate ConsumersOnly<M>(es: seq<Event<M>>) {
    forall i :: 0 <= i < |es| ==> ConsumerStep(es[i])
  }

  /** However the consumers interleave, they make at most Work(s) steps. */
  lemma {:induction false} DrainIsBounded<M>(s: State<M>, es: seq<Event<M>>)
    requires Legal(s, es) && ConsumersOnly(es)
    ensures |es| + Work(Run(s, es)) <= Work(s)
    ensures Run(s, es).producers == s.producers && |Run(s, es).stores| == |s.stores|
    decreases |es|
  {
    if es != [] {
      ConsumerStepWorks(s, es[0]);
      DrainIsBounded(Step(s, es[0]), es[1..]);
    }
  }

  ghost predicate AllIdle<M>(s: State<M>) {
    forall p :: 0 <= p < |s.producers| ==> s.producers[p] == Idle
  }

  /** No consumer can move. */
  ghost predicate Stalled<M>(s: State<M>) {
    forall c: nat :: !Enabled(s, Receive(c)) && !Enabled(s, Get(c))
  }

  lemma StalledIsEmpty<M>(s: State<M>, k: nat)
    requires NoLostWakeup(s) && AllIdle(s) && Stalled(s) && s.consumers != [] && k < |s.stores|
    ensures s.stores[k] == []
  {
    assert Attended(s, k);
    assert !Enabled(s, Receive(0)) && !Enabled(s, Get(0));
    if c: nat :| WillPoll(s, c, k) {
      assert Enabled(s, Get(c));
      assert false;
    }
  }

  /**
   Every message is served: after any run that leaves the producers idle, the consumers can only make
   a bounded number of steps, and when none of them can move all stores are empty.
   */
  lemma EverythingDrains<M>(
      stores: nat, producers: nat, consumers: nat, es: seq<Event<M>>, drain: seq<Event<M>>)
    requires consumers > 0 && Legal(Init(stores, producers, consumers), es)
    requires var s := Run(Init(stores, producers, consumers), es);
      AllIdle(s) && Legal(s, drain) && ConsumersOnly(drain)
    ensures var s := Run(Init(stores, producers, consumers), es);
      && |drain| <= Work(s)
      && (Stalled(Run(s, drain)) ==>
            forall k :: 0 <= k < |Run(s, drain).stores| ==> Run(s, drain).stores[k] == [])
  {
    var s0 := Init(stores, producers, consumers);
    var s := Run(s0, es);
    var t := Run(s, drain);
    assert NoLostWakeup(s0);
    RunKeeps(s0, es);
    RunKeeps(s, drain);
    DrainIsBounded(s, drain);
    if Stalled(t) {
      forall k | 0 <= k < |s.stores|
        ensures t.stores[k] == []
      {
        StalledIsEmpty(t, k);
      }
    }
  }

  // ------------------------------------------------------- MessageHandler.Process

  /** Match, an optional Map that may discard the message, and the index of the store. */
  datatype Pattern<!M> = Pattern(matches: M -> bool, mapping: Option<M -> Option<M>>, store: nat)

  datatype Processed<M> = NoMatch | Discarded | Rejected(store: nat) | Kept(store: nat, m: M)

  function Mapped<M>(p: Pattern<M>, m: M): Option<M> {
    if p.mapping == None then Some(m) else p.mapping.value(m)
  }

  /** The first pattern that matches a message. */
  ghost predicate FirstMatch<M>(ps: seq<Pattern<M>>, m: M, i: nat) {
    i < |ps| && ps[i].matches(m) && forall j :: 0 <= j < i ==> !ps[j].matches(m)
  }

  /** The machine with one producer that has nothing pending. */
  ghost function Resting<M>(stores: seq<seq<M>>, token: bool, consumers: seq<Consumer>): State<M> {
    State(stores, token, [Idle], consumers)
  }

  /** A call of Process as steps of the machine: a kept message is Put and then Notify, a rejected one is Refused. */
  ghost predicate AsSteps<M>(stores: seq<seq<M>>, token: bool, r: Processed<M>, stores': seq<seq<M>>, token': bool) {
    forall cs :: AsStepsWith(Resting(stores, token, cs), r, Resting(stores', token', cs))
  }

  ghost predicate AsStepsWith<M>(s: State<M>, r: Processed<M>, s': State<M>) {
    var es := match r
      case Kept(k, m) => [Put(0, k, m), Notify(0)]
      case Rejected(_) => [Refused(0)]
      case _ => [];
    Legal(s, es) && Run(s, es) == s'
  }

  lemma KeptAsSteps<M>(stores: seq<seq<M>>, token: bool, k: nat, m: M)
    requires k < |stores|
    ensures AsSteps(stores, token, Kept(k, m), stores[k := stores[k] + [m]], true)
  {
    forall cs
      ensures AsStepsWith(Resting(stores, token, cs), Kept(k, m), Resting(stores[k := stores[k] + [m]], true, cs))
    {
      var s := Resting(stores, token, cs);
      var notify: seq<Event<M>> := [Notify(0)];
      var es: seq<Event<M>> := [Put(0, k, m), Notify(0)];
      var s1 := Step(s, es[0]);
      assert es[1..] == notify && notify[1..] == [];
      assert Step(s1, notify[0]).producers == [Idle];
      assert Legal(s1, notify) && Run(s1, notify) == Step(s1, notify[0]);
    }
  }

  lemma OthersAsSteps<M>(stores: seq<seq<M>>, token: bool, r: Processed<M>)
    requires !r.Kept?
    ensures AsSteps(stores, token, r, stores, token)
  {
    forall cs
      ensures AsStepsWith(Resting(stores, token, cs), r, Resting(stores, token, cs))
    {
      var s := Resting(stores, token, cs);
      var es: seq<Event<M>> := [Refused(0)];
      assert es[1..] == [] && Legal(s, es) && Run(s, es) == s;
    }
  }

  class MessageHandler<M(0)> {
    const patterns: seq<Pattern<M>>
    var stores: seq<seq<M>>
    var token: bool

    constructor (patterns: seq<Pattern<M>>, n: nat)
      requires forall i :: 0 <= i < |patterns| ==> patterns[i].store < n
      ensures this.patterns == patterns && Valid() && !token
      ensures |stores| == n && forall i :: 0 <= i < n ==> stores[i] == []
    {
      this.patterns := patterns;
      stores, token := seq(n, i => []), false;
    }

    ghost predicate Valid()
      reads this
    {
      forall i :: 0 <= i < |patterns| ==> patterns[i].store < |stores|
    }

    /** Process: the first matching pattern stores the message and notifies; nothing else touches the token. */
    method Process(m: M, accepts: bool) returns (r: Processed<M>)
      requires Valid()
      modifies this
      ensures Valid()
      ensures r == NoMatch <==> forall i :: 0 <= i < |patterns| ==> !patterns[i].matches(m)
      ensures r != NoMatch ==> exists i: nat ::
        && FirstMatch(patterns, m, i)
        && var m' := Mapped(patterns[i], m);
           r == if m' == None then Discarded
                else if accepts then Kept(patterns[i].store, m'.value)
                else Rejected(patterns[i].store)
      ensures r.Kept? ==>
        r.store < |old(stores)| && token && stores == old(stores)[r.store := old(stores)[r.store] + [r.m]]
      ensures !r.Kept? ==> stores == old(stores) && token == old(token)
      ensures AsSteps(old(stores), old(token), r, stores, token)
    {
      for i := 0 to |patterns|
        invariant forall j :: 0 <= j < i ==> !patterns[j].matches(m)
        invariant stores == old(stores) && token == old(token)
      {
        if patterns[i].matches(m) {
          assert FirstMatch(patterns, m, i);
          var m' := Mapped(patterns[i], m);
          if m' == None {
            OthersAsSteps(stores, token, Discarded);
            return Discarded;
          }
          var k := patterns[i].store;
          if !accepts {
            OthersAsSteps(stores, token, Rejected(k));
            return Rejected(k);
          }
          KeptAsSteps(stores, token, k, m'.value);
          stores := stores[k := stores[k] + [m'.value]];
          token := true;
          return Kept(k, m'.value);
        }
      }
      OthersAsSteps(stores, token, NoMatch);
      r := NoMatch;
    }
  }
}
