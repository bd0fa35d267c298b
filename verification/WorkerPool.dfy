// The concurrent signature verification of fvm/transactionVerifier.go as a
// state machine over every schedule: a main thread that sends all entries,
// receives verified ones and on a failure waits for the workers, and workers
// that take entries in order and stop once a failure is signalled.
module WorkerPool {
  /** ok[e] tells whether the verification of entry e succeeds; workers is the count that the wait group is given. */
  datatype Config = Config(ok: seq<bool>, workers: int)

  datatype Result = Verified | Failure(entry: nat) | NotCalled | Panic

  /** The main thread: sending, receiving, waiting for the workers, returned. */
  datatype Main = Sending | Receiving | Waiting | Returned(result: Result)

  /** A worker: at the loop head, with an entry, after its verification, after passing it on, gone. */
  datatype Worker = Ready | Holding(e: nat) | Checked(e: nat) | Passed(e: nat) | Exited

  /**
   The channels: entries 0 to sent - 1 are sent and 0 to taken - 1 taken, in order;
   `pushed` lists what went into the channel of verified entries, of which `received` came out.
   */
  datatype Channels = Channels(sent: nat, taken: nat, pushed: seq<nat>, received: nat)

  datatype State = State(main: Main, ch: Channels, workers: seq<Worker>, invoked: set<nat>, cancelled: bool)

  datatype Choice = MainThread | WorkerThread(k: nat)

  function N(c: Config): nat {
    |c.ok|
  }

  predicate Closed(s: State) {
    s.main != Sending
  }

  /** The wait group panics on a negative count before any worker starts. */
  function Init(c: Config): State {
    var count: nat := if c.workers < 0 then 0 else c.workers;
    State(if c.workers < 0 then Returned(Panic) else Sending, Channels(0, 0, [], 0), seq(count, i => Ready), {}, false)
  }

  // ------------------------------------------------------------------- Steps

  predicate AllExited(ws: seq<Worker>) {
    forall k :: 0 <= k < |ws| ==> ws[k] == Exited
  }

  predicate MainEnabled(c: Config, s: State) {
    match s.main
    case Sending => true
    case Receiving => s.ch.received >= N(c) || s.ch.received < |s.ch.pushed|
    case Waiting => AllExited(s.workers)
    case Returned(_) => false
  }

  predicate WorkerEnabled(s: State, w: Worker) {
    match w
    case Ready => s.ch.taken < s.ch.sent || Closed(s)
    case Exited => false
    case _ => true
  }

  predicate Enabled(c: Config, s: State, t: Choice) {
    match t
    case MainThread => MainEnabled(c, s)
    case WorkerThread(k) => !s.main.Returned? && k < |s.workers| && WorkerEnabled(s, s.workers[k])
  }

  /** The first verified entry from i on that failed, if any. */
  function FirstError(c: Config, invoked: set<nat>, i: nat): Result
    requires i <= N(c)
    decreases N(c) - i
  {
    if i == N(c) then Panic
    else if i in invoked && !c.ok[i] then Failure(i)
    else FirstError(c, invoked, i + 1)
  }

  function Receive(c: Config, s: State): State
    requires s.ch.received < |s.ch.pushed|
  {
    var e := s.ch.pushed[s.ch.received];
    var s' := s.(ch := s.ch.(received := s.ch.received + 1));
    if e !in s.invoked then s'.(main := Returned(NotCalled))
    else if e < N(c) && !c.ok[e] then s'.(main := Waiting)
    else s'
  }

  function MainStep(c: Config, s: State): State
    requires MainEnabled(c, s)
  {
    match s.main
    case Sending =>
      if s.ch.sent < N(c) then s.(ch := s.ch.(sent := s.ch.sent + 1)) else s.(main := Receiving)
    case Receiving =>
      if s.ch.received >= N(c) then s.(main := Returned(Verified)) else Receive(c, s)
    case Waiting => s.(main := Returned(FirstError(c, s.invoked, 0)))
  }

  function WorkerStep(c: Config, s: State, k: nat): State
    requires k < |s.workers| && WorkerEnabled(s, s.workers[k])
  {
    match s.workers[k]
    case Ready =>
      if s.ch.taken < s.ch.sent
      then s.(workers := s.workers[k := Holding(s.ch.taken)], ch := s.ch.(taken := s.ch.taken + 1))
      else s.(workers := s.workers[k := Exited])
    case Holding(e) => s.(workers := s.workers[k := Checked(e)], invoked := s.invoked + {e})
    case Checked(e) => s.(workers := s.workers[k := Passed(e)], ch := s.ch.(pushed := s.ch.pushed + [e]))
    case Passed(e) =>
      if e < N(c) && !c.ok[e] then s.(workers := s.workers[k := Exited], cancelled := true)
      else if s.cancelled then s.(workers := s.workers[k := Exited])
      else s.(workers := s.workers[k := Ready])
  }

  function Step(c: Config, s: State, t: Choice): State
    requires Enabled(c, s, t)
  {
    match t
    case MainThread => MainStep(c, s)
    case WorkerThread(k) => WorkerStep(c, s, k)
  }

  // ---------------------------------------------------------------- Invariant

  /** The worker has taken e and not yet passed it on. */
  predicate Holds(w: Worker, e: nat) {
    w == Holding(e) || w == Checked(e)
  }

  /** A failed entry was passed on. */
  ghost predicate SomeFailed(c: Config, pushed: seq<nat>) {
    exists i :: 0 <= i < |pushed| && pushed[i] < N(c) && !c.ok[pushed[i]]
  }

  ghost predicate NoRepeats(s: seq<nat>) {
    forall i, j :: 0 <= i < j < |s| ==> s[i] != s[j]
  }

  ghost predicate ChannelsInv(c: Config, s: State) {
    && s.ch.taken <= s.ch.sent <= N(c) && s.ch.received <= |s.ch.pushed|
    && (Closed(s) ==> s.ch.sent == N(c))
    && NoRepeats(s.ch.pushed)
    && (forall e :: e in s.ch.pushed ==> e < s.ch.taken && e in s.invoked)
    && (forall e :: e in s.invoked ==> e < s.ch.taken)
  }

  /** Every taken entry is passed on or held. */
  ghost predicate Accounted(s: State) {
    forall e: nat :: e < s.ch.taken ==> e in s.ch.pushed || Held(s.workers, e)
  }

  ghost predicate Held(ws: seq<Worker>, e: nat) {
    exists k :: 0 <= k < |ws| && Holds(ws[k], e)
  }

  ghost predicate WorkerInv(c: Config, s: State, w: Worker) {
    match w
    case Ready => true
    case Holding(e) => e < s.ch.taken && e !in s.ch.pushed
    case Checked(e) => e < s.ch.taken && e !in s.ch.pushed && e in s.invoked
    case Passed(e) => e in s.ch.pushed
    case Exited => SomeFailed(c, s.ch.pushed) || (Closed(s) && s.ch.taken == N(c))
  }

  ghost predicate Exclusive(ws: seq<Worker>) {
    forall i, j, e :: 0 <= i < |ws| && 0 <= j < |ws| && i != j && Holds(ws[i], e) ==> !Holds(ws[j], e)
  }

  /** The result the schedule must not change: the lowest failing entry, if any. */
  function Expected(c: Config, i: nat): Result
    requires i <= N(c)
    decreases N(c) - i
  {
    if i == N(c) then Verified else if !c.ok[i] then Failure(i) else Expected(c, i + 1)
  }

  ghost predicate MainInv(c: Config, s: State) {
    match s.main
    case Sending => s.ch.received == 0
    case Receiving =>
      && s.ch.received <= |s.ch.pushed|
      && forall i :: 0 <= i < s.ch.received ==> s.ch.pushed[i] < N(c) && c.ok[s.ch.pushed[i]]
    case Waiting => SomeFailed(c, s.ch.pushed)
    case Returned(r) => r == Expected(c, 0) && (r == Verified ==> s.ch.received == |s.ch.pushed| == N(c))
  }

  ghost predicate Inv(c: Config, s: State) {
    && |s.workers| == c.workers
    && ChannelsInv(c, s) && Accounted(s) && Exclusive(s.workers)
    && (forall k :: 0 <= k < |s.workers| ==> WorkerInv(c, s, s.workers[k]))
    && (s.cancelled ==> SomeFailed(c, s.ch.pushed))
    && MainInv(c, s)
  }

  lemma InitInv(c: Config)
    requires c.workers >= 0
    ensures Inv(c, Init(c))
  {
  }

  // ------------------------------------------------------------ Worker steps

  lemma FailedGrows(c: Config, pushed: seq<nat>, e: nat)
    requires SomeFailed(c, pushed)
    ensures SomeFailed(c, pushed + [e])
  {
    var i :| 0 <= i < |pushed| && pushed[i] < N(c) && !c.ok[pushed[i]];
    assert (pushed + [e])[i] == pushed[i];
  }

  lemma TakeInv(c: Config, s: State, k: nat)
    requires Inv(c, s) && !s.main.Returned? && k < |s.workers| && s.workers[k] == Ready && s.ch.taken < s.ch.sent
    ensures Inv(c, WorkerStep(c, s, k))
  {
    var s' := WorkerStep(c, s, k);
    forall e: nat | e < s'.ch.taken
      ensures e in s'.ch.pushed || Held(s'.workers, e)
    {
      if e == s.ch.taken {
        assert Holds(s'.workers[k], e);
      } else if e !in s.ch.pushed {
        var j :| 0 <= j < |s.workers| && Holds(s.workers[j], e);
        assert Holds(s'.workers[j], e);
      }
    }
  }

  lemma CheckInv(c: Config, s: State, k: nat)
    requires Inv(c, s) && !s.main.Returned? && k < |s.workers| && s.workers[k].Holding?
    ensures Inv(c, WorkerStep(c, s, k))
  {
    var s' := WorkerStep(c, s, k);
    forall e: nat | e < s'.ch.taken
      ensures e in s'.ch.pushed || Held(s'.workers, e)
    {
      if e !in s.ch.pushed {
        var j :| 0 <= j < |s.workers| && Holds(s.workers[j], e);
        assert Holds(s'.workers[j], e);
      }
    }
  }

  lemma PassInv(c: Config, s: State, k: nat)
    requires Inv(c, s) && !s.main.Returned? && k < |s.workers| && s.workers[k].Checked?
    ensures Inv(c, WorkerStep(c, s, k))
  {
    var s', x := WorkerStep(c, s, k), s.workers[k].e;
    assert s'.ch.pushed[|s.ch.pushed|] == x;
    forall e: nat | e < s'.ch.taken
      ensures e in s'.ch.pushed || Held(s'.workers, e)
    {
      if e in s.ch.pushed {
        assert e in s.ch.pushed + [x];
      } else if e != x {
        var j :| 0 <= j < |s.workers| && Holds(s.workers[j], e);
        assert Holds(s'.workers[j], e);
      }
    }
    if SomeFailed(c, s.ch.pushed) {
      FailedGrows(c, s.ch.pushed, x);
    }
  }

  /** Leaving the loop, or going back to its head. */
  lemma TurnInv(c: Config, s: State, k: nat)
    requires Inv(c, s) && !s.main.Returned? && k < |s.workers| && WorkerEnabled(s, s.workers[k])
    requires s.workers[k].Passed? || (s.workers[k] == Ready && s.ch.taken >= s.ch.sent)
    ensures Inv(c, WorkerStep(c, s, k))
  {
    var s' := WorkerStep(c, s, k);
    assert WorkerInv(c, s, s.workers[k]);
    if s.workers[k].Passed? && !c.ok[s.workers[k].e] {
      var i :| 0 <= i < |s.ch.pushed| && s.ch.pushed[i] == s.workers[k].e;
      assert SomeFailed(c, s.ch.pushed);
    }
    forall e: nat | e < s'.ch.taken
      ensures e in s'.ch.pushed || Held(s'.workers, e)
    {
      if e !in s.ch.pushed {
        var j :| 0 <= j < |s.workers| && Holds(s.workers[j], e);
        assert Holds(s'.workers[j], e);
      }
    }
  }

  // -------------------------------------------------------------- Main steps

  lemma {:induction false} ExpectedOk(c: Config, i: nat)
    requires i <= N(c) && forall e :: i <= e < N(c) ==> c.ok[e]
    ensures Expected(c, i) == Verified
    decreases N(c) - i
  {
    if i < N(c) {
      ExpectedOk(c, i + 1);
    }
  }

  /** If every entry up to the first failing one is verified, the scan finds it. */
  lemma {:induction false} ScanFindsLowest(c: Config, invoked: set<nat>, i: nat, m: nat)
    requires i <= m < N(c) && !c.ok[m] && m in invoked && forall e :: i <= e < m ==> c.ok[e]
    ensures FirstError(c, invoked, i) == Failure(m) == Expected(c, i)
    decreases m - i
  {
    if i < m {
      ScanFindsLowest(c, invoked, i + 1, m);
    }
  }

  lemma {:induction false} LowestFailing(c: Config, e: nat) returns (m: nat)
    requires e < N(c) && !c.ok[e]
    ensures m <= e && !c.ok[m] && forall i :: 0 <= i < m ==> c.ok[i]
  {
    m := 0;
    while c.ok[m]
      invariant m <= e && forall i :: 0 <= i < m ==> c.ok[i]
      decreases e - m
    {
      m := m + 1;
    }
  }

  /** Entries are taken in order, so once a failed entry is known the lowest failing one is verified too. */
  lemma WaitResult(c: Config, s: State)
    requires Inv(c, s) && s.main == Waiting && AllExited(s.workers)
    ensures FirstError(c, s.invoked, 0) == Expected(c, 0) && Expected(c, 0).Failure?
  {
    var i :| 0 <= i < |s.ch.pushed| && s.ch.pushed[i] < N(c) && !c.ok[s.ch.pushed[i]];
    var e := s.ch.pushed[i];
    assert e in s.ch.pushed;
    var m := LowestFailing(c, e);
    assert m in s.ch.pushed || Held(s.workers, m);
    ScanFindsLowest(c, s.invoked, 0, m);
  }

  /** Distinct numbers below n are all of them once there are n. */
  lemma {:induction false} Pigeonhole(s: seq<nat>, n: nat)
    requires NoRepeats(s) && forall e :: e in s ==> e < n
    ensures |s| <= n && (|s| == n ==> forall e: nat :: e < n ==> e in s)
    decreases n
  {
    assert s != [] ==> s[0] in s;
    if n == 0 {
    } else if n - 1 in s {
      var j :| 0 <= j < |s| && s[j] == n - 1;
      var t := s[..j] + s[j + 1..];
      RemoveOne(s, j, n);
      Pigeonhole(t, n - 1);
      forall e: nat | |s| == n && e < n
        ensures e in s
      {
        if e != n - 1 {
          assert e in t;
        }
      }
    } else {
      Pigeonhole(s, n - 1);
    }
  }

  lemma RemoveOne(s: seq<nat>, j: nat, n: nat)
    requires NoRepeats(s) && (forall e :: e in s ==> e < n) && j < |s| && s[j] == n - 1
    ensures var t := s[..j] + s[j + 1..]; NoRepeats(t) && forall e :: e in t ==> e < n - 1 && e in s
  {
    var t := s[..j] + s[j + 1..];
    forall e | e in t
      ensures e < n - 1 && e in s
    {
      var i :| 0 <= i < |t| && t[i] == e;
      var i' := if i < j then i else i + 1;
      assert e == s[i'] && s[i'] in s;
      assert i' < j ==> s[i'] != s[j];
      assert j < i' ==> s[j] != s[i'];
    }
  }

  lemma ReceiveInv(c: Config, s: State)
    requires Inv(c, s) && s.main == Receiving && s.ch.received < |s.ch.pushed| && s.ch.received < N(c)
    ensures Inv(c, MainStep(c, s))
  {
    var e := s.ch.pushed[s.ch.received];
    assert e in s.ch.pushed;
    if !c.ok[e] {
      assert SomeFailed(c, s.ch.pushed);
    }
  }

  lemma ReturnInv(c: Config, s: State)
    requires Inv(c, s) && s.main == Receiving && s.ch.received >= N(c)
    ensures Inv(c, MainStep(c, s))
  {
    Pigeonhole(s.ch.pushed, N(c));
    forall e: nat | e < N(c)
      ensures c.ok[e]
    {
      assert e in s.ch.pushed;
      var i :| 0 <= i < |s.ch.pushed| && s.ch.pushed[i] == e;
    }
    ExpectedOk(c, 0);
  }

  /** Every step of every thread keeps the invariant. */
  lemma StepInv(c: Config, s: State, t: Choice)
    requires Inv(c, s) && Enabled(c, s, t)
    ensures Inv(c, Step(c, s, t))
  {
    match t
    case MainThread =>
      if s.main == Waiting {
        WaitResult(c, s);
      } else if s.main == Receiving {
        if s.ch.received >= N(c) {
          ReturnInv(c, s);
        } else {
          ReceiveInv(c, s);
        }
      }
    case WorkerThread(k) =>
      match s.workers[k]
      case Holding(_) => CheckInv(c, s, k);
      case Checked(_) => PassInv(c, s, k);
      case Passed(_) => TurnInv(c, s, k);
      case Ready =>
        if s.ch.taken < s.ch.sent {
          TakeInv(c, s, k);
        } else {
          TurnInv(c, s, k);
        }
  }

  // -------------------------------------------------------------- Every run

  ghost predicate Legal(c: Config, s: State, ts: seq<Choice>)
    decreases |ts|
  {
    ts != [] ==> Enabled(c, s, ts[0]) && Legal(c, Step(c, s, ts[0]), ts[1..])
  }

  ghost function Run(c: Config, s: State, ts: seq<Choice>): State
    requires Legal(c, s, ts)
    decreases |ts|
  {
    if ts == [] then s else Run(c, Step(c, s, ts[0]), ts[1..])
  }

  lemma {:induction false} RunInv(c: Config, s: State, ts: seq<Choice>)
    requires Inv(c, s) && Legal(c, s, ts)
    ensures Inv(c, Run(c, s, ts))
    decreases |ts|
  {
    if ts != [] {
      StepInv(c, s, ts[0]);
      RunInv(c, Step(c, s, ts[0]), ts[1..]);
    }
  }

  /**
   Whatever the schedule, the main thread returns the lowest failing entry, or success if none fails;
   it panics exactly on a negative number of workers.
   */
  lemma ResultIsDeterministic(c: Config, ts: seq<Choice>)
    requires Legal(c, Init(c), ts) && Run(c, Init(c), ts).main.Returned?
    ensures Run(c, Init(c), ts).main.result == if c.workers < 0 then Panic else Expected(c, 0)
    ensures Expected(c, 0) != Panic && Expected(c, 0) != NotCalled
  {
    ExpectedKinds(c, 0);
    if c.workers < 0 {
      assert ts == [];
    } else {
      InitInv(c);
      RunInv(c, Init(c), ts);
    }
  }

  lemma {:induction false} ExpectedKinds(c: Config, i: nat)
    requires i <= N(c)
    ensures match Expected(c, i)
      case Verified => forall e :: i <= e < N(c) ==> c.ok[e]
      case Failure(m) => i <= m < N(c) && !c.ok[m] && forall e :: i <= e < m ==> c.ok[e]
      case _ => false
    decreases N(c) - i
  {
    if i < N(c) {
      ExpectedKinds(c, i + 1);
    }
  }

  // ----------------------------------------------------- Progress, termination

  /** A thread can move in every state that has not returned, as long as there is a worker. */
  lemma NeverStuck(c: Config, s: State) returns (t: Choice)
    requires Inv(c, s) && !s.main.Returned? && (c.workers > 0 || N(c) == 0)
    ensures Enabled(c, s, t)
  {
    t := MainThread;
    if !MainEnabled(c, s) {
      if AllExited(s.workers) {
        AllGone(c, s);
      } else {
        var k :| 0 <= k < |s.workers| && s.workers[k] != Exited;
        t := WorkerThread(k);
      }
    }
  }

  /** When all workers are gone, everything is received or a failure is waiting to be received. */
  lemma AllGone(c: Config, s: State)
    requires Inv(c, s) && !s.main.Returned? && c.workers > 0 && AllExited(s.workers)
    ensures MainEnabled(c, s)
  {
    if s.main == Receiving && s.ch.received < N(c) && s.ch.received == |s.ch.pushed| {
      assert WorkerInv(c, s, s.workers[0]);
      assert !SomeFailed(c, s.ch.pushed);
      forall e: nat | e < N(c)
        ensures e in s.ch.pushed
      {
        assert e in s.ch.pushed || Held(s.workers, e);
      }
      AllPushed(s.ch.pushed, N(c));
    }
  }

  lemma {:induction false} AllPushed(s: seq<nat>, n: nat)
    requires forall e: nat :: e < n ==> e in s
    ensures |s| >= n
    decreases n
  {
    if n > 0 {
      assert n - 1 in s;
      var j :| 0 <= j < |s| && s[j] == n - 1;
      var t := s[..j] + s[j + 1..];
      forall e: nat | e < n - 1
        ensures e in t
      {
        assert e in s;
        var i :| 0 <= i < |s| && s[i] == e;
        assert t[if i < j then i else i - 1] == e;
      }
      AllPushed(t, n - 1);
    }
  }

  function WorkerRank(w: Worker): nat {
    match w
    case Ready => 1
    case Holding(_) => 4
    case Checked(_) => 3
    case Passed(_) => 2
    case Exited => 0
  }

  function WorkerRanks(ws: seq<Worker>): nat {
    if ws == [] then 0 else WorkerRanks(ws[..|ws| - 1]) + WorkerRank(ws[|ws| - 1])
  }

  lemma {:induction false} RanksUpdate(ws: seq<Worker>, k: nat, w: Worker)
    requires k < |ws|
    ensures WorkerRanks(ws[k := w]) == WorkerRanks(ws) - WorkerRank(ws[k]) + WorkerRank(w)
    decreases |ws|
  {
    var n := |ws| - 1;
    if k == n {
      assert ws[k := w][..n] == ws[..n];
    } else {
      assert ws[k := w][..n] == ws[..n][k := w];
      RanksUpdate(ws[..n], k, w);
    }
  }

  function MainRank(m: Main): nat {
    match m
    case Sending => 3
    case Receiving => 2
    case Waiting => 1
    case Returned(_) => 0
  }

  /** A bound on the steps left. */
  function Rank(c: Config, s: State): int {
    MainRank(s.main) + (N(c) - s.ch.sent) + (N(c) - s.ch.received) + 4 * (N(c) - s.ch.taken) + WorkerRanks(s.workers)
  }

  lemma StepDescends(c: Config, s: State, t: Choice)
    requires Inv(c, s) && Enabled(c, s, t)
    ensures 0 <= Rank(c, Step(c, s, t)) < Rank(c, s)
  {
    StepInv(c, s, t);
    RankNonNegative(c, Step(c, s, t));
    if t.WorkerThread? {
      WorkerDescends(c, s, t.k);
    }
  }

  lemma WorkerDescends(c: Config, s: State, k: nat)
    requires k < |s.workers| && WorkerEnabled(s, s.workers[k])
    ensures Rank(c, WorkerStep(c, s, k)) < Rank(c, s)
  {
    RanksUpdate(s.workers, k, WorkerStep(c, s, k).workers[k]);
  }

  lemma RankNonNegative(c: Config, s: State)
    requires Inv(c, s)
    ensures Rank(c, s) >= 0
  {
    Pigeonhole(s.ch.pushed, N(c));
  }

  /** No run is longer than the initial rank. */
  lemma {:induction false} RunsAreBounded(c: Config, s: State, ts: seq<Choice>)
    requires Inv(c, s) && Legal(c, s, ts)
    ensures |ts| + Rank(c, Run(c, s, ts)) <= Rank(c, s)
    decreases |ts|
  {
    if ts != [] {
      StepInv(c, s, ts[0]);
      StepDescends(c, s, ts[0]);
      RunsAreBounded(c, Step(c, s, ts[0]), ts[1..]);
    }
  }

  /** From every reachable state some schedule returns, as long as there is a worker. */
  lemma {:induction false} CanReturn(c: Config, s: State) returns (ts: seq<Choice>)
    requires Inv(c, s) && (c.workers > 0 || N(c) == 0)
    ensures Legal(c, s, ts) && Run(c, s, ts).main.Returned?
    decreases Rank(c, s)
  {
    ts := [];
    if !s.main.Returned? {
      var t := NeverStuck(c, s);
      StepInv(c, s, t);
      StepDescends(c, s, t);
      var rest := CanReturn(c, Step(c, s, t));
      ts := [t] + rest;
      assert ts[1..] == rest;
    }
  }

  /** Without workers nothing is ever taken, and the main thread ends up blocked on its first receive. */
  lemma {:induction false} WithoutWorkers(c: Config, s: State, ts: seq<Choice>)
    requires c.workers == 0 && N(c) > 0 && Legal(c, s, ts)
    requires s.workers == [] && s.ch.pushed == [] && s.ch.received == 0 && (s.main == Sending || s.main == Receiving)
    ensures !Run(c, s, ts).main.Returned?
    decreases |ts|
  {
    if ts != [] {
      WithoutWorkers(c, Step(c, s, ts[0]), ts[1..]);
    }
  }

  /** Under the schedule ts the main thread comes to an end. */
  ghost predicate Ends(c: Config, ts: seq<Choice>) {
    Legal(c, Init(c), ts) && Run(c, Init(c), ts).main.Returned?
  }

  /** The pool can end exactly when it has a worker, nothing to verify, or a negative number of workers to panic on. */
  lemma ReturnsIff(c: Config)
    ensures (exists ts :: Ends(c, ts)) <==> c.workers != 0 || N(c) == 0
  {
    if c.workers < 0 {
      assert Ends(c, []);
    } else if c.workers > 0 || N(c) == 0 {
      InitInv(c);
      var ts := CanReturn(c, Init(c));
      assert Ends(c, ts);
    } else {
      forall ts
        ensures !Ends(c, ts)
      {
        if Legal(c, Init(c), ts) {
          WithoutWorkers(c, Init(c), ts);
        }
      }
    }
  }

  // ------------------------------------------------------- Received weights

  /** The sum of f over the listed entries. */
  function Total(f: nat -> int, order: seq<nat>): int {
    if order == [] then 0 else Total(f, order[..|order| - 1]) + f(order[|order| - 1])
  }

  function TotalBelow(f: nat -> int, n: nat): int {
    if n == 0 then 0 else TotalBelow(f, n - 1) + f(n - 1)
  }

  lemma {:induction false} TotalAppend(f: nat -> int, a: seq<nat>, b: seq<nat>)
    ensures Total(f, a + b) == Total(f, a) + Total(f, b)
  {
    if b == [] {
      assert a + b == a;
    } else {
      TotalAppend(f, a, b[..|b| - 1]);
      assert (a + b)[..|a + b| - 1] == a + b[..|b| - 1];
    }
  }

  /** Adding up all entries gives the same sum in whichever order they come. */
  lemma {:induction false} TotalOfAll(f: nat -> int, order: seq<nat>, n: nat)
    requires NoRepeats(order) && |order| == n && forall e :: e in order ==> e < n
    ensures Total(f, order) == TotalBelow(f, n)
    decreases n
  {
    if n > 0 {
      Pigeonhole(order, n);
      assert n - 1 in order;
      var j :| 0 <= j < |order| && order[j] == n - 1;
      var t := order[..j] + order[j + 1..];
      RemoveOne(order, j, n);
      TotalOfAll(f, t, n - 1);
      TotalRemove(f, order, j);
    }
  }

  lemma TotalRemove(f: nat -> int, order: seq<nat>, j: nat)
    requires j < |order|
    ensures Total(f, order) == Total(f, order[..j] + order[j + 1..]) + f(order[j])
  {
    var front, rest := order[..j], order[j + 1..];
    assert order == (front + [order[j]]) + rest;
    TotalAppend(f, front, rest);
    TotalAppend(f, front + [order[j]], rest);
    assert (front + [order[j]])[..j] == front;
  }

  /** On success the main thread received every entry once, so its sums are those over all entries. */
  lemma ReceivedWeights(c: Config, ts: seq<Choice>, f: nat -> int)
    requires Legal(c, Init(c), ts) && Run(c, Init(c), ts).main == Returned(Verified)
    ensures var ch := Run(c, Init(c), ts).ch;
      ch.received == |ch.pushed| && Total(f, ch.pushed) == TotalBelow(f, N(c))
  {
    ResultIsDeterministic(c, ts);
    InitInv(c);
    RunInv(c, Init(c), ts);
    TotalOfAll(f, Run(c, Init(c), ts).ch.pushed, N(c));
  }
}
