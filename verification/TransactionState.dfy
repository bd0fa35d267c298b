// The stack of nested transactions of fvm/state/transaction_state.go: begin,
// commit, restart, pause and resume, and the error collector of fvm/errors.
module TransactionState {
  import opened Bytes

  /** A register write set. */
  type Writes = map<nat, nat>

  /** No error, an error of the transaction, or a failure that halts execution. */
  datatype Err = Nil | TxError(code: nat) | Fatal(code: nat)

  /** Errors collected so far, and the first failure. */
  datatype Collector = Collector(errors: seq<Err>, failure: Option<Err>)

  predicate CollectedError(c: Collector) {
    c.errors != [] || c.failure.Some?
  }

  /** ErrorsCollector.Collect */
  function Collect(c: Collector, err: Err): Collector {
    if err == Nil then c
    else if c.failure.Some? || err.TxError? then c.(errors := c.errors + [err])
    else c.(failure := Some(err))
  }

  /** ErrorsCollector.ErrorOrNil: a failure outweighs the other errors. */
  function ErrorOrNil(c: Collector): Err {
    if c.failure.Some? then c.failure.value else if c.errors == [] then Nil else c.errors[0]
  }

  ghost predicate ValidCollector(c: Collector) {
    && (c.failure.Some? ==> c.failure.value.Fatal?)
    && (c.failure == None ==> forall i :: 0 <= i < |c.errors| ==> c.errors[i].TxError?)
  }

  lemma CollectValid(c: Collector, err: Err)
    requires ValidCollector(c)
    ensures ValidCollector(Collect(c, err))
    ensures ErrorOrNil(Collect(c, err)).Fatal? <==> ErrorOrNil(c).Fatal? || err.Fatal?
    ensures ErrorOrNil(Collect(c, err)) == Nil <==> ErrorOrNil(c) == Nil && err == Nil
  {
  }

  /** Everything collected, in order. */
  function CollectAll(errs: seq<Err>): Collector {
    if errs == [] then Collector([], None) else Collect(CollectAll(errs[..|errs| - 1]), errs[|errs| - 1])
  }

  function FirstFatal(errs: seq<Err>): Err {
    if errs == [] then Nil else if errs[0].Fatal? then errs[0] else FirstFatal(errs[1..])
  }

  function FirstError(errs: seq<Err>): Err {
    if errs == [] then Nil else if errs[0] != Nil then errs[0] else FirstError(errs[1..])
  }

  /** The first failure if there is one, else the first error. */
  function Reported(errs: seq<Err>): Err {
    if FirstFatal(errs) != Nil then FirstFatal(errs) else FirstError(errs)
  }

  lemma {:induction false} FirstOfMore(errs: seq<Err>, e: Err)
    ensures FirstFatal(errs + [e]) ==
      if FirstFatal(errs) != Nil then FirstFatal(errs) else if e.Fatal? then e else Nil
    ensures FirstError(errs + [e]) == if FirstError(errs) != Nil then FirstError(errs) else e
  {
    if errs != [] {
      FirstOfMore(errs[1..], e);
      assert (errs + [e])[1..] == errs[1..] + [e];
    }
  }

  lemma {:induction false} FatalIsError(errs: seq<Err>)
    ensures FirstFatal(errs) == Nil || FirstFatal(errs).Fatal?
    ensures FirstFatal(errs) == Nil ==> !FirstError(errs).Fatal?
    ensures FirstError(errs) == Nil ==> FirstFatal(errs) == Nil
  {
    if errs != [] {
      FatalIsError(errs[1..]);
    }
  }

  lemma ReportedOfMore(errs: seq<Err>, e: Err)
    ensures Reported(errs + [e]) ==
      if Reported(errs).Fatal? then Reported(errs) else if e.Fatal? || Reported(errs) == Nil then e else Reported(errs)
    ensures CollectAll(errs + [e]) == Collect(CollectAll(errs), e)
  {
    FirstOfMore(errs, e);
    FatalIsError(errs);
    assert (errs + [e])[..|errs|] == errs;
  }

  /** Nothing after a failure changes what is reported. */
  lemma {:induction false} FailureDecides(errs: seq<Err>, more: seq<Err>)
    requires Reported(errs).Fatal?
    ensures Reported(errs + more) == Reported(errs)
  {
    if more == [] {
      assert errs + more == errs;
    } else {
      var n := |more| - 1;
      FailureDecides(errs, more[..n]);
      ReportedOfMore(errs + more[..n], more[n]);
      assert errs + more == errs + more[..n] + [more[n]];
    }
  }

  /** What a collector returns of any errors collected in any order: the first failure, else the first error. */
  lemma {:induction false} CollectReports(errs: seq<Err>)
    ensures ValidCollector(CollectAll(errs)) && ErrorOrNil(CollectAll(errs)) == Reported(errs)
  {
    if errs != [] {
      var n := |errs| - 1;
      CollectReports(errs[..n]);
      assert errs == errs[..n] + [errs[n]];
      ReportedOfMore(errs[..n], errs[n]);
      CollectValid(CollectAll(errs[..n]), errs[n]);
    }
  }

  datatype Frame = Frame(id: nat, writes: Writes, restricted: bool)

  /** What a call into the runtime does: writes, and on an error nested transactions left open. */
  datatype Effect = Effect(writes: Writes, open: seq<Frame>, err: Err)

  /** Only an error leaves nested transactions open. */
  ghost predicate WellBehaved(eff: Effect) {
    eff.err == Nil ==> eff.open == []
  }

  /** The top frame merged into its parent. */
  function MergeTop(fs: seq<Frame>): (r: seq<Frame>)
    requires |fs| >= 2
    ensures |r| == |fs| - 1
  {
    var n := |fs|;
    fs[..n - 2] + [fs[n - 2].(writes := fs[n - 2].writes + fs[n - 1].writes)]
  }

  /** More writes in the top frame. */
  function WriteTop(fs: seq<Frame>, w: Writes): (r: seq<Frame>)
    requires |fs| >= 1
    ensures |r| == |fs|
  {
    var n := |fs| - 1;
    fs[..n] + [fs[n].(writes := fs[n].writes + w)]
  }

  /** The place of a nested transaction in the stack, or its height if it is not there. */
  ghost function Position(fs: seq<Frame>, id: nat): (k: nat)
    ensures k <= |fs| && (k < |fs| ==> fs[k].id == id) && forall i :: 0 <= i < k ==> fs[i].id != id
  {
    if fs == [] then 0 else if fs[0].id == id then 0 else 1 + Position(fs[1..], id)
  }

  ghost predicate ValidFrames(fs: seq<Frame>, next: nat) {
    && |fs| >= 1 && !fs[0].restricted
    && (forall i :: 0 <= i < |fs| ==> fs[i].id < next)
    && (forall i, j :: 0 <= i < j < |fs| ==> fs[i].id != fs[j].id)
  }

  class NestedTransactions {
    const ledger: nat -> nat
    var frames: seq<Frame>
    var next: nat

    ghost predicate Valid()
      reads this
    {
      ValidFrames(frames, next)
    }

    /** The main transaction alone. */
    constructor (ledger: nat -> nat)
      ensures Valid() && this.ledger == ledger && |frames| == 1 && frames[0].writes == map[]
    {
      this.ledger := ledger;
      frames, next := [Frame(0, map[], false)], 1;
    }

    function NumNested(): int
      reads this
    {
      |frames| - 1
    }

    /** BeginNestedTransaction, with or without meter parameters */
    method Begin() returns (ok: bool, id: nat)
      requires Valid()
      modifies this
      ensures Valid() && ok == !old(frames[|frames| - 1].restricted)
      ensures ok ==> id == old(next) && next == id + 1 && frames == old(frames) + [Frame(id, map[], false)]
      ensures !ok ==> frames == old(frames) && next == old(next)
    {
      id := next;
      ok := !frames[|frames| - 1].restricted;
      if ok {
        frames, next := frames + [Frame(id, map[], false)], next + 1;
      }
    }

    /** CommitNestedTransaction */
    method Commit(id: nat) returns (ok: bool)
      requires Valid()
      modifies this`frames
      ensures Valid() && ok == old(frames[|frames| - 1].id == id && !frames[|frames| - 1].restricted && |frames| >= 2)
      ensures frames == if ok then MergeTop(old(frames)) else old(frames)
    {
      var top := frames[|frames| - 1];
      ok := top.id == id && !top.restricted && |frames| >= 2;
      if ok {
        frames := MergeTop(frames);
      }
    }

    /** RestartNestedTransaction: merge everything above the given transaction into it, then drop its changes. */
    method Restart(id: nat) returns (ok: bool)
      requires Valid()
      modifies this`frames
      ensures Valid() && ok == (Position(old(frames), id) < |old(frames)|)
      ensures var k := Position(old(frames), id);
        frames == if ok then old(frames)[..k] + [old(frames)[k].(writes := map[])] else old(frames)
    {
      ghost var k := Position(frames, id);
      ok := exists i | 0 <= i < |frames| :: frames[i].id == id;
      if ok {
        ghost var before := frames;
        while frames[|frames| - 1].id != id
          invariant Valid() && k < |frames| <= |before| && frames[..k] == before[..k]
          invariant frames[k].id == before[k].id && frames[k].restricted == before[k].restricted
          decreases |frames|
        {
          frames := MergeTop(frames);
        }
        frames := frames[..|frames| - 1] + [frames[|frames| - 1].(writes := map[])];
      }
    }

    /** PauseNestedTransaction */
    method Pause(id: nat) returns (ok: bool, paused: Frame)
      requires Valid()
      modifies this`frames
      ensures Valid() && ok == old(frames[|frames| - 1].id == id && !frames[|frames| - 1].restricted && |frames| >= 2)
      ensures ok ==> frames + [paused] == old(frames)
      ensures !ok ==> frames == old(frames)
    {
      paused := frames[|frames| - 1];
      ok := paused.id == id && !paused.restricted && |frames| >= 2;
      if ok {
        frames := frames[..|frames| - 1];
      }
    }

    /** ResumeNestedTransaction */
    method Resume(paused: Frame)
      requires Valid() && paused.id < next && forall i :: 0 <= i < |frames| ==> frames[i].id != paused.id
      modifies this`frames
      ensures Valid() && frames == old(frames) + [paused.(restricted := false)]
    {
      frames := frames + [paused.(restricted := false)];
    }

    /** The value of a register as the current transaction sees it. */
    function Get(reg: nat, i: nat): nat
      requires i <= |frames|
      reads this
    {
      if i == 0 then ledger(reg) else if reg in frames[i - 1].writes then frames[i - 1].writes[reg] else Get(reg, i - 1)
    }

    method Write(w: Writes)
      requires Valid()
      modifies this`frames
      ensures Valid() && frames == WriteTop(old(frames), w)
    {
      frames := WriteTop(frames, w);
    }

    /** A call into the runtime; the frames it leaves open get fresh ids. */
    method Call(eff: Effect) returns (err: Err)
      requires Valid() && WellBehaved(eff)
      modifies this
      ensures Valid() && err == eff.err && next >= old(next)
      ensures |frames| >= |old(frames)| && (eff.err == Nil ==> |frames| == |old(frames)|)
      ensures frames[..|old(frames)|] == WriteTop(old(frames), eff.writes)
    {
      Write(eff.writes);
      LeaveOpen(eff.open);
      err := eff.err;
    }

    method LeaveOpen(open: seq<Frame>)
      requires Valid()
      modifies this
      ensures Valid() && next >= old(next)
      ensures |frames| == |old(frames)| + |open| && frames[..|old(frames)|] == old(frames)
    {
      ghost var before := frames;
      for i := 0 to |open|
        invariant Valid() && next >= old(next) && |frames| == |before| + i && frames[..|before|] == before
      {
        Push(open[i].(id := next));
      }
    }

    method Push(frame: Frame)
      requires Valid() && frame.id == next
      modifies this
      ensures Valid() && frames == old(frames) + [frame] && next == old(next) + 1
    {
      frames, next := frames + [frame], next + 1;
    }
  }
}
