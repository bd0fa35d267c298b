// The transaction executor of fvm/transactionInvoker.go with the sequence
// number check of fvm/transactionSequenceNum.go: preprocessing in a paused
// nested transaction, authorization, sequence number, body, fees, commit.
module Executor {
  import opened Bytes
  import opened TransactionState

  /** SeqNumber is a 64-bit counter. */
  const SEQ_MODULUS: nat := 0x1_0000_0000_0000_0000

  /** The proposal key: how its lookup ends, its register, the proposed number, and the store. */
  datatype Proposal = Proposal(lookup: Err, revoked: bool, reg: nat, seqNumber: nat, store: Err)

  /** What the calls made by the body of the transaction do. */
  datatype Body = Body(balance: Effect, execute: Effect, flush: Effect, storageCheck: Effect)

  /** The fee deduction of a normal execution, and the one after an error. */
  datatype Fees = Fees(normal: Effect, again: Effect)

  /** How every call the executor makes ends: parameters of a run. */
  datatype Stages = Stages(
    meter: Err, preprocess: Effect, auth: Err, proposal: Proposal, body: Body, fees: Fees, populate: Err)

  /** TransactionExecutorParams: the stages that are switched on. */
  datatype Switches = Switches(authorization: bool, sequenceNumber: bool, body: bool)

  /**
   Contracts of the calls: the meter lookup and the collection of the output values only fail
   fatally, and runtime calls close what they open unless they fail.
   */
  ghost predicate ValidStages(st: Stages) {
    && !st.meter.TxError? && !st.populate.TxError?
    && WellBehaved(st.preprocess) && ValidBody(st.body)
    && WellBehaved(st.fees.normal) && WellBehaved(st.fees.again)
  }

  ghost predicate ValidBody(b: Body) {
    WellBehaved(b.balance) && WellBehaved(b.execute) && WellBehaved(b.flush) && WellBehaved(b.storageCheck)
  }

  const REVOKED_ERROR := TxError(1)
  const SEQ_NUMBER_ERROR := TxError(2)
  const INTERNAL := Fatal(0)

  function NextSeq(n: nat): (m: nat)
    ensures n + 1 < SEQ_MODULUS ==> m == n + 1
    ensures n + 1 == SEQ_MODULUS ==> m == 0
  {
    (n + 1) % SEQ_MODULUS
  }

  /** Whether the sequence number check passes. */
  predicate SeqPasses(p: Proposal, current: nat) {
    p.lookup == Nil && !p.revoked && current == p.seqNumber && p.store == Nil
  }

  /** The error of the sequence number check. */
  function SeqError(p: Proposal, current: nat): Err {
    if p.lookup != Nil then p.lookup
    else if p.revoked then REVOKED_ERROR
    else if current != p.seqNumber then SEQ_NUMBER_ERROR
    else p.store
  }

  /** Whether it fails fatally: in the lookup, or in the store once that is reached. */
  predicate SeqFatal(p: Proposal, current: nat) {
    p.lookup.Fatal? || (p.lookup == Nil && !p.revoked && current == p.seqNumber && p.store.Fatal?)
  }

  class TransactionExecutor {
    const txn: NestedTransactions
    const st: Stages
    const on: Switches
    var errs: Collector
    var nestedId: nat
    var paused: Option<Frame>
    var output: Err

    constructor (txn: NestedTransactions, st: Stages, on: Switches)
      requires txn.Valid() && |txn.frames| == 1 && ValidStages(st)
      ensures this.txn == txn && this.st == st && this.on == on
      ensures errs == Collector([], None) && paused == None && output == Nil
    {
      this.txn, this.st, this.on := txn, st, on;
      errs, nestedId, paused, output := Collector([], None), 0, None, Nil;
    }

    /** The state between stages: only the main transaction is open. */
    ghost predicate Alone(main: Frame)
      reads this, txn
    {
      && txn.Valid() && ValidStages(st) && ValidCollector(errs) && errs.failure == None
      && txn.frames == [main]
    }

    /** The body's transaction is paused. */
    ghost predicate Between(main: Frame)
      reads this, txn
    {
      && Alone(main)
      && paused.Some? && paused.value.id == nestedId && nestedId < txn.next && main.id != nestedId
    }

    /** Preprocessing is over, if there was any to do. */
    ghost predicate Preprocessed(main: Frame)
      reads this, txn
    {
      && Alone(main)
      && errs == CollectAll(Earlier(st, on))
      && (on.body ==>
            && Between(main) && st.meter == Nil && !st.preprocess.err.Fatal?
            && paused.value.writes == if st.preprocess.err == Nil then st.preprocess.writes else map[])
    }

    /** The state inside the body's transaction, possibly with others left open above it. */
    ghost predicate Inside(main: Frame)
      reads this, txn
    {
      && txn.Valid() && ValidStages(st) && ValidCollector(errs) && errs.failure == None
      && |txn.frames| >= 2 && txn.frames[0] == main && txn.frames[1].id == nestedId
      && !txn.frames[1].restricted
    }

    /** handleError */
    method HandleError(err: Err) returns (failure: Err)
      modifies this`output
      ensures failure == if err.Fatal? then err else Nil
      ensures output == if err.TxError? then err else old(output)
    {
      failure := Nil;
      if err.Fatal? {
        failure := err;
      } else if err.TxError? {
        output := err;
      }
    }

    /** PreprocessTransactionBody */
    method PreprocessTransactionBody(ghost main: Frame) returns (err: Err)
      requires txn.Valid() && ValidStages(st) && txn.frames == [main] && errs == Collector([], None)
      modifies this, txn
      ensures output == old(output)
      ensures err == if st.meter != Nil then st.meter else if st.preprocess.err.Fatal? then st.preprocess.err else Nil
      ensures err == Nil ==> Between(main) && errs == CollectAll([st.meter, st.preprocess.err])
      ensures err == Nil ==> paused.value.writes == if st.preprocess.err == Nil then st.preprocess.writes else map[]
    {
      if st.meter != Nil {
        return st.meter;
      }
      var ok, id := txn.Begin();
      nestedId := id;
      assert txn.frames == [main, Frame(id, map[], false)];
      var e := PreprocessBody(main, id);
      CollectValid(errs, e);
      errs := Collect(errs, e);
      ReportedOfMore([], st.meter);
      ReportedOfMore([st.meter], e);
      if errs.failure.Some? {
        return ErrorOrNil(errs);
      }
      var frame;
      ok, frame := txn.Pause(id);
      assert txn.frames == [main];
      paused := Some(frame);
      err := Nil;
    }

    /** The call into the runtime; a transaction error restarts the nested transaction. */
    method PreprocessBody(ghost main: Frame, id: nat) returns (err: Err)
      requires txn.Valid() && ValidStages(st) && txn.frames == [main, Frame(id, map[], false)]
      modifies txn
      ensures txn.Valid() && txn.next >= old(txn.next) && err == st.preprocess.err
      ensures !err.Fatal? ==> txn.frames == [main, Frame(id, if err == Nil then st.preprocess.writes else map[], false)]
    {
      err := txn.Call(st.preprocess);
      EmptyWrites(st.preprocess.writes);
      assert txn.frames[..2] == [main, Frame(id, st.preprocess.writes, false)];
      if err.TxError? {
        assert txn.frames[0] == txn.frames[..2][0] && txn.frames[1] == txn.frames[..2][1];
        var ok := txn.Restart(id);
        assert txn.frames == [main, Frame(id, map[], false)];
      } else if err == Nil {
        assert txn.frames == txn.frames[..2];
      }
    }

    /** abortPreprocessed: the body's transaction is dropped, but still committed. */
    method AbortPreprocessed(ghost main: Frame) returns (err: Err)
      requires Preprocessed(main)
      modifies txn
      ensures err == Nil && txn.Valid() && txn.frames == [main]
    {
      if !on.body {
        return Nil;
      }
      txn.Resume(paused.value);
      var ok := txn.Restart(nestedId);
      assert txn.frames == [main, Frame(nestedId, map[], false)];
      ok := txn.Commit(nestedId);
      assert main.(writes := main.writes + map[]) == main;
      err := if ok then Nil else INTERNAL;
    }

    /** checkAndIncrementSequenceNumber, in a nested transaction that is always committed */
    method CheckAndIncrementSequenceNumber(ghost main: Frame) returns (err: Err)
      requires Alone(main)
      modifies txn
      ensures Alone(if err == Nil then Incremented(st, main) else main) && txn.next >= old(txn.next)
      ensures err == SeqError(st.proposal, old(txn.Get(st.proposal.reg, 1)))
    {
      var ok, id := txn.Begin();
      err := CheckSequenceNumber(main, id);
      ok := txn.Commit(id);
      EmptyWrites(main.writes);
      OneWrite(main.writes, st.proposal.reg, NextSeq(st.proposal.seqNumber));
    }

    method CheckSequenceNumber(ghost main: Frame, id: nat) returns (err: Err)
      requires txn.Valid() && txn.frames == [main, Frame(id, map[], false)]
      modifies txn`frames
      ensures txn.Valid()
      ensures txn.frames ==
        [main, Frame(id, if err == Nil then map[st.proposal.reg := NextSeq(st.proposal.seqNumber)] else map[], false)]
      ensures err == SeqError(st.proposal, old(txn.Get(st.proposal.reg, 1)))
    {
      if st.proposal.lookup != Nil {
        return st.proposal.lookup;
      }
      if st.proposal.revoked {
        return REVOKED_ERROR;
      }
      var current := txn.Get(st.proposal.reg, |txn.frames|);
      assert current == txn.Get(st.proposal.reg, 1);
      if current != st.proposal.seqNumber {
        return SEQ_NUMBER_ERROR;
      }
      txn.Write(map[st.proposal.reg := NextSeq(current)]);
      EmptyWrites(map[st.proposal.reg := NextSeq(current)]);
      assert txn.frames == [main, Frame(id, map[st.proposal.reg := NextSeq(current)], false)];
      if st.proposal.store != Nil {
        var ok := txn.Restart(id);
        assert txn.frames == [main, Frame(id, map[], false)];
        return st.proposal.store;
      }
      err := Nil;
    }

    /** normalExecution: the first error ends it, leaving open what it had opened. */
    method NormalExecution(ghost main: Frame, ghost start: Frame) returns (err: Err)
      requires Inside(main) && txn.frames == [main, start]
      modifies txn
      ensures Inside(main) && err == NormalError(st)
      ensures err == Nil ==> txn.frames == [main, start.(writes := start.writes + BodyEffect(st))]
    {
      err := CallInBody(st.body.balance, main, start);
      if err != Nil {
        return;
      }
      ghost var w0 := start.writes + st.body.balance.writes;
      err := ExecuteNested(main, start.(writes := w0));
      if err != Nil {
        return;
      }
      ghost var w1 := w0 + (map[] + st.body.execute.writes + st.body.flush.writes);
      err := CallInBody(st.body.storageCheck, main, start.(writes := w1));
      if err != Nil {
        return;
      }
      err := CallInBody(st.fees.normal, main, start.(writes := w1 + st.body.storageCheck.writes));
      MergedEffect(st, start.writes);
    }

    /** A call into the runtime from the body's own transaction: balance check, storage check, fee deduction. */
    method CallInBody(eff: Effect, ghost main: Frame, ghost body: Frame) returns (err: Err)
      requires Inside(main) && txn.frames == [main, body] && WellBehaved(eff)
      modifies txn
      ensures Inside(main) && err == eff.err
      ensures err == Nil ==> txn.frames == [main, body.(writes := body.writes + eff.writes)]
    {
      err := txn.Call(eff);
      assert txn.frames[..2] == [main, body.(writes := body.writes + eff.writes)];
      assert txn.frames[0] == txn.frames[..2][0] && txn.frames[1] == txn.frames[..2][1];
      if err == Nil {
        assert txn.frames == txn.frames[..2];
      }
    }

    /** The nested transaction around the body and the flush. */
    method ExecuteNested(ghost main: Frame, ghost body: Frame) returns (err: Err)
      requires Inside(main) && txn.frames == [main, body]
      modifies txn
      ensures Inside(main)
      ensures err == if st.body.execute.err != Nil then st.body.execute.err else st.body.flush.err
      ensures err == Nil ==>
        txn.frames == [main, body.(writes := body.writes + (map[] + st.body.execute.writes + st.body.flush.writes))]
    {
      var ok, id := txn.Begin();
      assert txn.frames == [main, body, Frame(id, map[], false)];
      err := ExecuteAndFlush(main, body, id);
      if err != Nil {
        return;
      }
      ok := txn.Commit(id);
    }

    /** The body and the flush of pending updates, in their own nested transaction. */
    method ExecuteAndFlush(ghost main: Frame, ghost start: Frame, ghost id: nat) returns (err: Err)
      requires txn.Valid() && ValidStages(st) && txn.frames == [main, start, Frame(id, map[], false)]
      modifies txn
      ensures txn.Valid() && txn.next >= old(txn.next)
      ensures |txn.frames| >= 3 && txn.frames[0] == main && txn.frames[1] == start
      ensures err == if st.body.execute.err != Nil then st.body.execute.err else st.body.flush.err
      ensures err == Nil ==>
        txn.frames == [main, start, Frame(id, map[] + st.body.execute.writes + st.body.flush.writes, false)]
    {
      err := txn.Call(st.body.execute);
      assert txn.frames[..3] == [main, start, Frame(id, map[] + st.body.execute.writes, false)];
      assert txn.frames[0] == txn.frames[..3][0] && txn.frames[1] == txn.frames[..3][1];
      if err != Nil {
        return;
      }
      assert txn.frames == txn.frames[..3];
      err := txn.Call(st.body.flush);
      assert txn.frames[..3] == [main, start, Frame(id, map[] + st.body.execute.writes + st.body.flush.writes, false)];
      assert txn.frames[0] == txn.frames[..3][0] && txn.frames[1] == txn.frames[..3][1];
      if err == Nil {
        assert txn.frames == txn.frames[..3];
      }
    }

    /** errorExecution: drop everything, then try to deduct fees once more. */
    method ErrorExecution(ghost main: Frame)
      requires Inside(main)
      modifies this`errs, txn
      ensures errs == Collect(old(errs), st.fees.again.err)
      ensures errs.failure == None ==> Inside(main) && txn.frames == [main, Frame(nestedId, FeeEffect(st), false)]
    {
      var ok := txn.Restart(nestedId);
      assert txn.frames == [main, Frame(nestedId, map[], false)];
      var feesErr := txn.Call(st.fees.again);
      assert txn.frames[..2] == [main, Frame(nestedId, map[] + st.fees.again.writes, false)];
      CollectValid(errs, feesErr);
      if feesErr != Nil {
        errs := Collect(errs, feesErr);
        if errs.failure.Some? {
          return;
        }
        assert txn.frames[0] == txn.frames[..2][0] && txn.frames[1] == txn.frames[..2][1];
        ok := txn.Restart(nestedId);
        assert txn.frames == [main, Frame(nestedId, map[], false)];
      } else {
        EmptyWrites(st.fees.again.writes);
        assert txn.frames == txn.frames[..2];
      }
    }

    /** commit: the depth check never fires. */
    method Commit(ghost main: Frame, ghost body: Frame) returns (err: Err)
      requires Inside(main) && txn.frames == [main, body]
      modifies txn
      ensures err == st.populate && txn.Valid()
      ensures txn.frames == if err == Nil then [main.(writes := main.writes + body.writes)] else [main, body]
    {
      if txn.NumNested() > 1 {
        assert false;
        return INTERNAL;
      }
      if st.populate != Nil {
        return st.populate;
      }
      var ok := txn.Commit(nestedId);
      err := if ok then Nil else INTERNAL;
    }

    /** ExecuteTransactionBody */
    method ExecuteTransactionBody(ghost main: Frame) returns (err: Err)
      requires on.body && Preprocessed(main)
      modifies this`errs, txn
      ensures err == Reported(Earlier(st, on) + BodyErrors(st))
      ensures !err.Fatal? ==> txn.Valid() && txn.frames == [main.(writes := main.writes + BodyWrites(st))]
    {
      ghost var start, more := paused.value.(restricted := false), BodyErrors(st);
      ghost var seen := Earlier(st, on);
      EarlierReported(st, on);
      CollectReports(seen);
      ThreeMore(seen, more[0], more[1], more[2]);
      txn.Resume(paused.value);
      if !CollectedError(errs) {
        var txErr := NormalExecution(main, start);
        errs := Collect(errs, txErr);
        ReportedOfMore(seen, txErr);
        CollectReports(seen + [txErr]);
        if errs.failure.Some? {
          return ErrorOrNil(errs);
        }
      }
      ReportedOfMore(seen, more[0]);
      seen := seen + [more[0]];
      CollectReports(seen);
      ReportedOfMore(seen, more[1]);
      CollectReports(seen + [more[1]]);
      if CollectedError(errs) {
        ErrorExecution(main);
        if errs.failure.Some? {
          return ErrorOrNil(errs);
        }
      }
      seen := seen + [more[1]];
      assert txn.frames == [main, Frame(nestedId, BodyWrites(st), false)];
      var commitErr := Commit(main, Frame(nestedId, BodyWrites(st), false));
      errs := Collect(errs, commitErr);
      ReportedOfMore(seen, commitErr);
      CollectReports(seen + [commitErr]);
      err := ErrorOrNil(errs);
    }

    /** The way out of execute when a check fails. */
    method Reject(ghost main: Frame, checkErr: Err) returns (err: Err)
      requires Preprocessed(main) && checkErr != Nil
      modifies this`errs, txn
      ensures err == Reported(Earlier(st, on) + [checkErr]) && txn.Valid() && txn.frames == [main]
    {
      var abortErr := AbortPreprocessed(main);
      errs := Collect(Collect(errs, checkErr), abortErr);
      ReportedOfMore(Earlier(st, on), checkErr);
      CollectReports(Earlier(st, on) + [checkErr]);
      err := ErrorOrNil(errs);
    }

    /** execute: authorization, sequence number, body */
    method Run(ghost main: Frame) returns (err: Err)
      requires Preprocessed(main)
      modifies this`errs, txn
      ensures err == Reported(Errors(st, on, old(txn.Get(st.proposal.reg, 1))))
      ensures !err.Fatal? ==> txn.Valid() && Committed(st, on, main, old(txn.Get(st.proposal.reg, 1)), txn.frames)
    {
      if on.authorization && st.auth != Nil {
        err := Reject(main, st.auth);
        return;
      }
      ghost var main' := main;
      if on.sequenceNumber {
        var seqErr := CheckAndIncrementSequenceNumber(main);
        if seqErr != Nil {
          err := Reject(main, seqErr);
          return;
        }
        main' := Incremented(st, main);
      }
      err := Nil;
      if on.body {
        err := ExecuteTransactionBody(main');
      }
    }

    /** Preprocess */
    method Preprocess(ghost main: Frame) returns (failure: Err)
      requires txn.Valid() && ValidStages(st) && txn.frames == [main] && errs == Collector([], None)
      modifies this, txn
      ensures output == old(output)
      ensures failure == if Reported(Earlier(st, on)).Fatal? then Reported(Earlier(st, on)) else Nil
      ensures failure == Nil ==> Preprocessed(main)
    {
      EarlierReported(st, on);
      if !on.body {
        return Nil;
      }
      var err := PreprocessTransactionBody(main);
      failure := HandleError(err);
    }

    /**
     Preprocess, then Execute, as fvm.Run drives them. It halts exactly when a stage that is reached
     fails fatally; otherwise only the main transaction is left open, with the writes that the
     transaction commits, and the transaction's own error is in the output.
     */
    method Procedure(ghost main: Frame) returns (failure: Err)
      requires txn.Valid() && ValidStages(st) && txn.frames == [main] && errs == Collector([], None) && output == Nil
      modifies this, txn
      ensures var e := Reported(Errors(st, on, old(txn.Get(st.proposal.reg, 1))));
        failure == (if e.Fatal? then e else Nil) && (failure == Nil ==> output == e)
      ensures failure != Nil <==> Halts(st, on, old(txn.Get(st.proposal.reg, 1)))
      ensures failure == Nil ==> txn.Valid() && |txn.frames| == 1
      ensures failure == Nil ==> Committed(st, on, main, old(txn.Get(st.proposal.reg, 1)), txn.frames)
      ensures failure == Nil ==> (output == Nil <==> Succeeds(st, on, old(txn.Get(st.proposal.reg, 1))))
    {
      ErrorsMean(st, on, txn.Get(st.proposal.reg, 1));
      FirstDecides(st, on, txn.Get(st.proposal.reg, 1));
      failure := Preprocess(main);
      if failure != Nil {
        return;
      }
      var err := Run(main);
      failure := HandleError(err);
    }
  }

  lemma EmptyWrites(w: Writes)
    ensures map[] + w == w && w + map[] == w
  {
  }

  lemma OneWrite(w: Writes, reg: nat, v: nat)
    ensures w + map[reg := v] == w[reg := v]
  {
  }

  lemma MergeAssoc(a: Writes, b: Writes, c: Writes)
    ensures (a + b) + c == a + (b + c)
  {
  }

  lemma MergedEffect(st: Stages, w: Writes)
    ensures var w1 := w + st.body.balance.writes + (map[] + st.body.execute.writes + st.body.flush.writes);
      w1 + st.body.storageCheck.writes + st.fees.normal.writes == w + BodyEffect(st)
  {
    var bal, ex, fl := st.body.balance.writes, st.body.execute.writes, st.body.flush.writes;
    EmptyWrites(ex);
    MergeAssoc(w, bal, ex + fl);
    MergeAssoc(bal, ex, fl);
    MergeAssoc(w, bal + ex + fl, st.body.storageCheck.writes);
    MergeAssoc(w, bal + ex + fl + st.body.storageCheck.writes, st.fees.normal.writes);
  }

  /** The main transaction with the sequence number incremented. */
  function Incremented(st: Stages, main: Frame): Frame {
    main.(writes := main.writes[st.proposal.reg := NextSeq(st.proposal.seqNumber)])
  }

  /** The first error of the normal execution. */
  function NormalError(st: Stages): Err {
    if st.body.balance.err != Nil then st.body.balance.err
    else if st.body.execute.err != Nil then st.body.execute.err
    else if st.body.flush.err != Nil then st.body.flush.err
    else if st.body.storageCheck.err != Nil then st.body.storageCheck.err
    else st.fees.normal.err
  }

  /** What a successful body writes: its checks, its own changes, the flushed ones and the fees. */
  function BodyEffect(st: Stages): Writes {
    var b := st.body;
    b.balance.writes + b.execute.writes + b.flush.writes + b.storageCheck.writes + st.fees.normal.writes
  }

  /** What a failed body leaves: the fees, if they could be deducted. */
  function FeeEffect(st: Stages): Writes {
    if st.fees.again.err == Nil then st.fees.again.writes else map[]
  }

  /** The errors of preprocessing, in order. */
  function Earlier(st: Stages, on: Switches): seq<Err> {
    if on.body then [st.meter, st.preprocess.err] else []
  }

  /** The errors of the body, in order: the fees are deducted again only after an error. */
  function BodyErrors(st: Stages): seq<Err> {
    [if st.preprocess.err == Nil then NormalError(st) else Nil,
     if BodyFails(st) then st.fees.again.err else Nil,
     st.populate]
  }

  /** The errors of a whole run, in order: a check that fails is the last stage. */
  function Errors(st: Stages, on: Switches, current: nat): seq<Err> {
    Earlier(st, on) +
    if on.authorization && st.auth != Nil then [st.auth]
    else if on.sequenceNumber && SeqError(st.proposal, current) != Nil then [SeqError(st.proposal, current)]
    else if on.body then BodyErrors(st)
    else []
  }

  lemma EarlierReported(st: Stages, on: Switches)
    requires ValidStages(st)
    ensures Reported(Earlier(st, on)) ==
      if !on.body then Nil else if st.meter != Nil then st.meter else st.preprocess.err
  {
    ReportedOfMore([], st.meter);
    ReportedOfMore([st.meter], st.preprocess.err);
    assert [] + [st.meter] == [st.meter];
    assert [st.meter] + [st.preprocess.err] == [st.meter, st.preprocess.err];
  }

  /** What is reported of three more errors. */
  lemma ThreeMore(errs: seq<Err>, a: Err, b: Err, c: Err)
    ensures Reported(errs + [a]).Fatal? ==> Reported(errs + [a, b, c]) == Reported(errs + [a])
    ensures Reported(errs + [a] + [b]).Fatal? ==> Reported(errs + [a, b, c]) == Reported(errs + [a] + [b])
    ensures errs + [a, b, c] == errs + [a] + [b] + [c]
  {
    assert errs + [a, b, c] == errs + [a] + [b] + [c];
    ReportedOfMore(errs + [a], b);
    ReportedOfMore(errs + [a] + [b], c);
  }

  lemma BodyReported(st: Stages, on: Switches)
    requires ValidStages(st) && on.body && st.meter == Nil && !st.preprocess.err.Fatal?
    ensures Reported(Earlier(st, on) + BodyErrors(st)).Fatal? <==> BodyFatal(st) || st.populate.Fatal?
    ensures Reported(Earlier(st, on) + BodyErrors(st)) == Nil <==> !BodyFails(st) && st.populate == Nil
  {
    var errs, more := Earlier(st, on), BodyErrors(st);
    EarlierReported(st, on);
    ReportedOfMore(errs, more[0]);
    ReportedOfMore(errs + [more[0]], more[1]);
    ReportedOfMore(errs + [more[0]] + [more[1]], more[2]);
    ThreeMore(errs, more[0], more[1], more[2]);
  }

  lemma FirstDecides(st: Stages, on: Switches, current: nat)
    ensures Reported(Earlier(st, on)).Fatal? ==> Reported(Errors(st, on, current)) == Reported(Earlier(st, on))
  {
    var errs, all := Earlier(st, on), Errors(st, on, current);
    if Reported(errs).Fatal? {
      FailureDecides(errs, all[|errs|..]);
      assert all == errs + all[|errs|..];
    }
  }

  /** A run reports a failure exactly when it halts, and nothing exactly when it succeeds. */
  lemma ErrorsMean(st: Stages, on: Switches, current: nat)
    requires ValidStages(st)
    ensures Reported(Errors(st, on, current)).Fatal? <==> Halts(st, on, current)
    ensures !Halts(st, on, current) ==> (Reported(Errors(st, on, current)) == Nil <==> Succeeds(st, on, current))
  {
    var errs, seqErr := Earlier(st, on), SeqError(st.proposal, current);
    EarlierReported(st, on);
    if Reported(errs).Fatal? {
      FirstDecides(st, on, current);
    } else if on.authorization && st.auth != Nil {
      ReportedOfMore(errs, st.auth);
    } else if on.sequenceNumber && seqErr != Nil {
      ReportedOfMore(errs, seqErr);
    } else if on.body {
      BodyReported(st, on);
    } else {
      assert Errors(st, on, current) == errs;
    }
  }

  predicate BodyFails(st: Stages) {
    st.preprocess.err != Nil || NormalError(st) != Nil
  }

  predicate BodyFatal(st: Stages) {
    || (st.preprocess.err == Nil && NormalError(st).Fatal?)
    || (BodyFails(st) && st.fees.again.err.Fatal?)
  }

  function BodyWrites(st: Stages): Writes {
    if BodyFails(st) then FeeEffect(st) else st.preprocess.writes + BodyEffect(st)
  }

  /** Authorization or the sequence number turns the transaction down. */
  predicate Rejects(st: Stages, on: Switches, current: nat) {
    (on.authorization && st.auth != Nil) || (on.sequenceNumber && !SeqPasses(st.proposal, current))
  }

  /** The transaction runs to the end without an error. */
  predicate Succeeds(st: Stages, on: Switches, current: nat) {
    !Rejects(st, on, current) && (on.body ==> !BodyFails(st) && st.populate == Nil)
  }

  /** A stage of Execute that is reached fails fatally. */
  predicate ExecuteFatal(st: Stages, on: Switches, current: nat) {
    if on.authorization && st.auth != Nil then st.auth.Fatal?
    else if on.sequenceNumber && !SeqPasses(st.proposal, current) then SeqFatal(st.proposal, current)
    else on.body && (BodyFatal(st) || st.populate.Fatal?)
  }

  predicate Halts(st: Stages, on: Switches, current: nat) {
    (on.body && (st.meter.Fatal? || st.preprocess.err.Fatal?)) || ExecuteFatal(st, on, current)
  }

  /**
   What a run leaves in the main transaction: nothing when it is rejected; else the sequence number,
   with the fees at most when the body fails, and with all the body's writes and the fees when it does not.
   */
  ghost predicate Committed(st: Stages, on: Switches, main: Frame, current: nat, frames: seq<Frame>) {
    var b := st.body;
    var w := if on.sequenceNumber then main.writes[st.proposal.reg := NextSeq(current)] else main.writes;
    && |frames| == 1 && frames[0] == main.(writes := frames[0].writes)
    && frames[0].writes ==
       if Rejects(st, on, current) then main.writes
       else if !on.body then w
       else if BodyFails(st) then w + (if st.fees.again.err == Nil then st.fees.again.writes else map[])
       else w + (st.preprocess.writes + (b.balance.writes + b.execute.writes + b.flush.writes +
                                         b.storageCheck.writes + st.fees.normal.writes))
  }

  /** Nothing that the body of the transaction calls writes the register. */
  ghost predicate Untouched(st: Stages, reg: nat) {
    var b := st.body;
    && reg !in st.preprocess.writes && reg !in b.balance.writes && reg !in b.execute.writes
    && reg !in b.flush.writes && reg !in b.storageCheck.writes
    && reg !in st.fees.normal.writes && reg !in st.fees.again.writes
  }

  /**
   No replay: after a run that was not turned down, whether its body succeeded or not, the register
   holds the successor of the proposed number, and the same proposal fails the check.
   */
  lemma NoReplay(st: Stages, on: Switches, main: Frame, current: nat, frames: seq<Frame>)
    requires Committed(st, on, main, current, frames) && !Rejects(st, on, current) && on.sequenceNumber
    requires Untouched(st, st.proposal.reg) && current < SEQ_MODULUS
    ensures st.proposal.reg in frames[0].writes && frames[0].writes[st.proposal.reg] == NextSeq(current)
    ensures SeqError(st.proposal, frames[0].writes[st.proposal.reg]) == SEQ_NUMBER_ERROR
  {
    var w := main.writes[st.proposal.reg := NextSeq(current)];
    assert st.proposal.reg in w && w[st.proposal.reg] == NextSeq(current);
  }
}
