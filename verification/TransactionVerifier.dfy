// Transaction authorization (fvm/transactionVerifier.go): signature entries
// without duplicate keys, account keys, concurrent verification, key weights.
module TransactionVerifier {
  import opened Bytes
  import opened WorkerPool

  /** flow.EmptyAddress */
  const EMPTY_ADDRESS: nat := 0

  datatype TxSignature = TxSignature(address: nat, keyIndex: nat, bytes: seq<byte>)

  datatype Kind = Payload | Envelope

  datatype Entry = Entry(sig: TxSignature, kind: Kind)

  datatype AccountKey = AccountKey(weight: nat, revoked: bool)

  /** The account keys and the cryptographic check of an entry. */
  datatype Env = Env(key: (nat, nat) -> Option<AccountKey>, valid: Entry -> bool)

  datatype Transaction = Transaction(payer: nat, proposer: nat, proposerKey: nat, authorizers: seq<nat>,
                                     payload: seq<TxSignature>, envelope: seq<TxSignature>)

  datatype Error =
    | InvalidPayer | Duplicate(e: Entry) | BadKey(e: Entry) | NoProposal
    | BadSignature(e: Entry) | Underweight(address: nat) | Internal | Panicked

  function Tagged(sigs: seq<TxSignature>, kind: Kind): (es: seq<Entry>)
    ensures |es| == |sigs| && forall i :: 0 <= i < |sigs| ==> es[i] == Entry(sigs[i], kind)
  {
    seq(|sigs|, (i: nat) requires i < |sigs| => Entry(sigs[i], kind))
  }

  /** All entries, those of the payload first. */
  function AllEntries(tx: Transaction): seq<Entry> {
    Tagged(tx.payload, Payload) + Tagged(tx.envelope, Envelope)
  }

  /** An entry is a payload signature exactly when it stands among the first ones. */
  lemma PayloadFirst(tx: Transaction, i: nat)
    requires i < |AllEntries(tx)|
    ensures |AllEntries(tx)| == |tx.payload| + |tx.envelope|
    ensures AllEntries(tx)[i] ==
      if i < |tx.payload| then Entry(tx.payload[i], Payload) else Entry(tx.envelope[i - |tx.payload|], Envelope)
  {
  }

  predicate SameKey(e: Entry, e': Entry) {
    e.sig.address == e'.sig.address && e.sig.keyIndex == e'.sig.keyIndex
  }

  ghost predicate DistinctKeys(es: seq<Entry>) {
    forall i, j :: 0 <= i < j < |es| ==> !SameKey(es[i], es[j])
  }

  /** The keys of the entries so far are distinct, and `seen` holds them. */
  ghost predicate Collected(seen: set<(nat, nat)>, es: seq<Entry>) {
    && DistinctKeys(es)
    && forall a: nat, k: nat :: (a, k) in seen <==> HasKey(es, a, k)
  }

  ghost predicate HasKey(es: seq<Entry>, a: nat, k: nat) {
    exists j :: 0 <= j < |es| && es[j].sig.address == a && es[j].sig.keyIndex == k
  }

  /** es ends with the first entry whose key was seen before. */
  ghost predicate FirstDuplicate(es: seq<Entry>, e: Entry, all: seq<Entry>) {
    DistinctKeys(es) && HasKey(es, e.sig.address, e.sig.keyIndex) && es + [e] <= all
  }

  lemma FreshKey(seen: set<(nat, nat)>, es: seq<Entry>, e: Entry)
    requires Collected(seen, es) && (e.sig.address, e.sig.keyIndex) !in seen
    ensures Collected(seen + {(e.sig.address, e.sig.keyIndex)}, es + [e])
  {
    var t := es + [e];
    forall j | 0 <= j < |es|
      ensures !SameKey(t[j], e)
    {
      assert t[j] == es[j];
      if SameKey(es[j], e) {
        assert HasKey(es, e.sig.address, e.sig.keyIndex);
      }
    }
    forall a: nat, k: nat
      ensures (a, k) in seen + {(e.sig.address, e.sig.keyIndex)} <==> HasKey(t, a, k)
    {
      if HasKey(es, a, k) {
        var j :| 0 <= j < |es| && es[j].sig.address == a && es[j].sig.keyIndex == k;
        assert t[j] == es[j];
      }
      assert t[|es|] == e;
    }
  }

  lemma DuplicateRefutes(es: seq<Entry>, e: Entry, all: seq<Entry>)
    requires FirstDuplicate(es, e, all)
    ensures !DistinctKeys(all)
  {
    var j :| 0 <= j < |es| && es[j].sig.address == e.sig.address && es[j].sig.keyIndex == e.sig.keyIndex;
    assert all[j] == (es + [e])[j] && all[|es|] == (es + [e])[|es|];
    assert SameKey(all[j], all[|es|]);
  }

  /** One group of signatures. */
  method AddGroup(entries: seq<Entry>, seen: set<(nat, nat)>, sigs: seq<TxSignature>, kind: Kind)
      returns (entries': seq<Entry>, seen': set<(nat, nat)>, duplicate: Option<Entry>)
    requires Collected(seen, entries)
    ensures duplicate == None ==> entries' == entries + Tagged(sigs, kind) && Collected(seen', entries')
    ensures duplicate.Some? ==> FirstDuplicate(entries', duplicate.value, entries + Tagged(sigs, kind))
  {
    ghost var all := entries + Tagged(sigs, kind);
    entries', seen' := entries, seen;
    for i := 0 to |sigs|
      invariant entries' == all[..|entries| + i] && Collected(seen', entries')
    {
      var e := Entry(sigs[i], kind);
      assert entries' + [e] == all[..|entries| + i + 1];
      if (e.sig.address, e.sig.keyIndex) in seen' {
        return entries', seen', Some(e);
      }
      FreshKey(seen', entries', e);
      seen' := seen' + {(e.sig.address, e.sig.keyIndex)};
      entries' := entries' + [e];
    }
    duplicate := None;
  }

  /** newSignatureEntries: all entries, unless a key signs twice, in either group. */
  method NewSignatureEntries(tx: Transaction) returns (entries: seq<Entry>, duplicate: Option<Entry>)
    ensures duplicate == None <==> DistinctKeys(AllEntries(tx))
    ensures duplicate == None ==> entries == AllEntries(tx)
    ensures duplicate.Some? ==> FirstDuplicate(entries, duplicate.value, AllEntries(tx))
  {
    var seen: set<(nat, nat)>;
    entries, seen, duplicate := AddGroup([], {}, tx.payload, Payload);
    assert [] + Tagged(tx.payload, Payload) == Tagged(tx.payload, Payload);
    if duplicate == None {
      entries, seen, duplicate := AddGroup(entries, seen, tx.envelope, Envelope);
    } else {
      assert Tagged(tx.payload, Payload) <= AllEntries(tx);
    }
    if duplicate.Some? {
      DuplicateRefutes(entries, duplicate.value, AllEntries(tx));
    }
  }

  // -------------------------------------------------------------- Account keys

  /** The key of an entry exists and is not revoked. */
  predicate UsableKey(env: Env, e: Entry) {
    var k := env.key(e.sig.address, e.sig.keyIndex);
    k.Some? && !k.value.revoked
  }

  predicate Proposes(tx: Transaction, e: Entry) {
    e.sig.address == tx.proposer && e.sig.keyIndex == tx.proposerKey
  }

  ghost predicate FirstUnusable(env: Env, es: seq<Entry>, i: nat) {
    i < |es| && !UsableKey(env, es[i]) && forall j :: 0 <= j < i ==> UsableKey(env, es[j])
  }

  /** getAccountKeys */
  method GetAccountKeys(env: Env, tx: Transaction, entries: seq<Entry>) returns (error: Option<Error>)
    ensures error == None <==>
      (forall i :: 0 <= i < |entries| ==> UsableKey(env, entries[i])) &&
      (exists i :: 0 <= i < |entries| && Proposes(tx, entries[i]))
    ensures error == Some(NoProposal) ==>
      (forall i :: 0 <= i < |entries| ==> UsableKey(env, entries[i])) &&
      (forall i :: 0 <= i < |entries| ==> !Proposes(tx, entries[i]))
    ensures error.Some? && error.value != NoProposal ==>
      exists i: nat :: FirstUnusable(env, entries, i) && error.value == BadKey(entries[i])
  {
    var found := false;
    for i := 0 to |entries|
      invariant forall j :: 0 <= j < i ==> UsableKey(env, entries[j])
      invariant found <==> exists j :: 0 <= j < i && Proposes(tx, entries[j])
    {
      var key := env.key(entries[i].sig.address, entries[i].sig.keyIndex);
      if key == None || key.value.revoked {
        return Some(BadKey(entries[i]));
      }
      if !found && entries[i].sig.address == tx.proposer && entries[i].sig.keyIndex == tx.proposerKey {
        found := true;
      }
    }
    error := if found then None else Some(NoProposal);
  }

  // ------------------------------------------------------------------- Weights

  function WeightOf(env: Env, e: Entry): nat {
    var k := env.key(e.sig.address, e.sig.keyIndex);
    if k.Some? then k.value.weight else 0
  }

  /** What entry i adds to the weight of an address in a group. */
  function Contribution(env: Env, es: seq<Entry>, kind: Kind, address: nat): nat -> int {
    (i: nat) => if i < |es| && es[i].kind == kind && es[i].sig.address == address then WeightOf(env, es[i]) else 0
  }

  /** The weight of the distinct keys of an address that signed in a group. */
  ghost function SignedWeight(env: Env, es: seq<Entry>, kind: Kind, address: nat): int {
    TotalBelow(Contribution(env, es, kind, address), |es|)
  }

  function Oks(env: Env, es: seq<Entry>): (ok: seq<bool>)
    ensures |ok| == |es| && forall i :: 0 <= i < |es| ==> ok[i] == env.valid(es[i])
  {
    seq(|es|, (i: nat) requires i < |es| => env.valid(es[i]))
  }

  /** The pool for a transaction: never more workers than entries. */
  function PoolOf(env: Env, tx: Transaction, concurrency: int): Config {
    var n := |AllEntries(tx)|;
    Config(Oks(env, AllEntries(tx)), if n < concurrency then n else concurrency)
  }

  /** Some schedule of the pool ends with this result, having received the entries in this order. */
  ghost predicate PoolOutcome(c: Config, result: Result, order: seq<nat>) {
    exists ts :: Legal(c, Init(c), ts) && Run(c, Init(c), ts).main == Returned(result) &&
      order == Run(c, Init(c), ts).ch.pushed
  }

  lemma OutcomeIsExpected(c: Config, result: Result, order: seq<nat>)
    requires PoolOutcome(c, result, order)
    ensures result == if c.workers < 0 then Panic else Expected(c, 0)
    ensures result == Verified ==> forall f :: Total(f, order) == TotalBelow(f, N(c))
  {
    var ts :| Legal(c, Init(c), ts) && Run(c, Init(c), ts).main == Returned(result) &&
      order == Run(c, Init(c), ts).ch.pushed;
    ResultIsDeterministic(c, ts);
    if result == Verified {
      forall f: nat -> int
        ensures Total(f, order) == TotalBelow(f, N(c))
      {
        ReceivedWeights(c, ts, f);
      }
    }
  }

  /** The weight maps are filled in the order the entries are received. */
  method Aggregate(env: Env, es: seq<Entry>, order: seq<nat>, kind: Kind) returns (weights: map<nat, int>)
    requires forall i :: 0 <= i < |order| ==> order[i] < |es|
    ensures forall a :: Lookup(weights, a) == Total(Contribution(env, es, kind, a), order)
  {
    weights := map[];
    assert order[..0] == [];
    for i := 0 to |order|
      invariant forall a :: Lookup(weights, a) == Total(Contribution(env, es, kind, a), order[..i])
    {
      assert order[..i + 1][..i] == order[..i];
      var e := es[order[i]];
      if e.kind == kind {
        var key := env.key(e.sig.address, e.sig.keyIndex);
        var weight := if key.Some? then key.value.weight else 0;
        weights := weights[e.sig.address := Lookup(weights, e.sig.address) + weight];
      }
    }
    assert order[..|order|] == order;
  }

  function Lookup(weights: map<nat, int>, a: nat): int {
    if a in weights then weights[a] else 0
  }

  // ------------------------------------------------------------- Authorization

  /** Authorizer i is not the payer and its keys in the payload weigh too little. */
  ghost predicate Light(env: Env, tx: Transaction, threshold: int, i: int) {
    && 0 <= i < |tx.authorizers| && tx.authorizers[i] != tx.payer
    && SignedWeight(env, AllEntries(tx), Payload, tx.authorizers[i]) < threshold
  }

  /** What authorizes a transaction, independently of any schedule. */
  ghost predicate Authorized(env: Env, tx: Transaction, threshold: int) {
    var es := AllEntries(tx);
    && tx.payer != EMPTY_ADDRESS
    && DistinctKeys(es)
    && (threshold >= 0 ==>
          && (forall i :: 0 <= i < |es| ==> UsableKey(env, es[i]))
          && (exists i :: 0 <= i < |es| && Proposes(tx, es[i]))
          && (forall i :: 0 <= i < |es| ==> env.valid(es[i]))
          && (forall i :: 0 <= i < |tx.authorizers| ==> !Light(env, tx, threshold, i))
          && SignedWeight(env, es, Envelope, tx.payer) >= threshold)
  }

  /** The signatures are verified: nothing before has decided. */
  ghost predicate StartsPool(env: Env, tx: Transaction, threshold: int) {
    var es := AllEntries(tx);
    && tx.payer != EMPTY_ADDRESS && DistinctKeys(es) && threshold >= 0
    && (forall i :: 0 <= i < |es| ==> UsableKey(env, es[i]))
    && (exists i :: 0 <= i < |es| && Proposes(tx, es[i]))
  }

  /** Among the authorizers besides the payer the first one that is light, and the payer when none is. */
  ghost predicate FirstLight(env: Env, tx: Transaction, threshold: int, address: nat) {
    if exists i :: Light(env, tx, threshold, i)
    then exists i ::
      && Light(env, tx, threshold, i) && address == tx.authorizers[i]
      && (forall j :: 0 <= j < i ==> !Light(env, tx, threshold, j))
    else address == tx.payer && SignedWeight(env, AllEntries(tx), Envelope, tx.payer) < threshold
  }

  ghost predicate FirstInvalid(env: Env, es: seq<Entry>, i: nat) {
    i < |es| && !env.valid(es[i]) && forall j :: 0 <= j < i ==> env.valid(es[j])
  }

  /** When a transaction is refused with each error: the earliest check that fails, at its first entry. */
  ghost predicate Refused(env: Env, tx: Transaction, threshold: int, concurrency: int, error: Error) {
    var es := AllEntries(tx);
    match error
    case InvalidPayer => tx.payer == EMPTY_ADDRESS
    case Duplicate(e) => tx.payer != EMPTY_ADDRESS && exists before :: FirstDuplicate(before, e, es)
    case BadKey(e) =>
      && tx.payer != EMPTY_ADDRESS && DistinctKeys(es) && threshold >= 0
      && exists i: nat :: FirstUnusable(env, es, i) && e == es[i]
    case NoProposal =>
      && tx.payer != EMPTY_ADDRESS && DistinctKeys(es) && threshold >= 0
      && (forall i :: 0 <= i < |es| ==> UsableKey(env, es[i]))
      && forall i :: 0 <= i < |es| ==> !Proposes(tx, es[i])
    case Panicked => StartsPool(env, tx, threshold) && concurrency < 0
    case BadSignature(e) =>
      StartsPool(env, tx, threshold) && concurrency >= 0 && exists i: nat :: FirstInvalid(env, es, i) && e == es[i]
    case Underweight(address) =>
      && StartsPool(env, tx, threshold) && concurrency >= 0
      && (forall i :: 0 <= i < |es| ==> env.valid(es[i]))
      && FirstLight(env, tx, threshold, address)
    case Internal => false
  }

  lemma DuplicateUnique(es: seq<Entry>, e: Entry, es': seq<Entry>, e': Entry, all: seq<Entry>)
    requires FirstDuplicate(es, e, all) && FirstDuplicate(es', e', all) && |es| <= |es'|
    ensures e == e'
  {
    assert (es + [e])[|es|] == all[|es|] && (es' + [e'])[|es'|] == all[|es'|];
    if |es| < |es'| {
      assert es + [e] == all[..|es| + 1] == es'[..|es| + 1] by {
        assert es' == (es' + [e'])[..|es'|] == all[..|es'|];
      }
      DuplicateRefutes(es, e, es');
    }
  }

  /** At most one error refuses a transaction. */
  lemma RefusedOnce(env: Env, tx: Transaction, threshold: int, concurrency: int, error: Error, error': Error)
    requires Refused(env, tx, threshold, concurrency, error) && Refused(env, tx, threshold, concurrency, error')
    ensures error == error'
  {
    var all := AllEntries(tx);
    forall es, e | FirstDuplicate(es, e, all)
      ensures !DistinctKeys(all)
    {
      DuplicateRefutes(es, e, all);
    }
    if error.Duplicate? && error'.Duplicate? {
      var es :| FirstDuplicate(es, error.e, all);
      var es' :| FirstDuplicate(es', error'.e, all);
      if |es| <= |es'| {
        DuplicateUnique(es, error.e, es', error'.e, all);
      } else {
        DuplicateUnique(es', error'.e, es, error.e, all);
      }
    }
  }

  lemma RefusedUnauthorized(env: Env, tx: Transaction, threshold: int, concurrency: int, error: Error)
    requires Refused(env, tx, threshold, concurrency, error)
    ensures error == Panicked || !Authorized(env, tx, threshold)
  {
    if error.Duplicate? {
      var before :| FirstDuplicate(before, error.e, AllEntries(tx));
      DuplicateRefutes(before, error.e, AllEntries(tx));
    }
  }

  lemma OrderInRange(c: Config, order: seq<nat>)
    requires PoolOutcome(c, Verified, order)
    ensures forall i :: 0 <= i < |order| ==> order[i] < N(c)
  {
    var ts :| Legal(c, Init(c), ts) && Run(c, Init(c), ts).main == Returned(Verified) &&
      order == Run(c, Init(c), ts).ch.pushed;
    ResultIsDeterministic(c, ts);
    InitInv(c);
    RunInv(c, Init(c), ts);
    forall i | 0 <= i < |order|
      ensures order[i] < N(c)
    {
      assert order[i] in order;
    }
  }

  /** The weight checks at the end of verifyTransaction. */
  method CheckWeights(env: Env, tx: Transaction, threshold: int, order: seq<nat>) returns (error: Option<Error>)
    requires forall i :: 0 <= i < |order| ==> order[i] < |AllEntries(tx)|
    requires forall f :: Total(f, order) == TotalBelow(f, |AllEntries(tx)|)
    ensures error == None <==>
      (forall i :: 0 <= i < |tx.authorizers| ==> !Light(env, tx, threshold, i))
      && SignedWeight(env, AllEntries(tx), Envelope, tx.payer) >= threshold
    ensures error.Some? ==> error.value.Underweight? && FirstLight(env, tx, threshold, error.value.address)
  {
    var payloadWeights := Aggregate(env, AllEntries(tx), order, Payload);
    var envelopeWeights := Aggregate(env, AllEntries(tx), order, Envelope);
    for i := 0 to |tx.authorizers|
      invariant forall j :: 0 <= j < i ==> !Light(env, tx, threshold, j)
    {
      if tx.authorizers[i] != tx.payer && Lookup(payloadWeights, tx.authorizers[i]) < threshold {
        assert Light(env, tx, threshold, i);
        return Some(Underweight(tx.authorizers[i]));
      }
    }
    error := if Lookup(envelopeWeights, tx.payer) >= threshold then None else Some(Underweight(tx.payer));
  }

  /** The rest of verifyTransaction once the pool is started: the signatures, then the weights. */
  method VerifySignatures(
      env: Env, tx: Transaction, threshold: int, ghost concurrency: int, result: Result, order: seq<nat>)
      returns (error: Option<Error>)
    requires StartsPool(env, tx, threshold) && PoolOutcome(PoolOf(env, tx, concurrency), result, order)
    ensures error.Some? ==> Refused(env, tx, threshold, concurrency, error.value)
    ensures error == None ==> Authorized(env, tx, threshold) && concurrency >= 0
  {
    ghost var c := PoolOf(env, tx, concurrency);
    OutcomeIsExpected(c, result, order);
    ExpectedKinds(c, 0);
    match result
    case Failure(i) => return Some(BadSignature(AllEntries(tx)[i]));
    case NotCalled => return Some(Internal);
    case Panic => return Some(Panicked);
    case Verified =>
      OrderInRange(c, order);
      error := CheckWeights(env, tx, threshold, order);
  }

  /** verifyTransaction, given how the pool for its entries ended under some schedule, if it is started. */
  method VerifyTransaction(
      env: Env, tx: Transaction, threshold: int, ghost concurrency: int, result: Result, order: seq<nat>)
      returns (error: Option<Error>)
    requires StartsPool(env, tx, threshold) ==> PoolOutcome(PoolOf(env, tx, concurrency), result, order)
    ensures error != Some(Panicked) ==> (error == None <==> Authorized(env, tx, threshold))
    ensures forall e :: error == Some(e) <==> Refused(env, tx, threshold, concurrency, e)
  {
    if tx.payer == EMPTY_ADDRESS {
      error := Some(InvalidPayer);
    } else {
      var entries, duplicate := NewSignatureEntries(tx);
      if duplicate.Some? {
        error := Some(Duplicate(duplicate.value));
      } else if threshold < 0 {
        error := None;
      } else {
        error := GetAccountKeys(env, tx, entries);
        if error == None {
          error := VerifySignatures(env, tx, threshold, concurrency, result, order);
        }
      }
    }
    forall e | Refused(env, tx, threshold, concurrency, e)
      ensures error == Some(e)
    {
      if error.Some? {
        RefusedOnce(env, tx, threshold, concurrency, error.value, e);
      } else {
        RefusedUnauthorized(env, tx, threshold, concurrency, e);
      }
    }
    if error.Some? {
      RefusedUnauthorized(env, tx, threshold, concurrency, error.value);
    }
  }
}
