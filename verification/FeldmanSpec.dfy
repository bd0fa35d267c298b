// Feldman verifiable secret sharing with complaints, as a transition system:
// one participant's view of one dealer (crypto/dkg_feldmanvss.go and
// crypto/dkg_feldmanvssq.go). The class in FeldmanVSSQual.dfy implements it.
module FeldmanSpec {
  import opened Groups
  import opened Bytes
  import opened Polynomials

  const TAG_SHARE: byte := 0
  const TAG_VECTOR: byte := 1
  const TAG_COMPLAINT: byte := 2
  const TAG_ANSWER: byte := 3

  const MIN_SIZE := 2
  const MAX_SIZE := 254

  /** The instance parameters accepted by newDKGCommon. */
  datatype Config = Config(size: nat, threshold: nat, my: nat, dealer: nat)

  predicate ValidConfig(c: Config) {
    && MIN_SIZE <= c.size <= MAX_SIZE
    && 1 <= c.threshold < c.size
    && c.my < c.size && c.dealer < c.size
  }

  /** newDKGCommon: exactly the valid parameters are accepted. */
  function NewConfig(size: int, threshold: int, my: int, dealer: int): (r: Option<Config>)
    ensures r.Some? <==>
      exists c :: ValidConfig(c) && c.size == size && c.threshold == threshold && c.my == my && c.dealer == dealer
    ensures r.Some? ==> ValidConfig(r.value)
    ensures r.Some? ==>
      r.value.size == size && r.value.threshold == threshold && r.value.my == my && r.value.dealer == dealer
  {
    if size < MIN_SIZE || size > MAX_SIZE then None
    else if my >= size || dealer >= size || my < 0 || dealer < 0 then None
    else if threshold >= size || threshold < 1 then None
    else
      var c := Config(size, threshold, my, dealer);
      assert ValidConfig(c);
      Some(c)
  }

  datatype Complaint = Complaint(received: bool, answerReceived: bool, answer: nat)

  /** The calls made on the DKGProcessor. */
  datatype Output =
    | Broadcast(data: seq<byte>)
    | PrivateSend(dest: nat, data: seq<byte>)
    | Disqualify(participant: nat)
    | Flag(participant: nat)

  datatype Phase = Phase(running: bool, sharesTimeout: bool, complaintsTimeout: bool)

  /** Verification vector and public keys; a is the polynomial and stays empty unless this participant deals. */
  datatype Keys<!T> = Keys(a: seq<nat>, vA: seq<T>, y: seq<T>, received: bool)

  datatype Share = Share(x: nat, received: bool)

  datatype State<!T> = State(
    phase: Phase, keys: Keys<T>, share: Share,
    complaints: map<nat, Complaint>, disqualified: bool, out: seq<Output>)

  datatype Status = Ok | InvalidTransition | InvalidInput | DkgFailure

  /** What a participant receives, in order. */
  datatype Event =
    | Bcast(orig: int, msg: seq<byte>)
    | Private(orig: int, msg: seq<byte>)
    | Timeout
    | Force(participant: int)

  ghost predicate ValidPoly(a: seq<nat>, c: Config, r: nat) {
    && |a| == c.threshold + 1
    && (forall k :: 0 <= k < |a| ==> a[k] < r)
    && a[0] != 0 && a[c.threshold] != 0
  }

  /** Shape of every reachable state. */
  ghost predicate WF<T>(S: Suite<T>, c: Config, s: State<T>) {
    && ValidConfig(c)
    && (forall k :: k in s.complaints ==> k < c.size)
    && (s.keys.received && !s.disqualified ==>
          |s.keys.vA| == c.threshold + 1 && s.keys.y == PublicKeys(S.G, s.keys.vA, c.size))
    && (s.phase.sharesTimeout && !s.disqualified ==> s.keys.received)
    && (s.phase.running && c.my == c.dealer ==> ValidPoly(s.keys.a, c, S.r))
  }

  function Emit<T>(s: State<T>, o: Output): State<T> {
    s.(out := s.out + [o])
  }

  function DisqualifyDealer<T>(c: Config, s: State<T>): State<T> {
    Emit(s.(disqualified := true), Disqualify(c.dealer))
  }

  /** An unreadable broadcast is reported, and disqualifies its sender when that is the dealer. */
  function Blame<T>(c: Config, s: State<T>, orig: nat): State<T> {
    Emit(if orig == c.dealer then s.(disqualified := true) else s, Disqualify(orig))
  }

  function ComplaintMsg(dealer: nat): seq<byte>
    requires dealer < 256
  {
    [TAG_COMPLAINT, dealer]
  }

  function AnswerMsg(complainer: nat, share: nat): seq<byte>
    requires complainer < 256
  {
    [TAG_ANSWER, complainer] + ToBytes(share, SCALAR_LEN)
  }

  function ShareMsg(share: nat): seq<byte> {
    [TAG_SHARE] + ToBytes(share, SCALAR_LEN)
  }

  function EncodeVector<T>(S: Suite<T>, A: seq<T>): seq<byte> {
    if A == [] then [] else S.encodePoint(A[0]) + EncodeVector(S, A[1..])
  }

  function VectorMsg<T>(S: Suite<T>, A: seq<T>): seq<byte> {
    [TAG_VECTOR] + EncodeVector(S, A)
  }

  /** The n points serialized in data, when every chunk decodes. */
  function ReadVector<T>(S: Suite<T>, data: seq<byte>, n: nat): (A: Option<seq<T>>)
    requires |data| == POINT_LEN * n
    ensures A.Some? ==> |A.value| == n
  {
    if n == 0 then Some([])
    else
      match S.decodePoint(data[..POINT_LEN])
      case None => None
      case Some(P) =>
        match ReadVector(S, data[POINT_LEN..], n - 1)
        case None => None
        case Some(rest) => Some([P] + rest)
  }

  function PublicKeys<T>(G: Group<T>, A: seq<T>, n: nat): (y: seq<T>)
    ensures |y| == n
  {
    seq(n, (i: nat) => EvalPoint(G, A, i + 1))
  }

  lemma PublicKeysUnique<T>(G: Group<T>, A: seq<T>, y: seq<T>, n: nat)
    ensures y == PublicKeys(G, A, n) <==> ArePublicKeys(G, A, y, n)
  {
  }

  /** The share held verifies against the public key of this participant. */
  predicate ShareVerifies<T>(S: Suite<T>, c: Config, s: State<T>) {
    c.my < |s.keys.y| && VerifyShare(S, s.share.x, s.keys.y[c.my])
  }

  /** A complaint that has been answered with something else than the complainer's share. */
  predicate WrongAnswer<T>(S: Suite<T>, y: seq<T>, m: map<nat, Complaint>, k: nat) {
    && k in m && m[k].received && m[k].answerReceived
    && k < |y| && !VerifyShare(S, m[k].answer, y[k])
  }

  predicate AnyWrongAnswer<T>(S: Suite<T>, y: seq<T>, m: map<nat, Complaint>) {
    exists k :: k in m && WrongAnswer(S, y, m, k)
  }

  predicate Unanswered(m: map<nat, Complaint>, k: nat) {
    k in m && m[k].received && !m[k].answerReceived
  }

  predicate AnyUnanswered(m: map<nat, Complaint>) {
    exists k :: k in m && Unanswered(m, k)
  }

  /** buildAndBroadcastComplaint: replaces any earlier entry of this participant. */
  function Complain<T>(c: Config, s: State<T>): State<T>
    requires ValidConfig(c)
  {
    Emit(s.(complaints := s.complaints[c.my := Complaint(true, false, 0)]), Broadcast(ComplaintMsg(c.dealer)))
  }

  // ------------------------------------------------------------------ steps

  function OnVector<T>(S: Suite<T>, c: Config, s: State<T>, orig: nat, data: seq<byte>): State<T>
    requires ValidConfig(c)
  {
    if orig != c.dealer then s
    else if s.phase.sharesTimeout || s.keys.received then Emit(s, Flag(orig))
    else
      var s1 := s.(keys := s.keys.(received := true));
      if |data| != POINT_LEN * (c.threshold + 1) then DisqualifyDealer(c, s1)
      else
        match ReadVector(S, data, c.threshold + 1)
        case None => DisqualifyDealer(c, s1)
        case Some(A) => CheckVector(S, c, s1.(keys := s1.keys.(vA := A, y := PublicKeys(S.G, A, c.size))))
  }

  /** A new vector is checked against the answers and the share received before it. */
  function CheckVector<T>(S: Suite<T>, c: Config, s: State<T>): State<T>
    requires ValidConfig(c)
  {
    if AnyWrongAnswer(S, s.keys.y, s.complaints) then DisqualifyDealer(c, s)
    else if s.share.received && !ShareVerifies(S, c, s) then Complain(c, s)
    else s
  }

  function OnShare<T>(S: Suite<T>, c: Config, s: State<T>, orig: nat, msg: seq<byte>): State<T>
    requires ValidConfig(c)
  {
    if orig != c.dealer then s
    else if s.phase.sharesTimeout || s.share.received then Emit(s, Flag(orig))
    else
      var s1 := s.(share := s.share.(received := true));
      if |msg| != 1 + SCALAR_LEN || msg[0] != TAG_SHARE then Emit(Complain(c, s1), Flag(orig))
      else
        var s2 := s1.(share := s1.share.(x := FromBytes(msg[1..])));
        if s2.share.x >= S.r then Emit(Complain(c, s2), Flag(orig))
        else if s2.keys.received && !ShareVerifies(S, c, s2) then Complain(c, s2)
        else s2
  }

  /** The dealer's reply to a complaint, from its own polynomial. */
  function Answer<T>(S: Suite<T>, s: State<T>, k: nat): State<T>
    requires S.r > 0 && k < 256 && k in s.complaints
  {
    Emit(s.(complaints := s.complaints[k := s.complaints[k].(answerReceived := true)]),
         Broadcast(AnswerMsg(k, Eval(s.keys.a, k + 1) % S.r)))
  }

  function OnComplaint<T>(S: Suite<T>, c: Config, s: State<T>, orig: nat, data: seq<byte>): State<T>
    requires ValidConfig(c) && S.r > 0 && orig < c.size
  {
    if s.phase.complaintsTimeout then Emit(s, Flag(orig))
    else if |data| != 1 || data[0] >= c.size then
      if orig == c.dealer then DisqualifyDealer(c, s) else s
    else if orig == c.dealer || data[0] != c.dealer then s
    else if orig !in s.complaints then
      var s1 := s.(complaints := s.complaints[orig := Complaint(true, false, 0)]);
      if c.my == c.dealer then Answer(S, s1, orig) else s1
    else if s.complaints[orig].received then Emit(s, Flag(orig))
    else
      var s1 := s.(complaints := s.complaints[orig := s.complaints[orig].(received := true)]);
      var wrong := c.my != c.dealer && WrongAnswer(S, s1.keys.y, s1.complaints, orig);
      if s1.keys.received && wrong then DisqualifyDealer(c, s1) else s1
  }

  /** The answer to complainer k carries a scalar. */
  function ApplyAnswer<T>(S: Suite<T>, c: Config, s: State<T>, k: nat, answer: nat): State<T> {
    if k !in s.complaints then
      var s1 := s.(complaints := s.complaints[k := Complaint(false, true, answer)]);
      if answer >= S.r then DisqualifyDealer(c, s1) else s1
    else if s.complaints[k].answerReceived then Emit(s, Flag(c.dealer))
    else if !s.complaints[k].received then
      s.(complaints := s.complaints[k := s.complaints[k].(answerReceived := true)])
    else
      var s1 := s.(complaints := s.complaints[k := Complaint(true, true, answer)]);
      if answer >= S.r || (s1.keys.received && WrongAnswer(S, s1.keys.y, s1.complaints, k)) then DisqualifyDealer(c, s1)
      else if k == c.my then s1.(share := s1.share.(x := answer))
      else s1
  }

  function OnAnswer<T>(S: Suite<T>, c: Config, s: State<T>, orig: nat, data: seq<byte>): State<T>
    requires ValidConfig(c)
  {
    if orig != c.dealer then s
    else if |data| != 1 + SCALAR_LEN || data[0] >= c.size then DisqualifyDealer(c, s)
    else ApplyAnswer(S, c, s, data[0], FromBytes(data[1..]))
  }

  function OnBroadcast<T>(S: Suite<T>, c: Config, s: State<T>, orig: nat, msg: seq<byte>): State<T>
    requires ValidConfig(c) && S.r > 0 && orig < c.size
  {
    if msg == [] then Blame(c, s, orig)
    else if msg[0] == TAG_VECTOR then OnVector(S, c, s, orig, msg[1..])
    else if msg[0] == TAG_COMPLAINT then OnComplaint(S, c, s, orig, msg[1..])
    else if msg[0] == TAG_ANSWER then OnAnswer(S, c, s, orig, msg[1..])
    else Blame(c, s, orig)
  }

  function OnTimeout<T>(c: Config, s: State<T>): State<T>
    requires ValidConfig(c)
  {
    if !s.phase.sharesTimeout then
      var s1 := s.(phase := s.phase.(sharesTimeout := true));
      if s.disqualified then s1
      else if !s.keys.received then DisqualifyDealer(c, s1)
      else if !s.share.received then Complain(c, s1)
      else s1
    else
      var s1 := s.(phase := s.phase.(complaintsTimeout := true));
      if !s.disqualified && |s.complaints| > c.threshold then DisqualifyDealer(c, s1) else s1
  }

  /** The error a call returns without changing the state. */
  function StatusOf<T>(c: Config, s: State<T>, e: Event): Status {
    if !s.phase.running then InvalidTransition
    else match e
      case Timeout => if s.phase.complaintsTimeout then InvalidTransition else Ok
      case Force(p) => if 0 <= p < c.size then Ok else InvalidInput
      case Bcast(o, _) => if 0 <= o < c.size then Ok else InvalidInput
      case Private(o, _) => if 0 <= o < c.size then Ok else InvalidInput
  }

  /** One call of the participant's interface. */
  function Step<T>(S: Suite<T>, c: Config, s: State<T>, e: Event): State<T>
    requires ValidConfig(c) && S.r > 0
  {
    if StatusOf(c, s, e) != Ok then s
    else match e
      case Timeout => OnTimeout(c, s)
      case Force(p) => if p == c.dealer then s.(disqualified := true) else s
      case Bcast(o, msg) => if o == c.my || s.disqualified then s else OnBroadcast(S, c, s, o, msg)
      case Private(o, msg) => if o == c.my || s.disqualified then s else OnShare(S, c, s, o, msg)
  }

  function Init<T>(): State<T> {
    State(Phase(false, false, false), Keys([], [], [], false), Share(0, false), map[], false, [])
  }

  /** The share of every participant, by index. */
  function Shares(a: seq<nat>, n: nat, r: nat): (shares: seq<nat>)
    requires r > 0
    ensures |shares| == n
  {
    seq(n, (i: nat) => Eval(a, i + 1) % r)
  }

  /** The private sends of generateShares: one per other participant, in index order. */
  function ShareSends(shares: seq<nat>, my: nat): seq<Output> {
    if shares == [] then [] else
      var n := |shares| - 1;
      ShareSends(shares[..n], my) + (if n == my then [] else [PrivateSend(n, ShareMsg(shares[n]))])
  }

  lemma ShareSendsStep(shares: seq<nat>, i: nat, my: nat)
    requires i < |shares|
    ensures ShareSends(shares[..i + 1], my) ==
      ShareSends(shares[..i], my) + (if i == my then [] else [PrivateSend(i, ShareMsg(shares[i]))])
  {
    assert shares[..i + 1][..i] == shares[..i];
  }

  /** Start: the dealer commits to the polynomial a and distributes its shares. */
  function Started<T>(S: Suite<T>, c: Config, s: State<T>, a: seq<nat>): State<T>
    requires ValidConfig(c) && S.r > 0
  {
    var phase := s.phase.(running := true);
    if c.my != c.dealer then s.(phase := phase)
    else
      var A, shares := Commit(S, a), Shares(a, c.size, S.r);
      s.(phase := phase,
         keys := Keys(a, A, PublicKeys(S.G, A, c.size), true),
         share := Share(shares[c.my], true),
         out := s.out + ShareSends(shares, c.my) + [Broadcast(VectorMsg(S, A))])
  }

  /** The dealer verdict when the protocol ends: an unanswered complaint disqualifies. */
  predicate EndVerdict<T>(s: State<T>) {
    s.disqualified || AnyUnanswered(s.complaints)
  }

  /** End returns keys unless the dealer is disqualified or a key is the identity. */
  predicate EndSucceeds<T(==)>(S: Suite<T>, s: State<T>) {
    !EndVerdict(s) && s.share.x != 0 && s.keys.vA != [] && s.keys.vA[0] != S.G.zero
  }

  ghost function Run<T>(S: Suite<T>, c: Config, s: State<T>, es: seq<Event>): State<T>
    requires ValidConfig(c) && S.r > 0
  {
    if es == [] then s else Step(S, c, Run(S, c, s, es[..|es| - 1]), es[|es| - 1])
  }

  /** A participant that has just started; a is the dealer's polynomial and is unused elsewhere. */
  ghost function Fresh<T>(S: Suite<T>, c: Config, a: seq<nat>): State<T>
    requires ValidConfig(c) && S.r > 0
  {
    Started(S, c, Init(), a)
  }
}
